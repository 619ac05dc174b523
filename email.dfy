/** The post-processing of `extract_email`: the reply of the language model is
    lower-cased and stripped of whitespace, quotes and trailing punctuation,
    then accepted only if it has the structure `local@domain` with a dot in
    the domain. */
module Email {
  import opened Text

  predicate IsDoubleQuote(c: char) { c == '"' }

  predicate IsSingleQuote(c: char) { c == '\'' }

  /** The characters of `rstrip('.,;:!?')`. */
  predicate IsTrailingPunctuation(c: char)
  {
    c == '.' || c == ',' || c == ';' || c == ':' || c == '!' || c == '?'
  }

  /** `e` is `local@domain`: exactly one '@', at index `i`, with a non-empty
      local part before it and a dot somewhere in the domain after it. */
  predicate IsEmailAt(e: string, i: nat)
  {
    0 < i < |e| && e[i] == '@' && '@' !in e[..i] && '@' !in e[i + 1..] && '.' in e[i + 1..]
  }

  /** The shape the three validations of `extract_email` accept. */
  predicate IsValidEmail(e: string)
  {
    exists i: nat :: i < |e| && IsEmailAt(e, i)
  }

  /** The three validations as the code performs them, in order: an '@' and
      a dot in the piece after the first '@'; exactly two non-empty pieces
      around '@'; a dot in the domain. */
  predicate PassesEmailChecks(e: string)
  {
    '@' in e &&
    (SplitHasTwo(e, '@');
     var pieces := Split(e, '@');
     '.' in pieces[1]
     && |pieces| == 2 && pieces[0] != [] && pieces[1] != []
     && '.' in pieces[1])
  }

  /** The validations accept exactly the strings of the shape `local@domain`. */
  lemma EmailChecksIff(e: string)
    ensures PassesEmailChecks(e) <==> IsValidEmail(e)
  {
    if PassesEmailChecks(e) {
      var pieces := Split(e, '@');
      SplitTwo(e, '@');
      var i := |pieces[0]|;
      assert IsEmailAt(e, i);
    }
    if IsValidEmail(e) {
      var i: nat :| i < |e| && IsEmailAt(e, i);
      SplitOnce(e, i, '@');
      assert '@' in e by { assert e[i] == '@'; }
    }
  }

  predicate IsQuote(c: char) { IsDoubleQuote(c) || IsSingleQuote(c) }

  /** What the clean-up may cut from the front of an address. */
  predicate IsLeadingJunk(c: char) { IsSpace(c) || IsQuote(c) }

  /** What the clean-up may cut from the back of an address. */
  predicate IsTrailingJunk(c: char) { IsSpace(c) || IsQuote(c) || IsTrailingPunctuation(c) }

  /** `.strip('"').strip("'")`: only quotes are cut, from either end. */
  function Unquote(s: string): (r: string)
    ensures |r| <= |s|
    ensures exists a :: CutsTo(s, r, a, IsQuote, IsQuote)
    ensures NoUpper(s) ==> NoUpper(r)
    ensures r == [] || !IsSingleQuote(r[0])
  {
    var t := Trim(s, IsDoubleQuote);
    var r := Trim(t, IsSingleQuote);
    var a :| CutsTo(s, t, a, IsDoubleQuote, IsDoubleQuote);
    var b :| CutsTo(t, r, b, IsSingleQuote, IsSingleQuote);
    CutsCompose(s, t, r, a, b, IsDoubleQuote, IsDoubleQuote, IsSingleQuote, IsSingleQuote, IsQuote, IsQuote);
    r
  }

  /** `email.lower().strip().strip('"').strip("'").rstrip('.,;:!?')`: the
      lower-cased reply with whitespace and quotes cut from its front and
      whitespace, quotes and punctuation cut from its back. */
  function CleanEmail(s: string): (r: string)
    ensures |r| <= |s| && NoUpper(r)
    ensures exists a :: CutsTo(LowerStr(s), r, a, IsLeadingJunk, IsTrailingJunk)
    ensures r == [] || !IsTrailingPunctuation(r[|r| - 1])
    ensures r == [] || !IsSingleQuote(r[0])
  {
    CleanEmailCuts(s);
    TrimRight(Unquote(Strip(LowerStr(s))), IsTrailingPunctuation)
  }

  lemma CleanEmailCuts(s: string)
    ensures exists a :: CutsTo(LowerStr(s), TrimRight(Unquote(Strip(LowerStr(s))), IsTrailingPunctuation), a,
                               IsLeadingJunk, IsTrailingJunk)
  {
    var lower := LowerStr(s);
    var stripped := Strip(lower);
    var unquoted := Unquote(stripped);
    var r := TrimRight(unquoted, IsTrailingPunctuation);
    var a :| CutsTo(lower, stripped, a, IsSpace, IsSpace);
    var b :| CutsTo(stripped, unquoted, b, IsQuote, IsQuote);
    CleanCuts(lower, stripped, unquoted, r, a, b);
  }

  /** The three cuts of the clean-up, taken together. */
  lemma CleanCuts(lower: string, stripped: string, unquoted: string, r: string, a: int, b: int)
    requires CutsTo(lower, stripped, a, IsSpace, IsSpace)
    requires CutsTo(stripped, unquoted, b, IsQuote, IsQuote)
    requires |r| <= |unquoted| && r == unquoted[..|r|]
    requires forall i :: |r| <= i < |unquoted| ==> IsTrailingPunctuation(unquoted[i])
    ensures CutsTo(lower, r, a + b, IsLeadingJunk, IsTrailingJunk)
  {
    assert r == lower[a + b..a + b + |r|] by {
      forall k | 0 <= k < |r| ensures r[k] == lower[a + b + k] {
        assert r[k] == unquoted[k] == stripped[b + k] == lower[a + b + k];
      }
    }
    forall i | 0 <= i < a + b ensures IsLeadingJunk(lower[i]) {
      if i >= a { assert lower[i] == stripped[i - a]; }
    }
    forall i | a + b + |r| <= i < |lower| ensures IsTrailingJunk(lower[i]) {
      if a + b + |r| <= i < a + b + |unquoted| {
        assert lower[i] == stripped[i - a] == unquoted[i - a - b];
      } else if i < a + |stripped| {
        assert lower[i] == stripped[i - a];
      }
    }
  }

  /** `extract_email` after the call to the language model: `reply` is its
      raw reply, `None` when the call raised. "NOT_FOUND", a blank reply and
      a cleaned string that fails the validations give `None`. */
  function ExtractEmail(reply: Option<string>): (r: Option<string>)
    ensures r.Some? ==> IsValidEmail(r.value) && NoUpper(r.value)
    ensures r.Some? <==>
      && reply.Some?
      && Strip(reply.value) != "NOT_FOUND" && Strip(reply.value) != ""
      && IsValidEmail(CleanEmail(Strip(reply.value)))
    ensures r.Some? ==> r.value == CleanEmail(Strip(reply.value))
  {
    match reply
    case None => None
    case Some(text) =>
      var email := Strip(text);
      if email == "NOT_FOUND" || email == "" then None
      else
        var cleaned := CleanEmail(email);
        EmailChecksIff(cleaned);
        if PassesEmailChecks(cleaned) then Some(cleaned) else None
  }

  /** Cleaning leaves an address with nothing to remove unchanged. */
  lemma CleanEmailOfClean(e: string)
    requires e != [] && NoUpper(e)
    requires !IsSpace(e[0]) && !IsDoubleQuote(e[0]) && !IsSingleQuote(e[0])
    requires var last := e[|e| - 1];
      !IsSpace(last) && !IsDoubleQuote(last) && !IsSingleQuote(last) && !IsTrailingPunctuation(last)
    ensures CleanEmail(e) == e
  {
    LowerOfLower(e);
    StripOfStripped(e);
    assert Strip(LowerStr(e)) == e;
    TrimOfTrimmed(e, IsDoubleQuote);
    assert Trim(e, IsDoubleQuote) == e;
    TrimOfTrimmed(e, IsSingleQuote);
    assert Trim(e, IsSingleQuote) == e;
    TrimRightOfTrimmed(e, IsTrailingPunctuation);
  }

  /** An address that is already clean (lower case, nothing to strip at
      either end) and well formed comes back unchanged. */
  lemma ExtractEmailKeepsClean(e: string)
    requires IsValidEmail(e) && NoUpper(e)
    requires !IsSpace(e[0]) && !IsDoubleQuote(e[0]) && !IsSingleQuote(e[0])
    requires var last := e[|e| - 1];
      !IsSpace(last) && !IsDoubleQuote(last) && !IsSingleQuote(last) && !IsTrailingPunctuation(last)
    ensures ExtractEmail(Some(e)) == Some(e)
  {
    StripOfStripped(e);
    CleanEmailOfClean(e);
    NotFoundIsNoAddress();
  }

  /** "NOT_FOUND" holds no '@', so it is never taken for an address. */
  lemma NotFoundIsNoAddress()
    ensures !IsValidEmail("NOT_FOUND")
  {
    var e := "NOT_FOUND";
    forall i: nat | i < |e| ensures !IsEmailAt(e, i) {
      assert e[i] != '@';
    }
  }

  /** Double quotes around an address are removed. */
  lemma CleanEmailUnquotes(e: string)
    requires e != [] && NoUpper(e)
    requires !IsDoubleQuote(e[0]) && !IsSingleQuote(e[0])
    requires var last := e[|e| - 1];
      !IsDoubleQuote(last) && !IsSingleQuote(last) && !IsTrailingPunctuation(last)
    ensures CleanEmail("\"" + e + "\"") == e
  {
    var q := "\"" + e + "\"";
    assert q == ['"'] + e + ['"'];
    assert NoUpper(q) by {
      assert forall i :: 1 <= i < |q| - 1 ==> q[i] == e[i - 1];
    }
    LowerOfLower(q);
    StripOfStripped(q);
    TrimEnclosed('"', e, IsDoubleQuote);
    TrimOfTrimmed(e, IsSingleQuote);
    TrimRightOfTrimmed(e, IsTrailingPunctuation);
  }

  /** A stripped reply other than "NOT_FOUND" whose cleaned form is well
      formed is accepted as that cleaned form. */
  lemma ExtractEmailAccepts(text: string, cleaned: string)
    requires Strip(text) == text && text != "NOT_FOUND" && text != ""
    requires CleanEmail(text) == cleaned && IsValidEmail(cleaned)
    ensures ExtractEmail(Some(text)) == Some(cleaned)
  {
  }

  lemma QuotedIsStripped(q: string)
    requires q != [] && q[0] == '"' && q[|q| - 1] == '"'
    ensures Strip(q) == q && q != "NOT_FOUND"
  {
    StripOfStripped(q);
    assert q != "NOT_FOUND" by { assert "NOT_FOUND"[0] == 'N'; }
  }

  /** A quoted, otherwise clean address is accepted without its quotes. */
  lemma ExtractEmailUnquotes(e: string)
    requires IsValidEmail(e) && NoUpper(e)
    requires !IsDoubleQuote(e[0]) && !IsSingleQuote(e[0])
    requires var last := e[|e| - 1];
      !IsDoubleQuote(last) && !IsSingleQuote(last) && !IsTrailingPunctuation(last)
    ensures ExtractEmail(Some("\"" + e + "\"")) == Some(e)
  {
    var q := "\"" + e + "\"";
    assert q[0] == '"' && q[|q| - 1] == '"';
    QuotedIsStripped(q);
    CleanEmailUnquotes(e);
    ExtractEmailAccepts("\"" + e + "\"", e);
  }

  /** The literal reply "NOT_FOUND" gives no address. */
  lemma ExtractEmailNotFound()
    ensures ExtractEmail(Some("NOT_FOUND")) == None
  {
    StripOfStripped("NOT_FOUND");
  }

  /** A string with two '@' is not an address. */
  lemma TwoAtsInvalid(e: string, i: nat, j: nat)
    requires i < j < |e| && e[i] == '@' && e[j] == '@'
    ensures !IsValidEmail(e)
  {
  }
}
