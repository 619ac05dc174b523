/** The post-processing of `detect_languages`: the language names in the
    reply of the language model are lower-cased and stripped, blank ones are
    dropped, duplicates removed and the rest sorted; English is the default
    whenever nothing usable remains or the reply cannot be processed. */
module Languages {
  import opened Text
  import opened JsonValue

  // ---------------------------------------------------------------------
  // Python's ordering of strings: by code point, a prefix first

  predicate Less(a: string, b: string)
    decreases |a|
  {
    if a == [] then b != []
    else if b == [] then false
    else if a[0] != b[0] then a[0] < b[0]
    else Less(a[1..], b[1..])
  }

  lemma {:induction false} LessIrreflexive(a: string)
    ensures !Less(a, a)
    decreases |a|
  {
    if a != [] {
      LessIrreflexive(a[1..]);
    }
  }

  lemma {:induction false} LessTransitive(a: string, b: string, c: string)
    requires Less(a, b) && Less(b, c)
    ensures Less(a, c)
    decreases |a|
  {
    if a != [] && b != [] && c != [] && a[0] == b[0] && b[0] == c[0] {
      LessTransitive(a[1..], b[1..], c[1..]);
    }
  }

  lemma {:induction false} LessTotal(a: string, b: string)
    requires a != b
    ensures Less(a, b) || Less(b, a)
    decreases |a|
  {
    if a != [] && b != [] && a[0] == b[0] {
      assert a == [a[0]] + a[1..] && b == [b[0]] + b[1..];
      LessTotal(a[1..], b[1..]);
    }
  }

  /** A proper prefix sorts first. */
  lemma {:induction false} LessPrefix(a: string, b: string)
    requires |a| < |b| && a == b[..|a|]
    ensures Less(a, b)
    decreases |a|
  {
    if a != [] {
      assert a[1..] == b[1..][..|a| - 1];
      LessPrefix(a[1..], b[1..]);
    }
  }

  /** Otherwise the first position where the two strings differ decides. */
  lemma {:induction false} LessFirstDifference(a: string, b: string, i: nat)
    requires i < |a| && i < |b| && a[..i] == b[..i] && a[i] != b[i]
    ensures Less(a, b) <==> a[i] < b[i]
    decreases i
  {
    if i > 0 {
      assert a[0] == b[0] by { assert a[..i][0] == b[..i][0]; }
      assert a[1..][..i - 1] == b[1..][..i - 1];
      LessFirstDifference(a[1..], b[1..], i - 1);
    }
  }

  /** Each element is smaller than every later one: sorted, no duplicates. */
  predicate StrictlySorted(s: seq<string>)
  {
    forall i, j :: 0 <= i < j < |s| ==> Less(s[i], s[j])
  }

  /** Inserting into a strictly sorted sequence; an element already present
      is not added again. */
  function Insert(x: string, s: seq<string>): (r: seq<string>)
    requires StrictlySorted(s)
    ensures StrictlySorted(r)
    ensures forall y :: y in r <==> y == x || y in s
  {
    if s == [] then [x]
    else if x == s[0] then s
    else if Less(x, s[0]) then
      forall j | 0 < j < |s| ensures Less(x, s[j]) {
        LessTransitive(x, s[0], s[j]);
      }
      [x] + s
    else
      LessTotal(x, s[0]);
      var t := Insert(x, s[1..]);
      assert forall y :: y in t ==> Less(s[0], y);
      [s[0]] + t
  }

  /** `sorted(set(xs))` */
  function SortedSet(xs: seq<string>): (r: seq<string>)
    ensures StrictlySorted(r)
    ensures forall y :: y in r <==> y in xs
    decreases |xs|
  {
    if xs == [] then []
    else Insert(xs[|xs| - 1], SortedSet(xs[..|xs| - 1]))
  }

  /** There is only one strictly sorted sequence of a given set of strings,
      so `SortedSet` is the sorted, duplicate-free list of its input. */
  lemma {:induction false} StrictlySortedUnique(a: seq<string>, b: seq<string>)
    requires StrictlySorted(a) && StrictlySorted(b)
    requires forall y :: y in a <==> y in b
    ensures a == b
    decreases |a|
  {
    assert b == [] || b[0] in b;
    if a != [] {
      assert a[0] in b;
      assert b != [];
      if a[0] != b[0] {
        assert b[0] in a;
        var i :| 0 <= i < |a| && a[i] == b[0];
        var j :| 0 <= j < |b| && b[j] == a[0];
        assert Less(a[0], b[0]);
        assert Less(b[0], a[0]);
        LessTransitive(a[0], b[0], a[0]);
        LessIrreflexive(a[0]);
      }
      forall y ensures y in a[1..] <==> y in b[1..] {
        if y in a[1..] {
          var i :| 1 <= i < |a| && a[i] == y;
          assert Less(a[0], y);
          LessIrreflexive(y);
          assert y in a && y in b;
          var k :| 0 <= k < |b| && b[k] == y;
          assert b[1..][k - 1] == y;
        }
        if y in b[1..] {
          var j :| 1 <= j < |b| && b[j] == y;
          assert Less(b[0], y);
          LessIrreflexive(y);
          assert y in b && y in a;
          var k :| 0 <= k < |a| && a[k] == y;
          assert a[1..][k - 1] == y;
        }
      }
      StrictlySortedUnique(a[1..], b[1..]);
      assert a == [a[0]] + a[1..] && b == [b[0]] + b[1..];
    }
  }

  // ---------------------------------------------------------------------
  // The clean-up of the reply

  /** A language name as the clean-up leaves it: not blank, stripped, lower
      case. */
  predicate IsCleanName(x: string)
  {
    x != [] && IsStripped(x) && NoUpper(x)
  }

  /** `lang.lower().strip()` of an item whose strip is not blank: the
      lower-cased item with its surrounding whitespace cut off, which is
      also the stripped item lower-cased. */
  function CleanName(s: string): (r: string)
    requires Strip(s) != []
    ensures IsCleanName(r)
    ensures exists a :: CutsTo(LowerStr(s), r, a, IsSpace, IsSpace)
    ensures r == LowerStr(Strip(s))
  {
    LowerStripCommute(s);
    Strip(LowerStr(s))
  }

  /** `lang.strip()` raises on a truthy item that is not a string (a falsy
      one is skipped before it is reached). */
  predicate Raises(item: Json)
  {
    Truthy(item) && !item.JStr?
  }

  /** `[lang.lower().strip() for lang in items if lang and lang.strip()]`;
      `None` when an item is truthy but not a string, whose `strip` raises. */
  function CleanLanguages(items: seq<Json>): (r: Option<seq<string>>)
    ensures r.None? <==> exists item :: item in items && Raises(item)
    ensures r.Some? ==> forall x :: x in r.value ==> IsCleanName(x)
    decreases |items|
  {
    if items == [] then Some([])
    else
      var rest := CleanLanguages(items[1..]);
      var item := items[0];
      assert forall y :: y in items <==> y == item || y in items[1..];
      if !Truthy(item) then rest
      else if !item.JStr? then assert Raises(item); None
      else if rest.None? then None
      else if Strip(item.s) == [] then rest
      else
        Some([CleanName(item.s)] + rest.value)
  }

  /** `item` is a string that is not blank and `x` is its cleaned form. */
  predicate Keeps(item: Json, x: string)
  {
    item.JStr? && Strip(item.s) != [] && x == CleanName(item.s)
  }

  /** The names kept are exactly the cleaned non-blank string items. */
  lemma {:induction false} CleanLanguagesContents(items: seq<Json>, x: string)
    requires CleanLanguages(items).Some?
    ensures x in CleanLanguages(items).value <==> exists item :: item in items && Keeps(item, x)
    decreases |items|
  {
    if items != [] {
      var item := items[0];
      var rest := CleanLanguages(items[1..]);
      assert rest.Some?;
      CleanLanguagesContents(items[1..], x);
      assert forall y :: y in items <==> y == item || y in items[1..];
      if Keeps(item, x) {
        assert CleanLanguages(items).value == [x] + rest.value;
      } else if item.JStr? && Strip(item.s) != [] {
        assert CleanLanguages(items).value == [CleanName(item.s)] + rest.value;
      } else {
        assert CleanLanguages(items) == rest;
      }
    }
  }

  /** The items the reply's "languages" entry iterates over; a reply
      without the entry gives the empty list. */
  function LanguageItems(result: Reply): (r: Option<seq<Json>>)
    ensures "languages" !in result ==> r == Some([])
    ensures "languages" in result ==> r == Iterate(result["languages"])
  {
    Iterate(Get(result, "languages", JList([])))
  }

  /** `detect_languages` after the call to the language model: `reply` is the
      decoded reply object, `None` when the call or the decoding raised. */
  function DetectLanguages(reply: Option<Reply>): (r: seq<string>)
    ensures r != [] && StrictlySorted(r)
    ensures forall x :: x in r ==> IsCleanName(x)
    ensures reply.None? ==> r == ["english"]
  {
    var english := ["english"];
    assert IsCleanName(english[0]) by {
      assert english[0][0] == 'e' && english[0][6] == 'h';
    }
    match reply
    case None => english
    case Some(result) =>
      match LanguageItems(result)
      case None => english
      case Some(items) =>
        match CleanLanguages(items)
        case None => english
        case Some(languages) =>
          if languages == [] then english else SortedSet(languages)
  }

  /** With items that all clean up and at least one name kept, the result
      is the sorted set of the kept names. */
  lemma DetectLanguagesSorted(result: Reply, items: seq<Json>)
    requires LanguageItems(result) == Some(items)
    requires CleanLanguages(items).Some? && CleanLanguages(items).value != []
    ensures DetectLanguages(Some(result)) == SortedSet(CleanLanguages(items).value)
  {
  }

  /** When every item can be processed and at least one name survives, the
      result is the one strictly sorted list of exactly the surviving
      names. */
  lemma DetectLanguagesCharacterised(result: Reply, items: seq<Json>, expected: seq<string>)
    requires LanguageItems(result) == Some(items)
    requires forall item :: item in items ==> !Raises(item)
    requires exists item, x :: item in items && Keeps(item, x)
    requires StrictlySorted(expected)
    requires forall x :: x in expected <==> exists item :: item in items && Keeps(item, x)
    ensures DetectLanguages(Some(result)) == expected
  {
    assert CleanLanguages(items).Some?;
    var languages := CleanLanguages(items).value;
    var item, x :| item in items && Keeps(item, x);
    CleanLanguagesContents(items, x);
    assert x in languages;
    var r := SortedSet(languages);
    DetectLanguagesSorted(result, items);
    forall y ensures y in r <==> y in expected {
      CleanLanguagesContents(items, y);
    }
    StrictlySortedUnique(r, expected);
  }

  /** English is the answer when no item survives the clean-up. */
  lemma DetectLanguagesNothingKept(result: Reply, items: seq<Json>)
    requires LanguageItems(result) == Some(items)
    requires forall item, x :: item in items ==> !Keeps(item, x)
    ensures DetectLanguages(Some(result)) == ["english"]
  {
    if CleanLanguages(items).Some? && CleanLanguages(items).value != [] {
      var x := CleanLanguages(items).value[0];
      CleanLanguagesContents(items, x);
    }
  }

  /** English is the answer when one item is truthy but not a string, or
      when the "languages" entry cannot be iterated (a number, a boolean,
      null). */
  lemma DetectLanguagesOnError(result: Reply)
    requires LanguageItems(result).None?
          || exists item :: item in LanguageItems(result).value && Raises(item)
    ensures DetectLanguages(Some(result)) == ["english"]
  {
  }
}
