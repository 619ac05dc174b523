/** Phone number canonicalisation (`normalize_phone_number`) and the checks
    applied to the phone number the language model extracts
    (`extract_phone_number`). */
module Phone {
  import opened Text

  /** `''.join(filter(str.isdigit, s))` */
  function DigitsOnly(s: string): (r: string)
    ensures AllDigits(r)
    ensures |r| <= |s|
    ensures AllDigits(s) ==> r == s
    ensures (forall i :: 0 <= i < |s| ==> !IsDigit(s[i])) ==> r == []
    decreases |s|
  {
    if s == [] then []
    else (if IsDigit(s[0]) then [s[0]] else []) + DigitsOnly(s[1..])
  }

  /** Filtering distributes over concatenation. */
  lemma {:induction false} DigitsOnlyAppend(a: string, b: string)
    ensures DigitsOnly(a + b) == DigitsOnly(a) + DigitsOnly(b)
    decreases |a|
  {
    if a == [] {
      assert a + b == b;
    } else {
      var head: string := if IsDigit(a[0]) then [a[0]] else [];
      assert (a + b)[0] == a[0] && (a + b)[1..] == a[1..] + b;
      assert DigitsOnly(a + b) == head + DigitsOnly(a[1..] + b);
      DigitsOnlyAppend(a[1..], b);
      assert DigitsOnly(a) == head + DigitsOnly(a[1..]);
      assert head + (DigitsOnly(a[1..]) + DigitsOnly(b)) == (head + DigitsOnly(a[1..])) + DigitsOnly(b);
    }
  }

  function Zeros(n: nat): (r: string)
    ensures |r| == n && forall i :: 0 <= i < n ==> r[i] == '0'
  {
    seq(n, _ => '0')
  }

  predicate StartsWith91(d: string) { |d| >= 2 && d[0] == '9' && d[1] == '1' }

  /** `normalize_phone_number`: keep the digits, then drop a leading "91"
      from an overlong number, keep the last ten digits of any other overlong
      number, and left-pad a short one with '0' to ten digits. */
  function NormalizePhoneNumber(raw: string): (r: string)
    ensures AllDigits(r)
    ensures var d := DigitsOnly(raw);
      && (|d| == 10 ==> r == d)
      && (|d| < 10 ==> |r| == 10 && r[10 - |d|..] == d && r[..10 - |d|] == Zeros(10 - |d|))
      && (|d| > 10 && !StartsWith91(d) ==> r == d[|d| - 10..])
      && (|d| > 10 && StartsWith91(d) ==> |r| == |d| - 2 && d == "91" + r)
  {
    var d := DigitsOnly(raw);
    if StartsWith91(d) && |d| > 10 then
      assert d == "91" + d[2..];
      d[2..]
    else if |d| > 10 then d[|d| - 10..]
    else if |d| < 10 then
      var r := Zeros(10 - |d|) + d;
      assert r[10 - |d|..] == d && r[..10 - |d|] == Zeros(10 - |d|);
      r
    else d
  }

  /** The result has ten digits exactly when the digit string was not an
      overlong "91" number, or was one of exactly twelve digits. */
  lemma NormalizeLengthIsTen(raw: string)
    ensures var d := DigitsOnly(raw);
      |NormalizePhoneNumber(raw)| == 10 <==> (|d| <= 10 || !StartsWith91(d) || |d| == 12)
  {
  }

  /** Ten digits are returned unchanged. */
  lemma NormalizeTenDigits(s: string)
    requires |s| == 10 && AllDigits(s)
    ensures NormalizePhoneNumber(s) == s
  {
  }

  /** Normalising twice equals normalising once exactly when the first
      result has ten digits; an eleven-digit "91" number is the case where it
      is not. */
  lemma NormalizeIdempotentIff(raw: string)
    ensures var r := NormalizePhoneNumber(raw);
      NormalizePhoneNumber(r) == r <==> |r| == 10
  {
    var r := NormalizePhoneNumber(raw);
    assert DigitsOnly(r) == r;
    var r2 := NormalizePhoneNumber(r);
    if |r| != 10 {
      assert |r2| != |r|;
    }
  }

  /** A number written with the country code 91 in front of ten digits,
      whatever separators it has, comes out as those ten digits. */
  lemma NormalizeDropsCountryCode(raw: string, national: string)
    requires |national| == 10
    requires DigitsOnly(raw) == "91" + national
    ensures NormalizePhoneNumber(raw) == national
  {
  }

  lemma NormalizeExampleShort()
    ensures NormalizePhoneNumber("12345") == "0000012345"
  {
    var d := "12345";
    assert AllDigits(d);
    assert Zeros(5) == "00000";
    assert Zeros(5) + d == "0000012345";
  }

  lemma NormalizeExampleLong()
    ensures NormalizePhoneNumber("123456789012") == "3456789012"
  {
    var d := "123456789012";
    assert AllDigits(d);
    assert !StartsWith91(d);
    assert d[|d| - 10..] == "3456789012";
  }

  /** A ten-digit number that happens to start with "91" is kept whole. */
  lemma NormalizeExampleTen91()
    ensures NormalizePhoneNumber("9198765432") == "9198765432"
  {
    var d := "9198765432";
    assert |d| == 10 && AllDigits(d);
    NormalizeTenDigits(d);
  }

  /** An eleven-digit number starting with "91" loses only its first two
      digits and comes out with nine, which a second pass then pads. */
  lemma NormalizeElevenDigits91()
    ensures NormalizePhoneNumber("91123456789") == "123456789"
    ensures NormalizePhoneNumber("123456789") == "0123456789"
  {
    var d := "91123456789";
    assert AllDigits(d) && StartsWith91(d);
    assert d[2..] == "123456789";
    assert AllDigits(d[2..]);
    assert Zeros(1) + d[2..] == "0123456789";
  }

  /** The post-processing of `extract_phone_number`: `reply` is the raw reply
      of the language model, `None` when the call raised. "NOT_FOUND", a blank
      reply and a normalised number that is not ten digits long give `None`. */
  function ExtractPhoneNumber(reply: Option<string>): (r: Option<string>)
    ensures r.Some? ==> |r.value| == 10 && AllDigits(r.value)
    ensures r.Some? <==>
      && reply.Some?
      && Strip(reply.value) != "NOT_FOUND" && Strip(reply.value) != ""
      && |NormalizePhoneNumber(Strip(reply.value))| == 10
    ensures r.Some? ==> r.value == NormalizePhoneNumber(Strip(reply.value))
  {
    match reply
    case None => None
    case Some(text) =>
      var phone := Strip(text);
      if phone == "NOT_FOUND" || phone == "" then None
      else
        var normalized := NormalizePhoneNumber(phone);
        if |normalized| != 10 then None else Some(normalized)
  }

  /** A reply that is neither blank nor "NOT_FOUND" but holds no digit
      is padded to ten zeros and accepted. */
  lemma ExtractPhoneWithoutDigits(text: string)
    requires Strip(text) != "NOT_FOUND" && Strip(text) != []
    requires forall i :: 0 <= i < |Strip(text)| ==> !IsDigit(Strip(text)[i])
    ensures ExtractPhoneNumber(Some(text)) == Some("0000000000")
  {
    NormalizeWithoutDigits(Strip(text));
  }

  /** A string without digits normalises to ten zeros. */
  lemma NormalizeWithoutDigits(text: string)
    requires forall i :: 0 <= i < |text| ==> !IsDigit(text[i])
    ensures NormalizePhoneNumber(text) == "0000000000"
  {
    var r := NormalizePhoneNumber(text);
    assert r == r[..10] == Zeros(10);
    assert Zeros(10) == "0000000000";
  }

  /** Overlong "91" numbers other than twelve-digit ones are refused. */
  lemma ExtractPhoneRefuses91(text: string)
    requires var d := DigitsOnly(Strip(text)); StartsWith91(d) && |d| > 10 && |d| != 12
    ensures ExtractPhoneNumber(Some(text)) == None
  {
    NormalizeLengthIsTen(Strip(text));
  }
}
