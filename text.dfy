/** Character classes, case mapping, stripping, and splitting/joining of
    strings, restricted to ASCII: the string operations the postprocessor
    applies to transcripts and to the replies of the language model. */
module Text {

  datatype Option<+T> = None | Some(value: T)

  predicate IsDigit(c: char) { '0' <= c <= '9' }

  predicate IsUpper(c: char) { 'A' <= c <= 'Z' }

  predicate IsLower(c: char) { 'a' <= c <= 'z' }

  /** Python's `str.isspace` on ASCII: space, TAB..CR (9..13) and the
      four separator controls FS..US (28..31). */
  predicate IsSpace(c: char)
  {
    c == ' ' || (9 <= c as int <= 13) || (28 <= c as int <= 31)
  }

  predicate AllDigits(s: string) { forall i :: 0 <= i < |s| ==> IsDigit(s[i]) }

  predicate NoUpper(s: string) { forall i :: 0 <= i < |s| ==> !IsUpper(s[i]) }

  predicate NoLower(s: string) { forall i :: 0 <= i < |s| ==> !IsLower(s[i]) }

  /** `s` has no leading and no trailing whitespace, as after `str.strip()`. */
  predicate IsStripped(s: string)
  {
    s == [] || (!IsSpace(s[0]) && !IsSpace(s[|s| - 1]))
  }

  function Lower(c: char): (r: char)
    ensures !IsUpper(r)
    ensures IsSpace(r) == IsSpace(c)
    ensures IsUpper(c) ==> r as int == c as int + 32
    ensures !IsUpper(c) ==> r == c
  {
    if IsUpper(c) then (c as int + 32) as char else c
  }

  function Upper(c: char): (r: char)
    ensures !IsLower(r)
    ensures IsLower(c) ==> r as int == c as int - 32
    ensures !IsLower(c) ==> r == c
  {
    if IsLower(c) then (c as int - 32) as char else c
  }

  /** `str.lower()` on ASCII */
  function LowerStr(s: string): (r: string)
    ensures |r| == |s| && NoUpper(r)
    ensures forall i :: 0 <= i < |s| ==> r[i] == Lower(s[i])
  {
    seq(|s|, i requires 0 <= i < |s| => Lower(s[i]))
  }

  /** `str.upper()` on ASCII */
  function UpperStr(s: string): (r: string)
    ensures |r| == |s| && NoLower(r)
    ensures forall i :: 0 <= i < |s| ==> r[i] == Upper(s[i])
  {
    seq(|s|, i requires 0 <= i < |s| => Upper(s[i]))
  }

  /** The longest suffix of `s` whose removed prefix consists of characters
      that `drop` selects (`str.lstrip(chars)`). */
  function TrimLeft(s: string, drop: char -> bool): (r: string)
    ensures |r| <= |s| && r == s[|s| - |r|..]
    ensures forall i :: 0 <= i < |s| - |r| ==> drop(s[i])
    ensures r == [] || !drop(r[0])
    ensures NoUpper(s) ==> NoUpper(r)
    decreases |s|
  {
    if s != [] && drop(s[0]) then TrimLeft(s[1..], drop) else s
  }

  /** The longest prefix of `s` whose removed suffix consists of characters
      that `drop` selects (`str.rstrip(chars)`). */
  function TrimRight(s: string, drop: char -> bool): (r: string)
    ensures |r| <= |s| && r == s[..|r|]
    ensures forall i :: |r| <= i < |s| ==> drop(s[i])
    ensures r == [] || !drop(r[|r| - 1])
    ensures NoUpper(s) ==> NoUpper(r)
    decreases |s|
  {
    if s != [] && drop(s[|s| - 1]) then TrimRight(s[..|s| - 1], drop) else s
  }

  /** `r` is `s` with its first `a` characters, all of which `front`
      selects, and its last `|s| - a - |r|` characters, all of which `back`
      selects, cut off. */
  predicate CutsTo(s: string, r: string, a: int, front: char -> bool, back: char -> bool)
  {
    && 0 <= a && a + |r| <= |s| && r == s[a..a + |r|]
    && (forall i :: 0 <= i < a ==> front(s[i]))
    && (forall i :: a + |r| <= i < |s| ==> back(s[i]))
  }

  /** Two cuts in a row are one cut, of what either may remove. */
  lemma CutsCompose(s: string, t: string, r: string, a: int, b: int,
                    front1: char -> bool, back1: char -> bool, front2: char -> bool, back2: char -> bool,
                    front: char -> bool, back: char -> bool)
    requires CutsTo(s, t, a, front1, back1) && CutsTo(t, r, b, front2, back2)
    requires forall c :: front1(c) || front2(c) ==> front(c)
    requires forall c :: back1(c) || back2(c) ==> back(c)
    ensures CutsTo(s, r, a + b, front, back)
  {
    assert r == s[a + b..a + b + |r|] by {
      forall k | 0 <= k < |r| ensures r[k] == s[a + b + k] {
        assert r[k] == t[b + k] && t[b + k] == s[a + b + k];
      }
    }
    forall i | 0 <= i < a + b ensures front(s[i]) {
      if i >= a { assert s[i] == t[i - a]; }
    }
    forall i | a + b + |r| <= i < |s| ensures back(s[i]) {
      if i < a + |t| { assert s[i] == t[i - a]; }
    }
  }

  /** `str.strip(chars)`: both ends. The result is a slice of the input
      from which only dropped characters were cut, and whose two ends are
      kept, which determines it. */
  function Trim(s: string, drop: char -> bool): (r: string)
    ensures |r| <= |s|
    ensures exists a :: CutsTo(s, r, a, drop, drop)
    ensures NoUpper(s) ==> NoUpper(r)
    ensures r == [] || (!drop(r[0]) && !drop(r[|r| - 1]))
  {
    var t := TrimLeft(s, drop);
    var r := TrimRight(t, drop);
    TrimCuts(s, |s| - |t|, t, r, drop);
    r
  }

  /** Cutting a dropped prefix and then a dropped suffix cuts both ends. */
  lemma TrimCuts(s: string, a: nat, t: string, r: string, drop: char -> bool)
    requires a <= |s| && t == s[a..] && (forall i :: 0 <= i < a ==> drop(s[i]))
    requires |r| <= |t| && r == t[..|r|] && (forall i :: |r| <= i < |t| ==> drop(t[i]))
    ensures CutsTo(s, r, a, drop, drop)
  {
    forall i | a + |r| <= i < |s| ensures drop(s[i]) {
      assert s[i] == t[i - a];
    }
  }

  /** `str.strip()` with no argument: whitespace at both ends. */
  function Strip(s: string): (r: string)
    ensures IsStripped(r)
    ensures exists a :: CutsTo(s, r, a, IsSpace, IsSpace)
    ensures |r| <= |s|
    ensures NoUpper(s) ==> NoUpper(r)
  {
    Trim(s, IsSpace)
  }

  /** Only one string can be cut from `s` with kept ends: it is what
      `strip()` returns. */
  lemma StripUnique(s: string, x: string, a: int)
    requires CutsTo(s, x, a, IsSpace, IsSpace) && IsStripped(x)
    ensures Strip(s) == x
  {
    var r := Strip(s);
    var b :| CutsTo(s, r, b, IsSpace, IsSpace);
  }

  /** Trimming a string whose two ends are kept changes nothing. */
  lemma TrimOfTrimmed(s: string, drop: char -> bool)
    requires s == [] || (!drop(s[0]) && !drop(s[|s| - 1]))
    ensures TrimLeft(s, drop) == s && TrimRight(s, drop) == s && Trim(s, drop) == s
  {
  }

  /** Trimming a string enclosed in one dropped character on each side, whose
      own two ends are kept, removes exactly the enclosing pair. */
  lemma TrimEnclosed(c: char, e: string, drop: char -> bool)
    requires drop(c)
    requires e != [] && !drop(e[0]) && !drop(e[|e| - 1])
    ensures Trim([c] + e + [c], drop) == e
  {
    var q := [c] + e + [c];
    assert q[1..] == e + [c];
    assert TrimLeft(q, drop) == TrimLeft(e + [c], drop);
    assert TrimLeft(e + [c], drop) == e + [c];
    assert (e + [c])[..|e|] == e;
    assert TrimRight(e + [c], drop) == TrimRight(e, drop);
    TrimRightOfTrimmed(e, drop);
  }

  /** Right-trimming a string whose last character is kept changes nothing. */
  lemma TrimRightOfTrimmed(s: string, drop: char -> bool)
    requires s == [] || !drop(s[|s| - 1])
    ensures TrimRight(s, drop) == s
  {
  }

  /** Lower-casing a string without upper-case letters changes nothing. */
  lemma LowerOfLower(s: string)
    requires NoUpper(s)
    ensures LowerStr(s) == s
  {
  }

  lemma StripOfStripped(s: string)
    requires IsStripped(s)
    ensures Strip(s) == s
  {
  }

  lemma {:induction false} LowerStripCommute(s: string)
    ensures Strip(LowerStr(s)) == LowerStr(Strip(s))
  {
    var l := LowerStr(s);
    var a := TrimLeft(s, IsSpace);
    var b := TrimLeft(l, IsSpace);
    LeftTrimLower(s);
    RightTrimLower(a);
  }

  lemma {:induction false} LeftTrimLower(s: string)
    ensures TrimLeft(LowerStr(s), IsSpace) == LowerStr(TrimLeft(s, IsSpace))
    decreases |s|
  {
    if s != [] {
      assert LowerStr(s)[1..] == LowerStr(s[1..]);
      LeftTrimLower(s[1..]);
    }
  }

  lemma {:induction false} RightTrimLower(s: string)
    ensures TrimRight(LowerStr(s), IsSpace) == LowerStr(TrimRight(s, IsSpace))
    decreases |s|
  {
    if s != [] {
      assert LowerStr(s)[..|s| - 1] == LowerStr(s[..|s| - 1]);
      RightTrimLower(s[..|s| - 1]);
    }
  }

  /** `sep.join(lines)`: the separator shows up in the result exactly when
      there are two pieces or more, if the pieces themselves are free of it. */
  function Join(lines: seq<string>, sep: char): (r: string)
    ensures (forall i :: 0 <= i < |lines| ==> sep !in lines[i]) ==> (sep in r <==> |lines| >= 2)
    decreases |lines|
  {
    if |lines| == 0 then []
    else if |lines| == 1 then lines[0]
    else lines[0] + [sep] + Join(lines[1..], sep)
  }

  /** `s.split(sep)` for a one-character separator: never empty, no piece
      contains the separator, and joining the pieces gives `s` back. */
  function Split(s: string, sep: char): (r: seq<string>)
    ensures |r| >= 1
    ensures forall i :: 0 <= i < |r| ==> sep !in r[i]
    ensures Join(r, sep) == s
    decreases |s|
  {
    if s == [] then [[]]
    else
      var rest := Split(s[1..], sep);
      if s[0] == sep then
        assert ([[]] + rest)[1..] == rest;
        [[]] + rest
      else
        var r := [[s[0]] + rest[0]] + rest[1..];
        assert r[1..] == rest[1..];
        assert s == [s[0]] + s[1..];
        r
  }

  lemma {:induction false} SplitSeparated(x: string, y: string, sep: char)
    requires sep !in x
    ensures Split(x + [sep] + y, sep) == [x] + Split(y, sep)
    decreases |x|
  {
    var s := x + [sep] + y;
    if x == [] {
      assert s[0] == sep && s[1..] == y;
    } else {
      assert s[0] == x[0] != sep && s[1..] == x[1..] + [sep] + y;
      SplitSeparated(x[1..], y, sep);
      var rest := Split(s[1..], sep);
      assert Split(s, sep) == [[x[0]] + rest[0]] + rest[1..];
      assert rest[1..] == Split(y, sep);
      assert [x[0]] + x[1..] == x;
    }
  }

  lemma {:induction false} SplitWithoutSeparator(x: string, sep: char)
    requires sep !in x
    ensures Split(x, sep) == [x]
    decreases |x|
  {
    if x != [] {
      SplitWithoutSeparator(x[1..], sep);
      assert [x[0]] + x[1..] == x;
    }
  }

  /** Splitting undoes joining, for pieces free of the separator. */
  lemma {:induction false} SplitJoin(lines: seq<string>, sep: char)
    requires |lines| >= 1
    requires forall i :: 0 <= i < |lines| ==> sep !in lines[i]
    ensures Split(Join(lines, sep), sep) == lines
    decreases |lines|
  {
    if |lines| == 1 {
      SplitWithoutSeparator(lines[0], sep);
    } else {
      SplitJoin(lines[1..], sep);
      SplitSeparated(lines[0], Join(lines[1..], sep), sep);
      assert [lines[0]] + lines[1..] == lines;
    }
  }

  /** A string with exactly one separator, at index `i`, splits into the two
      sides of it. */
  lemma SplitOnce(s: string, i: nat, sep: char)
    requires i < |s| && s[i] == sep
    requires sep !in s[..i] && sep !in s[i + 1..]
    ensures Split(s, sep) == [s[..i], s[i + 1..]]
  {
    assert s == s[..i] + [sep] + s[i + 1..];
    SplitSeparated(s[..i], s[i + 1..], sep);
    SplitWithoutSeparator(s[i + 1..], sep);
  }

  /** A string containing the separator splits into at least two pieces. */
  lemma SplitHasTwo(s: string, sep: char)
    requires sep in s
    ensures |Split(s, sep)| >= 2
  {
  }

  /** Two pieces mean exactly one separator, after the first piece. */
  lemma SplitTwo(s: string, sep: char)
    requires |Split(s, sep)| == 2
    ensures var r := Split(s, sep);
      && |r[0]| < |s| && s[|r[0]|] == sep
      && s[..|r[0]|] == r[0] && s[|r[0]| + 1..] == r[1]
  {
    var r := Split(s, sep);
    assert Join(r[1..], sep) == r[1];
    assert s == r[0] + [sep] + r[1];
  }
}
