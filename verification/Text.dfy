/** The string operations of the Go library that the kernel is written with. A string is a
    sequence of characters. Go counts bytes: the two agree on ASCII text, and on other text a
    length or an index here counts characters, and letter case is left alone. */
module Text {
  import Sorting

  /** `unicode.IsSpace`. */
  predicate IsSpace(c: char) {
    var n := c as int;
    || 9 <= n <= 13 || c == ' ' || n in {0x85, 0xA0, 0x1680, 0x2028, 0x2029, 0x202F, 0x205F, 0x3000} || 0x2000 <= n <= 0x200A
  }

  predicate Blank(s: string) {
    forall i :: 0 <= i < |s| ==> IsSpace(s[i])
  }

  function TrimLeft(s: string): (t: string)
  {
    if s != [] && IsSpace(s[0]) then TrimLeft(s[1..]) else s
  }

  function TrimRight(s: string): (t: string)
  {
    if s != [] && IsSpace(s[|s| - 1]) then TrimRight(s[..|s| - 1]) else s
  }

  /** `strings.TrimSpace`. */
  function TrimSpace(s: string): (t: string) {
    TrimRight(TrimLeft(s))
  }

  function LowerChar(c: char): char {
    if 'A' <= c <= 'Z' then c - 'A' + 'a' else c
  }

  function UpperChar(c: char): char {
    if 'a' <= c <= 'z' then c - 'a' + 'A' else c
  }

  /** `strings.ToLower` on ASCII letters; every other character is kept. */
  function ToLower(s: string): (t: string)
    ensures |t| == |s| && forall i :: 0 <= i < |s| ==> t[i] == LowerChar(s[i])
  {
    seq(|s|, i requires 0 <= i < |s| => LowerChar(s[i]))
  }

  /** One past the last occurrence of `c`, or 0: `strings.LastIndex` plus one. */
  function AfterLast(s: string, c: char): (k: nat)
    ensures k <= |s|
    ensures k > 0 ==> s[k - 1] == c
    ensures forall i :: k <= i < |s| ==> s[i] != c
  {
    if s == [] then 0
    else if s[|s| - 1] == c then |s|
    else AfterLast(s[..|s| - 1], c)
  }

  /** The first occurrence of `c`, or the length: `strings.Index` without its -1. */
  function IndexOf(s: string, c: char): (k: nat)
    ensures k <= |s|
    ensures k < |s| ==> s[k] == c
    ensures forall i :: 0 <= i < k ==> s[i] != c
  {
    if s == [] || s[0] == c then 0 else 1 + IndexOf(s[1..], c)
  }

  /** `strings.Contains`. */
  predicate Contains(s: string, part: string) {
    part <= s || (s != "" && Contains(s[1..], part))
  }

  /** Containing is standing somewhere. */
  lemma {:induction false} ContainsMeaning(s: string, before: string, part: string, after: string)
    ensures s == before + part + after ==> Contains(s, part)
  {
    if s == before + part + after && before != "" {
      assert s[1..] == before[1..] + part + after;
      ContainsMeaning(s[1..], before[1..], part, after);
    } else if s == before + part + after {
      assert s == part + after;
    }
  }

  lemma {:induction false} ContainedStands(s: string, part: string) returns (k: nat)
    requires Contains(s, part)
    ensures k + |part| <= |s| && s[k..k + |part|] == part
  {
    if part <= s {
      k := 0;
    } else {
      var j := ContainedStands(s[1..], part);
      k := j + 1;
      assert s[1..][j..j + |part|] == s[k..k + |part|];
    }
  }

  /** `strings.Join`. */
  function Join(parts: seq<string>, sep: string): string {
    if |parts| == 0 then ""
    else if |parts| == 1 then parts[0]
    else parts[0] + sep + Join(parts[1..], sep)
  }

  /** `strings.Split` at a one-character separator. */
  function Split(s: string, sep: char): (parts: seq<string>)
    ensures |parts| > 0
  {
    var k := IndexOf(s, sep);
    if k == |s| then [s] else [s[..k]] + Split(s[k + 1..], sep)
  }

  /** Splitting undoes joining for pieces that do not hold the separator. */
  lemma {:induction false} SplitJoin(parts: seq<string>, sep: char)
    requires |parts| > 0
    requires forall i :: 0 <= i < |parts| ==> sep !in parts[i]
    ensures Split(Join(parts, [sep]), sep) == parts
  {
    var s := Join(parts, [sep]);
    if |parts| == 1 {
      assert IndexOf(s, sep) == |s|;
    } else {
      var k := IndexOf(s, sep);
      assert s[|parts[0]|] == sep;
      assert forall j :: 0 <= j < |parts[0]| ==> s[j] == parts[0][j];
      assert k == |parts[0]|;
      assert s[..k] == parts[0];
      assert s[k + 1..] == Join(parts[1..], [sep]);
      SplitJoin(parts[1..], sep);
    }
  }

  /** Byte order, Go's `<` on strings. */
  predicate StrLess(a: string, b: string) {
    b != [] && (a == [] || a[0] < b[0] || (a[0] == b[0] && StrLess(a[1..], b[1..])))
  }

  lemma {:induction false} StrLessAsymmetric(a: string, b: string)
    requires StrLess(a, b)
    ensures !StrLess(b, a)
  {
    if a != [] && a[0] == b[0] {
      StrLessAsymmetric(a[1..], b[1..]);
    }
  }

  lemma {:induction false} StrLessTotal(a: string, b: string)
    requires a != b
    ensures StrLess(a, b) || StrLess(b, a)
  {
    if a != [] && b != [] && a[0] == b[0] {
      assert a == [a[0]] + a[1..] && b == [b[0]] + b[1..];
      StrLessTotal(a[1..], b[1..]);
    }
  }

  lemma {:induction false} StrLessCotransitive(a: string, b: string, c: string)
    requires StrLess(a, c)
    ensures StrLess(a, b) || StrLess(b, c)
  {
    if a != [] && b != [] && a[0] == b[0] == c[0] {
      StrLessCotransitive(a[1..], b[1..], c[1..]);
    }
  }

  /** Byte order is a strict total order. */
  lemma StrLessIsTotalOrder()
    ensures Sorting.WeakOrder(StrLess)
    ensures forall a, b :: a != b ==> StrLess(a, b) || StrLess(b, a)
  {
    forall a, b | StrLess(a, b) ensures !StrLess(b, a) {
      StrLessAsymmetric(a, b);
    }
    forall a, b | a != b ensures StrLess(a, b) || StrLess(b, a) {
      StrLessTotal(a, b);
    }
    forall a, b, c | StrLess(a, c) ensures StrLess(a, b) || StrLess(b, c) {
      StrLessCotransitive(a, b, c);
    }
  }

  lemma {:induction false} BlankTrims(s: string)
    ensures TrimSpace(s) == "" <==> Blank(s)
  {
    TrimLeftBlank(s);
    TrimRightBlank(TrimLeft(s));
    TrimLeftFirst(s);
  }

  lemma TrimLeftBlank(s: string)
    ensures Blank(s) ==> TrimLeft(s) == ""
    ensures Blank(TrimLeft(s)) ==> Blank(s)
  {
    if s != [] && IsSpace(s[0]) {
      TrimLeftBlank(s[1..]);
      assert forall i :: 0 < i < |s| ==> s[i] == s[1..][i - 1];
    }
  }

  lemma TrimLeftFirst(s: string)
    ensures TrimLeft(s) == "" || !IsSpace(TrimLeft(s)[0])
  {
  }

  lemma TrimRightBlank(s: string)
    ensures TrimRight(s) == "" <==> Blank(s)
  {
    if s != [] && IsSpace(s[|s| - 1]) {
      TrimRightBlank(s[..|s| - 1]);
    }
  }

  /** Text that neither starts nor ends with a blank is what trimming returns. */
  lemma TrimmedIsFixed(s: string)
    requires s == "" || (!IsSpace(s[0]) && !IsSpace(s[|s| - 1]))
    ensures TrimSpace(s) == s
  {
  }

  lemma TrimEnds(s: string)
    ensures TrimSpace(s) == "" || (!IsSpace(TrimSpace(s)[0]) && !IsSpace(TrimSpace(s)[|TrimSpace(s)| - 1]))
  {
    TrimLeftFirst(s);
    TrimRightEnds(TrimLeft(s));
  }

  lemma {:induction false} TrimRightEnds(s: string)
    ensures TrimRight(s) <= s
    ensures TrimRight(s) == "" || !IsSpace(TrimRight(s)[|TrimRight(s)| - 1])
  {
    if s != [] && IsSpace(s[|s| - 1]) {
      TrimRightEnds(s[..|s| - 1]);
    }
  }

  /** Trimming takes blanks away at both ends and nothing else. */
  lemma TrimMeaning(s: string) returns (before: string, after: string)
    ensures s == before + TrimSpace(s) + after && Blank(before) && Blank(after)
  {
    before := LeftBlanks(s);
    after := RightBlanks(TrimLeft(s));
    assert s == before + (TrimSpace(s) + after);
  }

  lemma {:induction false} LeftBlanks(s: string) returns (before: string)
    ensures s == before + TrimLeft(s) && Blank(before)
  {
    before := "";
    if s != "" && IsSpace(s[0]) {
      var rest := LeftBlanks(s[1..]);
      before := [s[0]] + rest;
    }
  }

  lemma {:induction false} RightBlanks(s: string) returns (after: string)
    ensures s == TrimRight(s) + after && Blank(after)
  {
    after := "";
    if s != "" && IsSpace(s[|s| - 1]) {
      var rest := RightBlanks(s[..|s| - 1]);
      after := rest + [s[|s| - 1]];
    }
  }

  lemma TrimIdempotent(s: string)
    ensures TrimSpace(TrimSpace(s)) == TrimSpace(s)
  {
    TrimEnds(s);
    TrimmedIsFixed(TrimSpace(s));
  }
}
