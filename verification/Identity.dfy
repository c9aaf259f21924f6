/** `internal/domain/id.go`: identifiers derived from their parts. SHA-256 in hex is
    modelled by an injective hexadecimal text: equal digests come from equal preimages. */
module Identity {
  import opened Text

  function HexDigit(n: nat): (c: char)
    requires n < 16
    ensures '0' <= c <= '9' || 'a' <= c <= 'f'
  {
    if n < 10 then '0' + n as char else 'a' + (n - 10) as char
  }

  lemma HexDigitInjective(m: nat, n: nat)
    requires m < 16 && n < 16
    ensures HexDigit(m) == HexDigit(n) ==> m == n
  {
  }

  function HexChar(c: char): (s: string)
    ensures |s| == 6
  {
    var n := c as int;
    [HexDigit(n / 1048576 % 16), HexDigit(n / 65536 % 16), HexDigit(n / 4096 % 16),
     HexDigit(n / 256 % 16), HexDigit(n / 16 % 16), HexDigit(n % 16)]
  }

  lemma HexCharInjective(c: char, d: char)
    requires HexChar(c) == HexChar(d)
    ensures c == d
  {
    var m, n := c as int, d as int;
    HexDigitInjective(m / 1048576 % 16, n / 1048576 % 16);
    HexDigitInjective(m / 65536 % 16, n / 65536 % 16);
    HexDigitInjective(m / 4096 % 16, n / 4096 % 16);
    HexDigitInjective(m / 256 % 16, n / 256 % 16);
    HexDigitInjective(m / 16 % 16, n / 16 % 16);
    HexDigitInjective(m % 16, n % 16);
    assert HexChar(c)[0] == HexChar(d)[0] && HexChar(c)[1] == HexChar(d)[1] && HexChar(c)[2] == HexChar(d)[2];
    assert HexChar(c)[3] == HexChar(d)[3] && HexChar(c)[4] == HexChar(d)[4] && HexChar(c)[5] == HexChar(d)[5];
    SixDigits(m);
    SixDigits(n);
  }

  lemma SixDigits(n: nat)
    requires n < 16777216
    ensures n == 1048576 * (n / 1048576 % 16) + 65536 * (n / 65536 % 16) + 4096 * (n / 4096 % 16)
                 + 256 * (n / 256 % 16) + 16 * (n / 16 % 16) + n % 16
  {
    assert n / 256 == n / 16 / 16 && n / 4096 == n / 256 / 16;
    assert n / 65536 == n / 4096 / 16 && n / 1048576 == n / 65536 / 16;
  }

  function HexText(s: string): (h: string)
    ensures |h| == 6 * |s|
  {
    if s == "" then "" else HexChar(s[0]) + HexText(s[1..])
  }

  function Digest(s: string): string {
    "0" + HexText(s)
  }

  lemma {:induction false} HexTextInjective(s: string, t: string)
    requires HexText(s) == HexText(t)
    ensures s == t
  {
    if s != "" && t != "" {
      assert HexText(s)[..6] == HexChar(s[0]) && HexText(t)[..6] == HexChar(t[0]);
      assert HexText(s)[6..] == HexText(s[1..]) && HexText(t)[6..] == HexText(t[1..]);
      HexCharInjective(s[0], t[0]);
      HexTextInjective(s[1..], t[1..]);
      assert s == [s[0]] + s[1..] && t == [t[0]] + t[1..];
    }
  }

  lemma DigestInjective(s: string, t: string)
    requires Digest(s) == Digest(t)
    ensures s == t
  {
    assert Digest(s)[1..] == HexText(s) && Digest(t)[1..] == HexText(t);
    HexTextInjective(s, t);
  }

  predicate Hexadecimal(s: string) {
    s != "" && forall i :: 0 <= i < |s| ==> '0' <= s[i] <= '9' || 'a' <= s[i] <= 'f'
  }

  lemma {:induction false} HexTextIsHex(s: string)
    ensures forall i :: 0 <= i < |HexText(s)| ==> '0' <= HexText(s)[i] <= '9' || 'a' <= HexText(s)[i] <= 'f'
  {
    if s == "" {
    } else {
      HexTextIsHex(s[1..]);
    }
  }

  /** A digest holds no separator and no blank. */
  lemma DigestIsHex(s: string)
    ensures Hexadecimal(Digest(s)) && '|' !in Digest(s) && TrimSpace(Digest(s)) == Digest(s)
  {
    HexTextIsHex(s);
    TrimmedIsFixed(Digest(s));
  }

  /** `contentID`: the digest of the parts joined by a bar. */
  function ContentID(parts: seq<string>): string {
    Digest(Join(parts, "|"))
  }

  /** The loop that feeds the hash. */
  method HashParts(parts: seq<string>) returns (id: string)
    ensures id == ContentID(parts)
  {
    var preimage := "";
    for i := 0 to |parts|
      invariant preimage == Join(parts[..i], "|")
    {
      JoinAppend(parts[..i], parts[i], "|");
      assert parts[..i + 1] == parts[..i] + [parts[i]];
      if i > 0 {
        preimage := preimage + "|";
      }
      preimage := preimage + parts[i];
    }
    assert parts[..|parts|] == parts;
    id := Digest(preimage);
  }

  lemma {:induction false} JoinAppend(parts: seq<string>, last: string, sep: string)
    ensures Join(parts + [last], sep) == if parts == [] then last else Join(parts, sep) + sep + last
  {
    if |parts| == 0 {
    } else {
      assert (parts + [last])[1..] == parts[1..] + [last];
      JoinAppend(parts[1..], last, sep);
    }
  }

  lemma FirstBar(a: string, rest: string, b: string, more: string)
    requires '|' !in a && '|' !in b
    requires a + "|" + rest == b + "|" + more
    ensures a == b && rest == more
  {
    var s, t := a + "|" + rest, b + "|" + more;
    assert s[|a|] == '|' && t[|b|] == '|';
    assert forall i :: 0 <= i < |a| ==> s[i] == a[i];
    assert forall i :: 0 <= i < |b| ==> t[i] == b[i];
    assert |a| == |b|;
    assert s[..|a|] == a && t[..|b|] == b;
    assert s[|a| + 1..] == rest && t[|b| + 1..] == more;
  }

  lemma LastBar(b: string, x: string, d: string, y: string)
    requires '|' !in x && '|' !in y
    requires b + "|" + x == d + "|" + y
    ensures b == d && x == y
  {
    var s, t := b + "|" + x, d + "|" + y;
    assert s[|b|] == '|' && t[|d|] == '|';
    assert forall i :: |b| < i < |s| ==> s[i] == x[i - |b| - 1];
    assert forall i :: |d| < i < |t| ==> t[i] == y[i - |d| - 1];
    assert |b| == |d|;
    assert s[..|b|] == b && t[..|d|] == d && s[|b| + 1..] == x && t[|d| + 1..] == y;
  }

  /** With the first part fixed, the last part's freedom from bars separates the other two. */
  lemma SameHeadInjective(a: string, b: string, x: string, d: string, y: string)
    requires '|' !in x && '|' !in y && ContentID([a, b, x]) == ContentID([a, d, y])
    ensures b == d && x == y
  {
    DigestInjective(Join([a, b, x], "|"), Join([a, d, y], "|"));
    JoinThree(a, b, x);
    JoinThree(a, d, y);
    var p := a + "|";
    assert a + "|" + (b + "|" + x) == p + (b + "|" + x) && a + "|" + (d + "|" + y) == p + (d + "|" + y);
    assert (p + (b + "|" + x))[|p|..] == b + "|" + x && (p + (d + "|" + y))[|p|..] == d + "|" + y;
    LastBar(b, x, d, y);
  }

  /** With a first part that holds no bar, two-part identifiers determine their parts. */
  lemma PairInjective(a: string, x: string, b: string, y: string)
    requires '|' !in a && '|' !in b && ContentID([a, x]) == ContentID([b, y])
    ensures a == b && x == y
  {
    DigestInjective(Join([a, x], "|"), Join([b, y], "|"));
    assert Join([a, x], "|") == a + "|" + x && Join([b, y], "|") == b + "|" + y;
    FirstBar(a, x, b, y);
  }

  /** Three-part identifiers determine their first two parts when neither holds a bar. */
  lemma TripleInjective(a: string, b: string, x: string, c: string, d: string, y: string)
    requires '|' !in a && '|' !in b && '|' !in c && '|' !in d
    requires ContentID([a, b, x]) == ContentID([c, d, y])
    ensures a == c && b == d && x == y
  {
    TripleHead(a, b, x, c, d, y);
    FirstBar(b, x, d, y);
  }

  lemma JoinThree(a: string, b: string, x: string)
    ensures Join([a, b, x], "|") == a + "|" + (b + "|" + x)
  {
    assert [a, b, x][1..] == [b, x] && [b, x][1..] == [x];
    assert Join([b, x], "|") == b + "|" + x;
  }

  lemma TripleHead(a: string, b: string, x: string, c: string, d: string, y: string)
    requires '|' !in a && '|' !in c && ContentID([a, b, x]) == ContentID([c, d, y])
    ensures a == c && b + "|" + x == d + "|" + y
  {
    DigestInjective(Join([a, b, x], "|"), Join([c, d, y], "|"));
    JoinThree(a, b, x);
    JoinThree(c, d, y);
    FirstBar(a, b + "|" + x, c, d + "|" + y);
  }

  // ----- the identifiers of the kernel

  function DocumentID(repository: string, path: string): string {
    ContentID([TrimSpace(repository), TrimSpace(path)])
  }

  /** `strconv.Itoa` on a non-negative index. */
  function Itoa(n: nat): (s: string)
    ensures s != "" && '|' !in s
  {
    if n < 10 then [HexDigit(n)] else Itoa(n / 10) + [HexDigit(n % 10)]
  }

  lemma {:induction false} ItoaInjective(m: nat, n: nat)
    requires Itoa(m) == Itoa(n)
    ensures m == n
  {
    var s, t := Itoa(m), Itoa(n);
    assert s[|s| - 1] == HexDigit(m % 10) && t[|t| - 1] == HexDigit(n % 10);
    HexDigitInjective(m % 10, n % 10);
    assert m >= 10 <==> |s| > 1;
    assert n >= 10 <==> |t| > 1;
    if m >= 10 {
      assert s[..|s| - 1] == Itoa(m / 10) && t[..|t| - 1] == Itoa(n / 10);
      ItoaInjective(m / 10, n / 10);
    }
  }

  function ChunkID(documentId: string, index: nat): string {
    ContentID([documentId, Itoa(index)])
  }

  function TagID(documentId: string, key: string, value: string): string {
    ContentID([documentId, key, value])
  }

  function EdgeID(from: string, to: string, relType: string): string {
    ContentID([from, to, relType])
  }

  lemma ChunkIDInjective(a: string, i: nat, b: string, j: nat)
    requires '|' !in a && '|' !in b && ChunkID(a, i) == ChunkID(b, j)
    ensures a == b && i == j
  {
    PairInjective(a, Itoa(i), b, Itoa(j));
    ItoaInjective(i, j);
  }

  lemma DocumentIDInjective(r: string, p: string, s: string, q: string)
    requires '|' !in TrimSpace(r) && '|' !in TrimSpace(s) && DocumentID(r, p) == DocumentID(s, q)
    ensures TrimSpace(r) == TrimSpace(s) && TrimSpace(p) == TrimSpace(q)
  {
    PairInjective(TrimSpace(r), TrimSpace(p), TrimSpace(s), TrimSpace(q));
  }
}
