/** What a YAML decoder makes of a block mapping whose entries stand on one line each (YAML
    1.2.2, sections 5.7, 6.8, 6.9, 7.1, 7.3 and 8.2.2), decoded into strings. Line breaks are
    those of YAML 1.1, as the decoder the kernel uses takes them. */
module Yaml {
  import opened Wrappers
  import opened Text

  // ----- characters

  predicate White(c: char) {
    c == ' ' || c == '\t'
  }

  predicate Break(c: char) {
    c as int in {0x0A, 0x0D, 0x85, 0x2028, 0x2029}
  }

  /** A stream with any other character is refused. */
  predicate Printable(c: char) {
    var n := c as int;
    || c == '\t' || Break(c) || 0x20 <= n <= 0x7E || (0xA0 <= n && n !in {0xFEFF, 0xFFFE, 0xFFFF})
  }

  /** Characters that never start a plain scalar. */
  predicate Indicator(c: char) {
    c in ",[]{}#&*!|>'\"%@`"
  }

  /** Characters that start one only before a character that is not white. */
  predicate MaybeIndicator(c: char) {
    c in "-?:"
  }

  // ----- white space

  function SkipWhite(s: string): (t: string)
    ensures |t| <= |s| && s[|s| - |t|..] == t
    ensures t == "" || !White(t[0])
  {
    if s != "" && White(s[0]) then SkipWhite(s[1..]) else s
  }

  function DropWhite(s: string): (t: string)
    ensures t <= s
    ensures t == "" || !White(t[|t| - 1])
  {
    if s != "" && White(s[|s| - 1]) then DropWhite(s[..|s| - 1]) else s
  }

  /** The column of the first character that is no space. */
  function Indent(line: string): (n: nat)
    ensures n <= |line|
    ensures forall i :: 0 <= i < n ==> line[i] == ' '
    ensures n < |line| ==> line[n] != ' '
  {
    if line == "" || line[0] != ' ' then 0 else 1 + Indent(line[1..])
  }

  // ----- plain scalars

  /** A colon before white space or the line's end closes an implicit key. */
  predicate EndsKey(s: string, i: nat)
    requires i < |s|
  {
    s[i] == ':' && (i + 1 == |s| || White(s[i + 1]))
  }

  /** A number sign after white space starts a comment. */
  predicate StartsComment(s: string, i: nat)
    requires i < |s|
  {
    s[i] == '#' && i > 0 && White(s[i - 1])
  }

  /** Where a plain scalar and the white space after it end. */
  function PlainEnd(s: string, from: nat): (k: nat)
    requires from <= |s|
    ensures from <= k <= |s|
    ensures k < |s| ==> EndsKey(s, k) || StartsComment(s, k)
    ensures forall i :: from <= i < k ==> !EndsKey(s, i) && !StartsComment(s, i)
    decreases |s| - from
  {
    if from == |s| || EndsKey(s, from) || StartsComment(s, from) then from else PlainEnd(s, from + 1)
  }

  predicate StartsPlain(s: string) {
    && s != "" && !White(s[0]) && !Indicator(s[0])
    && (MaybeIndicator(s[0]) ==> |s| > 1 && !White(s[1]))
  }

  predicate NullWord(s: string) {
    s in {"", "~", "null", "Null", "NULL"}
  }

  /** The merge key, which takes a mapping and is an error with a word. */
  const MERGE := "<<"

  // ----- quotes and properties

  predicate EndsWith(s: string, t: string) {
    |t| <= |s| && s[|s| - |t|..] == t
  }

  /** The rest of a single-quoted scalar: its text and what follows the closing quote. */
  function Single(s: string): (r: Option<(string, string)>)
    ensures r.Some? ==> |r.value.0| + |r.value.1| < |s| && EndsWith(s, r.value.1)
  {
    if s == "" then None
    else if s[0] == '\'' && (|s| == 1 || s[1] != '\'') then Some(("", s[1..]))
    else
      var width := if s[0] == '\'' then 2 else 1;
      var rest := Single(s[width..]);
      if rest.None? then None else Some(([s[0]] + rest.value.0, rest.value.1))
  }

  function HexValue(c: char): Option<nat> {
    if '0' <= c <= '9' then Some(c as nat - '0' as nat)
    else if 'a' <= c <= 'f' then Some(c as nat - 'a' as nat + 10)
    else if 'A' <= c <= 'F' then Some(c as nat - 'A' as nat + 10)
    else None
  }

  function HexNumber(s: string): Option<nat> {
    if s == "" then Some(0)
    else
      var before, digit := HexNumber(s[..|s| - 1]), HexValue(s[|s| - 1]);
      if before.None? || digit.None? then None else Some(16 * before.value + digit.value)
  }

  /** The escape after a backslash: the character it means and its width. */
  function Escape(s: string): (r: Option<(char, nat)>)
    requires s != ""
    ensures r.Some? ==> 1 <= r.value.1 <= |s|
  {
    var c := s[0];
    if c in " \"/\\" then Some((c, 1))
    else if c == '0' then Some(('\0', 1))
    else if c == 'a' then Some((7 as char, 1))
    else if c == 'b' then Some((8 as char, 1))
    else if c == 't' || c == '\t' then Some(('\t', 1))
    else if c == 'n' then Some(('\n', 1))
    else if c == 'v' then Some((11 as char, 1))
    else if c == 'f' then Some((12 as char, 1))
    else if c == 'r' then Some(('\r', 1))
    else if c == 'e' then Some((27 as char, 1))
    else if c == 'N' then Some((0x85 as char, 1))
    else if c == '_' then Some((0xA0 as char, 1))
    else if c == 'L' then Some((0x2028 as char, 1))
    else if c == 'P' then Some((0x2029 as char, 1))
    else
      var digits := if c == 'x' then 2 else if c == 'u' then 4 else if c == 'U' then 8 else 0;
      if digits == 0 || |s| <= digits then None
      else
        var n := HexNumber(s[1..digits + 1]);
        if n.None? || 0xD800 <= n.value < 0xE000 || n.value >= 0x11_0000 then None
        else Some((n.value as char, digits + 1))
  }

  /** The rest of a double-quoted scalar. */
  function Double(s: string): (r: Option<(string, string)>)
    ensures r.Some? ==> |r.value.0| + |r.value.1| < |s| && EndsWith(s, r.value.1)
    decreases |s|
  {
    if s == "" then None
    else if s[0] == '"' then Some(("", s[1..]))
    else if s[0] == '\\' then
      if |s| == 1 then None
      else
        var escape := Escape(s[1..]);
        if escape.None? then None
        else
          var rest := Double(s[1 + escape.value.1..]);
          if rest.None? then None else Some(([escape.value.0] + rest.value.0, rest.value.1))
    else
      var rest := Double(s[1..]);
      if rest.None? then None else Some(([s[0]] + rest.value.0, rest.value.1))
  }

  /** Where the word at the start ends. */
  function PropertyEnd(s: string): (k: nat)
    ensures k <= |s|
  {
    if s == "" || White(s[0]) then 0 else 1 + PropertyEnd(s[1..])
  }

  // ----- values

  /** Nothing but white space and perhaps a comment follows. */
  predicate OnlyComment(s: string) {
    var t := SkipWhite(s);
    t == "" || (t[0] == '#' && |t| < |s|)
  }

  function QuotedWord(quoted: Option<(string, string)>): Option<string> {
    if quoted.None? || !OnlyComment(quoted.value.1) then None else Some(quoted.value.0)
  }

  function PlainWord(s: string): Option<string> {
    var k := PlainEnd(s, 0);
    if k < |s| && EndsKey(s, k) then None
    else
      var word := DropWhite(s[..k]);
      if !StartsPlain(word) then None else Some(if NullWord(word) then "" else word)
  }

  /** The scalar after a key's colon: nothing is the empty string, a comment is dropped, quotes
      hold the text, an anchor or tag is not part of it. A collection is no string, and one that
      goes on over the line's end is beyond this reader. */
  function ReadWord(s: string): Option<string>
    decreases |s|
  {
    if OnlyComment(s) then Some("")
    else
      var t := SkipWhite(s);
      if t[0] == '\'' then QuotedWord(Single(t[1..]))
      else if t[0] == '"' then QuotedWord(Double(t[1..]))
      else if t[0] == '&' || t[0] == '!' then
        var k := PropertyEnd(t);
        if k == 0 then None else ReadWord(t[k..])
      else PlainWord(t)
  }

  // ----- keys

  datatype Entry = Pair(key: string, value: string) | Nothing | Refused

  function WithWord(key: string, rest: string): Entry {
    var word := ReadWord(rest);
    if word.None? then Refused else Pair(key, word.value)
  }

  /** A plain key: at most 1024 characters on one line; a null key is no entry. */
  function ReadPlain(s: string): Entry {
    var k := PlainEnd(s, 0);
    if k == |s| || !EndsKey(s, k) || k > 1024 then Refused
    else
      var key := DropWhite(s[..k]);
      if key == MERGE then Refused
      else if NullWord(key) then (if ReadWord(s[k + 1..]).None? then Refused else Nothing)
      else WithWord(key, s[k + 1..])
  }

  /** A quoted key, from what its quotes hold and what follows them. */
  function ReadQuoted(quoted: Option<(string, string)>): Entry {
    if quoted.None? then Refused
    else
      var rest := SkipWhite(quoted.value.1);
      if rest == "" || !EndsKey(rest, 0) then Refused else WithWord(quoted.value.0, rest[1..])
  }

  /** One entry, without its indentation. Quotes hold the key; an anchor or tag is not part of it.
      An alias can only name an earlier key, which may not come twice. A flow collection, a nested
      sequence or mapping is no string; a block scalar and the reserved characters start no key. */
  function ReadEntry(s: string): Entry
    decreases |s|
  {
    if s == "" then Refused
    else if s[0] == '\'' then ReadQuoted(Single(s[1..]))
    else if s[0] == '"' then ReadQuoted(Double(s[1..]))
    else if s[0] == '&' || s[0] == '!' then
      var k := PropertyEnd(s);
      if k == 0 then Refused else ReadEntry(SkipWhite(s[k..]))
    else if !StartsPlain(s) then Refused
    else ReadPlain(s)
  }

  // ----- the mapping

  /** Every line break is one. */
  function Breaks(text: string): (r: string)
    ensures |r| == |text|
    ensures forall i :: 0 <= i < |r| ==> r[i] == if Break(text[i]) then '\n' else text[i]
  {
    seq(|text|, i requires 0 <= i < |text| => if Break(text[i]) then '\n' else text[i])
  }

  predicate Comment(line: string) {
    var t := SkipWhite(line);
    t == "" || t[0] == '#'
  }

  function Content(lines: seq<string>): (r: seq<string>) {
    if lines == [] then []
    else (if Comment(lines[0]) then [] else [lines[0]]) + Content(lines[1..])
  }

  /** The entries at one indentation; a repeated key is an error. A line at another indentation
      continues or closes something this reader does not read. */
  function ReadEntries(lines: seq<string>, indent: nat): Option<map<string, string>> {
    if lines == [] then Some(map[])
    else
      var line := lines[|lines| - 1];
      var before := ReadEntries(lines[..|lines| - 1], indent);
      if before.None? || Indent(line) != indent then None
      else match ReadEntry(line[indent..])
        case Refused => None
        case Nothing => before
        case Pair(key, value) => if key in before.value then None else Some(before.value[key := value])
  }

  /** The mapping under the one key `taxonomy`. */
  function ReadSection(text: string): Option<map<string, string>> {
    if exists i :: 0 <= i < |text| && !Printable(text[i]) then None
    else
      var content := Content(Split(Breaks(text), '\n'));
      if content == [] || content == ["taxonomy:"] then Some(map[])
      else if content[0] != "taxonomy:" || Indent(content[1]) == 0 then None
      else ReadEntries(content[1..], Indent(content[1]))
  }

  // ----- which keys are read as their own text

  /** A plain scalar that may stand as an implicit key, before its colon, and is read as its text. */
  predicate PlainSafe(s: string) {
    && 0 < |s| <= 1024 && !NullWord(s) && s != MERGE
    && !White(s[0]) && !White(s[|s| - 1]) && !Indicator(s[0])
    && (MaybeIndicator(s[0]) && |s| > 1 ==> !White(s[1]))
    && (forall i :: 0 <= i < |s| ==> Printable(s[i]) && !Break(s[i]))
    && (forall i :: 0 <= i < |s| - 1 ==> !EndsKey(s, i))
    && (forall i :: 0 <= i < |s| ==> !StartsComment(s, i))
  }

  /** A safe key before a colon, white space and a word is read as itself. */
  lemma SafeKeyRead(key: string, rest: string)
    requires PlainSafe(key) && rest != "" && White(rest[0]) && ReadWord(rest).Some?
    ensures ReadEntry(key + ":" + rest) == Pair(key, ReadWord(rest).value)
  {
    var s := key + ":" + rest;
    SafeKeyEnds(key, rest);
    assert s[..|key|] == key && s[|key| + 1..] == rest;
    assert s[0] == key[0] && (|key| > 1 ==> s[1] == key[1]) && (|key| == 1 ==> s[1] == ':');
    assert DropWhite(key) == key;
  }

  lemma InsideKey(key: string, rest: string, i: nat)
    requires PlainSafe(key) && i < |key|
    ensures !EndsKey(key + ":" + rest, i) && !StartsComment(key + ":" + rest, i)
  {
    var s := key + ":" + rest;
    assert s[i] == key[i] && s[i + 1] == if i + 1 < |key| then key[i + 1] else ':';
    assert i < |key| - 1 ==> !EndsKey(key, i);
    if i > 0 {
      assert s[i - 1] == key[i - 1];
      assert !StartsComment(key, i);
    }
  }

  lemma SafeKeyEnds(key: string, rest: string)
    requires PlainSafe(key) && rest != "" && White(rest[0])
    ensures PlainEnd(key + ":" + rest, 0) == |key| && EndsKey(key + ":" + rest, |key|)
  {
    var s := key + ":" + rest;
    var k := PlainEnd(s, 0);
    assert EndsKey(s, |key|);
    if k < |key| {
      InsideKey(key, rest, k);
    }
  }

  predicate Clear(s: string) {
    forall i :: 0 <= i < |s| ==> Printable(s[i]) && !Break(s[i])
  }

  /** Some colon stands beyond as many characters as the key has, and one. */
  predicate ColonBeyond(s: string, key: string) {
    exists j :: |key| < j < |s| && s[j] == ':'
  }

  lemma ColonLater(s: string, t: string, key: string)
    requires |t| <= |s| && s[|s| - |t|..] == t && ColonBeyond(t, key)
    ensures ColonBeyond(s, key)
  {
    var j :| |key| < j < |t| && t[j] == ':';
    assert s[|s| - |t| + j] == ':';
  }

  /** A plain key is safe. */
  lemma PlainKeyIsSafe(s: string)
    requires StartsPlain(s) && Clear(s) && ReadPlain(s).Pair?
    ensures PlainSafe(ReadPlain(s).key)
  {
    var k := PlainEnd(s, 0);
    var key := DropWhite(s[..k]);
    assert forall i :: 0 <= i < |key| ==> key[i] == s[i];
    assert key[0] == s[0];
    forall i | 0 <= i < |key| - 1 ensures !EndsKey(key, i) {
      assert !EndsKey(s, i);
    }
    forall i | 0 <= i < |key| ensures !StartsComment(key, i) {
      assert !StartsComment(s, i);
    }
  }

  lemma QuotedKeyIsShorter(s: string, quoted: Option<(string, string)>)
    requires s != "" && ReadQuoted(quoted).Pair? && EndsWith(s[1..], quoted.value.1)
    requires |quoted.value.0| + |quoted.value.1| < |s| - 1
    ensures ColonBeyond(s, ReadQuoted(quoted).key)
  {
    var tail, rest := s[1..], SkipWhite(quoted.value.1);
    assert tail[|tail| - |rest|] == quoted.value.1[|quoted.value.1| - |rest|] == rest[0];
    assert s[|s| - |rest|] == ':';
  }

  lemma ClearTail(s: string, k: nat)
    requires Clear(s) && k <= |s|
    ensures Clear(s[k..])
  {
  }

  /** What follows an anchor or tag. */
  lemma AfterProperty(s: string)
    ensures var t := SkipWhite(s[PropertyEnd(s)..]);
            |t| <= |s| && s[|s| - |t|..] == t
  {
    var rest := s[PropertyEnd(s)..];
    var t := SkipWhite(rest);
    assert rest[|rest| - |t|..] == t;
    assert s[|s| - |t|..] == rest[|rest| - |t|..];
  }

  lemma QuotedShape(s: string)
    requires s != "" && (s[0] == '\'' || s[0] == '"') && ReadEntry(s).Pair?
    ensures ColonBeyond(s, ReadEntry(s).key)
  {
    QuotedKeyIsShorter(s, if s[0] == '\'' then Single(s[1..]) else Double(s[1..]));
  }

  predicate Property(c: char) {
    c == '&' || c == '!'
  }

  /** What follows the property. */
  function Unprefixed(s: string): string {
    SkipWhite(s[PropertyEnd(s)..])
  }

  lemma PropertyDropped(s: string)
    requires s != "" && Property(s[0]) && ReadEntry(s).Pair?
    ensures |Unprefixed(s)| < |s| && ReadEntry(Unprefixed(s)) == ReadEntry(s)
  {
  }

  lemma PlainShape(s: string)
    requires s != "" && s[0] != '\'' && s[0] != '"' && !Property(s[0]) && Clear(s) && ReadEntry(s).Pair?
    ensures PlainSafe(ReadEntry(s).key)
  {
    PlainKeyIsSafe(s);
  }

  predicate Shaped(s: string, key: string) {
    PlainSafe(key) || ColonBeyond(s, key)
  }

  lemma ShapedLater(s: string, t: string, key: string)
    requires |t| <= |s| && s[|s| - |t|..] == t && Shaped(t, key)
    ensures Shaped(s, key)
  {
    if !PlainSafe(key) {
      ColonLater(s, t, key);
    }
  }

  lemma UnprefixedClear(s: string)
    requires Clear(s)
    ensures Clear(Unprefixed(s))
  {
    AfterProperty(s);
    ClearTail(s, |s| - |Unprefixed(s)|);
  }

  /** Whatever an entry is, the key read from it is a safe plain scalar or shorter than what
      stands before its colon. */
  lemma {:induction false} KeyShape(s: string)
    requires Clear(s) && ReadEntry(s).Pair?
    ensures Shaped(s, ReadEntry(s).key)
    decreases |s|
  {
    if s[0] == '\'' || s[0] == '"' {
      QuotedShape(s);
    } else if Property(s[0]) {
      PropertyDropped(s);
      UnprefixedClear(s);
      KeyShape(Unprefixed(s));
      AfterProperty(s);
      ShapedLater(s, Unprefixed(s), ReadEntry(s).key);
    } else {
      PlainShape(s);
    }
  }

  // ----- lines

  lemma SplitOne(s: string, sep: char, first: string, rest: string)
    requires s == first + [sep] + rest && sep !in first
    ensures Split(s, sep) == [first] + Split(rest, sep)
  {
    var k := IndexOf(s, sep);
    assert s[|first|] == sep && forall i :: 0 <= i < |first| ==> s[i] == first[i];
    assert k == |first| && s[..k] == first && s[k + 1..] == rest;
  }

  lemma SplitAll(s: string, sep: char)
    requires sep !in s
    ensures Split(s, sep) == [s]
  {
  }

  /** A text is cut where its lines are put together. */
  lemma {:induction false} SplitAppend(a: string, b: string, sep: char)
    ensures Split(a + [sep] + b, sep) == Split(a, sep) + Split(b, sep)
    decreases |a|
  {
    if sep !in a {
      SplitAll(a, sep);
      SplitOne(a + [sep] + b, sep, a, b);
    } else {
      var k := IndexOf(a, sep);
      SplitHead(a, b, sep, a[..k], a[k + 1..]);
      SplitAppend(a[k + 1..], b, sep);
      Regroup([a[..k]], Split(a[k + 1..], sep), Split(b, sep));
    }
  }

  lemma SplitHead(a: string, b: string, sep: char, first: string, rest: string)
    requires a == first + [sep] + rest && sep !in first
    ensures Split(a, sep) == [first] + Split(rest, sep)
    ensures Split(a + [sep] + b, sep) == [first] + Split(rest + [sep] + b, sep)
  {
    SplitOne(a, sep, first, rest);
    assert a + [sep] + b == first + [sep] + (rest + [sep] + b);
    SplitOne(a + [sep] + b, sep, first, rest + [sep] + b);
  }

  lemma Regroup(a: seq<string>, b: seq<string>, c: seq<string>)
    ensures a + (b + c) == a + b + c
  {
  }

  /** The piece stands at `o`, at the start or after a separator. */
  predicate StandsAt(s: string, sep: char, piece: string, o: nat) {
    && o + |piece| <= |s| && s[o..o + |piece|] == piece && (o == 0 || s[o - 1] == sep)
  }

  lemma StandsLater(s: string, sep: char, k: nat, piece: string, p: nat)
    requires k < |s| && s[k] == sep && StandsAt(s[k + 1..], sep, piece, p)
    ensures StandsAt(s, sep, piece, k + 1 + p)
  {
    var t := s[k + 1..];
    assert s[k + 1 + p..k + 1 + p + |piece|] == t[p..p + |piece|];
    assert p > 0 ==> s[k + p] == t[p - 1];
  }

  /** Where a piece of a split text stands. */
  lemma {:induction false} PieceAt(s: string, sep: char, piece: string) returns (o: nat)
    requires piece in Split(s, sep)
    ensures StandsAt(s, sep, piece, o) && sep !in piece
    ensures o == 0 ==> piece == s[..IndexOf(s, sep)]
    decreases |s|
  {
    var k := IndexOf(s, sep);
    if piece == s[..k] {
      o := 0;
    } else {
      var p := PieceAt(s[k + 1..], sep, piece);
      StandsLater(s, sep, k, piece, p);
      o := k + 1 + p;
    }
  }

  lemma {:induction false} ContentSum(a: seq<string>, b: seq<string>)
    ensures Content(a + b) == Content(a) + Content(b)
  {
    if a == [] {
      assert a + b == b;
    } else {
      ContentSum(a[1..], b);
      ContentFirst(a, b);
    }
  }

  lemma ContentFirst(a: seq<string>, b: seq<string>)
    requires a != []
    ensures Content(a + b) == (if Comment(a[0]) then [] else [a[0]]) + Content(a[1..] + b)
  {
    assert (a + b)[1..] == a[1..] + b;
  }

  lemma {:induction false} ContentMembers(lines: seq<string>, line: string)
    ensures line in Content(lines) <==> line in lines && !Comment(line)
  {
    if lines == [] {
    } else {
      ContentMembers(lines[1..], line);
      assert lines == [lines[0]] + lines[1..];
    }
  }

  /** Where a key of the mapping is read. */
  lemma {:induction false} KeyFromLine(lines: seq<string>, indent: nat, key: string) returns (line: string)
    requires ReadEntries(lines, indent).Some? && key in ReadEntries(lines, indent).value
    ensures line in lines && Indent(line) == indent && ReadEntry(line[indent..]) == Pair(key, ReadEntries(lines, indent).value[key])
  {
    var n := |lines| - 1;
    line := lines[n];
    var e := ReadEntry(line[indent..]);
    if e.Pair? && e.key == key {
    } else {
      line := KeyFromLine(lines[..n], indent, key);
      assert line in lines[..n];
    }
  }
}
