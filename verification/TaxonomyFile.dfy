/** The `.engineering.yaml` printers of `internal/taxonomy/propose.go` and
    `internal/cli/setup_rules.go`, and what a YAML decoder makes of the file they write. */
module TaxonomyFile {
  import opened Wrappers
  import opened Text
  import opened Sorting
  import opened Taxonomy
  import opened Yaml

  const HOLDINGS: string := "# What this repository's " + "directories hold."
  const PROPOSED_BY: string := "# Proposed by " + "`eng taxonomy auto`; " + "edit freely — " + "this file is yours."
  const EDIT_FREELY: string := "# Edit freely — " + "this file is yours."
  const FRONT_MATTER_WINS: string := "# A document's own `doc:` " + "front matter always " + "wins over these lines."

  const PROPOSED_HEADER: seq<string> := [HOLDINGS, PROPOSED_BY, FRONT_MATTER_WINS]

  const DECLARED_HEADER: seq<string> := [HOLDINGS, EDIT_FREELY, FRONT_MATTER_WINS]

  // ----- printing

  function Spaces(n: nat): (s: string)
    ensures |s| == n && forall i :: 0 <= i < n ==> s[i] == ' '
  {
    seq(n, i => ' ')
  }

  /** The `%-*s` verb. */
  function PadRight(s: string, width: nat): string {
    s + Spaces(if |s| < width then width - |s| else 0)
  }

  function EntryLine(m: Mapping, width: nat): string {
    "  " + PadRight(m.pattern + ":", width) + " " + m.declared
  }

  function Width(lines: seq<Mapping>): nat {
    if lines == [] then 0
    else
      var w := Width(lines[..|lines| - 1]);
      var n := |lines[|lines| - 1].pattern| + 1;
      if n > w then n else w
  }

  function EntryLines(lines: seq<Mapping>, width: nat): (r: seq<string>)
    ensures |r| == |lines| && forall i :: 0 <= i < |lines| ==> r[i] == EntryLine(lines[i], width)
  {
    seq(|lines|, i requires 0 <= i < |lines| => EntryLine(lines[i], width))
  }

  function FileLines(header: seq<string>, lines: seq<Mapping>): seq<string> {
    header + ["taxonomy:"] + EntryLines(lines, Width(lines)) + [""]
  }

  method WidthOf(lines: seq<Mapping>) returns (width: nat)
    ensures width == Width(lines)
  {
    width := 0;
    for i := 0 to |lines|
      invariant width == Width(lines[..i])
    {
      assert lines[..i + 1][..i] == lines[..i];
      var n := |lines[i].pattern| + 1;
      if n > width {
        width := n;
      }
    }
    assert lines[..|lines|] == lines;
  }

  /** `renderTaxonomy`, and `YAML` once its lines are merged. */
  method RenderTaxonomy(header: seq<string>, lines: seq<Mapping>) returns (text: string)
    ensures text == Join(FileLines(header, lines), "\n")
  {
    var width := WidthOf(lines);
    ghost var all := FileLines(header, lines);
    text := "";
    for i := 0 to |header|
      invariant text == Written(header[..i])
    {
      text := text + header[i] + "\n";
      WriteOne(header[..i], header[i]);
      assert header[..i + 1] == header[..i] + [header[i]];
    }
    assert header[..|header|] == header;
    WriteOne(header, "taxonomy:");
    text := text + "taxonomy:" + "\n";
    ghost var start := header + ["taxonomy:"];
    ghost var entries := EntryLines(lines, width);
    assert start + entries[..0] == start;
    for i := 0 to |lines|
      invariant text == Written(start + entries[..i])
    {
      text := text + EntryLine(lines[i], width) + "\n";
      WriteOne(start + entries[..i], entries[i]);
      assert start + entries[..i + 1] == start + entries[..i] + [entries[i]];
    }
    assert start + entries[..|lines|] == start + entries;
    JoinIsWritten(start + entries);
    assert all == start + entries + [""];
  }

  function Written(lines: seq<string>): string {
    if lines == [] then "" else lines[0] + "\n" + Written(lines[1..])
  }

  lemma {:induction false} WriteOne(lines: seq<string>, line: string)
    ensures Written(lines + [line]) == Written(lines) + line + "\n"
  {
    if lines == [] {
    } else {
      WriteOne(lines[1..], line);
      assert (lines + [line])[1..] == lines[1..] + [line];
    }
  }

  lemma {:induction false} JoinIsWritten(lines: seq<string>)
    ensures Join(lines + [""], "\n") == Written(lines)
  {
    if lines == [] {
    } else {
      JoinIsWritten(lines[1..]);
      assert (lines + [""])[1..] == lines[1..] + [""];
    }
  }

  // ----- the mapping that is printed

  function FileOf(lines: seq<Mapping>): (file: map<string, string>)
    ensures forall p :: p in file ==> exists i :: 0 <= i < |lines| && lines[i].pattern == p
  {
    if lines == [] then map[]
    else
      var n := |lines| - 1;
      FileOf(lines[..n])[lines[n].pattern := lines[n].declared]
  }

  lemma {:induction false} FileOfMembers(lines: seq<Mapping>)
    requires DistinctPatterns(lines)
    ensures forall m :: m in lines ==> m.pattern in FileOf(lines) && FileOf(lines)[m.pattern] == m.declared
    ensures forall p :: p in FileOf(lines) ==> exists m :: m in lines && m.pattern == p
  {
    if lines == [] {
    } else {
      var n := |lines| - 1;
      FileOfMembers(lines[..n]);
      assert lines == lines[..n] + [lines[n]];
      forall m | m in lines
        ensures m.pattern in FileOf(lines) && FileOf(lines)[m.pattern] == m.declared
      {
        var k :| 0 <= k < |lines| && lines[k] == m;
      }
      forall p | p in FileOf(lines) ensures exists m :: m in lines && m.pattern == p {
        if p == lines[n].pattern {
          assert lines[n] in lines;
        } else {
          var m :| m in lines[..n] && m.pattern == p;
          assert m in lines;
        }
      }
    }
  }

  // ----- one printed entry

  /** The blanks between a line's colon and its word. */
  function Blanks(m: Mapping, width: nat): (n: nat)
    ensures n > 0
  {
    (if |m.pattern| + 1 < width then width - |m.pattern| - 1 else 0) + 1
  }

  /** An entry without its indentation. */
  function Body(m: Mapping, width: nat): string {
    m.pattern + ":" + (Spaces(Blanks(m, width)) + m.declared)
  }

  lemma EntryIsBody(m: Mapping, width: nat)
    ensures EntryLine(m, width) == "  " + Body(m, width)
    ensures EntryLine(m, width)[2..] == Body(m, width)
  {
    var n := Blanks(m, width);
    assert Spaces(n) == Spaces(n - 1) + " ";
  }

  /** A word of the vocabulary as taxonomy lines hold one. */
  predicate KnownWord(word: string) {
    CanonicalType(word).Some? && TrimSpace(word) == word
  }

  predicate Letters(s: string) {
    forall i :: 0 <= i < |s| ==> 'a' <= LowerChar(s[i]) <= 'z'
  }

  lemma KnownLetters(word: string)
    requires KnownWord(word)
    ensures Letters(word) && |word| > 3 && !NullWord(word)
  {
    var name := ToLower(word);
    assert CanonicalEntry(name).Some?;
    CanonicalLetters(name);
    assert name[0] == LowerChar(word[0]);
  }

  lemma CanonicalLetters(name: string)
    requires CanonicalEntry(name).Some?
    ensures |name| > 3 && name[0] != 'n' && forall i :: 0 <= i < |name| ==> 'a' <= name[i] <= 'z'
  {
  }

  lemma {:induction false} SkipSpaces(n: nat, s: string)
    ensures SkipWhite(Spaces(n) + s) == SkipWhite(s)
  {
    if n > 0 {
      assert (Spaces(n) + s)[1..] == Spaces(n - 1) + s;
      SkipSpaces(n - 1, s);
    } else {
      assert Spaces(0) + s == s;
    }
  }

  /** A word after blanks is read as itself. */
  lemma WordRead(n: nat, word: string)
    requires KnownWord(word)
    ensures ReadWord(Spaces(n) + word) == Some(word)
  {
    KnownLetters(word);
    SkipSpaces(n, word);
    PlainWordRead(word);
    PlainRead(Spaces(n) + word, word);
  }

  lemma PlainRead(s: string, word: string)
    requires SkipWhite(s) == word && word != "" && 'a' <= LowerChar(word[0]) <= 'z'
    ensures ReadWord(s) == PlainWord(word)
  {
    assert !OnlyComment(s);
  }

  lemma PlainWordRead(word: string)
    requires Letters(word) && word != "" && !NullWord(word)
    ensures PlainWord(word) == Some(word)
  {
    assert PlainEnd(word, 0) == |word|;
    assert word[..|word|] == word;
    assert DropWhite(word) == word;
  }

  /** What reading one printed entry finds. */
  predicate ReadsAs(line: string, m: Mapping) {
    && Indent(line) == 2 && ReadEntry(line[2..]) == Pair(m.pattern, m.declared)
    && Clear(line) && !Comment(line)
  }

  lemma EntryRead(m: Mapping, width: nat)
    requires PlainSafe(m.pattern) && KnownWord(m.declared)
    ensures ReadsAs(EntryLine(m, width), m)
  {
    var n := Blanks(m, width);
    EntryIsBody(m, width);
    WordRead(n, m.declared);
    SafeKeyRead(m.pattern, Spaces(n) + m.declared);
    BodyClear(m, n);
    Indented(Body(m, width));
  }

  lemma BodyClear(m: Mapping, n: nat)
    requires PlainSafe(m.pattern) && KnownWord(m.declared)
    ensures var body := m.pattern + ":" + (Spaces(n) + m.declared);
            Clear(body) && body[0] == m.pattern[0]
  {
    KnownLetters(m.declared);
    ClearSum(Spaces(n), m.declared);
    ClearSum(m.pattern, ":");
    ClearSum(m.pattern + ":", Spaces(n) + m.declared);
  }

  lemma ClearSum(a: string, b: string)
    ensures Clear(a + b) <==> Clear(a) && Clear(b)
  {
    assert forall i :: 0 <= i < |a| ==> a[i] == (a + b)[i];
    assert forall i :: 0 <= i < |b| ==> b[i] == (a + b)[|a| + i];
  }

  lemma Indented(body: string)
    requires body != "" && !White(body[0]) && body[0] != '#' && Clear(body)
    ensures Indent("  " + body) == 2 && Clear("  " + body) && !Comment("  " + body)
  {
    assert Spaces(2) == "  ";
    SkipSpaces(2, body);
    ClearSum("  ", body);
  }

  /** Only the pattern and the colon after it hold a colon. */
  lemma ColonsOf(m: Mapping, width: nat, i: nat)
    requires KnownWord(m.declared) && i < |EntryLine(m, width)| && EntryLine(m, width)[i] == ':'
    ensures i <= 2 + |m.pattern|
  {
    EntryIsBody(m, width);
    KnownLetters(m.declared);
    var tail := Spaces(Blanks(m, width)) + m.declared;
    assert forall k :: 0 <= k < |tail| ==> tail[k] != ':';
    assert EntryLine(m, width)[3 + |m.pattern|..] == tail;
  }

  // ----- the lines of the text

  /** The lines a reader makes of printed lines. */
  function Pieces(lines: seq<string>): seq<string> {
    if lines == [] then [] else Split(Breaks(lines[0]), '\n') + Pieces(lines[1..])
  }

  lemma {:induction false} JoinedPieces(lines: seq<string>)
    requires lines != []
    ensures Split(Breaks(Join(lines, "\n")), '\n') == Pieces(lines)
  {
    if |lines| == 1 {
      assert Pieces(lines[1..]) == [];
    } else {
      var rest := Join(lines[1..], "\n");
      assert Breaks(lines[0] + "\n" + rest) == Breaks(lines[0]) + ['\n'] + Breaks(rest);
      SplitAppend(Breaks(lines[0]), Breaks(rest), '\n');
      JoinedPieces(lines[1..]);
    }
  }

  lemma {:induction false} PiecesSum(a: seq<string>, b: seq<string>)
    ensures Pieces(a + b) == Pieces(a) + Pieces(b)
  {
    if a == [] {
      assert a + b == b;
    } else {
      PiecesSum(a[1..], b);
      assert (a + b)[1..] == a[1..] + b;
      Regroup(Split(Breaks(a[0]), '\n'), Pieces(a[1..]), Pieces(b));
    }
  }

  lemma ClearPiece(line: string)
    requires Clear(line)
    ensures Split(Breaks(line), '\n') == [line]
  {
    assert Breaks(line) == line;
    assert '\n' !in line;
  }

  lemma {:induction false} ClearPieces(lines: seq<string>)
    requires forall line :: line in lines ==> Clear(line)
    ensures Pieces(lines) == lines
  {
    if lines == [] {
    } else {
      ClearPiece(lines[0]);
      ClearPieces(lines[1..]);
    }
  }

  lemma {:induction false} PieceOf(lines: seq<string>, piece: string) returns (line: string)
    requires piece in Pieces(lines)
    ensures line in lines && piece in Split(Breaks(line), '\n')
  {
    line := lines[0];
    if piece !in Split(Breaks(line), '\n') {
      line := PieceOf(lines[1..], piece);
    }
  }

  lemma {:induction false} AllContent(lines: seq<string>)
    requires forall line :: line in lines ==> !Comment(line)
    ensures Content(lines) == lines
  {
    if lines == [] {
    } else {
      AllContent(lines[1..]);
    }
  }

  lemma {:induction false} NoContent(lines: seq<string>)
    requires forall line :: line in lines ==> Comment(line)
    ensures Content(lines) == []
  {
    if lines == [] {
    } else {
      NoContent(lines[1..]);
    }
  }

  predicate Readable(s: string) {
    forall i :: 0 <= i < |s| ==> Printable(s[i])
  }

  lemma ReadableSum(a: string, b: string)
    ensures Readable(a + b) <==> Readable(a) && Readable(b)
  {
    assert forall i :: 0 <= i < |a| ==> a[i] == (a + b)[i];
    assert forall i :: 0 <= i < |b| ==> b[i] == (a + b)[|a| + i];
  }

  lemma {:induction false} ReadableText(lines: seq<string>)
    ensures Readable(Join(lines, "\n")) <==> forall line :: line in lines ==> Readable(line)
  {
    if |lines| < 2 {
    } else {
      ReadableText(lines[1..]);
      ReadableSum(lines[0], "\n");
      ReadableSum(lines[0] + "\n", Join(lines[1..], "\n"));
      assert lines == [lines[0]] + lines[1..];
    }
  }

  // ----- headers

  predicate Header(header: seq<string>) {
    forall line :: line in header ==> Comment(line) && Clear(line)
  }

  lemma CommentLine(start: string, end: string)
    requires start != "" && start[0] == '#' && Clear(start) && Clear(end)
    ensures Comment(start + end) && Clear(start + end)
  {
    ClearSum(start, end);
  }

  lemma HoldingsComment()
    ensures Comment(HOLDINGS) && Clear(HOLDINGS)
  {
    CommentLine("# What this repository's ", "directories hold.");
  }

  lemma ProposedByComment()
    ensures Comment(PROPOSED_BY) && Clear(PROPOSED_BY)
  {
    ProposedByStart();
    var start := "# Proposed by " + "`eng taxonomy auto`; ";
    CommentLine(start, "edit freely — ");
    CommentLine(start + "edit freely — ", "this file is yours.");
  }

  lemma ProposedByStart()
    ensures var start := "# Proposed by " + "`eng taxonomy auto`; ";
            start != "" && start[0] == '#' && Clear(start)
  {
    CommentLine("# Proposed by ", "`eng taxonomy auto`; ");
  }

  lemma EditFreelyComment()
    ensures Comment(EDIT_FREELY) && Clear(EDIT_FREELY)
  {
    CommentLine("# Edit freely — ", "this file is yours.");
  }

  lemma FrontMatterWinsComment()
    ensures Comment(FRONT_MATTER_WINS) && Clear(FRONT_MATTER_WINS)
  {
    FrontMatterWinsStart();
    CommentLine("# A document's own `doc:` " + "front matter always ", "wins over these lines.");
  }

  lemma FrontMatterWinsStart()
    ensures var start := "# A document's own `doc:` " + "front matter always ";
            start != "" && start[0] == '#' && Clear(start)
  {
    CommentLine("# A document's own `doc:` ", "front matter always ");
  }

  lemma HeadersAreComments()
    ensures Header(PROPOSED_HEADER) && Header(DECLARED_HEADER)
  {
    HoldingsComment();
    ProposedByComment();
    EditFreelyComment();
    FrontMatterWinsComment();
  }

  // ----- what survives the round trip

  ghost predicate KnownWords(lines: seq<Mapping>) {
    forall m :: m in lines ==> KnownWord(m.declared)
  }

  function Printed(header: seq<string>, lines: seq<Mapping>): string {
    Join(FileLines(header, lines), "\n")
  }

  lemma KeyLine()
    ensures !Comment("taxonomy:") && Clear("taxonomy:")
  {
    assert SkipWhite("taxonomy:") == "taxonomy:";
  }

  /** What a reader finds below the comments: the key and what the entries come to. */
  lemma FileContent(header: seq<string>, lines: seq<Mapping>)
    requires Header(header)
    ensures Content(Split(Breaks(Printed(header, lines)), '\n'))
         == ["taxonomy:"] + Content(Pieces(EntryLines(lines, Width(lines))))
  {
    var entries := EntryLines(lines, Width(lines));
    var top := header + ["taxonomy:"];
    JoinedPieces(FileLines(header, lines));
    PiecesSum(top + entries, [""]);
    PiecesSum(top, entries);
    KeyLine();
    ClearPieces(top);
    ClearPieces([""]);
    ContentSum(top + Pieces(entries), [""]);
    ContentSum(top, Pieces(entries));
    TopContent(header);
  }

  lemma TopContent(header: seq<string>)
    requires Header(header)
    ensures Content(header + ["taxonomy:"]) == ["taxonomy:"] && Content([""]) == []
  {
    KeyLine();
    ContentSum(header, ["taxonomy:"]);
    NoContent(header);
    AllContent(["taxonomy:"]);
    NoContent([""]);
  }

  lemma {:induction false} EntriesRead(lines: seq<Mapping>, width: nat)
    requires DistinctPatterns(lines) && KnownWords(lines) && forall m :: m in lines ==> PlainSafe(m.pattern)
    ensures ReadEntries(EntryLines(lines, width), 2) == Some(FileOf(lines))
  {
    if lines == [] {
    } else {
      var n := |lines| - 1;
      EntriesRead(lines[..n], width);
      EntryRead(lines[n], width);
      assert EntryLines(lines, width)[..n] == EntryLines(lines[..n], width);
      assert lines[n].pattern !in FileOf(lines[..n]);
    }
  }

  lemma SafeFileReadsBack(header: seq<string>, lines: seq<Mapping>)
    requires Header(header) && DistinctPatterns(lines) && KnownWords(lines)
    requires forall m :: m in lines ==> PlainSafe(m.pattern)
    ensures ReadSection(Printed(header, lines)) == Some(FileOf(lines))
  {
    var entries := EntryLines(lines, Width(lines));
    SafeFileContent(header, lines);
    SectionOf(Printed(header, lines), entries);
    if lines == [] {
      assert FileOf(lines) == map[];
    } else {
      EntriesRead(lines, Width(lines));
    }
  }

  lemma SafeFileContent(header: seq<string>, lines: seq<Mapping>)
    requires Header(header) && KnownWords(lines) && forall m :: m in lines ==> PlainSafe(m.pattern)
    ensures var entries := EntryLines(lines, Width(lines));
            && Readable(Printed(header, lines)) && (forall i :: 0 <= i < |entries| ==> Indent(entries[i]) == 2)
            && Content(Split(Breaks(Printed(header, lines)), '\n')) == ["taxonomy:"] + entries
  {
    EntriesStand(lines, Width(lines));
    FileContent(header, lines);
    ReadableFile(header, lines);
  }

  /** Every printed entry is one line of content. */
  lemma EntriesStand(lines: seq<Mapping>, width: nat)
    requires KnownWords(lines) && forall m :: m in lines ==> PlainSafe(m.pattern)
    ensures Content(Pieces(EntryLines(lines, width))) == EntryLines(lines, width)
    ensures forall line :: line in EntryLines(lines, width) ==> Readable(line) && Indent(line) == 2
  {
    var entries := EntryLines(lines, width);
    forall line | line in entries ensures Clear(line) && !Comment(line) && Indent(line) == 2 {
      var i :| 0 <= i < |lines| && entries[i] == line;
      EntryRead(lines[i], width);
    }
    ClearPieces(entries);
    AllContent(entries);
  }

  lemma SectionOf(text: string, entries: seq<string>)
    requires Readable(text) && Content(Split(Breaks(text), '\n')) == ["taxonomy:"] + entries
    ensures ReadSection(text) == if entries == [] then Some(map[])
                                 else if Indent(entries[0]) == 0 then None
                                 else ReadEntries(entries, Indent(entries[0]))
  {
    var content := Content(Split(Breaks(text), '\n'));
    assert content[1..] == entries;
  }

  lemma ReadableFile(header: seq<string>, lines: seq<Mapping>)
    requires Header(header)
    ensures Readable(Printed(header, lines)) <==> forall line :: line in EntryLines(lines, Width(lines)) ==> Readable(line)
  {
    KeyLine();
    ReadableText(FileLines(header, lines));
  }

  /** The key read from a line that one entry became is safe or shorter than the entry's pattern;
      a safe pattern is read as itself. */
  lemma KeyOfPiece(m: Mapping, width: nat, piece: string, key: string)
    requires KnownWord(m.declared) && Readable(EntryLine(m, width))
    requires piece in Split(Breaks(EntryLine(m, width)), '\n')
    requires ReadsKey(piece, key)
    ensures PlainSafe(key) || (!PlainSafe(m.pattern) && |key| < |m.pattern|)
  {
    if PlainSafe(m.pattern) {
      EntryRead(m, width);
      ClearPiece(EntryLine(m, width));
    } else {
      var text := Breaks(EntryLine(m, width));
      var o := PieceAt(text, '\n', piece);
      PieceClear(EntryLine(m, width), piece, o);
      EntryColons(m, width);
      KeyWithin(text, piece, key, o, |m.pattern|);
    }
  }

  lemma KeyWithin(text: string, piece: string, key: string, o: nat, last: nat)
    requires IndentedTwo(text) && ColonsUpTo(text, 2 + last) && StandsAt(text, '\n', piece, o)
    requires o == 0 ==> piece == text[..IndexOf(text, '\n')]
    requires Clear(piece) && ReadsKey(piece, key)
    ensures PlainSafe(key) || |key| < last
  {
    var indent := Indent(piece);
    ClearTail(piece, indent);
    KeyShape(piece[indent..]);
    assert Shaped(piece[indent..], key);
    if !PlainSafe(key) {
      var i := ColonAfter(piece, indent, key);
      ColonWithin(text, piece, i, o, last);
    }
  }

  lemma ColonAfter(piece: string, indent: nat, key: string) returns (i: nat)
    requires indent <= |piece| && ColonBeyond(piece[indent..], key)
    ensures indent + |key| < i < |piece| && piece[i] == ':'
  {
    var j :| |key| < j < |piece[indent..]| && piece[indent..][j] == ':';
    i := indent + j;
  }

  predicate ReadsKey(piece: string, key: string) {
    Indent(piece) > 0 && ReadEntry(piece[Indent(piece)..]).Pair? && ReadEntry(piece[Indent(piece)..]).key == key
  }

  lemma PieceClear(line: string, piece: string, o: nat)
    requires Readable(line) && StandsAt(Breaks(line), '\n', piece, o) && '\n' !in piece
    ensures Clear(piece)
  {
    forall i | 0 <= i < |piece| ensures Printable(piece[i]) && !Break(piece[i]) {
      assert piece[i] == Breaks(line)[o + i];
    }
  }

  predicate IndentedTwo(text: string) {
    |text| >= 2 && text[0] == text[1] == ' '
  }

  predicate ColonsUpTo(text: string, last: nat) {
    forall i :: 0 <= i < |text| && text[i] == ':' ==> i <= last
  }

  /** The colons of a printed entry. */
  lemma EntryColons(m: Mapping, width: nat)
    requires KnownWord(m.declared)
    ensures IndentedTwo(Breaks(EntryLine(m, width))) && ColonsUpTo(Breaks(EntryLine(m, width)), 2 + |m.pattern|)
  {
    forall i | 0 <= i < |EntryLine(m, width)| && EntryLine(m, width)[i] == ':' ensures i <= 2 + |m.pattern| {
      ColonsOf(m, width, i);
    }
  }

  /** A colon of a piece is a colon of the text. */
  lemma ColonWithin(text: string, piece: string, i: nat, o: nat, last: nat)
    requires IndentedTwo(text) && ColonsUpTo(text, 2 + last) && StandsAt(text, '\n', piece, o)
    requires o == 0 ==> piece == text[..IndexOf(text, '\n')]
    requires Indent(piece) > 0 && i < |piece| && piece[i] == ':'
    ensures i <= last + Indent(piece)
  {
    PieceStart(text, piece, o);
    PieceColon(text, piece, o, i);
  }

  lemma PieceStart(text: string, piece: string, o: nat)
    requires IndentedTwo(text) && StandsAt(text, '\n', piece, o)
    requires o == 0 ==> piece == text[..IndexOf(text, '\n')]
    ensures o == 0 ==> Indent(piece) >= 2
    ensures o > 0 ==> o >= 3
  {
    if o == 0 {
      assert piece[0] == ' ' && piece[1] == ' ';
    }
  }

  lemma PieceColon(text: string, piece: string, o: nat, i: nat)
    requires StandsAt(text, '\n', piece, o) && i < |piece| && piece[i] == ':'
    ensures o + i < |text| && text[o + i] == ':'
  {
    assert text[o..o + |piece|][i] == ':';
  }

  /** An unsafe line whose pattern no other unsafe pattern exceeds. */
  lemma {:induction false} LongestUnsafe(lines: seq<Mapping>) returns (longest: Mapping)
    requires exists m :: m in lines && !PlainSafe(m.pattern)
    ensures longest in lines && !PlainSafe(longest.pattern)
    ensures forall m :: m in lines && !PlainSafe(m.pattern) ==> |m.pattern| <= |longest.pattern|
  {
    longest := lines[0];
    if exists m :: m in lines[1..] && !PlainSafe(m.pattern) {
      var other := LongestUnsafe(lines[1..]);
      if PlainSafe(longest.pattern) || |longest.pattern| < |other.pattern| {
        longest := other;
      }
    }
    assert lines == [lines[0]] + lines[1..];
  }

  lemma ReadFileIsSafe(header: seq<string>, lines: seq<Mapping>)
    requires Header(header) && DistinctPatterns(lines) && KnownWords(lines)
    requires ReadSection(Printed(header, lines)) == Some(FileOf(lines))
    ensures forall m :: m in lines ==> PlainSafe(m.pattern)
  {
    if exists m :: m in lines && !PlainSafe(m.pattern) {
      var longest := LongestUnsafe(lines);
      FileOfMembers(lines);
      var piece, m := LineOfKey(header, lines, longest.pattern);
      KeyOfPiece(m, Width(lines), piece, longest.pattern);
    }
  }

  /** The line a key was read from, and the mapping printed there. */
  lemma LineOfKey(header: seq<string>, lines: seq<Mapping>, key: string) returns (piece: string, m: Mapping)
    requires Header(header) && ReadSection(Printed(header, lines)).Some?
    requires key in ReadSection(Printed(header, lines)).value
    ensures m in lines && Readable(EntryLine(m, Width(lines)))
    ensures piece in Split(Breaks(EntryLine(m, Width(lines))), '\n') && ReadsKey(piece, key)
  {
    var entries := EntryLines(lines, Width(lines));
    var content := Content(Pieces(entries));
    FileContent(header, lines);
    ReadableFile(header, lines);
    assert content != [];
    piece := KeyFromLine(content, Indent(content[0]), key);
    ContentMembers(Pieces(entries), piece);
    var line := PieceOf(entries, piece);
    var i :| 0 <= i < |lines| && entries[i] == line;
    m := lines[i];
  }

  /** What either printer writes for distinct lines with known words reads back as those lines if
      and only if every pattern is a safe plain scalar. */
  lemma PrintedFileReadsBack(header: seq<string>, lines: seq<Mapping>)
    requires Header(header) && DistinctPatterns(lines) && KnownWords(lines)
    ensures ReadSection(Printed(header, lines)) == Some(FileOf(lines)) <==> forall m :: m in lines ==> PlainSafe(m.pattern)
  {
    if forall m :: m in lines ==> PlainSafe(m.pattern) {
      SafeFileReadsBack(header, lines);
    } else if ReadSection(Printed(header, lines)) == Some(FileOf(lines)) {
      ReadFileIsSafe(header, lines);
    }
  }

  /** A pattern that starts with a wildcard is taken for an alias, and no file with one reads back. */
  lemma LeadingWildcard(header: seq<string>, lines: seq<Mapping>, m: Mapping)
    requires Header(header) && DistinctPatterns(lines) && KnownWords(lines)
    requires m in lines && "*" <= m.pattern
    ensures ReadSection(Printed(header, lines)) != Some(FileOf(lines))
  {
    assert !PlainSafe(m.pattern);
    PrintedFileReadsBack(header, lines);
  }

  lemma AliasRefused(entry: string)
    requires "*" <= entry
    ensures ReadEntry(entry) == Refused
  {
    assert entry[0] == '*';
    assert !StartsPlain(entry);
  }

  /** A directory whose name starts with a tag is read without it. */
  lemma TagIsDropped(rest: string)
    requires rest != "" && !White(rest[0])
    ensures ReadEntry("!x " + rest) == ReadEntry(rest)
  {
    var s := "!x " + rest;
    assert s[1..] == "x " + rest;
    assert s[1..][1..] == s[2..] == " " + rest;
    assert PropertyEnd(s[2..]) == 0;
    assert PropertyEnd(s[1..]) == 1;
    assert SkipWhite(rest) == rest;
    assert (" " + rest)[1..] == rest;
    TagDropped(s, rest);
  }

  lemma TagDropped(s: string, rest: string)
    requires s != "" && s[0] == '!' && PropertyEnd(s) > 0 && Unprefixed(s) == rest
    ensures ReadEntry(s) == ReadEntry(rest)
  {
  }

  /** A directory's name may start with a dash. */
  lemma DashIsSafe()
    ensures PlainSafe("-drafts/**")
  {
  }

  /** Parsing the printed file gives exactly the printed lines, most specific first. */
  lemma PrintedLinesDeclared(lines: seq<Mapping>, rules: seq<Mapping>)
    requires DistinctPatterns(lines)
    requires forall m :: m in lines ==> ReadableLine(m.pattern, m.declared) && m == LineOf(m.pattern, m.declared)
    requires Declares(FileOf(lines), rules)
    ensures forall m :: m in rules <==> m in lines
  {
    FileOfMembers(lines);
    forall m | m in rules ensures m in lines {
      var o :| o in lines && o.pattern == m.pattern;
    }
  }

  // ----- a merge, once its file is read

  /** Under the file a rule merge writes, a path is decided by the more specific of what decided it
      before and what the added rule lines say. */
  lemma RuleMergeDecides(existing: seq<Mapping>, patterns: seq<string>, merged: seq<Mapping>, added: seq<string>,
                         rules: seq<Mapping>, novel: seq<Mapping>, path: string)
    requires WellFormed(existing) && IsRuleMerge(existing, patterns, merged, added)
    requires Declares(FileOf(merged), rules)
    requires StrictlySorted(Outranks, novel) && forall m :: m in novel <==> m.pattern in added && m == RuleLine(m.pattern)
    ensures Decides(rules, path) == Stronger(Decides(existing, path), Decides(novel, path))
  {
    RuleMergeReads(existing, patterns, merged, added, rules);
    MergeIsJoin(existing, novel, rules, path);
  }

  lemma RuleMergeReads(existing: seq<Mapping>, patterns: seq<string>, merged: seq<Mapping>, added: seq<string>, rules: seq<Mapping>)
    requires WellFormed(existing) && IsRuleMerge(existing, patterns, merged, added)
    requires Declares(FileOf(merged), rules)
    ensures forall m :: m in rules <==> m in merged
  {
    SortedByPatternDistinct(merged);
    FileOfMembers(merged);
    forall m | m in merged ensures ReadableLine(m.pattern, m.declared) && m == LineOf(m.pattern, m.declared) {
      if m !in existing {
        WordsAreTrimmed(Rule);
        CanonicalNamesRoundTrip(Rule);
      }
    }
    PrintedLinesDeclared(merged, rules);
  }

  lemma SortedByPatternDistinct(lines: seq<Mapping>)
    requires StrictlySorted(ByPattern, lines)
    ensures DistinctPatterns(lines)
  {
    StrLessIsTotalOrder();
    forall i, j | 0 <= i < j < |lines| ensures lines[i].pattern != lines[j].pattern {
      assert ByPattern(lines[i], lines[j]);
    }
  }
}
