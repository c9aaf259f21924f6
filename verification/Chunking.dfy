/** `internal/chunker/chunker.go`: how a document's text is cut into chunks. */
module Chunking {
  import opened Wrappers
  import opened Text
  import opened Identity
  import opened Storage
  import opened Pipeline

  // ----- headings

  /** How many '#' the line starts with. */
  function Level(line: string): (k: nat)
    ensures k <= |line|
    ensures forall i :: 0 <= i < k ==> line[i] == '#'
    ensures k < |line| ==> line[k] != '#'
  {
    if line == "" || line[0] != '#' then 0 else 1 + Level(line[1..])
  }

  function HeadingText(line: string): Option<string> {
    var level := Level(line);
    if level == 0 || level > 6 then None
    else if level < |line| && line[level] != ' ' && line[level] != '\t' then None
    else
      var text := TrimSpace(line[level..]);
      if text == "" then None else Some(text)
  }

  /** An ATX heading: one to six '#', a blank, and text. */
  predicate IsHeading(line: string, level: nat, text: string) {
    && 1 <= level <= 6 && level < |line| && (forall i :: 0 <= i < level ==> line[i] == '#')
    && (line[level] == ' ' || line[level] == '\t')
    && text == TrimSpace(line[level..]) && text != ""
  }

  lemma LevelIs(line: string, level: nat)
    requires level < |line| && (forall i :: 0 <= i < level ==> line[i] == '#') && line[level] != '#'
    ensures Level(line) == level
  {
  }

  lemma HeadingMeaning(line: string, text: string)
    ensures HeadingText(line) == Some(text) <==> exists level: nat :: IsHeading(line, level, text)
  {
    assert TrimSpace(line[|line|..]) == "";
    if HeadingText(line) == Some(text) {
      assert IsHeading(line, Level(line), text);
    }
    if level: nat :| IsHeading(line, level, text) {
      LevelIs(line, level);
    }
  }

  // ----- one walk over the lines

  /** The pieces cut so far, the heading in force and the lines not yet cut. */
  datatype State = State(pieces: seq<Piece>, heading: string, buf: seq<string>)

  const START := State([], "", [])

  function ContentOf(buf: seq<string>): string {
    TrimSpace(Join(buf, "\n"))
  }

  function Flushed(s: State): State {
    var content := ContentOf(s.buf);
    State(if content == "" then s.pieces else s.pieces + [Piece(s.heading, content)], s.heading, [])
  }

  datatype Strategy = ByHeading | ByParagraph

  function Step(how: Strategy, s: State, line: string): State {
    match HeadingText(line)
    case Some(text) => Flushed(s).(heading := text)
    case None => if how.ByParagraph? && TrimSpace(line) == "" then Flushed(s) else s.(buf := s.buf + [line])
  }

  function Walk(how: Strategy, lines: seq<string>): State {
    if lines == [] then START else Step(how, Walk(how, lines[..|lines| - 1]), lines[|lines| - 1])
  }

  /** The pieces of a document's text. */
  function Pieces(how: Strategy, content: string): seq<Piece> {
    Flushed(Walk(how, Split(content, '\n'))).pieces
  }

  // ----- the chunkers

  /** `domain.NewChunk` for an index that is not negative. */
  function NewChunk(documentId: string, index: nat, heading: string, content: string): Option<Chunk> {
    var id := TrimSpace(documentId);
    if id == "" then None else Some(Chunk(ChunkID(id, index), id, index, heading, content))
  }

  /** The chunks of the pieces, numbered from 0; a blank document id fails at the first of them. */
  function Numbered(documentId: string, pieces: seq<Piece>): Option<seq<Chunk>> {
    var id := TrimSpace(documentId);
    if id == "" && pieces != [] then None else Some(ChunksOf(id, pieces))
  }

  lemma NumberedNext(documentId: string, pieces: seq<Piece>, piece: Piece)
    ensures Numbered(documentId, pieces + [piece]) ==
            if Numbered(documentId, pieces).None? then None
            else match NewChunk(documentId, |pieces|, piece.heading, piece.content)
              case None => None
              case Some(c) => Some(Numbered(documentId, pieces).value + [c])
  {
    var id := TrimSpace(documentId);
    if id != "" {
      assert ChunksOf(id, pieces + [piece]) == ChunksOf(id, pieces) + [Chunk(ChunkID(id, |pieces|), id, |pieces|, piece.heading, piece.content)];
    }
  }

  /** The closure `flush`: what is buffered becomes a chunk unless it is blank. */
  method Flush(documentId: string, ghost s: State, heading: string, buf: seq<string>, before: seq<Chunk>) returns (chunks: Option<seq<Chunk>>)
    requires Numbered(documentId, s.pieces) == Some(before) && s.heading == heading && s.buf == buf
    ensures chunks == Numbered(documentId, Flushed(s).pieces)
  {
    var content := TrimSpace(Join(buf, "\n"));
    if content == "" {
      return Some(before);
    }
    NumberedNext(documentId, s.pieces, Piece(heading, content));
    var chunk := NewChunk(documentId, |before|, heading, content);
    if chunk.None? {
      return None;
    }
    return Some(before + [chunk.value]);
  }

  /** Pieces cut stay cut, so a failure is final. */
  lemma {:induction false} NumberedStops(documentId: string, how: Strategy, lines: seq<string>, k: nat)
    requires k <= |lines| && Numbered(documentId, Walk(how, lines[..k]).pieces).None?
    ensures Numbered(documentId, Flushed(Walk(how, lines)).pieces).None?
    decreases |lines| - k
  {
    if k < |lines| {
      assert lines[..k + 1][..k] == lines[..k];
      StepKeepsPieces(how, Walk(how, lines[..k]), lines[k]);
      NumberedStops(documentId, how, lines, k + 1);
    } else {
      assert lines[..k] == lines;
    }
  }

  lemma StepKeepsPieces(how: Strategy, s: State, line: string)
    ensures s.pieces <= Step(how, s, line).pieces
  {
  }

  /** What the loop variables of a chunker hold after some lines. */
  ghost predicate Holds(documentId: string, s: State, chunks: seq<Chunk>, heading: string, buf: seq<string>) {
    Numbered(documentId, s.pieces) == Some(chunks) && s.heading == heading && s.buf == buf
  }

  lemma WalkLast(how: Strategy, lines: seq<string>, n: nat)
    requires 0 < n <= |lines|
    ensures Walk(how, lines[..n]) == Step(how, Walk(how, lines[..n - 1]), lines[n - 1])
  {
    assert lines[..n][..n - 1] == lines[..n - 1];
  }

  /** `chunkByHeading`. */
  method ChunkByHeading(documentId: string, content: string) returns (r: Option<seq<Chunk>>)
    ensures r == Numbered(documentId, Pieces(ByHeading, content))
  {
    var chunks: seq<Chunk> := [];
    var heading, buf := "", [];
    var lines := Split(content, '\n');
    for i := 0 to |lines|
      invariant Holds(documentId, Walk(ByHeading, lines[..i]), chunks, heading, buf)
    {
      ghost var s := Walk(ByHeading, lines[..i]);
      WalkLast(ByHeading, lines, i + 1);
      var text := HeadingText(lines[i]);
      if text.Some? {
        var flushed := Flush(documentId, s, heading, buf, chunks);
        if flushed.None? {
          NumberedStops(documentId, ByHeading, lines, i + 1);
          return None;
        }
        chunks, buf := flushed.value, [];
        heading := text.value;
        continue;
      }
      buf := buf + [lines[i]];
    }
    assert lines[..|lines|] == lines;
    r := Flush(documentId, Walk(ByHeading, lines), heading, buf, chunks);
  }

  /** `chunkByParagraph`. */
  method ChunkByParagraph(documentId: string, content: string) returns (r: Option<seq<Chunk>>)
    ensures r == Numbered(documentId, Pieces(ByParagraph, content))
  {
    var chunks: seq<Chunk> := [];
    var heading, buf := "", [];
    var lines := Split(content, '\n');
    for i := 0 to |lines|
      invariant Holds(documentId, Walk(ByParagraph, lines[..i]), chunks, heading, buf)
    {
      ghost var s := Walk(ByParagraph, lines[..i]);
      WalkLast(ByParagraph, lines, i + 1);
      var text := HeadingText(lines[i]);
      if text.Some? || TrimSpace(lines[i]) == "" {
        var flushed := Flush(documentId, s, heading, buf, chunks);
        if flushed.None? {
          NumberedStops(documentId, ByParagraph, lines, i + 1);
          return None;
        }
        chunks, buf := flushed.value, [];
        if text.Some? {
          heading := text.value;
        }
        continue;
      }
      buf := buf + [lines[i]];
    }
    assert lines[..|lines|] == lines;
    r := Flush(documentId, Walk(ByParagraph, lines), heading, buf, chunks);
  }

  // ----- the text is conserved

  /** The characters that are not blank, in order. */
  function Visible(s: string): string {
    if s == "" then "" else (if IsSpace(s[0]) then "" else [s[0]]) + Visible(s[1..])
  }

  lemma {:induction false} VisibleSum(a: string, b: string)
    ensures Visible(a + b) == Visible(a) + Visible(b)
  {
    if a == "" {
      assert a + b == b;
    } else {
      assert (a + b)[1..] == a[1..] + b;
      VisibleSum(a[1..], b);
    }
  }

  lemma {:induction false} VisibleBlank(s: string)
    ensures Visible(s) == "" <==> Blank(s)
  {
    if s == "" {
    } else {
      VisibleBlank(s[1..]);
      assert forall i :: 0 < i < |s| ==> s[i] == s[1..][i - 1];
    }
  }

  lemma {:induction false} VisibleTrimLeft(s: string)
    ensures Visible(TrimLeft(s)) == Visible(s)
  {
    if s != "" && IsSpace(s[0]) {
      VisibleTrimLeft(s[1..]);
    }
  }

  lemma {:induction false} VisibleTrimRight(s: string)
    ensures Visible(TrimRight(s)) == Visible(s)
  {
    if s != "" && IsSpace(s[|s| - 1]) {
      VisibleTrimRight(s[..|s| - 1]);
      assert s == s[..|s| - 1] + [s[|s| - 1]];
      VisibleSum(s[..|s| - 1], [s[|s| - 1]]);
    }
  }

  lemma VisibleTrimmed(s: string)
    ensures Visible(TrimSpace(s)) == Visible(s)
    ensures TrimSpace(s) == "" <==> Visible(s) == ""
  {
    VisibleTrimLeft(s);
    VisibleTrimRight(TrimLeft(s));
    BlankTrims(s);
    VisibleBlank(s);
  }

  /** The visible characters of several texts. */
  function VisibleAll(texts: seq<string>): string {
    if texts == [] then "" else VisibleAll(texts[..|texts| - 1]) + Visible(texts[|texts| - 1])
  }

  lemma Regroup<T>(a: seq<T>, b: seq<T>, c: seq<T>)
    ensures a + (b + c) == (a + b) + c
  {
  }

  lemma {:induction false} VisibleAllSum(a: seq<string>, b: seq<string>)
    ensures VisibleAll(a + b) == VisibleAll(a) + VisibleAll(b)
  {
    if b == [] {
      assert a + b == a;
    } else {
      var n := |b| - 1;
      VisibleAllSum(a, b[..n]);
      VisibleLast(a, b);
      Regroup(VisibleAll(a), VisibleAll(b[..n]), Visible(b[n]));
    }
  }

  lemma VisibleLast(a: seq<string>, b: seq<string>)
    requires b != []
    ensures VisibleAll(a + b) == VisibleAll(a + b[..|b| - 1]) + Visible(b[|b| - 1])
  {
    assert (a + b)[..|a + b| - 1] == a + b[..|b| - 1];
  }

  lemma VisibleNewline()
    ensures Visible("\n") == ""
  {
    assert "\n"[1..] == "";
  }

  lemma VisibleLine(a: string, b: string)
    ensures Visible(a + "\n" + b) == Visible(a) + Visible(b)
  {
    VisibleNewline();
    var newline := "\n";
    VisibleSum(a + newline, b);
    VisibleSum(a, newline);
  }

  lemma VisibleOne(a: string)
    ensures VisibleAll([a]) == Visible(a)
  {
    assert [a][..0] == [];
  }

  lemma VisibleFirst(parts: seq<string>)
    requires parts != []
    ensures VisibleAll(parts) == Visible(parts[0]) + VisibleAll(parts[1..])
  {
    assert parts == [parts[0]] + parts[1..];
    VisibleAllSum([parts[0]], parts[1..]);
    VisibleOne(parts[0]);
  }

  lemma {:induction false} VisibleJoin(parts: seq<string>)
    ensures Visible(Join(parts, "\n")) == VisibleAll(parts)
  {
    if |parts| == 1 {
      VisibleOne(parts[0]);
      assert parts == [parts[0]];
    } else if |parts| > 1 {
      VisibleJoin(parts[1..]);
      VisibleFirst(parts);
      VisibleLine(parts[0], Join(parts[1..], "\n"));
    }
  }

  lemma VisibleContent(buf: seq<string>)
    ensures Visible(ContentOf(buf)) == VisibleAll(buf)
    ensures ContentOf(buf) == "" <==> VisibleAll(buf) == ""
  {
    VisibleJoin(buf);
    VisibleTrimmed(Join(buf, "\n"));
  }

  function Contents(pieces: seq<Piece>): (r: seq<string>)
    ensures |r| == |pieces| && forall i :: 0 <= i < |r| ==> r[i] == pieces[i].content
  {
    seq(|pieces|, i requires 0 <= i < |pieces| => pieces[i].content)
  }

  function Shown(pieces: seq<Piece>): string {
    VisibleAll(Contents(pieces))
  }

  lemma ShownSum(a: seq<Piece>, b: seq<Piece>)
    ensures Shown(a + b) == Shown(a) + Shown(b)
  {
    assert Contents(a + b) == Contents(a) + Contents(b);
    VisibleAllSum(Contents(a), Contents(b));
  }

  lemma ShownOne(p: Piece)
    ensures Shown([p]) == Visible(p.content)
  {
    assert Contents([p]) == [p.content];
    VisibleOne(p.content);
  }

  /** The lines that are not headings. */
  function Body(lines: seq<string>): seq<string> {
    if lines == [] then []
    else Body(lines[..|lines| - 1]) + (if HeadingText(lines[|lines| - 1]).None? then [lines[|lines| - 1]] else [])
  }

  lemma FlushShows(s: State)
    ensures Shown(Flushed(s).pieces) == Shown(s.pieces) + VisibleAll(s.buf)
  {
    VisibleContent(s.buf);
    if ContentOf(s.buf) != "" {
      var p := Piece(s.heading, ContentOf(s.buf));
      ShownSum(s.pieces, [p]);
      ShownOne(p);
    }
  }

  predicate Accounted(s: State, lines: seq<string>) {
    Shown(s.pieces) + VisibleAll(s.buf) == VisibleAll(Body(lines))
  }

  /** What a line adds to the text. */
  function Adds(line: string): string {
    if HeadingText(line).None? then Visible(line) else ""
  }

  lemma BodyNext(lines: seq<string>, line: string)
    ensures VisibleAll(Body(lines + [line])) == VisibleAll(Body(lines)) + Adds(line)
  {
    assert (lines + [line])[..|lines|] == lines;
    assert Body(lines + [line]) == Body(lines) + (if HeadingText(line).None? then [line] else []);
    if HeadingText(line).None? {
      VisibleAllSum(Body(lines), [line]);
      VisibleOne(line);
    } else {
      assert Body(lines) + [] == Body(lines);
    }
  }

  lemma StepShows(how: Strategy, s: State, line: string)
    ensures var r := Step(how, s, line);
            Shown(r.pieces) + VisibleAll(r.buf) == Shown(s.pieces) + VisibleAll(s.buf) + Adds(line)
  {
    if HeadingText(line).Some? {
      FlushShows(s);
    } else if how.ByParagraph? && TrimSpace(line) == "" {
      FlushShows(s);
      VisibleTrimmed(line);
    } else {
      VisibleAllSum(s.buf, [line]);
      VisibleOne(line);
    }
  }

  lemma {:induction false} WalkAccounts(how: Strategy, lines: seq<string>)
    ensures Accounted(Walk(how, lines), lines)
  {
    if lines == [] {
    } else {
      var n := |lines| - 1;
      WalkAccounts(how, lines[..n]);
      assert lines == lines[..n] + [lines[n]];
      StepShows(how, Walk(how, lines[..n]), lines[n]);
      BodyNext(lines[..n], lines[n]);
    }
  }

  /** Both structural strategies conserve the text: the visible characters of all chunks in
      order are those of the document's lines that are not headings. */
  lemma ChunkingConserves(how: Strategy, content: string)
    ensures Shown(Pieces(how, content)) == VisibleAll(Body(Split(content, '\n')))
  {
    var lines := Split(content, '\n');
    WalkAccounts(how, lines);
    FlushShows(Walk(how, lines));
  }

  // ----- where a piece comes from

  /** The heading in force before line `a`. */
  function NearestHeading(lines: seq<string>, a: nat): string
    requires a <= |lines|
  {
    if a == 0 then ""
    else match HeadingText(lines[a - 1])
      case Some(text) => text
      case None => NearestHeading(lines, a - 1)
  }

  predicate NoHeading(lines: seq<string>, a: nat, b: nat)
    requires b <= |lines|
  {
    forall i :: a <= i < b ==> HeadingText(lines[i]).None?
  }

  datatype Span = Span(from: nat, to: nat)

  /** The piece is the trimmed text of a run of lines, none of them a heading, under the nearest
      heading before them. */
  predicate FromLines(lines: seq<string>, run: Span, p: Piece) {
    && run.from < run.to <= |lines| && p.content == TrimSpace(Join(lines[run.from..run.to], "\n")) && p.content != ""
    && p.heading == NearestHeading(lines, run.from) && NoHeading(lines, run.from, run.to)
  }

  /** Runs in order and apart, one for each piece, that end by line `n`. */
  predicate Spanned(lines: seq<string>, n: nat, pieces: seq<Piece>, runs: seq<Span>) {
    && |runs| == |pieces|
    && (forall i :: 0 <= i < |pieces| ==> FromLines(lines, runs[i], pieces[i]))
    && (forall i, j :: 0 <= i < j < |runs| ==> runs[i].to <= runs[j].from)
    && (forall i :: 0 <= i < |runs| ==> runs[i].to <= n)
  }

  /** The buffer is the last lines before `n`, under the heading in force. */
  predicate Buffered(lines: seq<string>, n: nat, s: State)
    requires n <= |lines|
  {
    && |s.buf| <= n && s.buf == lines[n - |s.buf|..n] && NoHeading(lines, n - |s.buf|, n)
    && s.heading == NearestHeading(lines, n - |s.buf|) && s.heading == NearestHeading(lines, n)
  }

  lemma SpannedMore(lines: seq<string>, n: nat, pieces: seq<Piece>, runs: seq<Span>, m: nat, p: Piece)
    requires Spanned(lines, n, pieces, runs) && n <= m <= |lines| && FromLines(lines, Span(n, m), p)
    ensures Spanned(lines, m, pieces + [p], runs + [Span(n, m)])
  {
  }

  /** The runs once the buffer of a walk at line `n` is cut. */
  function RunsNext(n: nat, s: State, runs: seq<Span>): seq<Span>
    requires |s.buf| <= n
  {
    if ContentOf(s.buf) == "" then runs else runs + [Span(n - |s.buf|, n)]
  }

  lemma FlushRuns(lines: seq<string>, n: nat, s: State, runs: seq<Span>) returns (more: seq<Span>)
    requires n <= |lines| && Buffered(lines, n, s) && Spanned(lines, n - |s.buf|, s.pieces, runs)
    ensures Buffered(lines, n, Flushed(s)) && Spanned(lines, n, Flushed(s).pieces, more)
    ensures more == RunsNext(n, s, runs)
  {
    more := runs;
    if ContentOf(s.buf) != "" {
      more := runs + [Span(n - |s.buf|, n)];
      EmptyContent();
      SpannedMore(lines, n - |s.buf|, s.pieces, runs, n, Piece(s.heading, ContentOf(s.buf)));
    }
    assert lines[n..n] == [];
  }

  lemma EmptyContent()
    ensures ContentOf([]) == ""
  {
  }

  lemma GrowRuns(lines: seq<string>, n: nat, s: State)
    requires n < |lines| && Buffered(lines, n, s) && HeadingText(lines[n]).None?
    ensures Buffered(lines, n + 1, s.(buf := s.buf + [lines[n]]))
  {
    assert lines[n - |s.buf|..n + 1] == lines[n - |s.buf|..n] + [lines[n]];
  }

  lemma PassRuns(lines: seq<string>, n: nat, s: State)
    requires n < |lines| && Buffered(lines, n, s) && s.buf == []
    ensures HeadingText(lines[n]).None? ==> Buffered(lines, n + 1, s)
    ensures HeadingText(lines[n]).Some? ==> Buffered(lines, n + 1, s.(heading := HeadingText(lines[n]).value))
  {
    assert lines[n + 1..n + 1] == [];
  }

  predicate RunsOf(lines: seq<string>, n: nat, s: State, runs: seq<Span>)
    requires n <= |lines|
  {
    Buffered(lines, n, s) && Spanned(lines, n - |s.buf|, s.pieces, runs)
  }

  lemma GrownRuns(lines: seq<string>, n: nat, s: State, runs: seq<Span>)
    requires n < |lines| && RunsOf(lines, n, s, runs) && HeadingText(lines[n]).None?
    ensures RunsOf(lines, n + 1, s.(buf := s.buf + [lines[n]]), runs)
  {
    GrowRuns(lines, n, s);
  }

  lemma SpannedLater(lines: seq<string>, n: nat, pieces: seq<Piece>, runs: seq<Span>)
    requires Spanned(lines, n, pieces, runs)
    ensures Spanned(lines, n + 1, pieces, runs)
  {
  }

  lemma CutRuns(lines: seq<string>, n: nat, s: State, runs: seq<Span>) returns (more: seq<Span>)
    requires n < |lines| && RunsOf(lines, n, s, runs)
    ensures HeadingText(lines[n]).None? ==> RunsOf(lines, n + 1, Flushed(s), more)
    ensures HeadingText(lines[n]).Some? ==> RunsOf(lines, n + 1, Flushed(s).(heading := HeadingText(lines[n]).value), more)
    ensures more == RunsNext(n, s, runs)
  {
    more := FlushRuns(lines, n, s, runs);
    PassRuns(lines, n, Flushed(s));
    SpannedLater(lines, n, Flushed(s).pieces, more);
  }

  lemma StepRuns(how: Strategy, lines: seq<string>, n: nat, s: State, runs: seq<Span>) returns (more: seq<Span>)
    requires n < |lines| && RunsOf(lines, n, s, runs)
    ensures RunsOf(lines, n + 1, Step(how, s, lines[n]), more)
    ensures if Separates(how, lines[n]) then Step(how, s, lines[n]).buf == [] && more == RunsNext(n, s, runs)
            else |Step(how, s, lines[n]).buf| == |s.buf| + 1 && more == runs
  {
    BlankTrims(lines[n]);
    if HeadingText(lines[n]).Some? || (how.ByParagraph? && TrimSpace(lines[n]) == "") {
      more := CutRuns(lines, n, s, runs);
    } else {
      more := runs;
      GrownRuns(lines, n, s, runs);
    }
  }

  /** The runs of a walk that stands before line `n`. */
  ghost predicate RunsCut(how: Strategy, lines: seq<string>, n: nat, s: State, runs: seq<Span>)
    requires n <= |lines|
  {
    RunsOf(lines, n, s, runs) && CutWhole(how, lines, n, n - |s.buf|, runs)
  }

  lemma StepWhole(how: Strategy, lines: seq<string>, n: nat, s: State, runs: seq<Span>) returns (more: seq<Span>)
    requires n < |lines| && RunsCut(how, lines, n, s, runs)
    ensures RunsCut(how, lines, n + 1, Step(how, s, lines[n]), more)
  {
    more := StepRuns(how, lines, n, s, runs);
    CutStays(how, lines, n, s, runs, Step(how, s, lines[n]), more);
  }

  lemma NoRuns(how: Strategy, lines: seq<string>)
    ensures RunsCut(how, lines, 0, START, [])
  {
    assert lines[0..0] == [];
  }

  lemma {:induction false} WalkRuns(how: Strategy, lines: seq<string>, n: nat) returns (runs: seq<Span>)
    requires n <= |lines|
    ensures RunsCut(how, lines, n, Walk(how, lines[..n]), runs)
  {
    if n == 0 {
      runs := [];
      assert Walk(how, lines[..0]) == START;
      NoRuns(how, lines);
    } else {
      var before := WalkRuns(how, lines, n - 1);
      runs := StepWhole(how, lines, n - 1, Walk(how, lines[..n - 1]), before);
      WalkLast(how, lines, n);
    }
  }

  /** Every piece of either strategy is a run of the document's own lines under its nearest
      preceding heading, and the runs follow each other. They are all the stretches between two
      separating lines that show something: whole sections, or whole paragraphs. */
  lemma PiecesAreRuns(how: Strategy, content: string) returns (runs: seq<Span>)
    ensures Spanned(Split(content, '\n'), |Split(content, '\n')|, Pieces(how, content), runs)
    ensures forall run :: run in runs <==> Whole(how, Split(content, '\n'), run)
  {
    var lines := Split(content, '\n');
    var s := Walk(how, lines);
    var before := WalkRuns(how, lines, |lines|);
    assert lines[..|lines|] == lines;
    runs := FlushRuns(lines, |lines|, s, before);
    forall run ensures run in runs <==> Whole(how, lines, run) {
      LastRun(how, lines, s, before, run);
    }
  }

  // ----- whole sections and whole paragraphs

  /** A heading separates; between paragraphs a blank line does as well. */
  predicate Separates(how: Strategy, line: string) {
    HeadingText(line).Some? || (how == ByParagraph && Blank(line))
  }

  /** The lines from `a` up to `b` start the document or follow a separating line, and hold none. */
  predicate Unbroken(how: Strategy, lines: seq<string>, a: nat, b: nat) {
    && a <= b <= |lines| && (a == 0 || Separates(how, lines[a - 1]))
    && forall i :: a <= i < b ==> !Separates(how, lines[i])
  }

  /** All the lines between two separating ones, or an end of the document, showing something. */
  predicate Whole(how: Strategy, lines: seq<string>, run: Span) {
    && Unbroken(how, lines, run.from, run.to) && (run.to == |lines| || Separates(how, lines[run.to]))
    && TrimSpace(Join(lines[run.from..run.to], "\n")) != ""
  }

  /** Up to line `n` the runs are the whole stretches, and the one under way starts at `a`. */
  ghost predicate CutWhole(how: Strategy, lines: seq<string>, n: nat, a: nat, runs: seq<Span>) {
    Unbroken(how, lines, a, n) && forall run :: run in runs <==> run.to < n && Whole(how, lines, run)
  }

  lemma OneStart(how: Strategy, lines: seq<string>, a: nat, b: nat, n: nat)
    requires Unbroken(how, lines, a, n) && Unbroken(how, lines, b, n)
    ensures a == b
  {
  }

  lemma CutStays(how: Strategy, lines: seq<string>, n: nat, s: State, runs: seq<Span>, next: State, more: seq<Span>)
    requires n < |lines| && RunsCut(how, lines, n, s, runs) && RunsOf(lines, n + 1, next, more)
    requires if Separates(how, lines[n]) then next.buf == [] && more == RunsNext(n, s, runs)
             else |next.buf| == |s.buf| + 1 && more == runs
    ensures RunsCut(how, lines, n + 1, next, more)
  {
    var a := if Separates(how, lines[n]) then n + 1 else n - |s.buf|;
    WholeSoFar(how, lines, n, s, runs, a, more);
    assert a == n + 1 - |next.buf|;
  }

  lemma WholeSoFar(how: Strategy, lines: seq<string>, n: nat, s: State, runs: seq<Span>, a: nat, more: seq<Span>)
    requires n < |lines| && Buffered(lines, n, s) && CutWhole(how, lines, n, n - |s.buf|, runs)
    requires if Separates(how, lines[n]) then a == n + 1 && more == RunsNext(n, s, runs) else a == n - |s.buf| && more == runs
    ensures CutWhole(how, lines, n + 1, a, more)
  {
    forall run ensures run in more <==> run.to < n + 1 && Whole(how, lines, run) {
      RunStays(how, lines, n, s, runs, more, run);
    }
  }

  lemma RunStays(how: Strategy, lines: seq<string>, n: nat, s: State, runs: seq<Span>, more: seq<Span>, run: Span)
    requires n < |lines| && Buffered(lines, n, s) && CutWhole(how, lines, n, n - |s.buf|, runs)
    requires more == if Separates(how, lines[n]) then RunsNext(n, s, runs) else runs
    ensures run in more <==> run.to < n + 1 && Whole(how, lines, run)
  {
    if run.to == n && Whole(how, lines, run) {
      OneStart(how, lines, n - |s.buf|, run.from, n);
    }
  }

  lemma LastRun(how: Strategy, lines: seq<string>, s: State, runs: seq<Span>, run: Span)
    requires Buffered(lines, |lines|, s) && CutWhole(how, lines, |lines|, |lines| - |s.buf|, runs)
    ensures run in RunsNext(|lines|, s, runs) <==> Whole(how, lines, run)
  {
    if run.to == |lines| && Whole(how, lines, run) {
      OneStart(how, lines, |lines| - |s.buf|, run.from, |lines|);
    }
  }

  // ----- paragraphs subdivide sections

  /** The paragraphs from `cuts[i]` up to `cuts[i + 1]` make up section `i`. */
  ghost predicate MakesUp(section: Piece, paragraphs: seq<Piece>) {
    && paragraphs != [] && Shown(paragraphs) == Visible(section.content)
    && forall j :: 0 <= j < |paragraphs| ==> paragraphs[j].heading == section.heading
  }

  ghost predicate Increasing(cuts: seq<nat>) {
    forall i, j :: 0 <= i < j < |cuts| ==> cuts[i] <= cuts[j]
  }

  ghost predicate Subdivide(sections: seq<Piece>, paragraphs: seq<Piece>, cuts: seq<nat>) {
    && |cuts| == |sections| + 1 && cuts[0] == 0 && cuts[|sections|] == |paragraphs| && Increasing(cuts)
    && forall i :: 0 <= i < |sections| ==> MakesUp(sections[i], paragraphs[cuts[i]..cuts[i + 1]])
  }

  /** The two walks side by side: finished sections are subdivided, and the paragraphs after the
      last cut with the paragraph under way show what the section under way shows. */
  ghost predicate Abreast(h: State, p: State, cuts: seq<nat>) {
    && h.heading == p.heading && cuts != [] && cuts[|cuts| - 1] <= |p.pieces|
    && Subdivide(h.pieces, p.pieces[..cuts[|cuts| - 1]], cuts)
    && Tail(h, p, p.pieces[cuts[|cuts| - 1]..])
  }

  ghost predicate Tail(h: State, p: State, open: seq<Piece>) {
    && (forall j :: 0 <= j < |open| ==> open[j].heading == h.heading && Visible(open[j].content) != "")
    && Shown(open) + VisibleAll(p.buf) == VisibleAll(h.buf)
  }

  lemma ShownSomething(open: seq<Piece>)
    requires open != [] && Visible(open[|open| - 1].content) != ""
    ensures Shown(open) != ""
  {
    var n := |open| - 1;
    assert open == open[..n] + [open[n]];
    ShownSum(open[..n], [open[n]]);
    ShownOne(open[n]);
  }

  /** A paragraph ends within a section. */
  lemma ParagraphEnds(h: State, p: State, cuts: seq<nat>)
    requires Abreast(h, p, cuts)
    ensures Abreast(h, Flushed(p), cuts)
  {
    var c := cuts[|cuts| - 1];
    var open := p.pieces[c..];
    VisibleContent(p.buf);
    if ContentOf(p.buf) != "" {
      var piece := Piece(p.heading, ContentOf(p.buf));
      assert Flushed(p).pieces[c..] == open + [piece] && Flushed(p).pieces[..c] == p.pieces[..c];
      ShownSum(open, [piece]);
      ShownOne(piece);
    }
  }

  /** The section ends with its last paragraph. */
  lemma SectionEnds(h: State, p: State, cuts: seq<nat>) returns (more: seq<nat>)
    requires Abreast(h, p, cuts) && p.buf == []
    ensures Abreast(Flushed(h), p, more)
    ensures more[|more| - 1] == |p.pieces|
  {
    var c := cuts[|cuts| - 1];
    var open := p.pieces[c..];
    SectionMakesUp(h, p, open);
    assert p.pieces[|p.pieces|..] == [];
    if ContentOf(h.buf) == "" {
      more := cuts;
    } else {
      more := cuts + [|p.pieces|];
      OneMore(h.pieces, p.pieces, cuts, Piece(h.heading, ContentOf(h.buf)));
    }
  }

  /** The open paragraphs are what the section under way shows, none if it shows nothing. */
  lemma SectionMakesUp(h: State, p: State, open: seq<Piece>)
    requires Tail(h, p, open) && p.buf == []
    ensures if ContentOf(h.buf) == "" then open == [] else MakesUp(Piece(h.heading, ContentOf(h.buf)), open)
  {
    VisibleContent(h.buf);
    assert Shown(open) == VisibleAll(h.buf);
    if open == [] {
      assert Shown(open) == "";
    } else {
      ShownSomething(open);
    }
  }

  lemma OneMore(sections: seq<Piece>, paragraphs: seq<Piece>, cuts: seq<nat>, section: Piece)
    requires cuts != [] && cuts[|cuts| - 1] <= |paragraphs| && Subdivide(sections, paragraphs[..cuts[|cuts| - 1]], cuts)
    requires MakesUp(section, paragraphs[cuts[|cuts| - 1]..])
    ensures Subdivide(sections + [section], paragraphs[..|paragraphs|], cuts + [|paragraphs|])
  {
    var c := cuts[|cuts| - 1];
    var more := cuts + [|paragraphs|];
    assert paragraphs[..|paragraphs|] == paragraphs;
    assert paragraphs[c..|paragraphs|] == paragraphs[c..];
    forall i | 0 <= i < |sections| + 1 ensures MakesUp((sections + [section])[i], paragraphs[more[i]..more[i + 1]]) {
      if i < |sections| {
        assert more[i + 1] <= c;
        assert paragraphs[..c][more[i]..more[i + 1]] == paragraphs[more[i]..more[i + 1]];
      }
    }
  }

  lemma TailAdded(h: State, p: State, open: seq<Piece>, line: string)
    requires Tail(h, p, open)
    ensures Tail(h.(buf := h.buf + [line]), p.(buf := p.buf + [line]), open)
  {
    VisibleAllSum(h.buf, [line]);
    VisibleAllSum(p.buf, [line]);
    assert Shown(open) + (VisibleAll(p.buf) + VisibleAll([line])) == Shown(open) + VisibleAll(p.buf) + VisibleAll([line]);
  }

  /** A line of text goes into the section and into the paragraph. */
  lemma LineAdded(h: State, p: State, cuts: seq<nat>, line: string)
    requires Abreast(h, p, cuts)
    ensures Abreast(h.(buf := h.buf + [line]), p.(buf := p.buf + [line]), cuts)
  {
    TailAdded(h, p, p.pieces[cuts[|cuts| - 1]..], line);
  }

  /** A blank line adds nothing to the section and ends the paragraph. */
  lemma BlankAdded(h: State, p: State, cuts: seq<nat>, line: string)
    requires Abreast(h, p, cuts) && TrimSpace(line) == ""
    ensures Abreast(h.(buf := h.buf + [line]), Flushed(p), cuts)
  {
    ParagraphEnds(h, p, cuts);
    VisibleAllSum(h.buf, [line]);
    VisibleOne(line);
    VisibleTrimmed(line);
  }

  lemma HeadingAdded(h: State, p: State, cuts: seq<nat>, text: string) returns (more: seq<nat>)
    requires Abreast(h, p, cuts)
    ensures Abreast(Flushed(h).(heading := text), Flushed(p).(heading := text), more)
  {
    ParagraphEnds(h, p, cuts);
    more := SectionEnds(h, Flushed(p), cuts);
    assert Flushed(p).pieces[more[|more| - 1]..] == [];
  }

  lemma AbreastStep(h: State, p: State, cuts: seq<nat>, line: string) returns (more: seq<nat>)
    requires Abreast(h, p, cuts)
    ensures Abreast(Step(ByHeading, h, line), Step(ByParagraph, p, line), more)
  {
    more := cuts;
    if HeadingText(line).Some? {
      more := HeadingAdded(h, p, cuts, HeadingText(line).value);
    } else if TrimSpace(line) == "" {
      BlankAdded(h, p, cuts, line);
    } else {
      LineAdded(h, p, cuts, line);
    }
  }

  lemma {:induction false} WalkAbreast(lines: seq<string>) returns (cuts: seq<nat>)
    ensures Abreast(Walk(ByHeading, lines), Walk(ByParagraph, lines), cuts)
  {
    if lines == [] {
      cuts := [0];
      assert START.pieces[0..] == [];
    } else {
      var n := |lines| - 1;
      cuts := WalkAbreast(lines[..n]);
      cuts := AbreastStep(Walk(ByHeading, lines[..n]), Walk(ByParagraph, lines[..n]), cuts, lines[n]);
    }
  }

  /** Paragraph chunks subdivide heading chunks: each section is a nonempty run of consecutive
      paragraphs under its heading that show the same text, and no paragraph is left over. */
  lemma ParagraphsSubdivide(content: string) returns (cuts: seq<nat>)
    ensures Subdivide(Pieces(ByHeading, content), Pieces(ByParagraph, content), cuts)
  {
    var lines := Split(content, '\n');
    cuts := WalkAbreast(lines);
    var h, p := Walk(ByHeading, lines), Walk(ByParagraph, lines);
    ParagraphEnds(h, p, cuts);
    cuts := SectionEnds(h, Flushed(p), cuts);
    var all := Flushed(p).pieces;
    assert all[..|all|] == all;
  }

  // ----- fixed-size windows

  const DEFAULT_SIZE := 800

  function EffectiveSize(size: int): (n: nat)
    ensures n > 0
  {
    if size <= 0 then DEFAULT_SIZE else size
  }

  function Smaller(a: nat, b: nat): nat {
    if a < b then a else b
  }

  /** The windows from `start` on. */
  function Windows(s: string, size: nat, start: nat): seq<string>
    requires size > 0
    decreases |s| - start
  {
    if start >= |s| then [] else [s[start..Smaller(start + size, |s|)]] + Windows(s, size, start + size)
  }

  /** What is left of windows once they are trimmed and the blank ones dropped. */
  function Kept(windows: seq<string>): seq<Piece> {
    if windows == [] then []
    else (if TrimSpace(windows[0]) == "" then [] else [Piece("", TrimSpace(windows[0]))]) + Kept(windows[1..])
  }

  function FixedPieces(content: string, size: int): seq<Piece> {
    Kept(Windows(TrimSpace(content), EffectiveSize(size), 0))
  }

  /** The pieces cut so far and those of the windows from `start` on are all of them. */
  ghost predicate Remaining(all: seq<Piece>, done: seq<Piece>, s: string, size: nat, start: nat)
    requires size > 0
  {
    done + Kept(Windows(s, size, start)) == all
  }

  /** What one window leaves: its trimmed text as a piece, or nothing. */
  function PieceOfWindow(s: string, size: nat, start: nat): seq<Piece>
    requires size > 0 && start < |s|
  {
    var text := TrimSpace(s[start..Smaller(start + size, |s|)]);
    if text == "" then [] else [Piece("", text)]
  }

  lemma RemainingNext(all: seq<Piece>, done: seq<Piece>, s: string, size: nat, start: nat)
    requires size > 0 && start < |s| && Remaining(all, done, s, size, start)
    ensures var text := TrimSpace(s[start..Smaller(start + size, |s|)]);
            Remaining(all, if text == "" then done else done + [Piece("", text)], s, size, start + size)
  {
    KeptNext(s, size, start);
    Regroup(done, PieceOfWindow(s, size, start), Kept(Windows(s, size, start + size)));
  }

  lemma RemainingNone(all: seq<Piece>, done: seq<Piece>, s: string, size: nat, start: nat)
    requires size > 0 && start >= |s| && Remaining(all, done, s, size, start)
    ensures all == done
  {
  }

  /** `chunkByFixedSize`. */
  method ChunkByFixedSize(documentId: string, content: string, fixedSize: int) returns (r: Option<seq<Chunk>>)
    ensures r == Numbered(documentId, FixedPieces(content, fixedSize))
  {
    var size := fixedSize;
    if size <= 0 {
      size := DEFAULT_SIZE;
    }
    var runes := TrimSpace(content);
    if |runes| == 0 {
      return Some([]);
    }
    ghost var all := FixedPieces(content, fixedSize);
    var chunks: seq<Chunk> := [];
    ghost var done: seq<Piece> := [];
    var start := 0;
    while start < |runes|
      invariant Remaining(all, done, runes, size, start) && Numbered(documentId, done) == Some(chunks)
      decreases |runes| - start
    {
      var text := TrimSpace(runes[start..Smaller(start + size, |runes|)]);
      RemainingNext(all, done, runes, size, start);
      start := start + size;
      if text == "" {
        continue;
      }
      NumberedNext(documentId, done, Piece("", text));
      var chunk := NewChunk(documentId, |chunks|, "", text);
      done := done + [Piece("", text)];
      if chunk.None? {
        return None;
      }
      chunks := chunks + [chunk.value];
    }
    RemainingNone(all, done, runes, size, start);
    return Some(chunks);
  }

  /** Window `i` is the `size` characters from `i * size` on, the last one what is left. */
  lemma {:induction false} WindowsAt(s: string, size: nat, start: nat, i: nat)
    requires size > 0 && i < |Windows(s, size, start)|
    ensures start + i * size < |s|
    ensures Windows(s, size, start)[i] == s[start + i * size..Smaller(start + i * size + size, |s|)]
    decreases i
  {
    if i > 0 {
      WindowsAt(s, size, start + size, i - 1);
      assert (i - 1) * size + size == i * size;
    }
  }

  lemma KeptNext(s: string, size: nat, start: nat)
    requires size > 0 && start < |s|
    ensures var text := TrimSpace(s[start..Smaller(start + size, |s|)]);
            Kept(Windows(s, size, start)) == (if text == "" then [] else [Piece("", text)]) + Kept(Windows(s, size, start + size))
  {
    var windows := Windows(s, size, start);
    assert windows[1..] == Windows(s, size, start + size);
  }

  lemma KeptFirst(text: string, rest: seq<Piece>)
    ensures Shown((if text == "" then [] else [Piece("", text)]) + rest) == Visible(text) + Shown(rest)
  {
    ShownSum(if text == "" then [] else [Piece("", text)], rest);
    ShownOne(Piece("", text));
    assert Shown([]) == "";
  }

  lemma VisibleCut(s: string, start: nat, end: nat)
    requires start <= end <= |s|
    ensures Visible(s[start..]) == Visible(TrimSpace(s[start..end])) + Visible(s[end..])
  {
    VisibleTrimmed(s[start..end]);
    assert s[start..] == s[start..end] + s[end..];
    VisibleSum(s[start..end], s[end..]);
  }

  /** The visible characters from a position on, none past the end. */
  function VisibleFrom(s: string, start: nat): string {
    if start < |s| then Visible(s[start..]) else ""
  }

  lemma {:induction false} KeptShows(s: string, size: nat, start: nat)
    requires size > 0
    ensures Shown(Kept(Windows(s, size, start))) == VisibleFrom(s, start)
    decreases |s| - start
  {
    if start < |s| {
      KeptShows(s, size, start + size);
      KeptMore(s, size, start);
    } else {
      KeptNone(s, size, start);
    }
  }

  lemma KeptNone(s: string, size: nat, start: nat)
    requires size > 0 && start >= |s|
    ensures Shown(Kept(Windows(s, size, start))) == VisibleFrom(s, start)
  {
    assert Windows(s, size, start) == [];
  }

  lemma KeptMore(s: string, size: nat, start: nat)
    requires size > 0 && start < |s|
    requires Shown(Kept(Windows(s, size, start + size))) == VisibleFrom(s, start + size)
    ensures Shown(Kept(Windows(s, size, start))) == VisibleFrom(s, start)
  {
    KeptStep(s, size, start);
    VisibleStep(s, size, start);
  }

  lemma KeptStep(s: string, size: nat, start: nat)
    requires size > 0 && start < |s|
    ensures Shown(Kept(Windows(s, size, start)))
         == Visible(TrimSpace(s[start..Smaller(start + size, |s|)])) + Shown(Kept(Windows(s, size, start + size)))
  {
    KeptFirst(TrimSpace(s[start..Smaller(start + size, |s|)]), Kept(Windows(s, size, start + size)));
    KeptNext(s, size, start);
  }

  lemma VisibleStep(s: string, size: nat, start: nat)
    requires size > 0 && start < |s|
    ensures VisibleFrom(s, start) == Visible(TrimSpace(s[start..Smaller(start + size, |s|)])) + VisibleFrom(s, start + size)
  {
    VisibleCut(s, start, Smaller(start + size, |s|));
  }

  /** Fixed-size windows conserve the text and stay within the size. */
  lemma WindowsConserve(content: string, size: int)
    ensures Shown(FixedPieces(content, size)) == Visible(content)
    ensures forall i :: 0 <= i < |FixedPieces(content, size)| ==> 0 < |FixedPieces(content, size)[i].content| <= EffectiveSize(size)
  {
    var s := TrimSpace(content);
    KeptShows(s, EffectiveSize(size), 0);
    VisibleTrimmed(content);
    assert s[0..] == s;
    KeptFits(s, EffectiveSize(size), 0);
  }

  lemma TrimShortens(s: string)
    ensures |TrimSpace(s)| <= |s|
  {
    LeftShortens(s);
    TrimRightEnds(TrimLeft(s));
  }

  lemma {:induction false} LeftShortens(s: string)
    ensures |TrimLeft(s)| <= |s|
  {
    if s != "" && IsSpace(s[0]) {
      LeftShortens(s[1..]);
    }
  }

  lemma {:induction false} KeptFits(s: string, size: nat, start: nat)
    requires size > 0
    ensures forall i :: 0 <= i < |Kept(Windows(s, size, start))| ==> 0 < |Kept(Windows(s, size, start))[i].content| <= size
    decreases |s| - start
  {
    if start < |s| {
      KeptNext(s, size, start);
      KeptFits(s, size, start + size);
      TrimShortens(s[start..Smaller(start + size, |s|)]);
    }
  }

  // ----- the strategies

  /** `Chunk`: an unknown strategy is an error. */
  method ChunkDocument(strategy: string, fixedSize: int, documentId: string, content: string) returns (r: Option<seq<Chunk>>)
    ensures r == match PiecesOf(strategy, fixedSize, content)
                 case None => None
                 case Some(pieces) => Numbered(documentId, pieces)
  {
    if strategy == "paragraph" {
      r := ChunkByParagraph(documentId, content);
    } else if strategy == "fixed_size" {
      r := ChunkByFixedSize(documentId, content, fixedSize);
    } else if strategy == "heading" || strategy == "" {
      r := ChunkByHeading(documentId, content);
    } else {
      r := None;
    }
  }

  /** The chunker as the indexing pipeline takes it. */
  function PiecesOf(strategy: string, fixedSize: int, content: string): Option<seq<Piece>> {
    if strategy == "paragraph" then Some(Pieces(ByParagraph, content))
    else if strategy == "fixed_size" then Some(FixedPieces(content, fixedSize))
    else if strategy == "heading" || strategy == "" then Some(Pieces(ByHeading, content))
    else None
  }
}
