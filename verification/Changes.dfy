/** `internal/collector/filesystem/incremental.go`, on the text git prints: the two
    parsers overwrite one status map line by line. */
module Changes {
  import opened Wrappers
  import opened Text
  import opened Sorting
  import opened Pipeline
  import opened Collecting

  /** 'M' and 'D': the file is there to be read, or it is gone. */
  datatype Status = Present | Absent

  type Statuses = map<string, Status>

  // ----- the parsers

  /** One line of `git diff --name-status`. */
  function NameStatusLine(m: Statuses, line: string): Statuses {
    var text := TrimSpace(line);
    if text == "" then m
    else
      var fields := Split(text, '\t');
      if |fields| < 2 then m
      else if "R" <= fields[0] && |fields| >= 3 then m[fields[1] := Absent][fields[2] := Present]
      else if "D" <= fields[0] then m[fields[1] := Absent]
      else m[fields[1] := Present]
  }

  /** Where ` -> ` starts, or the length. */
  function ArrowAt(s: string): (k: nat)
    ensures k <= |s|
    ensures k < |s| ==> " -> " <= s[k..]
  {
    if s == "" || " -> " <= s then 0 else 1 + ArrowAt(s[1..])
  }

  /** One line of `git status --porcelain`. */
  function PorcelainLine(m: Statuses, line: string): Statuses {
    if |line| < 4 then m
    else
      var rest := TrimSpace(line[3..]);
      var k := ArrowAt(rest);
      if k < |rest| then m[rest[..k] := Absent][rest[k + 4..] := Present]
      else if 'D' in line[..2] then m[rest := Absent]
      else m[rest := Present]
  }

  function Fold(step: (Statuses, string) -> Statuses, m: Statuses, lines: seq<string>): Statuses {
    if lines == [] then m else step(Fold(step, m, lines[..|lines| - 1]), lines[|lines| - 1])
  }

  lemma FoldNext(step: (Statuses, string) -> Statuses, m: Statuses, lines: seq<string>, i: nat)
    requires i < |lines|
    ensures Fold(step, m, lines[..i + 1]) == step(Fold(step, m, lines[..i]), lines[i])
  {
    assert lines[..i + 1][..i] == lines[..i];
  }

  /** `parseNameStatus`. */
  method ParseNameStatus(output: string, m: Statuses) returns (r: Statuses)
    ensures r == Fold(NameStatusLine, m, Split(output, '\n'))
  {
    r := m;
    var lines := Split(output, '\n');
    for i := 0 to |lines|
      invariant r == Fold(NameStatusLine, m, lines[..i])
    {
      FoldNext(NameStatusLine, m, lines, i);
      var text := TrimSpace(lines[i]);
      if text == "" {
        continue;
      }
      var fields := Split(text, '\t');
      if |fields| < 2 {
        continue;
      }
      if "R" <= fields[0] && |fields| >= 3 {
        r := r[fields[1] := Absent];
        r := r[fields[2] := Present];
      } else if "D" <= fields[0] {
        r := r[fields[1] := Absent];
      } else {
        r := r[fields[1] := Present];
      }
    }
    assert lines[..|lines|] == lines;
  }

  /** `parsePorcelain`. */
  method ParsePorcelain(output: string, m: Statuses) returns (r: Statuses)
    ensures r == Fold(PorcelainLine, m, Split(output, '\n'))
  {
    r := m;
    var lines := Split(output, '\n');
    for i := 0 to |lines|
      invariant r == Fold(PorcelainLine, m, lines[..i])
    {
      FoldNext(PorcelainLine, m, lines, i);
      var line := lines[i];
      if |line| < 4 {
        continue;
      }
      var rest := TrimSpace(line[3..]);
      var k := ArrowAt(rest);
      if k < |rest| {
        r := r[rest[..k] := Absent];
        r := r[rest[k + 4..] := Present];
        continue;
      }
      if 'D' in line[..2] {
        r := r[rest := Absent];
      } else {
        r := r[rest := Present];
      }
    }
    assert lines[..|lines|] == lines;
  }

  // ----- what git means by its lines

  datatype Change =
    | Put(code: string, path: string)
    | Gone(code: string, path: string)
    | Move(code: string, old_: string, path: string)

  /** A path git prints as it is: no quoting, and nothing for trimming to take. */
  predicate SafePath(p: string) {
    p != "" && !IsSpace(p[0]) && !IsSpace(p[|p| - 1]) && '\t' !in p && '\n' !in p
  }

  predicate SafePaths(c: Change) {
    SafePath(c.path) && (c.Move? ==> SafePath(c.old_))
  }

  /** `git diff --name-status`: A, M, T; D; R and a similarity score. */
  predicate NameStatusChange(c: Change) {
    SafePaths(c) && NameStatusCode(c)
  }

  predicate NameStatusCode(c: Change) {
    match c
    case Put(code, _) => |code| == 1 && code[0] in {'A', 'M', 'T'}
    case Gone(code, _) => |code| == 1 && code[0] == 'D'
    case Move(code, _, _) => |code| == 4 && code[0] == 'R' && Digit(code[1]) && Digit(code[2]) && Digit(code[3])
  }

  predicate Digit(c: char) {
    '0' <= c <= '9'
  }

  function NameStatusText(c: Change): string {
    match c
    case Put(code, p) => code + "\t" + p
    case Gone(code, p) => code + "\t" + p
    case Move(code, o, p) => code + "\t" + o + "\t" + p
  }

  /** `git status --porcelain`: two status letters; no copies, conflicts, or renames then
      deleted. A path with a blank inside is quoted there, so it holds none. */
  predicate PorcelainChange(c: Change) {
    && SafePaths(c) && ' ' !in c.path && (c.Move? ==> ' ' !in c.old_)
    && |c.code| == 2 && '\n' !in c.code
    && match c
       case Put(code, _) => 'D' !in code
       case Gone(code, _) => 'D' in code
       case Move(code, _, _) => code[0] == 'R' && code[1] != 'D'
  }

  function PorcelainText(c: Change): string {
    match c
    case Put(code, p) => code + " " + p
    case Gone(code, p) => code + " " + p
    case Move(code, o, p) => code + " " + (o + " -> " + p)
  }

  /** What one change says: the old path of a move is gone, the new one is there. */
  function Apply(m: Statuses, c: Change): Statuses {
    match c
    case Put(_, p) => m[p := Present]
    case Gone(_, p) => m[p := Absent]
    case Move(_, o, p) => m[o := Absent][p := Present]
  }

  /** What the last change that mentions a path says about it. */
  function LastSays(cs: seq<Change>, path: string): Option<Status> {
    if cs == [] then None
    else
      var c := cs[|cs| - 1];
      if c.path == path then Some(if c.Gone? then Absent else Present)
      else if c.Move? && c.old_ == path then Some(Absent)
      else LastSays(cs[..|cs| - 1], path)
  }

  /** The list leads from one tree to the other: the last word on every mentioned path is
      true, and an unmentioned path is the same in both. */
  ghost predicate Delta(cs: seq<Change>, from: Snapshot, to: Snapshot) {
    forall path :: LastWordTrue(cs, from, to, path)
  }

  predicate LastWordTrue(cs: seq<Change>, from: Snapshot, to: Snapshot, path: string) {
    match LastSays(cs, path)
    case Some(Present) => path in to
    case Some(Absent) => path !in to
    case None => (path in to <==> path in from) && (path in to ==> to[path] == from[path])
  }

  // ----- reading back what git printed

  lemma SplitTwo(a: string, b: string, sep: char)
    requires sep !in a && sep !in b
    ensures Split(a + [sep] + b, sep) == [a, b]
  {
    assert [a, b][1..] == [b];
    assert Join([a, b], [sep]) == a + [sep] + b;
    SplitJoin([a, b], sep);
  }

  lemma SplitThree(a: string, b: string, c: string, sep: char)
    requires sep !in a && sep !in b && sep !in c
    ensures Split(a + [sep] + b + [sep] + c, sep) == [a, b, c]
  {
    assert [a, b, c][1..] == [b, c] && [b, c][1..] == [c];
    assert Join([b, c], [sep]) == b + [sep] + c;
    assert Join([a, b, c], [sep]) == a + [sep] + (b + [sep] + c);
    assert a + [sep] + (b + [sep] + c) == a + [sep] + b + [sep] + c;
    SplitJoin([a, b, c], sep);
  }

  /** A code, a tab and a safe path: nothing to trim, and no newline. */
  lemma LineEnds(code: string, middle: string, path: string)
    requires code != "" && !IsSpace(code[0]) && SafePath(path)
    ensures TrimSpace(code + middle + path) == code + middle + path != ""
  {
    var s := code + middle + path;
    assert s[0] == code[0] && s[|s| - 1] == path[|path| - 1];
    TrimmedIsFixed(s);
  }

  lemma PutOrGoneRead(m: Statuses, c: Change)
    requires NameStatusChange(c) && !c.Move?
    ensures NameStatusLine(m, NameStatusText(c)) == Apply(m, c)
  {
    LineEnds(c.code, "\t", c.path);
    SplitTwo(c.code, c.path, '\t');
    assert !("R" <= c.code) by { assert "R"[0] == 'R'; }
    assert "D" <= c.code <==> c.code[0] == 'D';
  }

  lemma MoveRead(m: Statuses, c: Change)
    requires NameStatusChange(c) && c.Move?
    ensures NameStatusLine(m, NameStatusText(c)) == Apply(m, c)
  {
    var text := NameStatusText(c);
    assert text == c.code + ("\t" + c.old_ + "\t") + c.path;
    LineEnds(c.code, "\t" + c.old_ + "\t", c.path);
    assert '\t' !in c.code;
    SplitThree(c.code, c.old_, c.path, '\t');
    assert "R" <= c.code by { assert c.code[..1] == "R"; }
  }

  lemma NameStatusRead(m: Statuses, c: Change)
    requires NameStatusChange(c)
    ensures NameStatusLine(m, NameStatusText(c)) == Apply(m, c)
    ensures '\n' !in NameStatusText(c)
  {
    assert '\n' !in c.code;
    if c.Move? {
      MoveRead(m, c);
    } else {
      PutOrGoneRead(m, c);
    }
  }

  lemma {:induction false} NoArrow(s: string)
    requires ' ' !in s
    ensures ArrowAt(s) == |s|
  {
    if s == "" {
    } else {
      assert " -> "[0] == ' ';
      NoArrow(s[1..]);
    }
  }

  lemma {:induction false} ArrowFound(o: string, p: string)
    requires ' ' !in o
    ensures ArrowAt(o + " -> " + p) == |o|
  {
    var s := o + " -> " + p;
    if o != "" {
      assert s[0] == o[0] != ' ';
      assert " -> "[0] == ' ';
      assert s[1..] == o[1..] + " -> " + p;
      ArrowFound(o[1..], p);
    } else {
      assert s == " -> " + p;
    }
  }

  lemma LineParts(code: string, rest: string)
    requires |code| == 2
    ensures var line := code + " " + rest; line[3..] == rest && line[..2] == code
  {
  }

  lemma PlainRead(m: Statuses, c: Change)
    requires PorcelainChange(c) && !c.Move?
    ensures PorcelainLine(m, PorcelainText(c)) == Apply(m, c)
  {
    LineParts(c.code, c.path);
    TrimmedIsFixed(c.path);
    NoArrow(c.path);
  }

  /** Where the arrow line of a rename is cut. */
  lemma RenameCut(old_: string, path: string)
    requires SafePath(old_) && SafePath(path) && ' ' !in old_
    ensures var rest := old_ + " -> " + path;
            TrimSpace(rest) == rest && ArrowAt(rest) == |old_| < |rest| && rest[..|old_|] == old_ && rest[|old_| + 4..] == path
  {
    var rest := old_ + " -> " + path;
    LineEnds(old_, " -> ", path);
    ArrowFound(old_, path);
    assert rest[..|old_|] == old_ && rest[|old_| + 4..] == path;
  }

  /** Whatever the two letters say, an arrow line marks the old path gone and the new one there. */
  lemma ArrowLine(m: Statuses, code: string, old_: string, path: string)
    requires |code| == 2 && SafePath(old_) && SafePath(path) && ' ' !in old_
    ensures PorcelainLine(m, code + " " + (old_ + " -> " + path)) == m[old_ := Absent][path := Present]
  {
    LineParts(code, old_ + " -> " + path);
    RenameCut(old_, path);
  }

  lemma RenameRead(m: Statuses, c: Change)
    requires PorcelainChange(c) && c.Move?
    ensures PorcelainLine(m, PorcelainText(c)) == Apply(m, c)
  {
    ArrowLine(m, c.code, c.old_, c.path);
  }

  lemma PorcelainRead(m: Statuses, c: Change)
    requires PorcelainChange(c)
    ensures PorcelainLine(m, PorcelainText(c)) == Apply(m, c)
    ensures '\n' !in PorcelainText(c)
  {
    if c.Move? {
      RenameRead(m, c);
    } else {
      PlainRead(m, c);
    }
  }

  /** A copy line marks its source; the new file is not mentioned, so a sync does not see it. */
  lemma CopyMarksSource(m: Statuses, score: string, source: string, copy: string)
    requires |score| == 3 && Digit(score[0]) && Digit(score[1]) && Digit(score[2]) && SafePath(source) && SafePath(copy)
    ensures NameStatusLine(m, "C" + score + "\t" + source + "\t" + copy) == m[source := Present]
  {
    var code := "C" + score;
    assert code[0] == 'C' && code[1] == score[0] && code[2] == score[1] && code[3] == score[2];
    assert "C" + score + "\t" + source + "\t" + copy == code + ("\t" + source + "\t") + copy == code + "\t" + source + "\t" + copy;
    LineEnds(code, "\t" + source + "\t", copy);
    assert '\t' !in code;
    SplitThree(code, source, copy, '\t');
    assert "R"[0] == 'R' && "D"[0] == 'D';
  }

  /** A file renamed in the index and then deleted is called present under its new name: with
      nothing to read there, the whole collection fails. */
  lemma RenamedThenDeletedIsPresent(m: Statuses, old_: string, path: string)
    requires PorcelainChange(Move("RM", old_, path))
    ensures PorcelainLine(m, PorcelainText(Move("RD", old_, path))) == m[old_ := Absent][path := Present]
  {
    ArrowLine(m, "RD", old_, path);
  }

  function NameStatusTexts(cs: seq<Change>): (r: seq<string>)
    ensures |r| == |cs| && forall i :: 0 <= i < |cs| ==> r[i] == NameStatusText(cs[i])
  {
    seq(|cs|, i requires 0 <= i < |cs| => NameStatusText(cs[i]))
  }

  function PorcelainTexts(cs: seq<Change>): (r: seq<string>)
    ensures |r| == |cs| && forall i :: 0 <= i < |cs| ==> r[i] == PorcelainText(cs[i])
  {
    seq(|cs|, i requires 0 <= i < |cs| => PorcelainText(cs[i]))
  }

  function Overlay(m: Statuses, cs: seq<Change>): Statuses {
    if cs == [] then m else Apply(Overlay(m, cs[..|cs| - 1]), cs[|cs| - 1])
  }

  lemma NameStatusLast(m: Statuses, cs: seq<Change>, n: nat)
    requires n < |cs| && NameStatusChange(cs[n])
    requires Fold(NameStatusLine, m, NameStatusTexts(cs[..n])) == Overlay(m, cs[..n])
    ensures Fold(NameStatusLine, m, NameStatusTexts(cs[..n + 1])) == Overlay(m, cs[..n + 1])
  {
    assert cs[..n + 1][..n] == cs[..n];
    assert NameStatusTexts(cs[..n + 1])[..n] == NameStatusTexts(cs[..n]);
    NameStatusRead(Overlay(m, cs[..n]), cs[n]);
  }

  lemma {:induction false} NameStatusFold(m: Statuses, cs: seq<Change>, n: nat)
    requires n <= |cs| && forall i :: 0 <= i < |cs| ==> NameStatusChange(cs[i])
    ensures Fold(NameStatusLine, m, NameStatusTexts(cs[..n])) == Overlay(m, cs[..n])
  {
    if n == 0 {
    } else {
      NameStatusFold(m, cs, n - 1);
      NameStatusLast(m, cs, n - 1);
    }
  }

  lemma PorcelainLast(m: Statuses, cs: seq<Change>, n: nat)
    requires n < |cs| && PorcelainChange(cs[n])
    requires Fold(PorcelainLine, m, PorcelainTexts(cs[..n])) == Overlay(m, cs[..n])
    ensures Fold(PorcelainLine, m, PorcelainTexts(cs[..n + 1])) == Overlay(m, cs[..n + 1])
  {
    assert cs[..n + 1][..n] == cs[..n];
    assert PorcelainTexts(cs[..n + 1])[..n] == PorcelainTexts(cs[..n]);
    PorcelainRead(Overlay(m, cs[..n]), cs[n]);
  }

  lemma {:induction false} PorcelainFold(m: Statuses, cs: seq<Change>, n: nat)
    requires n <= |cs| && forall i :: 0 <= i < |cs| ==> PorcelainChange(cs[i])
    ensures Fold(PorcelainLine, m, PorcelainTexts(cs[..n])) == Overlay(m, cs[..n])
  {
    if n == 0 {
    } else {
      PorcelainFold(m, cs, n - 1);
      PorcelainLast(m, cs, n - 1);
    }
  }

  /** The text of a list of lines, each ended by a newline. */
  function TextOf(lines: seq<string>): string {
    Join(lines + [""], "\n")
  }

  lemma LinesBack(lines: seq<string>)
    requires forall i :: 0 <= i < |lines| ==> '\n' !in lines[i]
    ensures Split(TextOf(lines), '\n') == lines + [""]
  {
    SplitJoin(lines + [""], '\n');
  }

  /** Parsing what git printed overlays exactly the changes it meant. */
  lemma NameStatusParsed(m: Statuses, cs: seq<Change>)
    requires forall i :: 0 <= i < |cs| ==> NameStatusChange(cs[i])
    ensures Fold(NameStatusLine, m, Split(TextOf(NameStatusTexts(cs)), '\n')) == Overlay(m, cs)
  {
    var lines := NameStatusTexts(cs);
    forall i | 0 <= i < |lines| ensures '\n' !in lines[i] {
      NameStatusRead(m, cs[i]);
    }
    LinesBack(lines);
    NameStatusFold(m, cs, |cs|);
    assert cs[..|cs|] == cs;
    assert (lines + [""])[..|lines|] == lines;
  }

  lemma PorcelainParsed(m: Statuses, cs: seq<Change>)
    requires forall i :: 0 <= i < |cs| ==> PorcelainChange(cs[i])
    ensures Fold(PorcelainLine, m, Split(TextOf(PorcelainTexts(cs)), '\n')) == Overlay(m, cs)
  {
    var lines := PorcelainTexts(cs);
    forall i | 0 <= i < |lines| ensures '\n' !in lines[i] {
      PorcelainRead(m, cs[i]);
    }
    LinesBack(lines);
    PorcelainFold(m, cs, |cs|);
    assert cs[..|cs|] == cs;
    assert (lines + [""])[..|lines|] == lines;
  }

  // ----- the overlay is the truth about the working tree

  lemma {:induction false} OverlayIsLast(m: Statuses, cs: seq<Change>, path: string)
    ensures var r := Overlay(m, cs);
            match LastSays(cs, path)
            case Some(s) => path in r && r[path] == s
            case None => (path in r <==> path in m) && (path in m ==> r[path] == m[path])
  {
    if cs == [] {
    } else {
      OverlayIsLast(m, cs[..|cs| - 1], path);
    }
  }

  /** The statuses are true of the change from `base` to `work`: an unlisted path is as it was. */
  ghost predicate Truthful(statuses: Statuses, base: Snapshot, work: Snapshot) {
    forall path ::
      && (path in statuses && statuses[path] == Present ==> path in work)
      && (path in statuses && statuses[path] == Absent ==> path !in work)
      && (path !in statuses ==> (path in work <==> path in base) && (path in work ==> work[path] == base[path]))
  }

  /** Committed changes overlaid by working-tree changes describe the way from the last
      indexed commit to the working tree. */
  lemma OverlayIsTruthful(committed: seq<Change>, uncommitted: seq<Change>, base: Snapshot, head: Snapshot, work: Snapshot)
    requires Delta(committed, base, head) && Delta(uncommitted, head, work)
    ensures Truthful(Overlay(Overlay(map[], committed), uncommitted), base, work)
  {
    var first := Overlay(map[], committed);
    var both := Overlay(first, uncommitted);
    forall path
      ensures path in both && both[path] == Present ==> path in work
      ensures path in both && both[path] == Absent ==> path !in work
      ensures path !in both ==> (path in work <==> path in base) && (path in work ==> work[path] == base[path])
    {
      assert LastWordTrue(committed, base, head, path) && LastWordTrue(uncommitted, head, work, path);
      OverlayIsLast(map[], committed, path);
      OverlayIsLast(first, uncommitted, path);
    }
  }

  // ----- reading the changed files

  predicate ReadFrom(statuses: Statuses, work: Snapshot, raw: Raw) {
    && raw.path in statuses && statuses[raw.path] == Present
    && raw.path in work && work[raw.path] == raw.bytes
  }

  /** What reading the files that the statuses name gives: each present one once, with its
      bytes, and the paths of the absent ones. */
  ghost predicate Collected(statuses: Statuses, work: Snapshot, changed: seq<Raw>, deleted: seq<string>) {
    && DistinctPaths(changed)
    && (forall i :: 0 <= i < |changed| ==> ReadFrom(statuses, work, changed[i]))
    && (forall path :: path in statuses && statuses[path] == Present ==> Listed(changed, path))
    && (forall path :: path in deleted <==> path in statuses && statuses[path] == Absent)
  }

  lemma CollectedNone(work: Snapshot)
    ensures Collected(map[], work, [], [])
  {
  }

  lemma SomeMember(xs: seq<string>)
    ensures xs != [] ==> exists x :: x in xs
  {
    if xs != [] {
      assert xs[0] in xs;
    }
  }

  lemma SomeRead(m: Statuses, work: Snapshot, changed: seq<Raw>)
    requires forall i :: 0 <= i < |changed| ==> ReadFrom(m, work, changed[i])
    ensures changed != [] ==> exists p :: p in m
  {
    if changed != [] {
      assert ReadFrom(m, work, changed[0]);
    }
  }

  lemma NothingCollected(work: Snapshot, changed: seq<Raw>, deleted: seq<string>)
    requires Collected(map[], work, changed, deleted)
    ensures changed == [] && deleted == []
  {
    SomeRead(map[], work, changed);
    SomeMember(deleted);
  }

  lemma CollectedAbsent(m: Statuses, work: Snapshot, changed: seq<Raw>, deleted: seq<string>, p: string)
    requires Collected(m, work, changed, deleted) && p !in m
    ensures Collected(m[p := Absent], work, changed, deleted + [p])
  {
  }

  lemma CollectedPresent(m: Statuses, work: Snapshot, changed: seq<Raw>, deleted: seq<string>, p: string)
    requires Collected(m, work, changed, deleted) && p !in m && p in work
    ensures Collected(m[p := Present], work, changed + [Raw(p, work[p])], deleted)
  {
    var more := changed + [Raw(p, work[p])];
    var n := m[p := Present];
    forall path | path in n && n[path] == Present ensures Listed(more, path) {
      if path == p {
        assert more[|changed|].path == p;
      } else {
        assert Listed(changed, path);
        var i :| 0 <= i < |changed| && changed[i].path == path;
        assert more[i].path == path;
      }
    }
  }

  /** The statuses of the paths seen so far. */
  ghost function Seen(m: Statuses, paths: seq<string>): Statuses {
    map p | p in m && p in paths :: m[p]
  }

  lemma SeenNext(m: Statuses, paths: seq<string>, i: nat)
    requires StrictlySorted(StrLess, paths) && i < |paths| && paths[i] in m
    ensures paths[i] !in Seen(m, paths[..i])
    ensures Seen(m, paths[..i + 1]) == Seen(m, paths[..i])[paths[i] := m[paths[i]]]
  {
    assert paths[..i + 1] == paths[..i] + [paths[i]];
    SortedOnce(paths, i);
  }

  /** `CollectChanged`, from what git answers: read what is there, list what is gone, and fail
      when a file git called present cannot be read. Without a commit to compare with, or when
      git cannot, everything is collected and nothing is called deleted. */
  method CollectChanged(committed: Option<string>, uncommitted: Option<string>, disk: Snapshot, ignored: set<string>)
    returns (r: Option<(seq<Raw>, seq<string>)>)
    requires CleanFiles(disk)
    ensures committed.None? ==> r.Some? && Lists(r.value.0, Part(disk, Walks(ignored))) && r.value.1 == []
    ensures committed.Some? && r.Some? ==> Collected(StatusesOf(committed.value, uncommitted), disk, r.value.0, r.value.1)
    ensures committed.Some? ==> (r.None? <==> AnyMissing(StatusesOf(committed.value, uncommitted), disk))
  {
    if committed.None? {
      var raws := Collect(disk, ignored);
      return Some((raws, []));
    }
    var m := ParseNameStatus(committed.value, map[]);
    if uncommitted.Some? {
      m := ParsePorcelain(uncommitted.value, m);
    }
    r := ReadChanged(m, disk);
  }

  /** The status map both parsers fill; the second text is missing when `git status` fails. */
  function StatusesOf(committed: string, uncommitted: Option<string>): Statuses {
    var first := Fold(NameStatusLine, map[], Split(committed, '\n'));
    if uncommitted.None? then first else Fold(PorcelainLine, first, Split(uncommitted.value, '\n'))
  }

  method ReadChanged(m: Statuses, work: Snapshot) returns (r: Option<(seq<Raw>, seq<string>)>)
    ensures r.Some? ==> Collected(m, work, r.value.0, r.value.1)
    ensures r.None? <==> AnyMissing(m, work)
  {
    var paths := SortedPaths(m.Keys);
    var changed: seq<Raw> := [];
    var deleted: seq<string> := [];
    CollectedNone(work);
    assert Seen(m, paths[..0]) == map[];
    for i := 0 to |paths|
      invariant Collected(Seen(m, paths[..i]), work, changed, deleted)
    {
      var p := paths[i];
      assert p in paths;
      SeenNext(m, paths, i);
      if m[p] == Absent {
        CollectedAbsent(Seen(m, paths[..i]), work, changed, deleted, p);
        deleted := deleted + [p];
        continue;
      }
      if p !in work {
        assert Missing(m, work, p);
        return None;
      }
      CollectedPresent(Seen(m, paths[..i]), work, changed, deleted, p);
      changed := changed + [Raw(p, work[p])];
    }
    SeenAll(m, paths);
    AllRead(m, work, changed, deleted);
    r := Some((changed, deleted));
  }

  /** Called present, and not there. */
  predicate Missing(m: Statuses, work: Snapshot, p: string) {
    p in m && m[p] == Present && p !in work
  }

  ghost predicate AnyMissing(m: Statuses, work: Snapshot) {
    exists p :: Missing(m, work, p)
  }

  lemma SeenAll(m: Statuses, paths: seq<string>)
    requires forall p :: p in m ==> p in paths
    ensures Seen(m, paths[..|paths|]) == m
  {
    assert paths[..|paths|] == paths;
    assert Seen(m, paths).Keys == m.Keys;
  }

  lemma AllRead(m: Statuses, work: Snapshot, changed: seq<Raw>, deleted: seq<string>)
    requires Collected(m, work, changed, deleted)
    ensures forall p :: !Missing(m, work, p)
  {
    forall p ensures !Missing(m, work, p) {
      assert p in m && m[p] == Present ==> Listed(changed, p);
    }
  }

  /** From git's two texts to the files a sync works on: when git's lines describe the way from
      the indexed commit to the head and on to the working tree, what is collected is true of
      the working tree, and no file git calls present is missing. */
  lemma CollectedIsTruthful(committed: seq<Change>, uncommitted: seq<Change>, base: Snapshot, head: Snapshot, work: Snapshot)
    requires forall i :: 0 <= i < |committed| ==> NameStatusChange(committed[i])
    requires forall i :: 0 <= i < |uncommitted| ==> PorcelainChange(uncommitted[i])
    requires Delta(committed, base, head) && Delta(uncommitted, head, work)
    ensures var statuses := StatusesOf(TextOf(NameStatusTexts(committed)), Some(TextOf(PorcelainTexts(uncommitted))));
            && Truthful(statuses, base, work)
            && (forall p :: p in statuses && statuses[p] == Present ==> p in work)
            && (forall p :: p in statuses ==> Mentioned(committed, p) || Mentioned(uncommitted, p))
  {
    NameStatusParsed(map[], committed);
    PorcelainParsed(Overlay(map[], committed), uncommitted);
    OverlayIsTruthful(committed, uncommitted, base, head, work);
    var first := Overlay(map[], committed);
    var statuses := Overlay(first, uncommitted);
    forall p | p in statuses ensures Mentioned(committed, p) || Mentioned(uncommitted, p) {
      OverlayIsLast(map[], committed, p);
      OverlayIsLast(first, uncommitted, p);
      SaidIsMentioned(committed, p);
      SaidIsMentioned(uncommitted, p);
    }
  }

  predicate Names(c: Change, path: string) {
    c.path == path || (c.Move? && c.old_ == path)
  }

  predicate Mentioned(cs: seq<Change>, path: string) {
    exists i :: 0 <= i < |cs| && Names(cs[i], path)
  }

  lemma {:induction false} SaidIsMentioned(cs: seq<Change>, path: string)
    ensures LastSays(cs, path).Some? <==> Mentioned(cs, path)
  {
    if cs == [] {
    } else {
      var n := |cs| - 1;
      assert cs == cs[..n] + [cs[n]];
      SaidIsMentioned(cs[..n], path);
      assert forall i :: 0 <= i < n ==> cs[..n][i] == cs[i];
      assert Names(cs[n], path) ==> Mentioned(cs, path);
    }
  }
}
