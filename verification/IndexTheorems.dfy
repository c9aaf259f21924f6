/** What index runs achieve: a full run mirrors the files, an incremental run reaches the
    same mirror, and a second run has nothing to do. */
module IndexTheorems {
  import opened Wrappers
  import opened Text
  import opened Identity
  import opened Taxonomy
  import opened Storage
  import opened Effects
  import opened Pipeline
  import opened Indexing
  import opened Runs
  import opened Collecting
  import opened Changes

  ghost function ImageIn(cfg: Config, rules: seq<Mapping>, repo: string, files: Snapshot, path: string): Option<Entry> {
    if path in files then Image(cfg, rules, repo, Raw(path, files[path])) else None
  }

  /** The index holds, for every path, exactly what the files say. */
  ghost predicate Mirrors(cfg: Config, rules: seq<Mapping>, repo: string, t: Tables, files: Snapshot) {
    forall path :: Clean(path) ==> EntryAt(t, repo, path) == ImageIn(cfg, rules, repo, files, path)
  }

  lemma OtherEntries(repo: string, t: Tables, u: Tables, path: string, other: string)
    requires RepoName(repo) && SameElsewhere(t, u, DocumentID(repo, path)) && Clean(path) && Clean(other) && path != other
    ensures EntryAt(u, repo, other) == EntryAt(t, repo, other)
  {
    var id := DocumentID(repo, other);
    if id == DocumentID(repo, path) {
      SameDocumentID(repo, path, repo, other);
    }
  }

  /** What one file leaves at its own path. */
  lemma OwnEntry(cfg: Config, rules: seq<Mapping>, repo: string, t: Tables, raw: Raw, u: Tables, outcome: Outcome)
    requires Ready(t, repo) && Clean(raw.path) && OneStep(cfg, rules, repo, t, raw, u, outcome)
    ensures outcome == Added || outcome == Updated ==>
              Image(cfg, rules, repo, raw).Some? && EntryAt(u, repo, raw.path) == Image(cfg, rules, repo, raw)
    ensures outcome == Unchanged || outcome.Failed? ==> u == t
    ensures outcome.Failed? && outcome != Failed(LinkFailed) ==> Image(cfg, rules, repo, raw).None?
    ensures outcome == Added ==> EntryAt(t, repo, raw.path).None?
    ensures outcome == Updated || outcome == Unchanged ==> EntryAt(t, repo, raw.path).Some?
    ensures !outcome.Removed?
  {
    if outcome == Added || outcome == Updated {
      var parsed := cfg.parse(raw.path, raw.bytes).value;
      var row := DocumentOf(repo, raw, parsed, StoredType(rules, raw, parsed));
      var pieces := cfg.split(parsed.content).value;
      DocumentIDFacts(repo, raw.path);
      WrittenEntries(cfg, t, row, TagsOf(row.id, parsed.tags), pieces, u);
    }
  }

  /** A row recorded unchanged against the image of some bytes is the image of the new bytes. */
  lemma UnchangedIsImage(cfg: Config, rules: seq<Mapping>, repo: string, t: Tables, raw: Raw, bytes: string)
    requires OneStep(cfg, rules, repo, t, raw, t, Unchanged)
    requires EntryAt(t, repo, raw.path).Some? && EntryAt(t, repo, raw.path) == Image(cfg, rules, repo, Raw(raw.path, bytes))
    ensures EntryAt(t, repo, raw.path) == Image(cfg, rules, repo, raw)
  {
    if Digest(raw.bytes) == Digest(bytes) {
      DigestInjective(raw.bytes, bytes);
      assert raw == Raw(raw.path, bytes);
    }
  }

  /** Processing a file whose stored entry is a true image of an earlier version. */
  lemma StepEntry(cfg: Config, rules: seq<Mapping>, repo: string, t: Tables, raw: Raw, u: Tables, outcome: Outcome, files: Snapshot)
    requires Ready(t, repo) && Clean(raw.path) && OneStep(cfg, rules, repo, t, raw, u, outcome)
    requires EntryAt(t, repo, raw.path) == ImageIn(cfg, rules, repo, files, raw.path) && outcome != Failed(LinkFailed)
    ensures EntryAt(u, repo, raw.path) ==
            if Image(cfg, rules, repo, raw).Some? then Image(cfg, rules, repo, raw) else EntryAt(t, repo, raw.path)
  {
    OwnEntry(cfg, rules, repo, t, raw, u, outcome);
    if outcome == Unchanged {
      UnchangedIsImage(cfg, rules, repo, t, raw, files[raw.path]);
    }
  }

  lemma {:induction false} UntouchedUntil(repo: string, raws: seq<Raw>, trace: seq<Tables>, path: string, n: nat)
    requires RepoName(repo) && Hops(repo, raws, trace) && AllClean(raws) && Clean(path) && n <= |raws|
    requires forall i :: 0 <= i < n ==> raws[i].path != path
    ensures EntryAt(trace[n], repo, path) == EntryAt(trace[0], repo, path)
  {
    if n == 0 {
    } else {
      UntouchedUntil(repo, raws, trace, path, n - 1);
      assert HopAt(repo, raws, trace, n - 1);
      OtherEntries(repo, trace[n - 1], trace[n], raws[n - 1].path, path);
    }
  }

  lemma {:induction false} UntouchedAfter(repo: string, raws: seq<Raw>, trace: seq<Tables>, path: string, m: nat, n: nat)
    requires RepoName(repo) && Hops(repo, raws, trace) && AllClean(raws) && Clean(path) && m <= n <= |raws|
    requires forall i :: m <= i < n ==> raws[i].path != path
    ensures EntryAt(trace[n], repo, path) == EntryAt(trace[m], repo, path)
    decreases n
  {
    if m < n {
      UntouchedAfter(repo, raws, trace, path, m, n - 1);
      assert HopAt(repo, raws, trace, n - 1);
      OtherEntries(repo, trace[n - 1], trace[n], raws[n - 1].path, path);
    }
  }

  lemma RunName(cfg: Config, rules: seq<Mapping>, repo: string, raws: seq<Raw>, trace: seq<Tables>, outcomes: seq<Outcome>)
    requires CleanRun(cfg, rules, repo, raws, trace, outcomes)
    ensures RepoName(repo)
  {
    assert ReadyAt(repo, trace, 0);
  }

  /** After a clean run over distinct files each file's entry is its image, or, when a stage
      refuses the file, whatever was there before. */
  lemma RunEntry(cfg: Config, rules: seq<Mapping>, repo: string, raws: seq<Raw>, trace: seq<Tables>, outcomes: seq<Outcome>,
                 files: Snapshot, i: nat)
    requires CleanRun(cfg, rules, repo, raws, trace, outcomes) && AllClean(raws) && DistinctPaths(raws) && i < |raws|
    requires Mirrors(cfg, rules, repo, trace[0], files)
    ensures EntryAt(trace[|raws|], repo, raws[i].path) ==
            if Image(cfg, rules, repo, raws[i]).Some? then Image(cfg, rules, repo, raws[i])
            else EntryAt(trace[0], repo, raws[i].path)
  {
    RunAt(cfg, rules, repo, raws, trace, outcomes, i);
    UntouchedUntil(repo, raws, trace, raws[i].path, i);
    StepEntry(cfg, rules, repo, trace[i], raws[i], trace[i + 1], outcomes[i], files);
    UntouchedAfter(repo, raws, trace, raws[i].path, i + 1, |raws|);
  }

  /** A file that a stage refuses and whose earlier version is in the index. */
  ghost predicate Stranded(cfg: Config, rules: seq<Mapping>, repo: string, held: Snapshot, raw: Raw) {
    Image(cfg, rules, repo, raw).None? && ImageIn(cfg, rules, repo, held, raw.path).Some?
  }

  ghost predicate NoneStranded(cfg: Config, rules: seq<Mapping>, repo: string, held: Snapshot, raws: seq<Raw>) {
    forall i :: 0 <= i < |raws| ==> !Stranded(cfg, rules, repo, held, raws[i])
  }

  /** The entry a full index leaves at any path, over an index that mirrors `held`. */
  lemma IndexEntry(cfg: Config, rules: seq<Mapping>, repo: string, held: Snapshot, files: Snapshot, raws: seq<Raw>,
                   trace: seq<Tables>, outcomes: seq<Outcome>, path: string)
    requires CleanRun(cfg, rules, repo, raws, trace, outcomes) && Lists(raws, files)
    requires Mirrors(cfg, rules, repo, trace[0], held) && Clean(path)
    ensures EntryAt(trace[|raws|], repo, path) ==
            if ImageIn(cfg, rules, repo, files, path).Some? then ImageIn(cfg, rules, repo, files, path)
            else ImageIn(cfg, rules, repo, held, path)
  {
    RunName(cfg, rules, repo, raws, trace, outcomes);
    if path in files {
      assert Listed(raws, path);
      var i :| 0 <= i < |raws| && raws[i].path == path;
      RunEntry(cfg, rules, repo, raws, trace, outcomes, held, i);
      assert raws[i] == Raw(path, files[path]);
    } else {
      UntouchedUntil(repo, raws, trace, path, |raws|);
    }
  }

  /** A stored file that is no longer there. */
  ghost predicate NothingGone(cfg: Config, rules: seq<Mapping>, repo: string, held: Snapshot, files: Snapshot) {
    forall path :: Clean(path) && path !in files ==> ImageIn(cfg, rules, repo, held, path).None?
  }

  /** A full index removes nothing: whatever snapshot the index mirrors before, it ends mirroring
      the files exactly when none is refused while an earlier version is stored, and no stored
      file is gone. */
  lemma IndexMirrorsExactly(cfg: Config, rules: seq<Mapping>, repo: string, held: Snapshot, files: Snapshot, raws: seq<Raw>,
                            trace: seq<Tables>, outcomes: seq<Outcome>)
    requires CleanRun(cfg, rules, repo, raws, trace, outcomes) && Lists(raws, files)
    requires Mirrors(cfg, rules, repo, trace[0], held)
    ensures Mirrors(cfg, rules, repo, trace[|raws|], files) <==>
            NoneStranded(cfg, rules, repo, held, raws) && NothingGone(cfg, rules, repo, held, files)
  {
    var v := trace[|raws|];
    forall path | Clean(path)
      ensures EntryAt(v, repo, path) ==
              if ImageIn(cfg, rules, repo, files, path).Some? then ImageIn(cfg, rules, repo, files, path)
              else ImageIn(cfg, rules, repo, held, path)
    {
      IndexEntry(cfg, rules, repo, held, files, raws, trace, outcomes, path);
    }
    forall i | 0 <= i < |raws| ensures IsFileOf(files, raws[i]) && raws[i] == Raw(raws[i].path, files[raws[i].path]) {
    }
    if NoneStranded(cfg, rules, repo, held, raws) && NothingGone(cfg, rules, repo, held, files) {
      forall path | Clean(path) ensures EntryAt(v, repo, path) == ImageIn(cfg, rules, repo, files, path) {
        if path in files {
          assert Listed(raws, path);
          var i :| 0 <= i < |raws| && raws[i].path == path;
          assert !Stranded(cfg, rules, repo, held, raws[i]);
        }
      }
    }
  }

  /** So into a store that holds nothing of the repository it always mirrors the files. */
  lemma FullIndexMirrors(cfg: Config, rules: seq<Mapping>, repo: string, files: Snapshot, raws: seq<Raw>,
                         trace: seq<Tables>, outcomes: seq<Outcome>)
    requires CleanRun(cfg, rules, repo, raws, trace, outcomes) && Lists(raws, files)
    requires forall path :: Clean(path) ==> EntryAt(trace[0], repo, path).None?
    ensures Mirrors(cfg, rules, repo, trace[|raws|], files)
  {
    assert Mirrors(cfg, rules, repo, trace[0], map[]);
    IndexMirrorsExactly(cfg, rules, repo, map[], files, raws, trace, outcomes);
  }

  /** When git cannot say what changed a sync indexes every file and deletes nothing, so it is
      right under the conditions of a full index. */
  lemma FallbackMirrorsExactly(cfg: Config, rules: seq<Mapping>, repo: string, held: Snapshot, files: Snapshot,
                               changed: seq<Raw>, deleted: seq<string>, trace: seq<Tables>, outcomes: seq<Outcome>)
    requires CleanRun(cfg, rules, repo, changed, trace, outcomes) && Mirrors(cfg, rules, repo, trace[0], held)
    requires Lists(changed, files) && deleted == []
    ensures Mirrors(cfg, rules, repo, DeletedAll(trace[|changed|], repo, deleted), files) <==>
            NoneStranded(cfg, rules, repo, held, changed) && NothingGone(cfg, rules, repo, held, files)
  {
    IndexMirrorsExactly(cfg, rules, repo, held, files, changed, trace, outcomes);
  }

  // ----- incremental equals full

  lemma DeletedEntry(t: Tables, repo: string, path: string, other: string)
    requires RepoName(repo) && Clean(path) && Clean(other)
    ensures EntryAt(DocumentDeleted(t, DocumentID(repo, path)), repo, other) == if other == path then None else EntryAt(t, repo, other)
  {
    var id := DocumentID(repo, other);
    var gone := DocumentID(repo, path);
    if other != path {
      if id == gone {
        SameDocumentID(repo, path, repo, other);
      }
      var u := DocumentDeleted(t, gone);
      forall c ensures c in ChunksStored(u, id) <==> c in ChunksStored(t, id) {
        if c in ChunksStored(t, id) {
          var k :| k in t.chunks && t.chunks[k].documentId == id && t.chunks[k] == c;
          assert k in u.chunks;
        }
      }
      assert ChunksStored(u, id) == ChunksStored(t, id);
    }
  }

  lemma {:induction false} DeletedEntries(t: Tables, repo: string, paths: seq<string>, other: string)
    requires RepoName(repo) && Clean(other) && forall p :: p in paths ==> Clean(p)
    ensures EntryAt(DeletedAll(t, repo, paths), repo, other) == if other in paths then None else EntryAt(t, repo, other)
  {
    if paths == [] {
    } else {
      var n := |paths| - 1;
      assert paths == paths[..n] + [paths[n]];
      DeletedEntries(t, repo, paths[..n], other);
      DeletedEntry(DeletedAll(t, repo, paths[..n]), repo, paths[n], other);
    }
  }

  predicate CleanPaths(statuses: Statuses) {
    forall path :: path in statuses ==> Clean(path)
  }

  /** What a sync leaves at a path, over an index that mirrors `held`: git's word on the path is
      followed, a file refused keeps its earlier entry, and an unlisted path is not looked at. */
  ghost function SyncedEntry(cfg: Config, rules: seq<Mapping>, repo: string, held: Snapshot, work: Snapshot,
                             statuses: Statuses, path: string): Option<Entry> {
    var now := ImageIn(cfg, rules, repo, work, path);
    if path !in statuses then ImageIn(cfg, rules, repo, held, path)
    else if statuses[path] == Absent then None
    else if now.None? then ImageIn(cfg, rules, repo, held, path)
    else now
  }

  lemma SyncEntry(cfg: Config, rules: seq<Mapping>, repo: string, held: Snapshot, work: Snapshot,
                  statuses: Statuses, changed: seq<Raw>, deleted: seq<string>,
                  trace: seq<Tables>, outcomes: seq<Outcome>, path: string)
    requires CleanRun(cfg, rules, repo, changed, trace, outcomes) && Mirrors(cfg, rules, repo, trace[0], held)
    requires Collected(statuses, work, changed, deleted) && CleanPaths(statuses) && Clean(path)
    ensures EntryAt(DeletedAll(trace[|changed|], repo, deleted), repo, path) ==
            SyncedEntry(cfg, rules, repo, held, work, statuses, path)
  {
    var t := trace[|changed|];
    RunName(cfg, rules, repo, changed, trace, outcomes);
    DeletedEntries(t, repo, deleted, path);
    if path in statuses && statuses[path] == Present {
      assert Listed(changed, path);
      var i :| 0 <= i < |changed| && changed[i].path == path;
      RunEntry(cfg, rules, repo, changed, trace, outcomes, held, i);
      assert changed[i] == Raw(path, work[path]);
      assert path !in deleted;
    } else {
      UntouchedUntil(repo, changed, trace, path, |changed|);
    }
  }

  /** Where git lists nothing, what the index holds is what a full index would. */
  ghost predicate UnlistedAgree(cfg: Config, rules: seq<Mapping>, repo: string, held: Snapshot, walked: Snapshot, statuses: Statuses) {
    forall path :: Clean(path) && path !in statuses ==> ImageIn(cfg, rules, repo, held, path) == ImageIn(cfg, rules, repo, walked, path)
  }

  /** No listed file outside the walk can be indexed. */
  ghost predicate NothingHidden(cfg: Config, rules: seq<Mapping>, repo: string, walked: Snapshot, changed: seq<Raw>) {
    forall i :: 0 <= i < |changed| && changed[i].path !in walked ==> Image(cfg, rules, repo, changed[i]).None?
  }

  /** Whatever snapshot the index mirrors before, a sync that reads the files on disk ends
      mirroring the files a full index walks exactly when no file git lists is refused while an
      earlier version is stored, none outside the walk can be indexed, and the index was right
      already about every path git does not list. */
  lemma SyncMirrorsExactly(cfg: Config, rules: seq<Mapping>, repo: string, held: Snapshot, disk: Snapshot, walked: Snapshot,
                           statuses: Statuses, changed: seq<Raw>, deleted: seq<string>,
                           trace: seq<Tables>, outcomes: seq<Outcome>)
    requires CleanRun(cfg, rules, repo, changed, trace, outcomes) && Mirrors(cfg, rules, repo, trace[0], held)
    requires Collected(statuses, disk, changed, deleted) && CleanPaths(statuses) && PartOf(walked, disk)
    requires forall path :: path in statuses && statuses[path] == Absent ==> path !in disk
    ensures Mirrors(cfg, rules, repo, DeletedAll(trace[|changed|], repo, deleted), walked) <==>
            && NoneStranded(cfg, rules, repo, held, changed)
            && NothingHidden(cfg, rules, repo, walked, changed)
            && UnlistedAgree(cfg, rules, repo, held, walked, statuses)
  {
    var v := DeletedAll(trace[|changed|], repo, deleted);
    forall path | Clean(path) ensures EntryAt(v, repo, path) == SyncedEntry(cfg, rules, repo, held, disk, statuses, path) {
      SyncEntry(cfg, rules, repo, held, disk, statuses, changed, deleted, trace, outcomes, path);
    }
    if SyncedRight(cfg, rules, repo, held, disk, walked, statuses) {
      RightMeetsConditions(cfg, rules, repo, held, disk, walked, statuses, changed);
    } else if NoneStranded(cfg, rules, repo, held, changed) && NothingHidden(cfg, rules, repo, walked, changed)
              && UnlistedAgree(cfg, rules, repo, held, walked, statuses) {
      ConditionsMakeRight(cfg, rules, repo, held, disk, walked, statuses, changed, deleted);
    }
  }

  /** What a sync leaves is what the walked files come to. */
  ghost predicate SyncedRight(cfg: Config, rules: seq<Mapping>, repo: string, held: Snapshot, disk: Snapshot, walked: Snapshot,
                              statuses: Statuses) {
    forall path :: Clean(path) ==>
      SyncedEntry(cfg, rules, repo, held, disk, statuses, path) == ImageIn(cfg, rules, repo, walked, path)
  }

  lemma RightMeetsConditions(cfg: Config, rules: seq<Mapping>, repo: string, held: Snapshot, disk: Snapshot, walked: Snapshot,
                             statuses: Statuses, changed: seq<Raw>)
    requires SyncedRight(cfg, rules, repo, held, disk, walked, statuses)
    requires (forall i :: 0 <= i < |changed| ==> ReadFrom(statuses, disk, changed[i])) && CleanPaths(statuses) && PartOf(walked, disk)
    ensures NoneStranded(cfg, rules, repo, held, changed) && NothingHidden(cfg, rules, repo, walked, changed)
    ensures UnlistedAgree(cfg, rules, repo, held, walked, statuses)
  {
    forall i | 0 <= i < |changed| ensures ListedRight(cfg, rules, repo, held, walked, changed[i]) {
      ListedEntry(cfg, rules, repo, held, disk, walked, statuses, changed[i]);
    }
    AllListedRight(cfg, rules, repo, held, walked, changed);
    forall path | Clean(path) && path !in statuses
      ensures ImageIn(cfg, rules, repo, held, path) == ImageIn(cfg, rules, repo, walked, path)
    {
      assert SyncedEntry(cfg, rules, repo, held, disk, statuses, path) == ImageIn(cfg, rules, repo, held, path);
    }
  }

  lemma ConditionsMakeRight(cfg: Config, rules: seq<Mapping>, repo: string, held: Snapshot, disk: Snapshot, walked: Snapshot,
                            statuses: Statuses, changed: seq<Raw>, deleted: seq<string>)
    requires Collected(statuses, disk, changed, deleted) && PartOf(walked, disk)
    requires forall path :: path in statuses && statuses[path] == Absent ==> path !in disk
    requires NoneStranded(cfg, rules, repo, held, changed) && NothingHidden(cfg, rules, repo, walked, changed)
    requires UnlistedAgree(cfg, rules, repo, held, walked, statuses)
    ensures SyncedRight(cfg, rules, repo, held, disk, walked, statuses)
  {
    forall path | Clean(path)
      ensures SyncedEntry(cfg, rules, repo, held, disk, statuses, path) == ImageIn(cfg, rules, repo, walked, path)
    {
      if path in statuses && statuses[path] == Present {
        assert Listed(changed, path);
        var i :| 0 <= i < |changed| && changed[i].path == path;
        assert ListedRight(cfg, rules, repo, held, walked, changed[i]);
        ListedEntry(cfg, rules, repo, held, disk, walked, statuses, changed[i]);
      }
    }
  }

  ghost predicate PartOf(part: Snapshot, files: Snapshot) {
    forall path :: path in part ==> path in files && files[path] == part[path]
  }

  /** A sync is right about a file git lists. */
  ghost predicate ListedRight(cfg: Config, rules: seq<Mapping>, repo: string, held: Snapshot, walked: Snapshot, raw: Raw) {
    && !Stranded(cfg, rules, repo, held, raw)
    && (raw.path !in walked ==> Image(cfg, rules, repo, raw).None?)
  }

  lemma ListedEntry(cfg: Config, rules: seq<Mapping>, repo: string, held: Snapshot, disk: Snapshot, walked: Snapshot,
                    statuses: Statuses, raw: Raw)
    requires ReadFrom(statuses, disk, raw) && PartOf(walked, disk)
    ensures SyncedEntry(cfg, rules, repo, held, disk, statuses, raw.path) == ImageIn(cfg, rules, repo, walked, raw.path) <==>
            ListedRight(cfg, rules, repo, held, walked, raw)
  {
    assert raw == Raw(raw.path, disk[raw.path]);
  }

  lemma AllListedRight(cfg: Config, rules: seq<Mapping>, repo: string, held: Snapshot, walked: Snapshot, changed: seq<Raw>)
    requires forall i :: 0 <= i < |changed| ==> ListedRight(cfg, rules, repo, held, walked, changed[i])
    ensures NoneStranded(cfg, rules, repo, held, changed) && NothingHidden(cfg, rules, repo, walked, changed)
  {
  }

  /** Files that are walked but that git is not asked about have not changed. */
  ghost predicate UnseenAgree(cfg: Config, rules: seq<Mapping>, repo: string, base: Snapshot, disk: Snapshot, ignored: set<string>) {
    forall path :: Clean(path) && Walks(ignored)(path) && !GitSees(ignored)(path) ==>
      ImageIn(cfg, rules, repo, base, path) == ImageIn(cfg, rules, repo, disk, path)
  }

  /** Git described the way from the tree the index mirrors to the one on disk, as far as it was
      asked: the condition on unlisted paths is one on the files it was not asked about. */
  lemma SyncFromBase(cfg: Config, rules: seq<Mapping>, repo: string, base: Snapshot, disk: Snapshot, ignored: set<string>,
                     statuses: Statuses, changed: seq<Raw>, deleted: seq<string>,
                     trace: seq<Tables>, outcomes: seq<Outcome>)
    requires CleanRun(cfg, rules, repo, changed, trace, outcomes)
    requires Mirrors(cfg, rules, repo, trace[0], Part(base, Walks(ignored)))
    requires Truthful(statuses, Part(base, GitSees(ignored)), Part(disk, GitSees(ignored)))
    requires SeenOnly(statuses, ignored)
    requires Collected(statuses, disk, changed, deleted) && CleanPaths(statuses)
    ensures Mirrors(cfg, rules, repo, DeletedAll(trace[|changed|], repo, deleted), Part(disk, Walks(ignored))) <==>
            && NoneStranded(cfg, rules, repo, Part(base, Walks(ignored)), changed)
            && NothingHidden(cfg, rules, repo, Part(disk, Walks(ignored)), changed)
            && UnseenAgree(cfg, rules, repo, base, disk, ignored)
  {
    var held, walked := Part(base, Walks(ignored)), Part(disk, Walks(ignored));
    SyncMirrorsExactly(cfg, rules, repo, held, disk, walked, statuses, changed, deleted, trace, outcomes);
    forall path | Clean(path) && path !in statuses
      ensures ImageIn(cfg, rules, repo, held, path) == ImageIn(cfg, rules, repo, walked, path) <==>
              (Walks(ignored)(path) && !GitSees(ignored)(path) ==>
                 ImageIn(cfg, rules, repo, base, path) == ImageIn(cfg, rules, repo, disk, path))
    {
      UnlistedPath(cfg, rules, repo, base, disk, ignored, statuses, path);
    }
  }

  /** Git lists only what it was asked about. */
  ghost predicate SeenOnly(statuses: Statuses, ignored: set<string>) {
    forall path :: path in statuses ==> GitSees(ignored)(path)
  }

  lemma UnlistedPath(cfg: Config, rules: seq<Mapping>, repo: string, base: Snapshot, disk: Snapshot, ignored: set<string>,
                     statuses: Statuses, path: string)
    requires Truthful(statuses, Part(base, GitSees(ignored)), Part(disk, GitSees(ignored))) && path !in statuses
    ensures ImageIn(cfg, rules, repo, Part(base, Walks(ignored)), path) == ImageIn(cfg, rules, repo, Part(disk, Walks(ignored)), path) <==>
            (Walks(ignored)(path) && !GitSees(ignored)(path) ==>
               ImageIn(cfg, rules, repo, base, path) == ImageIn(cfg, rules, repo, disk, path))
  {
    var seen, now := Part(base, GitSees(ignored)), Part(disk, GitSees(ignored));
    if GitSees(ignored)(path) {
      assert path in now <==> path in seen;
      assert path in disk <==> path in base;
      assert path in disk ==> disk[path] == base[path];
    }
  }

  /** An edit that was indexed before it was committed and then undone is missed: git has nothing
      to list, and the index is right only if the edit made no difference to it. */
  lemma UndoneEditIsMissed(cfg: Config, rules: seq<Mapping>, repo: string, head: Snapshot, edited: Snapshot,
                           changed: seq<Raw>, deleted: seq<string>, trace: seq<Tables>, outcomes: seq<Outcome>)
    requires CleanRun(cfg, rules, repo, changed, trace, outcomes) && Mirrors(cfg, rules, repo, trace[0], edited)
    requires Collected(StatusesOf("", Some("")), head, changed, deleted)
    ensures DeletedAll(trace[|changed|], repo, deleted) == trace[0]
    ensures Mirrors(cfg, rules, repo, trace[0], head) <==>
            forall path :: Clean(path) ==> ImageIn(cfg, rules, repo, edited, path) == ImageIn(cfg, rules, repo, head, path)
  {
    var statuses := StatusesOf("", Some(""));
    assert Split("", '\n') == [""];
    assert statuses == map[] by {
      assert [""][..0] == [];
    }
    NothingCollected(head, changed, deleted);
  }

  /** Hence an incremental run and a full run into an empty store hold the same documents and
      chunks at every path exactly under those conditions. */
  lemma IncrementalEqualsFull(cfg: Config, rules: seq<Mapping>, repo: string, base: Snapshot, disk: Snapshot, ignored: set<string>,
                              statuses: Statuses, changed: seq<Raw>, deleted: seq<string>,
                              trace: seq<Tables>, outcomes: seq<Outcome>,
                              raws: seq<Raw>, full: seq<Tables>, fullOutcomes: seq<Outcome>)
    requires CleanRun(cfg, rules, repo, changed, trace, outcomes)
    requires Mirrors(cfg, rules, repo, trace[0], Part(base, Walks(ignored)))
    requires Truthful(statuses, Part(base, GitSees(ignored)), Part(disk, GitSees(ignored))) && SeenOnly(statuses, ignored)
    requires Collected(statuses, disk, changed, deleted) && CleanPaths(statuses)
    requires CleanRun(cfg, rules, repo, raws, full, fullOutcomes) && Lists(raws, Part(disk, Walks(ignored)))
    requires forall p :: Clean(p) ==> EntryAt(full[0], repo, p).None?
    ensures SameEntries(repo, DeletedAll(trace[|changed|], repo, deleted), full[|raws|]) <==>
            && NoneStranded(cfg, rules, repo, Part(base, Walks(ignored)), changed)
            && NothingHidden(cfg, rules, repo, Part(disk, Walks(ignored)), changed)
            && UnseenAgree(cfg, rules, repo, base, disk, ignored)
  {
    SyncFromBase(cfg, rules, repo, base, disk, ignored, statuses, changed, deleted, trace, outcomes);
    FullIndexMirrors(cfg, rules, repo, Part(disk, Walks(ignored)), raws, full, fullOutcomes);
    SameAsMirror(cfg, rules, repo, Part(disk, Walks(ignored)), DeletedAll(trace[|changed|], repo, deleted), full[|raws|]);
  }

  /** The same document and chunks at every path. */
  ghost predicate SameEntries(repo: string, t: Tables, u: Tables) {
    forall path :: Clean(path) ==> EntryAt(t, repo, path) == EntryAt(u, repo, path)
  }

  lemma SameAsMirror(cfg: Config, rules: seq<Mapping>, repo: string, files: Snapshot, t: Tables, u: Tables)
    requires Mirrors(cfg, rules, repo, u, files)
    ensures SameEntries(repo, t, u) <==> Mirrors(cfg, rules, repo, t, files)
  {
  }

  predicate CleanChanges(cs: seq<Change>) {
    forall i :: 0 <= i < |cs| ==> Clean(cs[i].path) && (cs[i].Move? ==> Clean(cs[i].old_))
  }

  predicate SeenChanges(cs: seq<Change>, ignored: set<string>) {
    forall i :: 0 <= i < |cs| ==> GitSees(ignored)(cs[i].path) && (cs[i].Move? ==> GitSees(ignored)(cs[i].old_))
  }

  /** The whole way: git's two texts from the indexed base over the head to the files on disk,
      parsed and read, then a sync, reach what a full index of the walked files reaches, exactly
      under the same conditions. */
  lemma IncrementalFromGit(cfg: Config, rules: seq<Mapping>, repo: string, base: Snapshot, head: Snapshot, disk: Snapshot,
                           ignored: set<string>, committed: seq<Change>, uncommitted: seq<Change>,
                           changed: seq<Raw>, deleted: seq<string>, trace: seq<Tables>, outcomes: seq<Outcome>,
                           raws: seq<Raw>, full: seq<Tables>, fullOutcomes: seq<Outcome>)
    requires forall i :: 0 <= i < |committed| ==> NameStatusChange(committed[i])
    requires forall i :: 0 <= i < |uncommitted| ==> PorcelainChange(uncommitted[i])
    requires CleanChanges(committed) && CleanChanges(uncommitted) && SeenChanges(committed, ignored) && SeenChanges(uncommitted, ignored)
    requires Delta(committed, Part(base, GitSees(ignored)), Part(head, GitSees(ignored)))
    requires Delta(uncommitted, Part(head, GitSees(ignored)), Part(disk, GitSees(ignored)))
    requires Collected(StatusesOf(TextOf(NameStatusTexts(committed)), Some(TextOf(PorcelainTexts(uncommitted)))), disk, changed, deleted)
    requires CleanRun(cfg, rules, repo, changed, trace, outcomes)
    requires Mirrors(cfg, rules, repo, trace[0], Part(base, Walks(ignored)))
    requires CleanRun(cfg, rules, repo, raws, full, fullOutcomes) && Lists(raws, Part(disk, Walks(ignored)))
    requires forall p :: Clean(p) ==> EntryAt(full[0], repo, p).None?
    ensures SameEntries(repo, DeletedAll(trace[|changed|], repo, deleted), full[|raws|]) <==>
            && NoneStranded(cfg, rules, repo, Part(base, Walks(ignored)), changed)
            && NothingHidden(cfg, rules, repo, Part(disk, Walks(ignored)), changed)
            && UnseenAgree(cfg, rules, repo, base, disk, ignored)
  {
    var statuses := StatusesOf(TextOf(NameStatusTexts(committed)), Some(TextOf(PorcelainTexts(uncommitted))));
    CollectedIsTruthful(committed, uncommitted, Part(base, GitSees(ignored)), Part(head, GitSees(ignored)), Part(disk, GitSees(ignored)));
    forall p | p in statuses ensures Clean(p) && GitSees(ignored)(p) {
      MentionedIsSeen(if Mentioned(committed, p) then committed else uncommitted, ignored, p);
    }
    IncrementalEqualsFull(cfg, rules, repo, base, disk, ignored, statuses, changed, deleted, trace, outcomes, raws, full, fullOutcomes);
  }

  lemma MentionedIsSeen(cs: seq<Change>, ignored: set<string>, path: string)
    requires CleanChanges(cs) && SeenChanges(cs, ignored) && Mentioned(cs, path)
    ensures Clean(path) && GitSees(ignored)(path)
  {
    var i :| 0 <= i < |cs| && Names(cs[i], path);
  }

  /** A committed edit of a file that git lists and the walk does not read, such as a tracked
      `vendor/a.md`: a sync indexes it, a full index never does. */
  lemma HiddenEditIsIndexed(cfg: Config, rules: seq<Mapping>, repo: string, path: string, bytes: string,
                            changed: seq<Raw>, deleted: seq<string>, trace: seq<Tables>, outcomes: seq<Outcome>,
                            raws: seq<Raw>, full: seq<Tables>, fullOutcomes: seq<Outcome>)
    requires GitSees({})(path) && !Walks({})(path) && SafePath(path)
    requires Collected(StatusesOf("M\t" + path + "\n", Some("")), map[path := bytes], changed, deleted)
    requires CleanRun(cfg, rules, repo, changed, trace, outcomes) && Mirrors(cfg, rules, repo, trace[0], map[])
    requires Image(cfg, rules, repo, Raw(path, bytes)).Some?
    requires CleanRun(cfg, rules, repo, raws, full, fullOutcomes) && Lists(raws, Part(map[path := bytes], Walks({})))
    requires forall p :: Clean(p) ==> EntryAt(full[0], repo, p).None?
    ensures EntryAt(DeletedAll(trace[|changed|], repo, deleted), repo, path) == Image(cfg, rules, repo, Raw(path, bytes))
    ensures EntryAt(full[|raws|], repo, path).None?
  {
    EditStatuses(path);
    TrimmedIsFixed(path);
    FullIndexMirrors(cfg, rules, repo, Part(map[path := bytes], Walks({})), raws, full, fullOutcomes);
    HiddenEntry(cfg, rules, repo, path, bytes, changed, deleted, trace, outcomes);
  }

  lemma HiddenEntry(cfg: Config, rules: seq<Mapping>, repo: string, path: string, bytes: string,
                    changed: seq<Raw>, deleted: seq<string>, trace: seq<Tables>, outcomes: seq<Outcome>)
    requires Clean(path) && Collected(map[path := Present], map[path := bytes], changed, deleted)
    requires CleanRun(cfg, rules, repo, changed, trace, outcomes) && Mirrors(cfg, rules, repo, trace[0], map[])
    requires Image(cfg, rules, repo, Raw(path, bytes)).Some?
    ensures EntryAt(DeletedAll(trace[|changed|], repo, deleted), repo, path) == Image(cfg, rules, repo, Raw(path, bytes))
  {
    SyncEntry(cfg, rules, repo, map[], map[path := bytes], map[path := Present], changed, deleted, trace, outcomes, path);
  }

  lemma EditStatuses(path: string)
    requires SafePath(path)
    ensures StatusesOf("M\t" + path + "\n", Some("")) == map[path := Present]
  {
    var edit := Put("M", path);
    EditText(path);
    NameStatusParsed(map[], [edit]);
    OneEdit(path);
    NoPorcelain(map[path := Present]);
  }

  lemma OneEdit(path: string)
    ensures Overlay(map[], [Put("M", path)]) == map[path := Present]
  {
    assert [Put("M", path)][..0] == [];
  }

  /** An empty text of `git status` says nothing. */
  lemma NoPorcelain(m: Statuses)
    ensures Fold(PorcelainLine, m, Split("", '\n')) == m
  {
    assert Split("", '\n') == [""];
    assert [""][..0] == [];
  }

  lemma EditText(path: string)
    ensures TextOf(NameStatusTexts([Put("M", path)])) == "M\t" + path + "\n"
  {
    var line := NameStatusText(Put("M", path));
    assert line == "M\t" + path by {
      assert "M" + "\t" == "M\t";
    }
    var lines := NameStatusTexts([Put("M", path)]) + [""];
    assert lines == [line, ""];
    assert lines[1..] == [""];
    assert Join(lines, "\n") == line + "\n" + "";
    assert line + "\n" + "" == "M\t" + path + "\n";
  }

  // ----- a second run

  /** A file already stored as it would be stored now. */
  ghost predicate Settled(cfg: Config, rules: seq<Mapping>, repo: string, t: Tables, raw: Raw) {
    var parsed := cfg.parse(raw.path, raw.bytes);
    parsed.Some? && UpToDate(t, DocumentOf(repo, raw, parsed.value, StoredType(rules, raw, parsed.value)))
  }

  /** A step only depends on what the store holds at the file's own path. */
  lemma SettledStays(cfg: Config, rules: seq<Mapping>, repo: string, t: Tables, u: Tables, raw: Raw)
    requires EntryAt(t, repo, raw.path) == EntryAt(u, repo, raw.path)
    ensures Settled(cfg, rules, repo, t, raw) == Settled(cfg, rules, repo, u, raw)
  {
  }

  lemma AfterFirstRun(cfg: Config, rules: seq<Mapping>, repo: string, raws: seq<Raw>, trace: seq<Tables>, outcomes: seq<Outcome>, i: nat)
    requires CleanRun(cfg, rules, repo, raws, trace, outcomes) && AllClean(raws) && DistinctPaths(raws) && i < |raws|
    ensures !outcomes[i].Failed? ==> Settled(cfg, rules, repo, trace[|raws|], raws[i])
    ensures outcomes[i].Failed? ==>
              Image(cfg, rules, repo, raws[i]).None? && !Settled(cfg, rules, repo, trace[|raws|], raws[i])
  {
    RunAt(cfg, rules, repo, raws, trace, outcomes, i);
    OwnEntry(cfg, rules, repo, trace[i], raws[i], trace[i + 1], outcomes[i]);
    UntouchedAfter(repo, raws, trace, raws[i].path, i + 1, |raws|);
    SettledStays(cfg, rules, repo, trace[i + 1], trace[|raws|], raws[i]);
  }

  lemma StepAgain(cfg: Config, rules: seq<Mapping>, repo: string, t: Tables, raw: Raw, u: Tables, outcome: Outcome)
    requires OneStep(cfg, rules, repo, t, raw, u, outcome)
    ensures Settled(cfg, rules, repo, t, raw) ==> u == t && outcome == Unchanged
    ensures !Settled(cfg, rules, repo, t, raw) && Image(cfg, rules, repo, raw).None? ==> u == t && outcome.Failed?
  {
  }

  /** Indexing the same files again reports every success as unchanged, every refusal as the
      refusal it was, and leaves the tables as they are. */
  lemma {:induction false} SecondRunChangesNothing(cfg: Config, rules: seq<Mapping>, repo: string, raws: seq<Raw>,
                                                   trace: seq<Tables>, outcomes: seq<Outcome>,
                                                   again: seq<Tables>, second: seq<Outcome>, n: nat)
    requires CleanRun(cfg, rules, repo, raws, trace, outcomes) && CleanRun(cfg, rules, repo, raws, again, second)
    requires again[0] == trace[|raws|] && AllClean(raws) && DistinctPaths(raws) && n <= |raws|
    ensures again[n] == trace[|raws|]
    ensures forall i :: 0 <= i < n ==> if outcomes[i].Failed? then second[i].Failed? else second[i] == Unchanged
  {
    if n == 0 {
    } else {
      SecondRunChangesNothing(cfg, rules, repo, raws, trace, outcomes, again, second, n - 1);
      SecondStep(cfg, rules, repo, raws, trace, outcomes, again, second, n - 1);
    }
  }

  lemma SecondStep(cfg: Config, rules: seq<Mapping>, repo: string, raws: seq<Raw>, trace: seq<Tables>, outcomes: seq<Outcome>,
                   again: seq<Tables>, second: seq<Outcome>, i: nat)
    requires CleanRun(cfg, rules, repo, raws, trace, outcomes) && CleanRun(cfg, rules, repo, raws, again, second)
    requires AllClean(raws) && DistinctPaths(raws) && i < |raws| && again[i] == trace[|raws|]
    ensures again[i + 1] == trace[|raws|]
    ensures if outcomes[i].Failed? then second[i].Failed? else second[i] == Unchanged
  {
    AfterFirstRun(cfg, rules, repo, raws, trace, outcomes, i);
    RunAt(cfg, rules, repo, raws, again, second, i);
    StepAgain(cfg, rules, repo, again[i], raws[i], again[i + 1], second[i]);
  }

  // ----- growth

  function AddedIn(outcomes: seq<Outcome>): nat {
    if outcomes == [] then 0
    else AddedIn(outcomes[..|outcomes| - 1]) + (if outcomes[|outcomes| - 1] == Added then 1 else 0)
  }

  /** The repository's documents grow by the number of files reported added. */
  lemma {:induction false} DocumentsGrowByAdded(cfg: Config, rules: seq<Mapping>, repo: string, raws: seq<Raw>,
                                                trace: seq<Tables>, outcomes: seq<Outcome>, n: nat)
    requires CleanRun(cfg, rules, repo, raws, trace, outcomes) && AllClean(raws) && n <= |raws|
    ensures |RowsOf(trace[n], repo)| == |RowsOf(trace[0], repo)| + AddedIn(outcomes[..n])
  {
    if n == 0 {
    } else {
      DocumentsGrowByAdded(cfg, rules, repo, raws, trace, outcomes, n - 1);
      assert outcomes[..n][..n - 1] == outcomes[..n - 1];
      RunAt(cfg, rules, repo, raws, trace, outcomes, n - 1);
      StepGrowth(cfg, rules, repo, trace[n - 1], raws[n - 1], trace[n], outcomes[n - 1]);
    }
  }

  lemma StepGrowth(cfg: Config, rules: seq<Mapping>, repo: string, t: Tables, raw: Raw, u: Tables, outcome: Outcome)
    requires Ready(t, repo) && Clean(raw.path) && OneStep(cfg, rules, repo, t, raw, u, outcome)
    ensures |RowsOf(u, repo)| == |RowsOf(t, repo)| + (if outcome == Added then 1 else 0)
  {
    OwnEntry(cfg, rules, repo, t, raw, u, outcome);
    if outcome == Added || outcome == Updated {
      var parsed := cfg.parse(raw.path, raw.bytes).value;
      RowGrowth(t, u, DocumentOf(repo, raw, parsed, StoredType(rules, raw, parsed)));
    }
  }

  lemma RowGrowth(t: Tables, u: Tables, row: Document)
    requires DocumentsCanonical(t.documents) && row.id == DocumentID(row.repositoryId, row.path)
    requires RepoName(row.repositoryId) && Clean(row.path) && u.documents == t.documents[row.id := row]
    ensures |RowsOf(u, row.repositoryId)| == |RowsOf(t, row.repositoryId)| + (if row.id in t.documents then 0 else 1)
  {
    RowOwner(t, row);
    RowCount(t, u, row);
  }

  lemma RowCount(t: Tables, u: Tables, row: Document)
    requires u.documents == t.documents[row.id := row]
    requires row.id in t.documents ==> t.documents[row.id].repositoryId == row.repositoryId
    ensures |RowsOf(u, row.repositoryId)| == |RowsOf(t, row.repositoryId)| + (if row.id in t.documents then 0 else 1)
  {
    RowSets(t, u, row);
    var before := RowsOf(t, row.repositoryId);
    assert row.id in before ==> before + {row.id} == before;
  }

  lemma RowOwner(t: Tables, row: Document)
    requires DocumentsCanonical(t.documents) && row.id == DocumentID(row.repositoryId, row.path)
    requires RepoName(row.repositoryId) && Clean(row.path)
    ensures row.id in t.documents ==> t.documents[row.id].repositoryId == row.repositoryId
  {
    if row.id in t.documents {
      var d := t.documents[row.id];
      SameDocumentID(row.repositoryId, row.path, d.repositoryId, d.path);
    }
  }

  lemma RowSets(t: Tables, u: Tables, row: Document)
    requires u.documents == t.documents[row.id := row]
    requires row.id in t.documents ==> t.documents[row.id].repositoryId == row.repositoryId
    ensures RowsOf(u, row.repositoryId) == RowsOf(t, row.repositoryId) + {row.id}
    ensures row.id in t.documents <==> row.id in RowsOf(t, row.repositoryId)
  {
  }

  // ----- a fault between the two writes

  /** When the document was written but its chunks were not, the next run calls the file
      unchanged and leaves the earlier chunks in place. */
  lemma FaultBetweenWritesSticks(cfg: Config, rules: seq<Mapping>, repo: string, t: Tables, raw: Raw, edges: seq<Edge>,
                                 v: Tables, outcome: Outcome)
    requires Image(cfg, rules, repo, raw).Some?
    requires var parsed := cfg.parse(raw.path, raw.bytes).value;
             var row := DocumentOf(repo, raw, parsed, StoredType(rules, raw, parsed));
             OneStep(cfg, rules, repo, DocumentPut(t, CanonicalDocument(row, TagsOf(row.id, parsed.tags), edges)), raw, v, outcome)
    ensures outcome == Unchanged
    ensures EntryAt(v, repo, raw.path) == Some(Entry(Image(cfg, rules, repo, raw).value.row, ChunksStored(t, DocumentID(repo, raw.path))))
    ensures EntryAt(v, repo, raw.path) == Image(cfg, rules, repo, raw) <==>
            ChunksStored(t, DocumentID(repo, raw.path)) == Image(cfg, rules, repo, raw).value.chunks
  {
    assert v.chunks == t.chunks;
    assert ChunksStored(v, DocumentID(repo, raw.path)) == ChunksStored(t, DocumentID(repo, raw.path));
  }
}
