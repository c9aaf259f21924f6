/** Whole runs of `internal/indexer/indexer.go`: the loops of `Index` and `Sync`, and
    `finish`. Each run also yields the ghost sequence of tables it went through. */
module Runs {
  import opened Wrappers
  import opened Text
  import opened Sorting
  import opened Identity
  import opened Taxonomy
  import opened Storage
  import opened Effects
  import opened Sqlite
  import opened Pipeline
  import opened Indexing

  ghost predicate ReadyAt(repo: string, trace: seq<Tables>, i: nat) {
    i < |trace| && Ready(trace[i], repo)
  }

  ghost predicate HopAt(repo: string, raws: seq<Raw>, trace: seq<Tables>, i: nat) {
    i < |raws| && i + 1 < |trace| && SameElsewhere(trace[i], trace[i + 1], DocumentID(repo, raws[i].path))
  }

  /** Each file touches only its own document. */
  ghost predicate Hops(repo: string, raws: seq<Raw>, trace: seq<Tables>) {
    |trace| == |raws| + 1 && forall i: nat :: i < |raws| ==> HopAt(repo, raws, trace, i)
  }

  /** The tables before each file and after the last. */
  ghost predicate Trace(repo: string, raws: seq<Raw>, trace: seq<Tables>) {
    Hops(repo, raws, trace) && forall i: nat :: i < |trace| ==> ReadyAt(repo, trace, i)
  }

  ghost predicate StepAt(cfg: Config, rules: seq<Mapping>, repo: string, raws: seq<Raw>, trace: seq<Tables>, outcomes: seq<Outcome>, i: nat) {
    && i < |raws| && i + 1 < |trace| && i < |outcomes|
    && OneStep(cfg, rules, repo, trace[i], raws[i], trace[i + 1], outcomes[i])
  }

  /** A run in which no engine failure struck and every reference was resolved. */
  ghost predicate CleanRun(cfg: Config, rules: seq<Mapping>, repo: string, raws: seq<Raw>, trace: seq<Tables>, outcomes: seq<Outcome>) {
    Faultless(cfg, rules, repo, raws, trace, outcomes) && Failed(LinkFailed) !in outcomes
  }

  /** A run that no engine failure struck. */
  ghost predicate Faultless(cfg: Config, rules: seq<Mapping>, repo: string, raws: seq<Raw>, trace: seq<Tables>, outcomes: seq<Outcome>) {
    && Trace(repo, raws, trace) && |outcomes| == |raws|
    && forall i: nat :: i < |raws| ==> StepAt(cfg, rules, repo, raws, trace, outcomes, i)
  }

  ghost predicate AlwaysSound(cfg: Config) {
    forall t :: ResolverSound(cfg, t)
  }

  function CountedAll(t: Tally, paths: seq<string>, outcomes: seq<Outcome>): Tally
    requires |paths| == |outcomes|
  {
    if outcomes == [] then t
    else
      var n := |outcomes| - 1;
      Counted(CountedAll(t, paths[..n], outcomes[..n]), paths[n], outcomes[n])
  }

  function Paths(raws: seq<Raw>): (paths: seq<string>)
    ensures |paths| == |raws| && forall i :: 0 <= i < |raws| ==> paths[i] == raws[i].path
  {
    seq(|raws|, i requires 0 <= i < |raws| => raws[i].path)
  }

  ghost predicate NoRunFaults(faults: nat -> (Fault, Fault)) {
    forall n :: faults(n) == (None, None)
  }

  method IndexAll(store: Store, cfg: Config, rules: seq<Mapping>, repo: string, raws: seq<Raw>, report: Report,
                  faults: nat -> (Fault, Fault)) returns (ghost trace: seq<Tables>, ghost outcomes: seq<Outcome>)
    requires Ready(store.db, repo) && AllClean(raws)
    modifies store, report
    ensures Ready(store.db, repo)
    ensures Trace(repo, raws, trace) && trace[0] == old(store.db) && trace[|raws|] == store.db
    ensures |outcomes| == |raws| && report.View() == CountedAll(old(report.View()), Paths(raws), outcomes)
    ensures Removed !in outcomes
    ensures NoRunFaults(faults) ==> Faultless(cfg, rules, repo, raws, trace, outcomes)
  {
    trace, outcomes := [store.db], [];
    assert ReadyAt(repo, trace, 0);
    for i := 0 to |raws|
      invariant Ready(store.db, repo)
      invariant Trace(repo, raws[..i], trace) && trace[0] == old(store.db) && trace[i] == store.db
      invariant |outcomes| == i && report.View() == CountedAll(old(report.View()), Paths(raws)[..i], outcomes)
      invariant Removed !in outcomes
      invariant NoRunFaults(faults) ==> Faultless(cfg, rules, repo, raws[..i], trace, outcomes)
    {
      ghost var before := trace;
      assert before[i] == store.db;
      var outcome := IndexOne(store, cfg, rules, repo, raws[i], report, faults(i));
      OneMoreStep(repo, raws, i, before, store.db);
      if NoRunFaults(faults) {
        OneMoreClean(cfg, rules, repo, raws, i, before, outcomes, store.db, outcome);
      }
      CountOneMore(old(report.View()), Paths(raws), outcomes, outcome);
      trace, outcomes := trace + [store.db], outcomes + [outcome];
    }
    assert raws[..|raws|] == raws && Paths(raws)[..|raws|] == Paths(raws);
  }

  lemma OneMoreStep(repo: string, raws: seq<Raw>, i: nat, trace: seq<Tables>, u: Tables)
    requires i < |raws| && Trace(repo, raws[..i], trace) && Ready(u, repo)
    requires SameElsewhere(trace[i], u, DocumentID(repo, raws[i].path))
    ensures Trace(repo, raws[..i + 1], trace + [u])
  {
    var more, upTo := trace + [u], raws[..i + 1];
    forall j: nat | j <= i ensures HopAt(repo, upTo, more, j) {
      if j < i {
        assert HopAt(repo, raws[..i], trace, j);
      }
    }
    forall j: nat | j < |more| ensures ReadyAt(repo, more, j) {
      if j < |trace| {
        assert ReadyAt(repo, trace, j);
      }
    }
  }

  lemma OneMoreClean(cfg: Config, rules: seq<Mapping>, repo: string, raws: seq<Raw>, i: nat, trace: seq<Tables>,
                     outcomes: seq<Outcome>, u: Tables, outcome: Outcome)
    requires i < |raws| && Faultless(cfg, rules, repo, raws[..i], trace, outcomes) && Trace(repo, raws[..i + 1], trace + [u])
    requires OneStep(cfg, rules, repo, trace[i], raws[i], u, outcome)
    ensures Faultless(cfg, rules, repo, raws[..i + 1], trace + [u], outcomes + [outcome])
  {
    var more, results, upTo := trace + [u], outcomes + [outcome], raws[..i + 1];
    forall j: nat | j <= i ensures StepAt(cfg, rules, repo, upTo, more, results, j) {
      if j < i {
        assert StepAt(cfg, rules, repo, raws[..i], trace, outcomes, j);
      }
    }
  }

  lemma CountOneMore(t: Tally, paths: seq<string>, outcomes: seq<Outcome>, outcome: Outcome)
    requires |outcomes| < |paths|
    ensures CountedAll(t, paths[..|outcomes| + 1], outcomes + [outcome]) ==
            Counted(CountedAll(t, paths[..|outcomes|], outcomes), paths[|outcomes|], outcome)
  {
    assert paths[..|outcomes| + 1][..|outcomes|] == paths[..|outcomes|];
    assert (outcomes + [outcome])[..|outcomes|] == outcomes;
  }

  // ----- what every step leaves alone

  /** The files of a run touch no registration and no state. */
  lemma {:induction false} TraceKeepsRegistrations(repo: string, raws: seq<Raw>, trace: seq<Tables>, n: nat)
    requires Trace(repo, raws, trace) && n <= |raws|
    ensures trace[n].repositories == trace[0].repositories && trace[n].states == trace[0].states
  {
    if n == 0 {
    } else {
      TraceKeepsRegistrations(repo, raws, trace, n - 1);
      assert HopAt(repo, raws, trace, n - 1);
    }
  }

  // ----- chunks belong to the stored content

  /** The document's chunks are what its stored content is cut into. */
  ghost predicate CurrentChunks(cfg: Config, t: Tables, id: string)
    requires id in t.documents
  {
    var pieces := cfg.split(t.documents[id].content);
    pieces.Some? && ChunksStored(t, id) == set c | c in ChunksOf(id, pieces.value)
  }

  ghost predicate ChunksCurrent(cfg: Config, t: Tables) {
    forall id :: id in t.documents ==> CurrentChunks(cfg, t, id)
  }

  /** Whatever becomes of a file, every stored document's chunks stay those of its content. */
  lemma StepKeepsCurrent(cfg: Config, rules: seq<Mapping>, repo: string, t: Tables, raw: Raw, u: Tables, outcome: Outcome)
    requires Ready(t, repo) && Clean(raw.path) && OneStep(cfg, rules, repo, t, raw, u, outcome) && ChunksCurrent(cfg, t)
    ensures ChunksCurrent(cfg, u)
  {
    if outcome == Added || outcome == Updated {
      var parsed := cfg.parse(raw.path, raw.bytes).value;
      var row := DocumentOf(repo, raw, parsed, StoredType(rules, raw, parsed));
      DocumentIDFacts(repo, raw.path);
      WrittenEntries(cfg, t, row, TagsOf(row.id, parsed.tags), cfg.split(parsed.content).value, u);
      forall id | id in u.documents ensures CurrentChunks(cfg, u, id) {
        assert id != row.id ==> CurrentChunks(cfg, t, id);
      }
    }
  }

  lemma FaultlessAt(cfg: Config, rules: seq<Mapping>, repo: string, raws: seq<Raw>, trace: seq<Tables>, outcomes: seq<Outcome>, i: nat)
    requires Faultless(cfg, rules, repo, raws, trace, outcomes) && i < |raws|
    ensures Ready(trace[i], repo) && OneStep(cfg, rules, repo, trace[i], raws[i], trace[i + 1], outcomes[i])
  {
    assert StepAt(cfg, rules, repo, raws, trace, outcomes, i);
    assert ReadyAt(repo, trace, i);
  }

  lemma RunAt(cfg: Config, rules: seq<Mapping>, repo: string, raws: seq<Raw>, trace: seq<Tables>, outcomes: seq<Outcome>, i: nat)
    requires CleanRun(cfg, rules, repo, raws, trace, outcomes) && i < |raws|
    ensures Ready(trace[i], repo) && OneStep(cfg, rules, repo, trace[i], raws[i], trace[i + 1], outcomes[i])
    ensures outcomes[i] != Failed(LinkFailed)
  {
    FaultlessAt(cfg, rules, repo, raws, trace, outcomes, i);
    assert outcomes[i] in outcomes;
  }

  lemma HopKeepsCurrent(cfg: Config, rules: seq<Mapping>, repo: string, raws: seq<Raw>,
                        trace: seq<Tables>, outcomes: seq<Outcome>, i: nat)
    requires Faultless(cfg, rules, repo, raws, trace, outcomes) && i < |raws| && Clean(raws[i].path)
    requires ChunksCurrent(cfg, trace[i])
    ensures ChunksCurrent(cfg, trace[i + 1])
  {
    FaultlessAt(cfg, rules, repo, raws, trace, outcomes, i);
    StepKeepsCurrent(cfg, rules, repo, trace[i], raws[i], trace[i + 1], outcomes[i]);
  }

  /** At every point of a run that no engine failure strikes the chunks are those of the stored contents. */
  lemma {:induction false} RunKeepsCurrent(cfg: Config, rules: seq<Mapping>, repo: string, raws: seq<Raw>,
                                           trace: seq<Tables>, outcomes: seq<Outcome>, n: nat)
    requires Faultless(cfg, rules, repo, raws, trace, outcomes) && n <= |raws| && ChunksCurrent(cfg, trace[0])
    requires AllClean(raws)
    ensures ChunksCurrent(cfg, trace[n])
  {
    if n == 0 {
    } else {
      RunKeepsCurrent(cfg, rules, repo, raws, trace, outcomes, n - 1);
      HopKeepsCurrent(cfg, rules, repo, raws, trace, outcomes, n - 1);
    }
  }

  lemma DeleteKeepsChunks(t: Tables, id: string, other: string)
    requires other != id
    ensures ChunksStored(DocumentDeleted(t, id), other) == ChunksStored(t, other)
  {
    var u := DocumentDeleted(t, id);
    forall c ensures c in ChunksStored(u, other) <==> c in ChunksStored(t, other) {
      if c in ChunksStored(t, other) {
        var k :| k in t.chunks && t.chunks[k].documentId == other && t.chunks[k] == c;
        assert k in u.chunks;
      }
    }
  }

  lemma {:induction false} DeletesKeepCurrent(cfg: Config, t: Tables, repo: string, paths: seq<string>)
    requires ChunksCurrent(cfg, t)
    ensures ChunksCurrent(cfg, DeletedAll(t, repo, paths))
  {
    if paths == [] {
    } else {
      var n := |paths| - 1;
      var before := DeletedAll(t, repo, paths[..n]);
      var gone := DocumentID(repo, paths[n]);
      DeletesKeepCurrent(cfg, t, repo, paths[..n]);
      forall id | id in DocumentDeleted(before, gone).documents ensures CurrentChunks(cfg, DocumentDeleted(before, gone), id) {
        DeleteKeepsChunks(before, gone, id);
        assert CurrentChunks(cfg, before, id);
      }
    }
  }

  lemma ContentKeepsCurrent(cfg: Config, t: Tables, u: Tables, repo: string)
    requires SameContent(t, u, repo) && ChunksCurrent(cfg, t)
    ensures ChunksCurrent(cfg, u)
  {
    forall id | id in u.documents ensures CurrentChunks(cfg, u, id) {
      assert CurrentChunks(cfg, t, id);
      assert ChunksStored(u, id) == ChunksStored(t, id);
    }
  }

  // ----- deletions

  ghost function DeletedAll(t: Tables, repo: string, paths: seq<string>): Tables {
    if paths == [] then t
    else DocumentDeleted(DeletedAll(t, repo, paths[..|paths| - 1]), DocumentID(repo, paths[|paths| - 1]))
  }

  lemma DeleteKeepsReady(t: Tables, repo: string, id: string)
    requires Ready(t, repo)
    ensures Ready(DocumentDeleted(t, id), repo)
  {
    DeleteDocumentRuns(t, id);
    PlanKeepsInv(t, DeleteDocument(id));
  }

  ghost predicate NoFaults(faults: nat -> Fault) {
    forall n :: faults(n) == None
  }

  predicate DeleteOutcome(o: Outcome) {
    o == Removed || o == Failed(DeleteFailed)
  }

  method DeleteOne(store: Store, repo: string, path: string, report: Report, fault: Fault) returns (ghost outcome: Outcome)
    requires Ready(store.db, repo)
    modifies store, report
    ensures Ready(store.db, repo) && DeleteOutcome(outcome)
    ensures report.View() == Counted(old(report.View()), path, outcome)
    ensures fault.None? ==> outcome == Removed
    ensures store.db == if outcome == Removed then DocumentDeleted(old(store.db), DocumentID(repo, path)) else old(store.db)
  {
    DeleteKeepsReady(store.db, repo, DocumentID(repo, path));
    var ok := store.DeleteDocument(DocumentID(repo, path), fault);
    if ok {
      outcome := Removed;
      report.deleted := report.deleted + 1;
    } else {
      outcome := Failed(DeleteFailed);
      report.Fail(path, DeleteFailed);
    }
  }

  /** The deletions that were done, in order. */
  ghost function DeletedBy(t: Tables, repo: string, paths: seq<string>, outcomes: seq<Outcome>): Tables
    requires |paths| == |outcomes|
  {
    if paths == [] then t
    else
      var n := |paths| - 1;
      var before := DeletedBy(t, repo, paths[..n], outcomes[..n]);
      if outcomes[n] == Removed then DocumentDeleted(before, DocumentID(repo, paths[n])) else before
  }

  lemma OneMoreDeleted(t: Tables, repo: string, paths: seq<string>, i: nat, outcomes: seq<Outcome>, outcome: Outcome)
    requires i < |paths| && |outcomes| == i
    ensures var before := DeletedBy(t, repo, paths[..i], outcomes);
            DeletedBy(t, repo, paths[..i + 1], outcomes + [outcome]) ==
            if outcome == Removed then DocumentDeleted(before, DocumentID(repo, paths[i])) else before
  {
    assert paths[..i + 1][..i] == paths[..i] && (outcomes + [outcome])[..i] == outcomes;
  }

  lemma {:induction false} DeletedByKeeps(t: Tables, repo: string, paths: seq<string>, outcomes: seq<Outcome>)
    requires |paths| == |outcomes|
    ensures DeletedBy(t, repo, paths, outcomes).repositories == t.repositories
    ensures DeletedBy(t, repo, paths, outcomes).states == t.states
  {
    if paths == [] {
    } else {
      DeletedByKeeps(t, repo, paths[..|paths| - 1], outcomes[..|paths| - 1]);
    }
  }

  lemma {:induction false} AllDeleted(t: Tables, repo: string, paths: seq<string>, outcomes: seq<Outcome>)
    requires |paths| == |outcomes| && forall o :: o in outcomes ==> o == Removed
    ensures DeletedBy(t, repo, paths, outcomes) == DeletedAll(t, repo, paths)
  {
    if paths == [] {
    } else {
      var n := |paths| - 1;
      assert outcomes[n] in outcomes && forall o :: o in outcomes[..n] ==> o in outcomes;
      AllDeleted(t, repo, paths[..n], outcomes[..n]);
    }
  }

  method DeleteAll(store: Store, repo: string, paths: seq<string>, report: Report, faults: nat -> Fault)
    returns (ghost outcomes: seq<Outcome>)
    requires Ready(store.db, repo)
    modifies store, report
    ensures Ready(store.db, repo)
    ensures |outcomes| == |paths| && report.View() == CountedAll(old(report.View()), paths, outcomes)
    ensures forall o :: o in outcomes ==> DeleteOutcome(o)
    ensures store.db == DeletedBy(old(store.db), repo, paths, outcomes)
    ensures NoFaults(faults) ==> forall o :: o in outcomes ==> o == Removed
  {
    outcomes := [];
    for i := 0 to |paths|
      invariant Ready(store.db, repo)
      invariant |outcomes| == i && report.View() == CountedAll(old(report.View()), paths[..i], outcomes)
      invariant forall o :: o in outcomes ==> DeleteOutcome(o)
      invariant store.db == DeletedBy(old(store.db), repo, paths[..i], outcomes)
      invariant NoFaults(faults) ==> forall o :: o in outcomes ==> o == Removed
    {
      ghost var outcome := DeleteOne(store, repo, paths[i], report, faults(i));
      OneMoreDeleted(old(store.db), repo, paths, i, outcomes, outcome);
      CountOneMore(old(report.View()), paths, outcomes, outcome);
      outcomes := outcomes + [outcome];
    }
    assert paths[..|paths|] == paths;
  }

  // ----- finish

  /** The rows of a repository. */
  ghost function RowsOf(t: Tables, repo: string): set<string> {
    set id | id in t.documents && t.documents[id].repositoryId == repo
  }

  /** No registration and no state but the repository's own differs, and none is gone. */
  ghost predicate OthersRegistered(t: Tables, u: Tables, repo: string) {
    && u.repositories.Keys == t.repositories.Keys
    && (forall r :: r in t.repositories && r != repo ==> u.repositories[r] == t.repositories[r])
    && (forall r :: r != repo ==> (r in u.states <==> r in t.states) && (r in t.states ==> u.states[r] == t.states[r]))
  }

  /** Everything but the repository's own registration and state is the same. */
  ghost predicate SameContent(t: Tables, u: Tables, repo: string) {
    u == t.(repositories := u.repositories, states := u.states) && OthersRegistered(t, u, repo)
  }

  lemma {:induction false} ListedCount(t: Tables, repo: string, docs: seq<Document>, n: nat)
    requires RowsOwned(t) && n <= |docs| && Distinct(docs)
    requires forall d :: d in docs <==> d.id in t.documents && t.documents[d.id] == d && d.repositoryId == repo
    ensures |IdsOf(docs, n)| == n
  {
    forall i, j | 0 <= i < j < |docs| ensures docs[i].id != docs[j].id {
      assert docs[i] in docs && docs[j] in docs;
    }
    DistinctIdsCount(docs, n);
  }

  ghost function IdsOf(docs: seq<Document>, n: nat): set<string>
    requires n <= |docs|
  {
    set i | 0 <= i < n :: docs[i].id
  }

  lemma {:induction false} DistinctIdsCount(docs: seq<Document>, n: nat)
    requires n <= |docs| && forall i, j :: 0 <= i < j < |docs| ==> docs[i].id != docs[j].id
    ensures |IdsOf(docs, n)| == n
  {
    if n == 0 {
    } else {
      DistinctIdsCount(docs, n - 1);
      assert IdsOf(docs, n) == IdsOf(docs, n - 1) + {docs[n - 1].id};
    }
  }

  lemma ListedAll(t: Tables, repo: string, docs: seq<Document>)
    requires RowsOwned(t) && StrictlySorted(ByPath, docs)
    requires forall d :: d in docs <==> d.id in t.documents && t.documents[d.id] == d && d.repositoryId == repo
    ensures |docs| == |RowsOf(t, repo)|
  {
    StrLessIsTotalOrder();
    forall i, j | 0 <= i < j < |docs| ensures docs[i] != docs[j] {
      assert ByPath(docs[i], docs[j]);
    }
    ListedCount(t, repo, docs, |docs|);
    var ids := IdsOf(docs, |docs|);
    forall id ensures id in ids <==> id in RowsOf(t, repo) {
      if id in RowsOf(t, repo) {
        assert t.documents[id] in docs;
        var i :| 0 <= i < |docs| && docs[i] == t.documents[id];
        assert docs[i].id in ids;
      }
      if id in ids {
        var i :| 0 <= i < |docs| && docs[i].id == id;
        assert docs[i] in docs;
      }
    }
    assert ids == RowsOf(t, repo);
  }

  /** The registration with the commit that was indexed, when git names one. */
  function Marked(t: Tables, repo: Repository, ref: Option<string>): Tables {
    if ref.Some? && ref.value != "" then t.(repositories := t.repositories[repo.id := repo.(lastIndexedCommit := ref.value)]) else t
  }

  /** What `finish` leaves: the marked registration and the state, or no state when it fails. */
  ghost predicate Finished(t: Tables, u: Tables, repo: Repository, ref: Option<string>, clean: bool, ok: bool) {
    var marked := Marked(t, repo, ref);
    if ok then u == marked.(states := marked.states[repo.id := IndexState(|RowsOf(t, repo.id)|, clean)])
    else u == t || u == marked
  }

  lemma FinishedKeeps(t: Tables, u: Tables, repo: Repository, ref: Option<string>, clean: bool, ok: bool)
    requires Finished(t, u, repo, ref, clean, ok) && repo.id in t.repositories
    ensures SameContent(t, u, repo.id) && RowsOf(u, repo.id) == RowsOf(t, repo.id)
  {
    FinishedElsewhere(t, u, repo, ref, clean, ok);
    SameRows(t, u, repo.id);
  }

  lemma FinishedElsewhere(t: Tables, u: Tables, repo: Repository, ref: Option<string>, clean: bool, ok: bool)
    requires Finished(t, u, repo, ref, clean, ok) && repo.id in t.repositories
    ensures u == t.(repositories := u.repositories, states := u.states)
    ensures OthersRegistered(t, u, repo.id)
  {
  }

  lemma SameRows(t: Tables, u: Tables, repo: string)
    requires u.documents == t.documents
    ensures RowsOf(u, repo) == RowsOf(t, repo)
  {
  }

  /** `finish`: the new commit, when git names one, then the number of documents there really are. */
  method Finish(store: Store, repo: Repository, ref: Option<string>, report: Report, faults: (Fault, Fault)) returns (ok: bool)
    requires Ready(store.db, repo.id)
    modifies store
    ensures Ready(store.db, repo.id) && Finished(old(store.db), store.db, repo, ref, report.errors == 0, ok)
    ensures faults == (None, None) ==> ok
  {
    if ref.Some? && ref.value != "" {
      ghost var before := store.db;
      ok := store.PutRepository(repo.(lastIndexedCommit := ref.value), faults.0);
      StepKeepsInv(before, PutRepository(repo.(lastIndexedCommit := ref.value)), store.db);
      if !ok {
        return;
      }
    }
    var docs := store.ListDocuments(repo.id);
    ListedAll(store.db, repo.id, docs);
    var state := IndexState(|docs|, report.errors == 0);
    ghost var mid := store.db;
    ok := store.PutIndexState(repo.id, state, faults.1);
    StepKeepsInv(mid, PutIndexState(repo.id, state), store.db);
    assert RowsOf(mid, repo.id) == RowsOf(old(store.db), repo.id);
  }

  // ----- Index and Sync

  /** The numbers of a run account for every file and every deletion. */
  predicate Balanced(t: Tally, files: nat, deletions: nat) {
    && t.scanned == files && t.added + t.updated + t.same + t.errors + t.deleted == files + deletions
    && t.errors == |t.failures|
  }

  lemma {:induction false} CountsConserve(t: Tally, paths: seq<string>, outcomes: seq<Outcome>)
    requires |paths| == |outcomes| && t.errors == |t.failures|
    ensures var u := CountedAll(t, paths, outcomes);
            && u.scanned == t.scanned && u.errors == |u.failures|
            && u.added + u.updated + u.same + u.errors + u.deleted == t.added + t.updated + t.same + t.errors + t.deleted + |outcomes|
  {
    if outcomes == [] {
    } else {
      var n := |outcomes| - 1;
      CountsConserve(t, paths[..n], outcomes[..n]);
    }
  }

  ghost predicate NoneFailed(outcomes: seq<Outcome>) {
    forall o :: o in outcomes ==> !o.Failed?
  }

  lemma {:induction false} ErrorsCounted(t: Tally, paths: seq<string>, outcomes: seq<Outcome>)
    requires |paths| == |outcomes|
    ensures CountedAll(t, paths, outcomes).errors >= t.errors
    ensures CountedAll(t, paths, outcomes).errors == t.errors <==> NoneFailed(outcomes)
  {
    if outcomes == [] {
    } else {
      var n := |outcomes| - 1;
      ErrorsCounted(t, paths[..n], outcomes[..n]);
      assert outcomes == outcomes[..n] + [outcomes[n]];
    }
  }

  /** A resolver that always answers makes every run clean that no engine failure strikes. */
  lemma SoundRunIsClean(cfg: Config, rules: seq<Mapping>, repo: string, raws: seq<Raw>, trace: seq<Tables>, outcomes: seq<Outcome>)
    requires Faultless(cfg, rules, repo, raws, trace, outcomes) && AlwaysSound(cfg)
    ensures CleanRun(cfg, rules, repo, raws, trace, outcomes)
  {
    forall i | 0 <= i < |outcomes| ensures outcomes[i] != Failed(LinkFailed) {
      assert StepAt(cfg, rules, repo, raws, trace, outcomes, i);
      SoundStep(cfg, rules, repo, trace[i], raws[i], trace[i + 1], outcomes[i]);
    }
  }

  lemma SoundStep(cfg: Config, rules: seq<Mapping>, repo: string, t: Tables, raw: Raw, u: Tables, outcome: Outcome)
    requires OneStep(cfg, rules, repo, t, raw, u, outcome) && ResolverSound(cfg, t)
    ensures outcome != Failed(LinkFailed)
  {
    var parsed := cfg.parse(raw.path, raw.bytes);
    if parsed.Some? {
      DigestIsHex(Join([TrimSpace(repo), TrimSpace(raw.path)], "|"));
      SoundNeverFails(cfg, t, DocumentOf(repo, raw, parsed.value, StoredType(rules, raw, parsed.value)));
    }
  }

  /** From `t` through the files, one after the other, and `finish` to `u`. */
  ghost predicate IndexedBy(repo: Repository, raws: seq<Raw>, ref: Option<string>, t: Tables,
                            trace: seq<Tables>, outcomes: seq<Outcome>, u: Tables, ok: bool) {
    && Trace(repo.id, raws, trace) && trace[0] == t && |outcomes| == |raws| && Removed !in outcomes
    && Finished(trace[|raws|], u, repo, ref, NoneFailed(outcomes), ok)
  }

  /** Likewise, with the deletions before `finish`. */
  ghost predicate SyncedBy(repo: Repository, changed: seq<Raw>, deleted: seq<string>, ref: Option<string>, t: Tables,
                           trace: seq<Tables>, outcomes: seq<Outcome>, removals: seq<Outcome>, u: Tables, ok: bool) {
    && Trace(repo.id, changed, trace) && trace[0] == t && |outcomes| == |changed| && Removed !in outcomes
    && |removals| == |deleted| && (forall o :: o in removals ==> DeleteOutcome(o))
    && Finished(DeletedBy(trace[|changed|], repo.id, deleted, removals), u, repo, ref, NoneFailed(outcomes) && NoneFailed(removals), ok)
  }

  /** `Index`, on what the collector found. */
  method Index(store: Store, cfg: Config, rules: seq<Mapping>, repo: Repository, raws: seq<Raw>, ref: Option<string>,
               faults: nat -> (Fault, Fault), last: (Fault, Fault))
    returns (report: Report, ok: bool, ghost trace: seq<Tables>, ghost outcomes: seq<Outcome>)
    requires Ready(store.db, repo.id) && AllClean(raws)
    modifies store
    ensures Ready(store.db, repo.id) && Balanced(report.View(), |raws|, 0) && report.deleted == 0
    ensures IndexedBy(repo, raws, ref, old(store.db), trace, outcomes, store.db, ok)
    ensures SameContent(trace[|raws|], store.db, repo.id) && OthersRegistered(old(store.db), store.db, repo.id)
    ensures report.View() == CountedAll(Tally(|raws|, 0, 0, 0, 0, 0, []), Paths(raws), outcomes)
    ensures ok ==> repo.id in store.db.states && store.db.states[repo.id].documentCount == |RowsOf(store.db, repo.id)|
    ensures last == (None, None) ==> ok
    ensures NoRunFaults(faults) ==> Faultless(cfg, rules, repo.id, raws, trace, outcomes)
    ensures NoRunFaults(faults) && AlwaysSound(cfg) ==> CleanRun(cfg, rules, repo.id, raws, trace, outcomes)
    ensures NoRunFaults(faults) && ChunksCurrent(cfg, old(store.db)) ==> ChunksCurrent(cfg, store.db)
  {
    report := new Report(|raws|);
    trace, outcomes := IndexAll(store, cfg, rules, repo.id, raws, report, faults);
    IndexTallied(|raws|, Paths(raws), outcomes);
    ok := Finish(store, repo, ref, report, last);
    IndexedFacts(cfg, rules, repo, raws, ref, old(store.db), trace, outcomes, store.db, ok);
  }

  lemma IndexTallied(files: nat, paths: seq<string>, outcomes: seq<Outcome>)
    requires |paths| == |outcomes| == files && Removed !in outcomes
    ensures var t := CountedAll(Tally(files, 0, 0, 0, 0, 0, []), paths, outcomes);
            Balanced(t, files, 0) && t.deleted == 0 && (t.errors == 0 <==> NoneFailed(outcomes))
  {
    var start := Tally(files, 0, 0, 0, 0, 0, []);
    CountsConserve(start, paths, outcomes);
    NothingRemoved(start, paths, outcomes);
    ErrorsCounted(start, paths, outcomes);
  }

  /** What a run that no engine failure strikes is good for. */
  lemma RunFacts(cfg: Config, rules: seq<Mapping>, repo: string, raws: seq<Raw>, trace: seq<Tables>, outcomes: seq<Outcome>)
    requires AllClean(raws)
    ensures Faultless(cfg, rules, repo, raws, trace, outcomes) && AlwaysSound(cfg) ==> CleanRun(cfg, rules, repo, raws, trace, outcomes)
    ensures Faultless(cfg, rules, repo, raws, trace, outcomes) && ChunksCurrent(cfg, trace[0]) ==> ChunksCurrent(cfg, trace[|raws|])
  {
    if Faultless(cfg, rules, repo, raws, trace, outcomes) {
      if AlwaysSound(cfg) {
        SoundRunIsClean(cfg, rules, repo, raws, trace, outcomes);
      }
      if ChunksCurrent(cfg, trace[0]) {
        RunKeepsCurrent(cfg, rules, repo, raws, trace, outcomes, |raws|);
      }
    }
  }

  lemma {:induction false} NothingRemoved(t: Tally, paths: seq<string>, outcomes: seq<Outcome>)
    requires |paths| == |outcomes| && Removed !in outcomes
    ensures CountedAll(t, paths, outcomes).deleted == t.deleted
  {
    if outcomes == [] {
    } else {
      var n := |outcomes| - 1;
      NothingRemoved(t, paths[..n], outcomes[..n]);
    }
  }

  lemma {:induction false} AllRemoved(t: Tally, paths: seq<string>, outcomes: seq<Outcome>)
    requires |paths| == |outcomes| && forall o :: o in outcomes ==> o == Removed
    ensures CountedAll(t, paths, outcomes) == t.(deleted := t.deleted + |paths|)
  {
    if outcomes == [] {
    } else {
      var n := |outcomes| - 1;
      assert outcomes[n] in outcomes && forall o :: o in outcomes[..n] ==> o in outcomes;
      AllRemoved(t, paths[..n], outcomes[..n]);
    }
  }

  lemma SyncTallied(files: nat, changed: seq<string>, outcomes: seq<Outcome>, deleted: seq<string>, removals: seq<Outcome>)
    requires |changed| == |outcomes| == files && |deleted| == |removals| && Removed !in outcomes
    ensures var t := CountedAll(CountedAll(Tally(files, 0, 0, 0, 0, 0, []), changed, outcomes), deleted, removals);
            && Balanced(t, files, |deleted|) && ((forall o :: o in removals ==> o == Removed) ==> t.deleted == |deleted|)
            && (t.errors == 0 <==> NoneFailed(outcomes) && NoneFailed(removals))
  {
    var start := Tally(files, 0, 0, 0, 0, 0, []);
    var mid := CountedAll(start, changed, outcomes);
    CountsConserve(start, changed, outcomes);
    NothingRemoved(start, changed, outcomes);
    CountsConserve(mid, deleted, removals);
    ErrorsCounted(start, changed, outcomes);
    ErrorsCounted(mid, deleted, removals);
    if forall o :: o in removals ==> o == Removed {
      AllRemoved(mid, deleted, removals);
    }
  }

  /** The tables after the changed files, before the deletions and `finish`. */
  ghost predicate SyncCurrent(cfg: Config, rules: seq<Mapping>, repo: string, changed: seq<Raw>,
                              trace: seq<Tables>, outcomes: seq<Outcome>) {
    && Faultless(cfg, rules, repo, changed, trace, outcomes) && ChunksCurrent(cfg, trace[0])
    && AllClean(changed)
  }

  lemma SyncKeepsCurrent(cfg: Config, rules: seq<Mapping>, repo: string, changed: seq<Raw>, deleted: seq<string>,
                         trace: seq<Tables>, outcomes: seq<Outcome>)
    requires SyncCurrent(cfg, rules, repo, changed, trace, outcomes)
    ensures ChunksCurrent(cfg, DeletedAll(trace[|changed|], repo, deleted))
  {
    RunKeepsCurrent(cfg, rules, repo, changed, trace, outcomes, |changed|);
    DeletesKeepCurrent(cfg, trace[|changed|], repo, deleted);
  }

  lemma SyncFacts(cfg: Config, rules: seq<Mapping>, repo: string, changed: seq<Raw>, deleted: seq<string>,
                  trace: seq<Tables>, outcomes: seq<Outcome>, removals: seq<Outcome>)
    requires AllClean(changed) && |removals| == |deleted| && |trace| == |changed| + 1
    ensures Faultless(cfg, rules, repo, changed, trace, outcomes) && AlwaysSound(cfg) ==> CleanRun(cfg, rules, repo, changed, trace, outcomes)
    ensures (forall o :: o in removals ==> o == Removed) ==>
              && DeletedBy(trace[|changed|], repo, deleted, removals) == DeletedAll(trace[|changed|], repo, deleted)
              && (Faultless(cfg, rules, repo, changed, trace, outcomes) && ChunksCurrent(cfg, trace[0]) ==>
                  ChunksCurrent(cfg, DeletedBy(trace[|changed|], repo, deleted, removals)))
  {
    RunFacts(cfg, rules, repo, changed, trace, outcomes);
    if forall o :: o in removals ==> o == Removed {
      AllDeleted(trace[|changed|], repo, deleted, removals);
      if SyncCurrent(cfg, rules, repo, changed, trace, outcomes) {
        SyncKeepsCurrent(cfg, rules, repo, changed, deleted, trace, outcomes);
      }
    }
  }

  /** What a sync leaves of everything it is not about, and what it comes to when nothing failed. */
  lemma SyncedFacts(cfg: Config, rules: seq<Mapping>, repo: Repository, changed: seq<Raw>, deleted: seq<string>, ref: Option<string>,
                    t: Tables, trace: seq<Tables>, outcomes: seq<Outcome>, removals: seq<Outcome>, u: Tables, ok: bool)
    requires SyncedBy(repo, changed, deleted, ref, t, trace, outcomes, removals, u, ok)
    requires AllClean(changed) && repo.id in t.repositories
    ensures OthersRegistered(t, u, repo.id)
    ensures ok ==> repo.id in u.states && u.states[repo.id].documentCount == |RowsOf(u, repo.id)|
    ensures (forall o :: o in removals ==> o == Removed) ==>
              SameContent(DeletedAll(trace[|changed|], repo.id, deleted), u, repo.id)
    ensures Faultless(cfg, rules, repo.id, changed, trace, outcomes) && AlwaysSound(cfg) ==>
              CleanRun(cfg, rules, repo.id, changed, trace, outcomes)
    ensures Faultless(cfg, rules, repo.id, changed, trace, outcomes) && (forall o :: o in removals ==> o == Removed) ==>
              (ChunksCurrent(cfg, t) ==> ChunksCurrent(cfg, u))
  {
    var synced := DeletedBy(trace[|changed|], repo.id, deleted, removals);
    TraceKeepsRegistrations(repo.id, changed, trace, |changed|);
    DeletedByKeeps(trace[|changed|], repo.id, deleted, removals);
    SyncFacts(cfg, rules, repo.id, changed, deleted, trace, outcomes, removals);
    FinishedKeeps(synced, u, repo, ref, NoneFailed(outcomes) && NoneFailed(removals), ok);
    if ChunksCurrent(cfg, synced) {
      ContentKeepsCurrent(cfg, synced, u, repo.id);
    }
  }

  /** What an index run leaves of everything it is not about, and what it comes to when nothing failed. */
  lemma IndexedFacts(cfg: Config, rules: seq<Mapping>, repo: Repository, raws: seq<Raw>, ref: Option<string>,
                     t: Tables, trace: seq<Tables>, outcomes: seq<Outcome>, u: Tables, ok: bool)
    requires IndexedBy(repo, raws, ref, t, trace, outcomes, u, ok)
    requires AllClean(raws) && repo.id in t.repositories
    ensures SameContent(trace[|raws|], u, repo.id) && OthersRegistered(t, u, repo.id)
    ensures ok ==> repo.id in u.states && u.states[repo.id].documentCount == |RowsOf(u, repo.id)|
    ensures Faultless(cfg, rules, repo.id, raws, trace, outcomes) && AlwaysSound(cfg) ==>
              CleanRun(cfg, rules, repo.id, raws, trace, outcomes)
    ensures Faultless(cfg, rules, repo.id, raws, trace, outcomes) && ChunksCurrent(cfg, t) ==> ChunksCurrent(cfg, u)
  {
    TraceKeepsRegistrations(repo.id, raws, trace, |raws|);
    RunFacts(cfg, rules, repo.id, raws, trace, outcomes);
    FinishedKeeps(trace[|raws|], u, repo, ref, NoneFailed(outcomes), ok);
    if ChunksCurrent(cfg, trace[|raws|]) {
      ContentKeepsCurrent(cfg, trace[|raws|], u, repo.id);
    }
  }

  /** `Sync`, on what the incremental collector found changed and deleted. */
  method Sync(store: Store, cfg: Config, rules: seq<Mapping>, repo: Repository, changed: seq<Raw>, deleted: seq<string>,
              ref: Option<string>, faults: nat -> (Fault, Fault), deleteFaults: nat -> Fault, last: (Fault, Fault))
    returns (report: Report, ok: bool, ghost trace: seq<Tables>, ghost outcomes: seq<Outcome>, ghost removals: seq<Outcome>)
    requires Ready(store.db, repo.id) && AllClean(changed)
    modifies store
    ensures Ready(store.db, repo.id) && Balanced(report.View(), |changed|, |deleted|)
    ensures SyncedBy(repo, changed, deleted, ref, old(store.db), trace, outcomes, removals, store.db, ok)
    ensures report.View() == CountedAll(CountedAll(Tally(|changed|, 0, 0, 0, 0, 0, []), Paths(changed), outcomes), deleted, removals)
    ensures OthersRegistered(old(store.db), store.db, repo.id)
    ensures last == (None, None) ==> ok
    ensures NoRunFaults(faults) ==> Faultless(cfg, rules, repo.id, changed, trace, outcomes)
    ensures NoFaults(deleteFaults) ==>
              && SameContent(DeletedAll(trace[|changed|], repo.id, deleted), store.db, repo.id)
              && report.deleted == |deleted| && forall o :: o in removals ==> o == Removed
    ensures ok ==> repo.id in store.db.states && store.db.states[repo.id].documentCount == |RowsOf(store.db, repo.id)|
    ensures NoRunFaults(faults) && AlwaysSound(cfg) ==> CleanRun(cfg, rules, repo.id, changed, trace, outcomes)
    ensures NoRunFaults(faults) && NoFaults(deleteFaults) && ChunksCurrent(cfg, old(store.db)) ==>
              ChunksCurrent(cfg, store.db)
  {
    report := new Report(|changed|);
    trace, outcomes := IndexAll(store, cfg, rules, repo.id, changed, report, faults);
    removals := DeleteAll(store, repo.id, deleted, report, deleteFaults);
    SyncTallied(|changed|, Paths(changed), outcomes, deleted, removals);
    ok := Finish(store, repo, ref, report, last);
    SyncedFacts(cfg, rules, repo, changed, deleted, ref, old(store.db), trace, outcomes, removals, store.db, ok);
  }
}
