/** What indexing or syncing a whole workspace leaves: every repository as its own run leaves it,
    whatever the runs of the others do. */
module WorkspaceTheorems {
  import opened Wrappers
  import opened Identity
  import opened Taxonomy
  import opened Storage
  import opened Effects
  import opened Pipeline
  import opened Indexing
  import opened Runs
  import opened Collecting
  import opened Changes
  import opened IndexTheorems
  import opened Workspaces

  // ----- a pass leaves the other repositories alone

  /** The entries, the rows, the registration and the state of a repository. */
  ghost predicate SameFor(t: Tables, u: Tables, id: string) {
    && SameEntries(id, t, u) && RowsOf(u, id) == RowsOf(t, id)
    && (id in u.repositories <==> id in t.repositories) && (id in t.repositories ==> u.repositories[id] == t.repositories[id])
    && (id in u.states <==> id in t.states) && (id in t.states ==> u.states[id] == t.states[id])
  }

  ghost predicate OthersSame(t: Tables, u: Tables, id: string) {
    forall other :: other != id && RepoName(other) ==> SameFor(t, u, other)
  }

  lemma OthersSameOn(t: Tables, u: Tables, v: Tables, id: string)
    requires OthersSame(t, u, id) && OthersSame(u, v, id)
    ensures OthersSame(t, v, id)
  {
    forall other | other != id && RepoName(other) ensures SameFor(t, v, other) {
      assert SameFor(t, u, other) && SameFor(u, v, other);
    }
  }

  /** Documents of different repositories have different identifiers. */
  lemma OtherRows(t: Tables, u: Tables, id: string, path: string, other: string)
    requires Ready(t, id) && Ready(u, id) && Clean(path) && SameElsewhere(t, u, DocumentID(id, path))
    requires other != id && RepoName(other)
    ensures SameFor(t, u, other)
  {
    EntriesElsewhere(t, u, id, path, other);
    RowsElsewhere(t, u, id, path, other);
  }

  lemma EntriesElsewhere(t: Tables, u: Tables, id: string, path: string, other: string)
    requires RepoName(id) && RepoName(other) && other != id && Clean(path) && SameElsewhere(t, u, DocumentID(id, path))
    ensures SameEntries(other, t, u)
  {
    forall p | Clean(p) ensures EntryAt(t, other, p) == EntryAt(u, other, p) {
      OtherName(id, path, other, p);
    }
  }

  lemma RowsElsewhere(t: Tables, u: Tables, id: string, path: string, other: string)
    requires Canon(t) && Canon(u) && RepoName(id) && Clean(path) && SameElsewhere(t, u, DocumentID(id, path))
    requires other != id && RepoName(other)
    ensures RowsOf(u, other) == RowsOf(t, other)
  {
    forall k ensures k in RowsOf(u, other) <==> k in RowsOf(t, other) {
      RowElsewhere(t, id, path, other, k);
      RowElsewhere(u, id, path, other, k);
    }
  }

  lemma OtherName(id: string, path: string, other: string, p: string)
    requires RepoName(id) && RepoName(other) && other != id && Clean(path) && Clean(p)
    ensures DocumentID(other, p) != DocumentID(id, path)
  {
    if DocumentID(other, p) == DocumentID(id, path) {
      SameDocumentID(other, p, id, path);
    }
  }

  lemma RowElsewhere(t: Tables, id: string, path: string, other: string, k: string)
    requires Canon(t) && RepoName(id) && RepoName(other) && other != id && Clean(path)
    ensures k in RowsOf(t, other) ==> k != DocumentID(id, path)
  {
    if k in RowsOf(t, other) {
      OtherName(id, path, other, t.documents[k].path);
    }
  }

  lemma HopSame(id: string, raws: seq<Raw>, trace: seq<Tables>, i: nat)
    requires Trace(id, raws, trace) && AllClean(raws) && i < |raws|
    ensures OthersSame(trace[i], trace[i + 1], id)
  {
    assert HopAt(id, raws, trace, i) && ReadyAt(id, trace, i) && ReadyAt(id, trace, i + 1);
    forall other | other != id && RepoName(other) ensures SameFor(trace[i], trace[i + 1], other) {
      OtherRows(trace[i], trace[i + 1], id, raws[i].path, other);
    }
  }

  /** The files of a run leave every other repository as it is. */
  lemma TraceSame(id: string, raws: seq<Raw>, trace: seq<Tables>)
    requires Trace(id, raws, trace) && AllClean(raws)
    ensures OthersSame(trace[0], trace[|raws|], id)
  {
    StartSame(trace, id);
    for n := 0 to |raws|
      invariant SameFromStart(trace, id, n)
    {
      OneMoreSame(id, raws, trace, n);
    }
  }

  ghost predicate SameFromStart(trace: seq<Tables>, id: string, n: nat) {
    n < |trace| && OthersSame(trace[0], trace[n], id)
  }

  lemma StartSame(trace: seq<Tables>, id: string)
    requires trace != []
    ensures SameFromStart(trace, id, 0)
  {
    OthersSameSelf(trace[0], id);
  }

  lemma OneMoreSame(id: string, raws: seq<Raw>, trace: seq<Tables>, n: nat)
    requires Trace(id, raws, trace) && AllClean(raws) && n < |raws| && SameFromStart(trace, id, n)
    ensures SameFromStart(trace, id, n + 1)
  {
    HopSame(id, raws, trace, n);
    OthersSameOn(trace[0], trace[n], trace[n + 1], id);
  }

  lemma OthersSameSelf(t: Tables, id: string)
    ensures OthersSame(t, t, id)
  {
  }

  lemma DeletedSame(t: Tables, id: string, path: string)
    requires Ready(t, id) && Clean(path)
    ensures OthersSame(t, DocumentDeleted(t, DocumentID(id, path)), id)
  {
    var u := DocumentDeleted(t, DocumentID(id, path));
    forall other | other != id && RepoName(other) ensures SameFor(t, u, other) {
      OtherEntriesStay(t, id, path, other);
      DeletedRows(t, id, path, other);
    }
  }

  lemma OtherEntriesStay(t: Tables, id: string, path: string, other: string)
    requires RepoName(id) && RepoName(other) && other != id && Clean(path)
    ensures SameEntries(other, t, DocumentDeleted(t, DocumentID(id, path)))
  {
    var u := DocumentDeleted(t, DocumentID(id, path));
    forall p | Clean(p) ensures EntryAt(t, other, p) == EntryAt(u, other, p) {
      OtherName(id, path, other, p);
      DeleteKeepsChunks(t, DocumentID(id, path), DocumentID(other, p));
    }
  }

  lemma DeletedRows(t: Tables, id: string, path: string, other: string)
    requires Canon(t) && RepoName(id) && RepoName(other) && other != id && Clean(path)
    ensures RowsOf(DocumentDeleted(t, DocumentID(id, path)), other) == RowsOf(t, other)
  {
    forall k ensures k in RowsOf(DocumentDeleted(t, DocumentID(id, path)), other) <==> k in RowsOf(t, other) {
      RowElsewhere(t, id, path, other, k);
    }
  }

  lemma {:induction false} DeletedBySame(t: Tables, id: string, paths: seq<string>, removals: seq<Outcome>)
    requires Ready(t, id) && |paths| == |removals| && forall p :: p in paths ==> Clean(p)
    ensures Ready(DeletedBy(t, id, paths, removals), id) && OthersSame(t, DeletedBy(t, id, paths, removals), id)
  {
    if paths == [] {
    } else {
      var n := |paths| - 1;
      var before := DeletedBy(t, id, paths[..n], removals[..n]);
      assert forall p :: p in paths[..n] ==> p in paths;
      DeletedBySame(t, id, paths[..n], removals[..n]);
      assert paths[n] in paths;
      DeleteKeepsReady(before, id, DocumentID(id, paths[n]));
      DeletedSame(before, id, paths[n]);
      OthersSameOn(t, before, DocumentDeleted(before, DocumentID(id, paths[n])), id);
    }
  }

  lemma FinishedSame(t: Tables, u: Tables, repo: Repository, ref: Option<string>, clean: bool, ok: bool)
    requires Finished(t, u, repo, ref, clean, ok) && repo.id in t.repositories
    ensures OthersSame(t, u, repo.id)
  {
    FinishedElsewhere(t, u, repo, ref, clean, ok);
    forall other | other != repo.id && RepoName(other) ensures SameFor(t, u, other) {
      SameRows(t, u, other);
      forall p | Clean(p) ensures EntryAt(t, other, p) == EntryAt(u, other, p) {
        assert ChunksStored(u, DocumentID(other, p)) == ChunksStored(t, DocumentID(other, p));
      }
    }
  }

  /** Inputs whose deletions, too, are paths as the domain leaves them. */
  ghost predicate CleanDeletions(x: Inputs) {
    forall id :: x.changed(id).Some? ==> forall p :: p in x.changed(id).value.1 ==> Clean(p)
  }

  lemma IndexRunSame(cfg: Config, x: Inputs, repo: Repository, raws: seq<Raw>, t: Tables,
                     trace: seq<Tables>, outcomes: seq<Outcome>, u: Tables, ok: bool)
    requires IndexRun(cfg, x, repo, raws, t, trace, outcomes, u, ok) && AllClean(raws)
    ensures OthersSame(t, u, repo.id)
  {
    TraceSame(repo.id, raws, trace);
    assert ReadyAt(repo.id, trace, |raws|);
    FinishedSame(trace[|raws|], u, repo, x.ref(repo.id), NoneFailed(outcomes), ok);
    OthersSameOn(t, trace[|raws|], u, repo.id);
  }

  lemma SyncRunSame(cfg: Config, x: Inputs, repo: Repository, changed: seq<Raw>, deleted: seq<string>, t: Tables,
                    trace: seq<Tables>, outcomes: seq<Outcome>, removals: seq<Outcome>, u: Tables, ok: bool)
    requires SyncRun(cfg, x, repo, changed, deleted, t, trace, outcomes, removals, u, ok)
    requires AllClean(changed) && forall p :: p in deleted ==> Clean(p)
    ensures OthersSame(t, u, repo.id)
  {
    var mid := trace[|changed|];
    var synced := DeletedBy(mid, repo.id, deleted, removals);
    TraceSame(repo.id, changed, trace);
    assert ReadyAt(repo.id, trace, |changed|);
    DeletedBySame(mid, repo.id, deleted, removals);
    FinishedSame(synced, u, repo, x.ref(repo.id), NoneFailed(outcomes) && NoneFailed(removals), ok);
    OthersSameOn(t, mid, synced, repo.id);
    OthersSameOn(t, synced, u, repo.id);
  }

  lemma PassSame(mode: Mode, cfg: Config, x: Inputs, repo: Repository, t: Tables, u: Tables, ok: bool)
    requires CleanInputs(x) && CleanDeletions(x) && Pass(mode, cfg, x, repo, t, u, ok)
    ensures OthersSame(t, u, repo.id)
  {
    if Unreadable(mode, x, repo.id) {
    } else if mode == Full {
      var trace, outcomes :| IndexRun(cfg, x, repo, x.walked(repo.id).value, t, trace, outcomes, u, ok);
      IndexRunSame(cfg, x, repo, x.walked(repo.id).value, t, trace, outcomes, u, ok);
    } else {
      var (changed, deleted) := x.changed(repo.id).value;
      var trace, outcomes, removals :| SyncRun(cfg, x, repo, changed, deleted, t, trace, outcomes, removals, u, ok);
      SyncRunSame(cfg, x, repo, changed, deleted, t, trace, outcomes, removals, u, ok);
    }
  }

  ghost predicate SameAcross(tables: seq<Tables>, id: string, m: nat, n: nat) {
    m <= n < |tables| && SameFor(tables[m], tables[n], id)
  }

  lemma SameAtFirst(tables: seq<Tables>, id: string, m: nat)
    requires m < |tables|
    ensures SameAcross(tables, id, m, m)
  {
  }

  ghost predicate StepSame(tables: seq<Tables>, id: string, k: nat) {
    k + 1 < |tables| && SameFor(tables[k], tables[k + 1], id)
  }

  lemma ChainSame(tables: seq<Tables>, id: string, m: nat, n: nat)
    requires m <= n < |tables| && forall k: nat :: m <= k < n ==> StepSame(tables, id, k)
    ensures SameFor(tables[m], tables[n], id)
  {
    SameAtFirst(tables, id, m);
    for k := m to n
      invariant SameAcross(tables, id, m, k)
    {
      assert StepSame(tables, id, k);
    }
  }

  lemma PassesSame(mode: Mode, cfg: Config, x: Inputs, repos: seq<Repository>, tables: seq<Tables>, oks: seq<bool>,
                   id: string, m: nat, n: nat)
    requires CleanInputs(x) && CleanDeletions(x) && forall k: nat :: m <= k < n ==> PassAt(mode, cfg, x, repos, tables, oks, k)
    requires m <= n <= |repos| && n < |tables| && RepoName(id) && forall i :: m <= i < n ==> repos[i].id != id
    ensures SameFor(tables[m], tables[n], id)
  {
    forall k: nat | m <= k < n ensures StepSame(tables, id, k) {
      assert PassAt(mode, cfg, x, repos, tables, oks, k);
      PassSame(ModeFor(mode, x, repos[k]), cfg, x, repos[k], tables[k], tables[k + 1], oks[k]);
    }
    ChainSame(tables, id, m, n);
  }

  /** No two of the repositories a command is about share an id. */
  lemma OneEach(t: Tables, own: Repository, repos: seq<Repository>, u: Tables, i: nat)
    requires Attached(t, own, repos, u) && i < |repos|
    ensures forall j :: 0 <= j < |repos| && j != i ==> repos[j].id != repos[i].id
  {
    forall j | 0 <= j < |repos| && j != i ensures repos[j].id != repos[i].id {
      assert repos[i] in repos && repos[j] in repos;
      assert repos[j] != repos[i];
    }
  }

  /** Around its own pass a repository stays as it is. */
  lemma OwnPass(mode: Mode, cfg: Config, x: Inputs, t: Tables, repos: seq<Repository>, tables: seq<Tables>, oks: seq<bool>,
                u: Tables, failed: nat, i: nat)
    requires CleanInputs(x) && CleanDeletions(x) && Commanded(mode, cfg, x, t, repos, tables, oks, u, failed) && i < |repos|
    ensures RepoName(repos[i].id)
    ensures SameFor(tables[0], tables[i], repos[i].id) && SameFor(tables[i + 1], u, repos[i].id)
    ensures Pass(ModeFor(mode, x, repos[i]), cfg, x, repos[i], tables[i], tables[i + 1], oks[i])
  {
    OwnName(mode, cfg, x, repos, tables, oks, i);
    OneEach(t, x.own, repos, tables[0], i);
    PassesSame(mode, cfg, x, repos, tables, oks, repos[i].id, 0, i);
    PassesSame(mode, cfg, x, repos, tables, oks, repos[i].id, i + 1, |repos|);
  }

  lemma OwnName(mode: Mode, cfg: Config, x: Inputs, repos: seq<Repository>, tables: seq<Tables>, oks: seq<bool>, i: nat)
    requires Passes(mode, cfg, x, repos, tables, oks) && i < |repos|
    ensures RepoName(repos[i].id) && PassAt(mode, cfg, x, repos, tables, oks, i)
  {
    assert SoundAt(repos, tables, 0) && repos[i] in repos;
  }

  lemma SameMirrors(cfg: Config, rules: seq<Mapping>, t: Tables, u: Tables, id: string, files: Snapshot)
    requires SameEntries(id, t, u)
    ensures Mirrors(cfg, rules, id, t, files) <==> Mirrors(cfg, rules, id, u, files)
  {
  }

  lemma FinishedEntries(t: Tables, u: Tables, repo: Repository, ref: Option<string>, clean: bool, ok: bool)
    requires Finished(t, u, repo, ref, clean, ok) && repo.id in t.repositories
    ensures SameEntries(repo.id, t, u)
  {
    FinishedElsewhere(t, u, repo, ref, clean, ok);
    forall p | Clean(p) ensures EntryAt(t, repo.id, p) == EntryAt(u, repo.id, p) {
      assert ChunksStored(u, DocumentID(repo.id, p)) == ChunksStored(t, DocumentID(repo.id, p));
    }
  }

  // ----- indexing a workspace

  /** Nothing fails under the files of a repository. */
  ghost predicate Unhindered(cfg: Config, x: Inputs, id: string) {
    AlwaysSound(cfg) && NoRunFaults(x.faults(id)) && NoFaults(x.deleteFaults(id))
  }

  lemma FullPassMirrors(cfg: Config, x: Inputs, repo: Repository, t: Tables, u: Tables, ok: bool,
                        rules: seq<Mapping>, held: Snapshot, files: Snapshot)
    requires CleanInputs(x) && Pass(Full, cfg, x, repo, t, u, ok) && Unhindered(cfg, x, repo.id)
    requires x.rules(repo.id) == Some(rules) && x.walked(repo.id).Some? && Lists(x.walked(repo.id).value, files)
    requires Mirrors(cfg, rules, repo.id, t, held)
    ensures Mirrors(cfg, rules, repo.id, u, files) <==>
            NoneStranded(cfg, rules, repo.id, held, x.walked(repo.id).value) && NothingGone(cfg, rules, repo.id, held, files)
  {
    var raws := x.walked(repo.id).value;
    var trace, outcomes :| IndexRun(cfg, x, repo, raws, t, trace, outcomes, u, ok);
    SoundRunIsClean(cfg, rules, repo.id, raws, trace, outcomes);
    IndexMirrorsExactly(cfg, rules, repo.id, held, files, raws, trace, outcomes);
    assert ReadyAt(repo.id, trace, |raws|);
    FinishedEntries(trace[|raws|], u, repo, x.ref(repo.id), NoneFailed(outcomes), ok);
    SameMirrors(cfg, rules, trace[|raws|], u, repo.id, files);
  }

  /** After `eng index` every repository that nothing fails under mirrors its files, exactly under
      the conditions of its own full index, whatever became of the others; after `eng sync`, every
      one that was never indexed. */
  lemma IndexedWorkspaceMirrors(mode: Mode, cfg: Config, x: Inputs, t: Tables, repos: seq<Repository>, tables: seq<Tables>, oks: seq<bool>,
                                u: Tables, failed: nat, i: nat, rules: seq<Mapping>, held: Snapshot, files: Snapshot)
    requires CleanInputs(x) && CleanDeletions(x) && Commanded(mode, cfg, x, t, repos, tables, oks, u, failed) && i < |repos|
    requires ModeFor(mode, x, repos[i]) == Full
    requires var id := repos[i].id;
             && Unhindered(cfg, x, id) && x.rules(id) == Some(rules) && x.walked(id).Some?
             && Lists(x.walked(id).value, files) && Mirrors(cfg, rules, id, tables[0], held)
    ensures var id := repos[i].id;
            Mirrors(cfg, rules, id, u, files) <==>
            NoneStranded(cfg, rules, id, held, x.walked(id).value) && NothingGone(cfg, rules, id, held, files)
  {
    var id := repos[i].id;
    OwnPass(mode, cfg, x, t, repos, tables, oks, u, failed, i);
    SameMirrors(cfg, rules, tables[0], tables[i], id, held);
    FullPassMirrors(cfg, x, repos[i], tables[i], tables[i + 1], oks[i], rules, held, files);
    SameMirrors(cfg, rules, tables[i + 1], u, id, files);
  }

  /** In particular a repository of which nothing was held. */
  lemma NewRepositoryMirrors(cfg: Config, x: Inputs, t: Tables, repos: seq<Repository>, tables: seq<Tables>, oks: seq<bool>,
                             u: Tables, failed: nat, i: nat, rules: seq<Mapping>, files: Snapshot)
    requires CleanInputs(x) && CleanDeletions(x) && Commanded(Full, cfg, x, t, repos, tables, oks, u, failed) && i < |repos|
    requires var id := repos[i].id;
             && Unhindered(cfg, x, id) && x.rules(id) == Some(rules) && x.walked(id).Some?
             && Lists(x.walked(id).value, files) && forall p :: Clean(p) ==> EntryAt(t, id, p).None?
    ensures Mirrors(cfg, rules, repos[i].id, u, files)
  {
    var id := repos[i].id;
    AttachedContent(t, x.own, repos, tables[0]);
    NothingHeld(cfg, rules, t, tables[0], id);
    IndexedWorkspaceMirrors(Full, cfg, x, t, repos, tables, oks, u, failed, i, rules, map[], files);
  }

  lemma AttachedContent(t: Tables, own: Repository, repos: seq<Repository>, u: Tables)
    requires Attached(t, own, repos, u)
    ensures u.documents == t.documents && u.chunks == t.chunks
  {
  }

  lemma NothingHeld(cfg: Config, rules: seq<Mapping>, t: Tables, u: Tables, id: string)
    requires u.documents == t.documents && u.chunks == t.chunks && forall p :: Clean(p) ==> EntryAt(t, id, p).None?
    ensures Mirrors(cfg, rules, id, u, map[])
  {
    forall p | Clean(p) ensures EntryAt(u, id, p).None? {
      assert EntryAt(t, id, p).None?;
    }
  }

  // ----- syncing a workspace

  /** After `eng sync` a repository indexed before mirrors its walked files exactly under the
      conditions of its own sync. */
  lemma SyncedWorkspaceMirrors(cfg: Config, x: Inputs, t: Tables, repos: seq<Repository>, tables: seq<Tables>, oks: seq<bool>,
                               u: Tables, failed: nat, i: nat, rules: seq<Mapping>, held: Snapshot, disk: Snapshot, walked: Snapshot,
                               statuses: Statuses, changed: seq<Raw>, deleted: seq<string>)
    requires CleanInputs(x) && CleanDeletions(x) && Commanded(Incremental, cfg, x, t, repos, tables, oks, u, failed) && i < |repos|
    requires x.incremental && repos[i].lastIndexedCommit != ""
    requires var id := repos[i].id;
             && Unhindered(cfg, x, id) && x.rules(id) == Some(rules) && x.changed(id) == Some((changed, deleted))
             && Mirrors(cfg, rules, id, tables[0], held)
    requires Collected(statuses, disk, changed, deleted) && CleanPaths(statuses) && PartOf(walked, disk)
    requires forall path :: path in statuses && statuses[path] == Absent ==> path !in disk
    ensures var id := repos[i].id;
            Mirrors(cfg, rules, id, u, walked) <==>
            && NoneStranded(cfg, rules, id, held, changed)
            && NothingHidden(cfg, rules, id, walked, changed)
            && UnlistedAgree(cfg, rules, id, held, walked, statuses)
  {
    var id := repos[i].id;
    OwnPass(Incremental, cfg, x, t, repos, tables, oks, u, failed, i);
    SameMirrors(cfg, rules, tables[0], tables[i], id, held);
    SyncPassMirrors(cfg, x, repos[i], tables[i], tables[i + 1], oks[i], rules, held, disk, walked, statuses, changed, deleted);
    SameMirrors(cfg, rules, tables[i + 1], u, id, walked);
  }

  lemma SyncPassMirrors(cfg: Config, x: Inputs, repo: Repository, t: Tables, u: Tables, ok: bool, rules: seq<Mapping>,
                        held: Snapshot, disk: Snapshot, walked: Snapshot, statuses: Statuses, changed: seq<Raw>, deleted: seq<string>)
    requires CleanInputs(x) && Pass(Incremental, cfg, x, repo, t, u, ok) && Unhindered(cfg, x, repo.id)
    requires x.rules(repo.id) == Some(rules) && x.changed(repo.id) == Some((changed, deleted)) && Mirrors(cfg, rules, repo.id, t, held)
    requires Collected(statuses, disk, changed, deleted) && CleanPaths(statuses) && PartOf(walked, disk)
    requires forall path :: path in statuses && statuses[path] == Absent ==> path !in disk
    ensures Mirrors(cfg, rules, repo.id, u, walked) <==>
            && NoneStranded(cfg, rules, repo.id, held, changed)
            && NothingHidden(cfg, rules, repo.id, walked, changed)
            && UnlistedAgree(cfg, rules, repo.id, held, walked, statuses)
  {
    var trace, outcomes, removals :| SyncRun(cfg, x, repo, changed, deleted, t, trace, outcomes, removals, u, ok);
    var mid := trace[|changed|];
    SoundRunIsClean(cfg, rules, repo.id, changed, trace, outcomes);
    SyncMirrorsExactly(cfg, rules, repo.id, held, disk, walked, statuses, changed, deleted, trace, outcomes);
    assert ReadyAt(repo.id, trace, |changed|);
    SyncedEntries(repo, mid, deleted, removals, x.ref(repo.id), NoneFailed(outcomes) && NoneFailed(removals), u, ok);
    SameMirrors(cfg, rules, DeletedAll(mid, repo.id, deleted), u, repo.id, walked);
  }

  lemma SyncedEntries(repo: Repository, mid: Tables, deleted: seq<string>, removals: seq<Outcome>, ref: Option<string>, clean: bool,
                      u: Tables, ok: bool)
    requires |removals| == |deleted| && (forall o :: o in removals ==> o == Removed) && repo.id in mid.repositories
    requires Finished(DeletedBy(mid, repo.id, deleted, removals), u, repo, ref, clean, ok)
    ensures SameEntries(repo.id, DeletedAll(mid, repo.id, deleted), u)
  {
    AllDeleted(mid, repo.id, deleted, removals);
    DeletedByKeeps(mid, repo.id, deleted, removals);
    FinishedEntries(DeletedAll(mid, repo.id, deleted), u, repo, ref, clean, ok);
  }

  // ----- states and failures

  lemma PassCounts(mode: Mode, cfg: Config, x: Inputs, repo: Repository, t: Tables, u: Tables, ok: bool)
    requires CleanInputs(x) && Pass(mode, cfg, x, repo, t, u, ok) && repo.id in t.repositories
    ensures ok ==> repo.id in u.states && u.states[repo.id].documentCount == |RowsOf(u, repo.id)|
  {
    if Unreadable(mode, x, repo.id) {
    } else if mode == Full {
      var raws := x.walked(repo.id).value;
      var trace, outcomes :| IndexRun(cfg, x, repo, raws, t, trace, outcomes, u, ok);
      IndexedFacts(cfg, [], repo, raws, x.ref(repo.id), t, trace, outcomes, u, ok);
    } else {
      var (changed, deleted) := x.changed(repo.id).value;
      var trace, outcomes, removals :| SyncRun(cfg, x, repo, changed, deleted, t, trace, outcomes, removals, u, ok);
      SyncedFacts(cfg, [], repo, changed, deleted, x.ref(repo.id), t, trace, outcomes, removals, u, ok);
    }
  }

  /** Every repository whose run ended has its documents counted as they are in the end. */
  lemma CountsStand(mode: Mode, cfg: Config, x: Inputs, t: Tables, repos: seq<Repository>, tables: seq<Tables>, oks: seq<bool>,
                    u: Tables, failed: nat, i: nat)
    requires CleanInputs(x) && CleanDeletions(x) && Commanded(mode, cfg, x, t, repos, tables, oks, u, failed) && i < |repos| && oks[i]
    ensures repos[i].id in u.states && u.states[repos[i].id].documentCount == |RowsOf(u, repos[i].id)|
  {
    OwnPass(mode, cfg, x, t, repos, tables, oks, u, failed, i);
    assert SoundAt(repos, tables, i) && repos[i] in repos;
    PassCounts(ModeFor(mode, x, repos[i]), cfg, x, repos[i], tables[i], tables[i + 1], oks[i]);
  }

  lemma {:induction false} NoneCounted(oks: seq<bool>)
    ensures Count(oks) == 0 <==> forall i :: 0 <= i < |oks| ==> oks[i]
  {
    if oks == [] {
    } else {
      var n := |oks| - 1;
      NoneCounted(oks[..n]);
      assert forall i :: 0 <= i < n ==> oks[..n][i] == oks[i];
    }
  }

  /** A repository is counted as failed when its files or its taxonomy cannot be read, and
      otherwise only when the engine fails its last writes. */
  lemma WhoFails(mode: Mode, cfg: Config, x: Inputs, repo: Repository, t: Tables, u: Tables, ok: bool)
    requires Pass(mode, cfg, x, repo, t, u, ok)
    ensures Unreadable(mode, x, repo.id) ==> !ok && u == t
    ensures !Unreadable(mode, x, repo.id) && x.last(repo.id) == (None, None) ==> ok
  {
  }

  /** With every repository readable and no fault at the end of its run, none fails. */
  lemma NoneFails(mode: Mode, cfg: Config, x: Inputs, t: Tables, repos: seq<Repository>, tables: seq<Tables>, oks: seq<bool>,
                  u: Tables, failed: nat)
    requires Commanded(mode, cfg, x, t, repos, tables, oks, u, failed)
    requires forall r :: r in repos ==> !Unreadable(ModeFor(mode, x, r), x, r.id) && x.last(r.id) == (None, None)
    ensures failed == 0
  {
    forall i | 0 <= i < |oks| ensures oks[i] {
      assert PassAt(mode, cfg, x, repos, tables, oks, i) && repos[i] in repos;
      WhoFails(ModeFor(mode, x, repos[i]), cfg, x, repos[i], tables[i], tables[i + 1], oks[i]);
    }
    NoneCounted(oks);
  }
}
