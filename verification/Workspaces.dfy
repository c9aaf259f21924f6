/** `internal/cli/cli.go`: the commands that change a workspace, each a loop over the store's and
    the indexer's own calls. What the collector finds is given to them. */
module Workspaces {
  import opened Wrappers
  import opened Sorting
  import opened Taxonomy
  import opened Storage
  import opened Effects
  import opened Sqlite
  import opened Pipeline
  import opened Indexing
  import opened Runs

  /** What every command keeps: a sound store whose rows carry their own identifiers, with
      registrations under ids as `NewRepository` makes them. */
  ghost predicate Sound(t: Tables) {
    Inv(t) && Canon(t) && forall id :: id in t.repositories ==> RepoName(id)
  }

  // ----- detach

  ghost predicate HoldsNothingOf(t: Tables, repositoryId: string) {
    && repositoryId !in t.repositories && repositoryId !in t.states
    && (forall k :: k in t.documents ==> t.documents[k].repositoryId != repositoryId)
  }

  /** Rows of other repositories' documents are as they were. */
  ghost predicate OthersKept(t: Tables, u: Tables, repositoryId: string) {
    && (forall k :: k in t.documents && t.documents[k].repositoryId != repositoryId ==> k in u.documents && u.documents[k] == t.documents[k])
    && (forall k :: k in u.documents ==> k in t.documents && u.documents[k] == t.documents[k])
    && (forall c :: c in u.chunks <==> c in t.chunks && t.chunks[c].documentId in u.documents)
    && (forall c :: c in u.chunks ==> u.chunks[c] == t.chunks[c])
    && (forall r :: r in t.repositories && r != repositoryId ==> r in u.repositories && u.repositories[r] == t.repositories[r])
  }

  /** Rows are taken away, none is changed or added. */
  ghost predicate Shrunk(t: Tables, u: Tables) {
    && (forall k :: k in u.documents ==> k in t.documents && u.documents[k] == t.documents[k])
    && (forall k :: k in u.chunks ==> k in t.chunks && u.chunks[k] == t.chunks[k])
    && (forall k :: k in u.tags ==> k in t.tags && u.tags[k] == t.tags[k])
    && (forall k :: k in u.edges ==> k in t.edges && u.edges[k] == t.edges[k])
    && (forall k :: k in u.repositories ==> k in t.repositories && u.repositories[k] == t.repositories[k])
  }

  lemma ShrunkIsSound(t: Tables, u: Tables)
    requires Sound(t) && Shrunk(t, u) && Inv(u)
    ensures Sound(u)
  {
  }

  lemma StillSound(t: Tables, u: Tables)
    requires Inv(u) && Shrunk(t, u)
    ensures Sound(t) ==> Sound(u)
  {
    if Sound(t) {
      ShrunkIsSound(t, u);
    }
  }

  /** Of the listed documents of the repository only those from `i` on remain. */
  ghost predicate Remaining(t: Tables, repositoryId: string, docs: seq<Document>, i: nat)
    requires i <= |docs|
  {
    forall k :: k in t.documents && t.documents[k].repositoryId == repositoryId ==> t.documents[k] in docs[i..]
  }

  /** Where a detach stands before document `i`. */
  ghost predicate Detaching(t0: Tables, t: Tables, repositoryId: string, docs: seq<Document>, i: nat)
    requires i <= |docs|
  {
    && Inv(t) && Shrunk(t0, t) && t.repositories == t0.repositories
    && OthersKept(t0, t, repositoryId) && Remaining(t, repositoryId, docs, i)
  }

  lemma DetachOne(t0: Tables, t: Tables, repositoryId: string, docs: seq<Document>, i: nat)
    requires i < |docs| && Detaching(t0, t, repositoryId, docs, i)
    requires docs[i].id in t0.documents && t0.documents[docs[i].id] == docs[i] && docs[i].repositoryId == repositoryId
    ensures Detaching(t0, DocumentDeleted(t, docs[i].id), repositoryId, docs, i + 1)
  {
    DeleteDocumentRuns(t, docs[i].id);
    PlanKeepsInv(t, Operation.DeleteDocument(docs[i].id));
    DeletedOthersKept(t0, t, repositoryId, docs[i]);
    DeletedShrinks(t0, t, docs[i].id);
    DeletedRemaining(t, repositoryId, docs, i);
  }

  lemma DeletedShrinks(t0: Tables, t: Tables, id: string)
    requires Shrunk(t0, t)
    ensures Shrunk(t0, DocumentDeleted(t, id))
  {
  }

  lemma DeletedRemaining(t: Tables, repositoryId: string, docs: seq<Document>, i: nat)
    requires RowsOwned(t) && i < |docs| && Remaining(t, repositoryId, docs, i)
    ensures Remaining(DocumentDeleted(t, docs[i].id), repositoryId, docs, i + 1)
  {
    assert docs[i..] == [docs[i]] + docs[i + 1..];
  }

  lemma DeletedOthersKept(t0: Tables, t: Tables, repositoryId: string, d: Document)
    requires RowsOwned(t) && OthersKept(t0, t, repositoryId)
    requires d.id in t0.documents && t0.documents[d.id] == d && d.repositoryId == repositoryId
    ensures OthersKept(t0, DocumentDeleted(t, d.id), repositoryId)
  {
  }

  lemma NothingToKeep(t: Tables, repositoryId: string)
    requires Inv(t)
    ensures OthersKept(t, t, repositoryId) && Shrunk(t, t)
  {
  }

  predicate At(t: Tables, id: string, path: string) {
    id in t.repositories && t.repositories[id].localPath == path
  }

  ghost predicate RegisteredAt(t: Tables, path: string) {
    exists id :: At(t, id, path)
  }

  /** `WorkspaceDetach`: documents first, then the registration; an interruption anywhere leaves
      a sound store that still registers the repository, so indexing it again repairs it. */
  method WorkspaceDetach(store: Store, repositoryPath: string, faults: nat -> Fault) returns (ok: bool, ghost detached: string)
    requires Inv(store.db)
    modifies store
    ensures Inv(store.db) && Shrunk(old(store.db), store.db)
    ensures Sound(old(store.db)) ==> Sound(store.db)
    ensures ok ==> HoldsNothingOf(store.db, detached)
    ensures !ok ==> store.db.repositories == old(store.db).repositories
    ensures OthersKept(old(store.db), store.db, detached)
    ensures if RegisteredAt(old(store.db), repositoryPath) then At(old(store.db), detached, repositoryPath)
            else !ok && store.db == old(store.db)
    ensures (forall n :: faults(n) == None) ==> (ok <==> RegisteredAt(old(store.db), repositoryPath))
  {
    detached := "";
    NothingToKeep(store.db, "");
    var found := store.FindRepositoryByPath(repositoryPath);
    if found.None? {
      return false, detached;
    }
    var id := found.value.id;
    detached := id;
    assert At(store.db, id, repositoryPath);
    NothingToKeep(store.db, id);
    var docs := store.ListDocuments(id);
    assert Remaining(store.db, id, docs, 0);
    for i := 0 to |docs|
      invariant Detaching(old(store.db), store.db, id, docs, i)
    {
      DetachOne(old(store.db), store.db, id, docs, i);
      var gone := store.DeleteDocument(docs[i].id, faults(i));
      if !gone {
        StillSound(old(store.db), store.db);
        return false, id;
      }
    }
    ghost var before := store.db;
    ok := store.DeleteRepository(id, faults(|docs|));
    StepKeepsInv(before, Operation.DeleteRepository(id), store.db);
    StillSound(old(store.db), store.db);
  }

  // ----- index, sync and attach

  /** What the collector, the taxonomy file and the engine answer, by repository id: the files of a
      full walk, the changed and the deleted ones, or nothing where they fail. `own` is what an
      empty workspace registers. */
  datatype Inputs = Inputs(
    own: Repository, ownFault: Fault, incremental: bool,
    rules: string -> Option<seq<Mapping>>, walked: string -> Option<seq<Raw>>,
    changed: string -> Option<(seq<Raw>, seq<string>)>, ref: string -> Option<string>,
    faults: string -> nat -> (Fault, Fault), deleteFaults: string -> nat -> Fault, last: string -> (Fault, Fault))

  ghost predicate CleanInputs(x: Inputs) {
    && RepoName(x.own.id)
    && (forall id :: x.walked(id).Some? ==> AllClean(x.walked(id).value))
    && (forall id :: x.changed(id).Some? ==> AllClean(x.changed(id).value.0))
  }

  lemma StaysSound(t: Tables, u: Tables, id: string)
    requires Sound(t) && Ready(u, id) && OthersRegistered(t, u, id)
    ensures Sound(u)
  {
  }

  datatype Mode = Full | Incremental

  /** The collector or the taxonomy file refuses. */
  predicate Unreadable(mode: Mode, x: Inputs, id: string) {
    x.rules(id).None? || (if mode == Full then x.walked(id).None? else x.changed(id).None?)
  }

  /** A sync of a repository never indexed, or by a collector that cannot say what changed, is a
      full index. */
  function ModeFor(mode: Mode, x: Inputs, repo: Repository): Mode {
    if x.incremental && repo.lastIndexedCommit != "" then mode else Full
  }

  ghost predicate IndexRun(cfg: Config, x: Inputs, repo: Repository, raws: seq<Raw>, t: Tables,
                           trace: seq<Tables>, outcomes: seq<Outcome>, u: Tables, ok: bool) {
    && IndexedBy(repo, raws, x.ref(repo.id), t, trace, outcomes, u, ok) && (x.last(repo.id) == (None, None) ==> ok)
    && (x.rules(repo.id).Some? && NoRunFaults(x.faults(repo.id)) ==>
          Faultless(cfg, x.rules(repo.id).value, repo.id, raws, trace, outcomes))
  }

  ghost predicate SyncRun(cfg: Config, x: Inputs, repo: Repository, changed: seq<Raw>, deleted: seq<string>, t: Tables,
                          trace: seq<Tables>, outcomes: seq<Outcome>, removals: seq<Outcome>, u: Tables, ok: bool) {
    && SyncedBy(repo, changed, deleted, x.ref(repo.id), t, trace, outcomes, removals, u, ok)
    && (x.last(repo.id) == (None, None) ==> ok)
    && (NoFaults(x.deleteFaults(repo.id)) ==> forall o :: o in removals ==> o == Removed)
    && (x.rules(repo.id).Some? && NoRunFaults(x.faults(repo.id)) ==>
          Faultless(cfg, x.rules(repo.id).value, repo.id, changed, trace, outcomes))
  }

  /** What a command does to one repository: nothing when it cannot be read, else a run over its
      files. */
  ghost predicate Pass(mode: Mode, cfg: Config, x: Inputs, repo: Repository, t: Tables, u: Tables, ok: bool) {
    if Unreadable(mode, x, repo.id) then u == t && !ok
    else if mode == Full then
      exists trace, outcomes :: IndexRun(cfg, x, repo, x.walked(repo.id).value, t, trace, outcomes, u, ok)
    else
      var (changed, deleted) := x.changed(repo.id).value;
      exists trace, outcomes, removals :: SyncRun(cfg, x, repo, changed, deleted, t, trace, outcomes, removals, u, ok)
  }

  /** `Indexer.Index`. */
  method IndexRepository(store: Store, cfg: Config, x: Inputs, repo: Repository) returns (ok: bool)
    requires Sound(store.db) && CleanInputs(x) && repo.id in store.db.repositories
    modifies store
    ensures Sound(store.db) && OthersRegistered(old(store.db), store.db, repo.id)
    ensures Pass(Full, cfg, x, repo, old(store.db), store.db, ok)
  {
    var id := repo.id;
    if x.walked(id).None? || x.rules(id).None? {
      return false;
    }
    var raws := x.walked(id).value;
    ghost var trace, outcomes;
    var report;
    report, ok, trace, outcomes := Index(store, cfg, x.rules(id).value, repo, raws, x.ref(id), x.faults(id), x.last(id));
    assert IndexRun(cfg, x, repo, raws, old(store.db), trace, outcomes, store.db, ok);
    StaysSound(old(store.db), store.db, id);
  }

  /** `Indexer.Sync`, for a collector that can say what changed. */
  method SyncChanged(store: Store, cfg: Config, x: Inputs, repo: Repository) returns (ok: bool)
    requires Sound(store.db) && CleanInputs(x) && repo.id in store.db.repositories
    modifies store
    ensures Sound(store.db) && OthersRegistered(old(store.db), store.db, repo.id)
    ensures Pass(Incremental, cfg, x, repo, old(store.db), store.db, ok)
  {
    var id := repo.id;
    if x.changed(id).None? || x.rules(id).None? {
      return false;
    }
    var (changed, deleted) := x.changed(id).value;
    ghost var before := store.db;
    ghost var trace, outcomes, removals;
    var report;
    report, ok, trace, outcomes, removals :=
      Sync(store, cfg, x.rules(id).value, repo, changed, deleted, x.ref(id), x.faults(id), x.deleteFaults(id), x.last(id));
    SyncIsPass(cfg, x, repo, changed, deleted, before, trace, outcomes, removals, store.db, ok);
    StaysSound(before, store.db, id);
  }

  lemma SyncIsPass(cfg: Config, x: Inputs, repo: Repository, changed: seq<Raw>, deleted: seq<string>, t: Tables,
                   trace: seq<Tables>, outcomes: seq<Outcome>, removals: seq<Outcome>, u: Tables, ok: bool)
    requires x.changed(repo.id) == Some((changed, deleted)) && x.rules(repo.id).Some?
    requires SyncRun(cfg, x, repo, changed, deleted, t, trace, outcomes, removals, u, ok)
    ensures Pass(Incremental, cfg, x, repo, t, u, ok)
  {
  }

  /** `Indexer.Sync`. */
  method SyncRepository(store: Store, cfg: Config, x: Inputs, repo: Repository) returns (ok: bool)
    requires Sound(store.db) && CleanInputs(x) && repo.id in store.db.repositories
    modifies store
    ensures Sound(store.db) && OthersRegistered(old(store.db), store.db, repo.id)
    ensures Pass(ModeFor(Incremental, x, repo), cfg, x, repo, old(store.db), store.db, ok)
  {
    if !x.incremental || repo.lastIndexedCommit == "" {
      ok := IndexRepository(store, cfg, x, repo);
    } else {
      ok := SyncChanged(store, cfg, x, repo);
    }
  }

  /** The repositories a command is about: all that are registered, by name, or the one that an
      empty workspace registers. */
  ghost predicate Attached(t: Tables, own: Repository, repos: seq<Repository>, u: Tables) {
    if t.repositories == map[] then repos == [own] && u == t.(repositories := map[own.id := own])
    else u == t && Sorted(ByName, repos) && Distinct(repos)
         && forall r :: r in repos <==> r.id in t.repositories && t.repositories[r.id] == r
  }

  /** `workspaceRepositories`. */
  method WorkspaceRepositories(store: Store, own: Repository, fault: Fault) returns (repos: Option<seq<Repository>>)
    requires Sound(store.db) && RepoName(own.id)
    modifies store
    ensures Sound(store.db)
    ensures repos.Some? ==> Attached(old(store.db), own, repos.value, store.db)
    ensures repos.None? ==> fault.Some? && old(store.db).repositories == map[] && store.db == old(store.db)
  {
    var listed := store.ListRepositories();
    if |listed| > 0 {
      assert listed[0] in listed;
      return Some(listed);
    }
    if store.db.repositories != map[] {
      SomeListed(store.db, listed);
    }
    var ok := Register(store, own, fault);
    return if ok then Some([own]) else None;
  }

  lemma SomeListed(t: Tables, listed: seq<Repository>)
    requires RowsOwned(t) && t.repositories != map[]
    requires forall r :: r in listed <==> r.id in t.repositories && t.repositories[r.id] == r
    ensures listed != []
  {
    var id :| id in t.repositories;
    assert t.repositories[id] in listed;
  }

  ghost predicate PassAt(mode: Mode, cfg: Config, x: Inputs, repos: seq<Repository>, tables: seq<Tables>, oks: seq<bool>, i: nat) {
    && i < |repos| && i + 1 < |tables| && i < |oks|
    && Pass(ModeFor(mode, x, repos[i]), cfg, x, repos[i], tables[i], tables[i + 1], oks[i])
  }

  ghost predicate SoundAt(repos: seq<Repository>, tables: seq<Tables>, i: nat) {
    i < |tables| && Sound(tables[i]) && forall r :: r in repos ==> r.id in tables[i].repositories
  }

  /** One pass after the other, each on what the one before it left. */
  ghost predicate Passes(mode: Mode, cfg: Config, x: Inputs, repos: seq<Repository>, tables: seq<Tables>, oks: seq<bool>) {
    && |tables| == |repos| + 1 && |oks| == |repos| && (forall i: nat :: i < |repos| ==> PassAt(mode, cfg, x, repos, tables, oks, i))
    && forall i: nat :: i < |tables| ==> SoundAt(repos, tables, i)
  }

  /** The whole command: every attached repository gets its pass, and `failed` of them did not end. */
  ghost predicate Commanded(mode: Mode, cfg: Config, x: Inputs, t: Tables, repos: seq<Repository>, tables: seq<Tables>,
                            oks: seq<bool>, u: Tables, failed: nat) {
    && Passes(mode, cfg, x, repos, tables, oks) && Attached(t, x.own, repos, tables[0]) && tables[|repos|] == u
    && failed == Count(oks)
  }

  /** How many did not end. */
  function Count(oks: seq<bool>): nat {
    if oks == [] then 0 else Count(oks[..|oks| - 1]) + (if oks[|oks| - 1] then 0 else 1)
  }

  /** Where a command stands before repository `i`. */
  ghost predicate Underway(mode: Mode, cfg: Config, x: Inputs, t: Tables, repos: seq<Repository>, tables: seq<Tables>, oks: seq<bool>,
                           i: nat, now: Tables, count: nat) {
    && i <= |repos| && |oks| == i && Passes(mode, cfg, x, repos[..i], tables, oks) && tables[i] == now && Sound(now)
    && Attached(t, x.own, repos, tables[0]) && (forall j: nat :: j <= i ==> SoundAt(repos, tables, j)) && count == Count(oks)
  }

  lemma Beginning(mode: Mode, cfg: Config, x: Inputs, t: Tables, repos: seq<Repository>, now: Tables)
    requires Sound(now) && Attached(t, x.own, repos, now)
    ensures Underway(mode, cfg, x, t, repos, [now], [], 0, now, 0)
  {
    AttachedSound(t, x.own, repos, now);
    NoPasses(mode, cfg, x, repos[..0], now);
  }

  lemma AttachedSound(t: Tables, own: Repository, repos: seq<Repository>, now: Tables)
    requires Sound(now) && Attached(t, own, repos, now)
    ensures SoundAt(repos, [now], 0)
  {
  }

  lemma NoPasses(mode: Mode, cfg: Config, x: Inputs, none: seq<Repository>, now: Tables)
    requires Sound(now) && none == []
    ensures Passes(mode, cfg, x, none, [now], [])
  {
    assert SoundAt(none, [now], 0);
  }

  lemma Registered(mode: Mode, cfg: Config, x: Inputs, t: Tables, repos: seq<Repository>, tables: seq<Tables>, oks: seq<bool>,
                   i: nat, now: Tables, count: nat)
    requires i < |repos| && Underway(mode, cfg, x, t, repos, tables, oks, i, now, count)
    ensures Sound(now) && repos[i].id in now.repositories
  {
    assert SoundAt(repos, tables, i);
  }

  lemma OneMorePass(mode: Mode, cfg: Config, x: Inputs, t: Tables, repos: seq<Repository>, tables: seq<Tables>, oks: seq<bool>,
                    n: nat, u: Tables, ok: bool, count: nat)
    requires n < |repos| && |tables| == n + 1 && Underway(mode, cfg, x, t, repos, tables, oks, n, tables[n], count)
    requires Pass(ModeFor(mode, x, repos[n]), cfg, x, repos[n], tables[n], u, ok)
    requires Sound(u) && OthersRegistered(tables[n], u, repos[n].id)
    ensures Underway(mode, cfg, x, t, repos, tables + [u], oks + [ok], n + 1, u, if ok then count else count + 1)
  {
    var more, results := tables + [u], oks + [ok];
    OneMoreCounted(oks, ok);
    SoundOn(repos, tables, n, u, more);
    FewerSound(repos, n + 1, more, repos[..n + 1]);
    PassesOn(mode, cfg, x, repos, tables, oks, n, u, ok, repos[..n + 1], more, results);
    assert more[0] == tables[0] && more[n + 1] == u;
  }

  lemma OneMoreCounted(oks: seq<bool>, ok: bool)
    ensures Count(oks + [ok]) == if ok then Count(oks) else Count(oks) + 1
  {
    assert (oks + [ok])[..|oks|] == oks;
  }

  lemma Ended(mode: Mode, cfg: Config, x: Inputs, t: Tables, repos: seq<Repository>, tables: seq<Tables>, oks: seq<bool>,
              now: Tables, count: nat)
    requires Underway(mode, cfg, x, t, repos, tables, oks, |repos|, now, count)
    ensures Commanded(mode, cfg, x, t, repos, tables, oks, now, count)
  {
    assert repos[..|repos|] == repos;
  }

  lemma SoundOn(repos: seq<Repository>, tables: seq<Tables>, n: nat, u: Tables, more: seq<Tables>)
    requires n < |repos| && |tables| == n + 1 && forall j: nat :: j <= n ==> SoundAt(repos, tables, j)
    requires Sound(u) && OthersRegistered(tables[n], u, repos[n].id)
    requires more == tables + [u]
    ensures forall j: nat :: j <= n + 1 ==> SoundAt(repos, more, j)
  {
    assert SoundAt(repos, tables, n);
    forall j: nat | j <= n + 1 ensures SoundAt(repos, more, j) {
      assert j <= n ==> SoundAt(repos, tables, j);
    }
  }

  lemma FewerSound(repos: seq<Repository>, n: nat, tables: seq<Tables>, some: seq<Repository>)
    requires n <= |repos| && some == repos[..n] && forall j: nat :: j <= n ==> SoundAt(repos, tables, j)
    ensures forall j: nat :: j <= n ==> SoundAt(some, tables, j)
  {
    forall j: nat | j <= n ensures SoundAt(some, tables, j) {
      assert SoundAt(repos, tables, j);
    }
  }

  lemma PassesOn(mode: Mode, cfg: Config, x: Inputs, repos: seq<Repository>, tables: seq<Tables>, oks: seq<bool>, n: nat, u: Tables, ok: bool,
                 upTo: seq<Repository>, more: seq<Tables>, results: seq<bool>)
    requires n < |repos| && |oks| == n && Passes(mode, cfg, x, repos[..n], tables, oks)
    requires Pass(ModeFor(mode, x, repos[n]), cfg, x, repos[n], tables[n], u, ok)
    requires upTo == repos[..n + 1] && more == tables + [u] && results == oks + [ok]
    requires forall j: nat :: j <= n + 1 ==> SoundAt(upTo, more, j)
    ensures Passes(mode, cfg, x, upTo, more, results)
  {
    forall i: nat | i < n + 1 ensures PassAt(mode, cfg, x, upTo, more, results, i) {
      assert i < n ==> PassAt(mode, cfg, x, repos[..n], tables, oks, i);
    }
  }

  /** `Index`: every attached repository, one failure not stopping the others. */
  method IndexWorkspace(store: Store, cfg: Config, x: Inputs)
    returns (failed: Option<nat>, ghost repos: seq<Repository>, ghost tables: seq<Tables>, ghost oks: seq<bool>)
    requires Sound(store.db) && CleanInputs(x)
    modifies store
    ensures Sound(store.db)
    ensures failed.Some? ==> Commanded(Full, cfg, x, old(store.db), repos, tables, oks, store.db, failed.value)
    ensures failed.None? ==> x.ownFault.Some? && old(store.db).repositories == map[] && store.db == old(store.db)
  {
    repos, tables, oks := [], [store.db], [];
    var attached := WorkspaceRepositories(store, x.own, x.ownFault);
    if attached.None? {
      return None, repos, tables, oks;
    }
    var all := attached.value;
    repos, tables := all, [store.db];
    Beginning(Full, cfg, x, old(store.db), all, store.db);
    var count := 0;
    for i := 0 to |all|
      invariant Underway(Full, cfg, x, old(store.db), all, tables, oks, i, store.db, count)
    {
      Registered(Full, cfg, x, old(store.db), all, tables, oks, i, store.db, count);
      var ok := IndexRepository(store, cfg, x, all[i]);
      OneMorePass(Full, cfg, x, old(store.db), all, tables, oks, i, store.db, ok, count);
      tables, oks := tables + [store.db], oks + [ok];
      if !ok {
        count := count + 1;
      }
    }
    Ended(Full, cfg, x, old(store.db), all, tables, oks, store.db, count);
    failed := Some(count);
  }

  /** `Sync`: likewise, on what changed. */
  method SyncWorkspace(store: Store, cfg: Config, x: Inputs)
    returns (failed: Option<nat>, ghost repos: seq<Repository>, ghost tables: seq<Tables>, ghost oks: seq<bool>)
    requires Sound(store.db) && CleanInputs(x)
    modifies store
    ensures Sound(store.db)
    ensures failed.Some? ==> Commanded(Incremental, cfg, x, old(store.db), repos, tables, oks, store.db, failed.value)
    ensures failed.None? ==> x.ownFault.Some? && old(store.db).repositories == map[] && store.db == old(store.db)
  {
    repos, tables, oks := [], [store.db], [];
    var attached := WorkspaceRepositories(store, x.own, x.ownFault);
    if attached.None? {
      return None, repos, tables, oks;
    }
    var all := attached.value;
    repos, tables := all, [store.db];
    Beginning(Incremental, cfg, x, old(store.db), all, store.db);
    var count := 0;
    for i := 0 to |all|
      invariant Underway(Incremental, cfg, x, old(store.db), all, tables, oks, i, store.db, count)
    {
      Registered(Incremental, cfg, x, old(store.db), all, tables, oks, i, store.db, count);
      var ok := SyncRepository(store, cfg, x, all[i]);
      OneMorePass(Incremental, cfg, x, old(store.db), all, tables, oks, i, store.db, ok, count);
      tables, oks := tables + [store.db], oks + [ok];
      if !ok {
        count := count + 1;
      }
    }
    Ended(Incremental, cfg, x, old(store.db), all, tables, oks, store.db, count);
    failed := Some(count);
  }

  /** The registration in `WorkspaceAttach` and `Init`. */
  method Register(store: Store, r: Repository, fault: Fault) returns (ok: bool)
    requires Sound(store.db) && RepoName(r.id)
    modifies store
    ensures Sound(store.db)
    ensures store.db == if ok then old(store.db).(repositories := old(store.db).repositories[r.id := r]) else old(store.db)
    ensures fault.None? ==> ok
  {
    ghost var before := store.db;
    ok := store.PutRepository(r, fault);
    StepKeepsInv(before, Operation.PutRepository(r), store.db);
  }

  // ----- sessions

  datatype Command =
    | Attach(r: Repository, fault: Fault)
    | IndexAllRepositories(inputs: Inputs)
    | SyncAllRepositories(inputs: Inputs)
    | Detach(path: string, faults: nat -> Fault)

  ghost predicate Valid(c: Command) {
    match c
    case Attach(r, _) => RepoName(r.id)
    case IndexAllRepositories(x) => CleanInputs(x)
    case SyncAllRepositories(x) => CleanInputs(x)
    case Detach(_, _) => true
  }

  /** An index or sync of the workspace: refused before it starts, or every repository in turn. */
  ghost predicate Covered(mode: Mode, cfg: Config, x: Inputs, t: Tables, u: Tables) {
    || (t.repositories == map[] && u == t)
    || exists repos, tables, oks, failed :: Commanded(mode, cfg, x, t, repos, tables, oks, u, failed)
  }

  /** What a command leaves. */
  ghost predicate Performed(cfg: Config, c: Command, t: Tables, u: Tables) {
    match c
    case Attach(r, _) => u == t || u == t.(repositories := t.repositories[r.id := r])
    case IndexAllRepositories(x) => Covered(Full, cfg, x, t, u)
    case SyncAllRepositories(x) => Covered(Incremental, cfg, x, t, u)
    case Detach(path, _) =>
      if RegisteredAt(t, path) then exists id :: At(t, id, path) && Shrunk(t, u) && OthersKept(t, u, id) else u == t
  }

  method Perform(store: Store, cfg: Config, c: Command)
    requires Sound(store.db) && Valid(c)
    modifies store
    ensures Sound(store.db) && Performed(cfg, c, old(store.db), store.db)
  {
    match c {
      case Attach(r, fault) =>
        var ok := Register(store, r, fault);
      case IndexAllRepositories(x) =>
        ghost var repos, tables, oks;
        var failed;
        failed, repos, tables, oks := IndexWorkspace(store, cfg, x);
      case SyncAllRepositories(x) =>
        ghost var repos, tables, oks;
        var failed;
        failed, repos, tables, oks := SyncWorkspace(store, cfg, x);
      case Detach(path, faults) =>
        ghost var detached;
        var ok;
        ok, detached := WorkspaceDetach(store, path, faults);
    }
  }

  ghost predicate PerformedAt(cfg: Config, commands: seq<Command>, history: seq<Tables>, i: nat) {
    i < |commands| && i + 1 < |history| && Performed(cfg, commands[i], history[i], history[i + 1])
  }

  /** A workspace's life: any commands in any order, failing anywhere, from a new store. Each is
      applicable to what the ones before it left. */
  method Session(cfg: Config, commands: seq<Command>) returns (store: Store, ghost history: seq<Tables>)
    requires forall i :: 0 <= i < |commands| ==> Valid(commands[i])
    ensures fresh(store) && Sound(store.db)
    ensures Lived(cfg, commands, history) && history[|commands|] == store.db
  {
    store := new Store.Open();
    history := [store.db];
    for i := 0 to |commands|
      invariant fresh(store) && Sound(store.db)
      invariant Lived(cfg, commands[..i], history) && history[i] == store.db
    {
      ghost var before := history;
      Perform(store, cfg, commands[i]);
      LivedOn(cfg, commands, i, before, store.db, commands[..i + 1], before + [store.db]);
      history := history + [store.db];
    }
    assert commands[..|commands|] == commands;
  }

  /** The tables from an empty store on, each what a command made of the one before, all sound. */
  ghost predicate Lived(cfg: Config, commands: seq<Command>, history: seq<Tables>) {
    && |history| == |commands| + 1 && history[0] == EMPTY && (forall i :: 0 <= i < |history| ==> Sound(history[i]))
    && forall i: nat :: i < |commands| ==> PerformedAt(cfg, commands, history, i)
  }

  lemma LivedOn(cfg: Config, commands: seq<Command>, n: nat, history: seq<Tables>, u: Tables, upTo: seq<Command>, more: seq<Tables>)
    requires n < |commands| && Lived(cfg, commands[..n], history) && Sound(u) && Performed(cfg, commands[n], history[n], u)
    requires upTo == commands[..n + 1] && more == history + [u]
    ensures Lived(cfg, upTo, more)
  {
    forall i: nat | i < n + 1 ensures PerformedAt(cfg, upTo, more, i) {
      assert i < n ==> PerformedAt(cfg, commands[..n], history, i);
    }
  }
}
