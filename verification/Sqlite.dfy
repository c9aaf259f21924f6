/** The `Store` of `internal/storage/sqlite`: its methods over one database handle,
    with an engine that may fail at any statement. */
module Sqlite {
  import opened Wrappers
  import opened Text
  import opened Sorting
  import opened Taxonomy
  import opened Storage
  import opened Effects

  /** The statement the engine fails at (disk, lock, cancellation), if any. */
  type Fault = Option<nat>

  predicate Strikes(fault: Fault, k: nat) {
    fault.Some? && fault.value == k
  }

  predicate ById(a: Edge, b: Edge) { StrLess(a.id, b.id) }

  predicate ByName(a: Repository, b: Repository) { StrLess(a.name, b.name) }

  predicate ByPath(a: Document, b: Document) { StrLess(a.path, b.path) }

  predicate ByKey(a: Tag, b: Tag) { StrLess(a.key, b.key) }

  datatype Hit = Hit(row: nat, rank: real, snippet: string)

  datatype Match = Match(chunk: Chunk, document: Document, score: real, snippet: string)

  class Store {
    var db: Tables

    constructor Open()
      ensures db == EMPTY && Inv(db)
    {
      db := EMPTY;
    }

    /** BeginTx, the statements one by one, and Commit; any failure rolls back. */
    method Transact(ss: seq<Statement>, fault: Fault) returns (ok: bool)
      modifies this
      ensures ok ==> Run(old(db), ss) == Some(db)
      ensures !ok ==> db == old(db)
      ensures fault.None? ==> (ok <==> Run(old(db), ss).Some?)
    {
      var tx := db;
      for k := 0 to |ss|
        invariant db == old(db) && Run(old(db), ss[..k]) == Some(tx)
      {
        assert ss[..k + 1][..k] == ss[..k];
        if Strikes(fault, k) {
          return false;
        }
        var next := Exec(tx, ss[k]);
        if next.None? {
          PrefixFails(db, ss, k + 1);
          return false;
        }
        tx := next.value;
      }
      assert ss[..|ss|] == ss;
      db := tx;
      return true;
    }

    /** Statements run straight on the connection: what ran before a failure stays. */
    method Autocommit(ss: seq<Statement>, fault: Fault) returns (ok: bool, ghost done: nat)
      modifies this
      ensures done <= |ss| && Run(old(db), ss[..done]) == Some(db)
      ensures ok <==> done == |ss|
      ensures fault.None? ==> (ok <==> Run(old(db), ss).Some?)
    {
      done := 0;
      for k := 0 to |ss|
        invariant done == k && Run(old(db), ss[..k]) == Some(db)
      {
        assert ss[..k + 1][..k] == ss[..k];
        if Strikes(fault, k) {
          return false, k;
        }
        var next := Exec(db, ss[k]);
        if next.None? {
          PrefixFails(old(db), ss, k + 1);
          return false, k;
        }
        db := next.value;
        done := k + 1;
      }
      assert ss[..|ss|] == ss;
      return true, |ss|;
    }

    method PutRepository(r: Repository, fault: Fault) returns (ok: bool)
      modifies this
      ensures Step(old(db), Operation.PutRepository(r), db)
      ensures ok ==> db == old(db).(repositories := old(db).repositories[r.id := r])
      ensures !ok ==> db == old(db)
      ensures fault.None? ==> ok
    {
      RunOne(db, UpsertRepository(r));
      ok := Transact(Plan(Operation.PutRepository(r)), fault);
    }

    method PutDocument(doc: CanonicalDocument, fault: Fault) returns (ok: bool)
      modifies this
      ensures Step(old(db), Operation.PutDocument(doc), db)
      ensures ok ==> DocumentFits(old(db), doc) && db == DocumentPut(old(db), doc)
      ensures !ok ==> db == old(db)
      ensures fault.None? ==> (ok <==> DocumentFits(old(db), doc))
    {
      PutDocumentRuns(db, doc);
      ok := Transact(Plan(Operation.PutDocument(doc)), fault);
    }

    method PutChunks(id: string, chunks: seq<Chunk>, fault: Fault) returns (ok: bool)
      modifies this
      ensures Step(old(db), Operation.PutChunks(id, chunks), db)
      ensures ok ==> Run(old(db), Plan(Operation.PutChunks(id, chunks))) == Some(db)
      ensures !ok ==> db == old(db)
      ensures fault.None? ==> (ok <==> Run(old(db), Plan(Operation.PutChunks(id, chunks))).Some?)
    {
      ok := Transact(Plan(Operation.PutChunks(id, chunks)), fault);
    }

    method DeleteDocument(id: string, fault: Fault) returns (ok: bool)
      modifies this
      ensures Step(old(db), Operation.DeleteDocument(id), db)
      ensures ok ==> db == DocumentDeleted(old(db), id)
      ensures !ok ==> db == old(db)
      ensures fault.None? ==> ok
    {
      DeleteDocumentRuns(db, id);
      ok := Transact(Plan(Operation.DeleteDocument(id)), fault);
    }

    method PutTags(id: string, tags: seq<Tag>, fault: Fault) returns (ok: bool)
      modifies this
      ensures Step(old(db), Operation.PutTags(id, tags), db)
      ensures ok ==> Run(old(db), Plan(Operation.PutTags(id, tags))) == Some(db)
    {
      ghost var done: nat;
      ok, done := Autocommit(Plan(Operation.PutTags(id, tags)), fault);
      assert Plan(Operation.PutTags(id, tags))[..|Plan(Operation.PutTags(id, tags))|] == Plan(Operation.PutTags(id, tags));
    }

    method PutRelationship(edge: Edge, fault: Fault) returns (ok: bool)
      modifies this
      ensures Step(old(db), Operation.PutRelationship(edge), db)
      ensures ok ==> db == if edge.id in old(db).edges then old(db) else old(db).(edges := old(db).edges[edge.id := edge])
    {
      RunOne(db, InsertEdgeIfNew(edge));
      ok := Transact(Plan(Operation.PutRelationship(edge)), fault);
    }

    method PutIndexState(id: string, state: IndexState, fault: Fault) returns (ok: bool)
      modifies this
      ensures Step(old(db), Operation.PutIndexState(id, state), db)
      ensures ok ==> id in old(db).repositories && db == old(db).(states := old(db).states[id := state])
      ensures !ok ==> db == old(db)
      ensures fault.None? ==> (ok <==> id in old(db).repositories)
    {
      RunOne(db, UpsertState(id, state));
      ok := Transact(Plan(Operation.PutIndexState(id, state)), fault);
    }

    /** Drops the registration only, and refuses while documents refer to it. */
    method DeleteRepository(id: string, fault: Fault) returns (ok: bool)
      modifies this
      ensures Step(old(db), Operation.DeleteRepository(id), db)
      ensures ok ==> db == old(db).(states := old(db).states - {id}, repositories := old(db).repositories - {id})
      ensures db.documents == old(db).documents && db.chunks == old(db).chunks && db.fts == old(db).fts
      ensures db.tags == old(db).tags && db.edges == old(db).edges
      ensures !ok ==> db.repositories == old(db).repositories
      ensures fault.None? ==>
                (ok <==> forall k :: k in old(db).documents ==> old(db).documents[k].repositoryId != id)
    {
      var plan := Plan(Operation.DeleteRepository(id));
      DeleteRepositoryRuns(db, id);
      ghost var done: nat;
      ok, done := Autocommit(plan, fault);
    }

    method FindRepositoryByPath(localPath: string) returns (r: Option<Repository>)
      ensures r.Some? ==> r.value in db.repositories.Values && r.value.localPath == localPath
      ensures r.None? ==> forall k :: k in db.repositories ==> db.repositories[k].localPath != localPath
    {
      if k :| k in db.repositories && db.repositories[k].localPath == localPath {
        return Some(db.repositories[k]);
      }
      return None;
    }

    /** Every registration, `ORDER BY name`; equal names come in either order. */
    method ListRepositories() returns (repos: seq<Repository>)
      requires Inv(db)
      ensures Sorted(ByName, repos) && Distinct(repos)
      ensures forall r :: r in repos <==> r.id in db.repositories && db.repositories[r.id] == r
    {
      var found: seq<Repository> := [];
      var todo := db.repositories.Keys;
      while todo != {}
        invariant todo <= db.repositories.Keys && Distinct(found)
        invariant forall r :: r in found <==> r.id in db.repositories && r.id !in todo && db.repositories[r.id] == r
      {
        var k :| k in todo;
        assert db.repositories[k].id == k;
        found := found + [db.repositories[k]];
        todo := todo - {k};
      }
      StrLessIsTotalOrder();
      repos := SortSlice(found, ByName);
      PermutationMembers(repos, found);
      DistinctPermutation(found, repos);
    }

    /** The row holding a repository's path; the unique key makes it the only one. */
    method FindDocumentByPath(repositoryId: string, path: string) returns (r: Option<Document>)
      ensures r.Some? ==> exists k :: k in db.documents && db.documents[k] == r.value && r.value.repositoryId == repositoryId && r.value.path == path
      ensures r.None? ==> forall k :: k in db.documents ==> !(db.documents[k].repositoryId == repositoryId && db.documents[k].path == path)
    {
      if k :| k in db.documents && db.documents[k].repositoryId == repositoryId && db.documents[k].path == path {
        return Some(db.documents[k]);
      }
      return None;
    }

    /** `ORDER BY path`, and within one repository paths are unique. */
    method ListDocuments(repositoryId: string) returns (docs: seq<Document>)
      requires Inv(db)
      ensures StrictlySorted(ByPath, docs)
      ensures forall d :: d in docs <==> d.id in db.documents && db.documents[d.id] == d && d.repositoryId == repositoryId
    {
      var found: seq<Document> := [];
      var todo := db.documents.Keys;
      while todo != {}
        invariant todo <= db.documents.Keys
        invariant Distinct(found)
        invariant forall d :: d in found <==>
                    d.id in db.documents && d.id !in todo && db.documents[d.id] == d && d.repositoryId == repositoryId
        decreases todo
      {
        var k :| k in todo;
        assert db.documents[k].id == k;
        if db.documents[k].repositoryId == repositoryId {
          found := found + [db.documents[k]];
        }
        todo := todo - {k};
      }
      StrLessIsTotalOrder();
      docs := SortSlice(found, ByPath);
      DocumentsStrict(db, repositoryId, found, docs);
    }

    /** Documents of one type across all repositories, `ORDER BY path`; equal paths of different
        repositories come in either order. */
    method ListDocumentsByType(docType: DocType) returns (docs: seq<Document>)
      requires Inv(db)
      ensures Sorted(ByPath, docs) && Distinct(docs)
      ensures forall d :: d in docs <==> d.id in db.documents && db.documents[d.id] == d && d.docType == docType
    {
      var found: seq<Document> := [];
      var todo := db.documents.Keys;
      while todo != {}
        invariant todo <= db.documents.Keys
        invariant Distinct(found)
        invariant forall d :: d in found <==>
                    d.id in db.documents && d.id !in todo && db.documents[d.id] == d && d.docType == docType
        decreases todo
      {
        var k :| k in todo;
        assert db.documents[k].id == k;
        if db.documents[k].docType == docType {
          found := found + [db.documents[k]];
        }
        todo := todo - {k};
      }
      StrLessIsTotalOrder();
      docs := SortSlice(found, ByPath);
      PermutationMembers(docs, found);
      DistinctPermutation(found, docs);
    }

    /** A document's tags, `ORDER BY key`; equal keys come in either order. */
    method ListTags(documentId: string) returns (tags: seq<Tag>)
      requires Inv(db)
      ensures Sorted(ByKey, tags) && Distinct(tags)
      ensures forall tag :: tag in tags <==> tag.id in db.tags && db.tags[tag.id] == tag && tag.documentId == documentId
    {
      var found: seq<Tag> := [];
      var todo := db.tags.Keys;
      while todo != {}
        invariant todo <= db.tags.Keys && Distinct(found)
        invariant forall tag :: tag in found <==>
                    tag.id in db.tags && tag.id !in todo && db.tags[tag.id] == tag && tag.documentId == documentId
      {
        var k :| k in todo;
        assert db.tags[k].id == k;
        if db.tags[k].documentId == documentId {
          found := found + [db.tags[k]];
        }
        todo := todo - {k};
      }
      StrLessIsTotalOrder();
      tags := SortSlice(found, ByKey);
      PermutationMembers(tags, found);
      DistinctPermutation(found, tags);
    }

    /** Edges touching a document in either direction, `ORDER BY id`. */
    method ListRelationships(documentId: string) returns (rels: seq<Edge>)
      requires Inv(db)
      ensures StrictlySorted(ById, rels)
      ensures forall e :: e in rels <==> e.id in db.edges && db.edges[e.id] == e && (e.from == documentId || e.to == documentId)
    {
      var found: seq<Edge> := [];
      var todo := db.edges.Keys;
      while todo != {}
        invariant todo <= db.edges.Keys
        invariant Distinct(found)
        invariant forall e :: e in found <==>
                    e.id in db.edges && e.id !in todo && db.edges[e.id] == e && (e.from == documentId || e.to == documentId)
        decreases todo
      {
        var k :| k in todo;
        assert db.edges[k].id == k;
        if db.edges[k].from == documentId || db.edges[k].to == documentId {
          found := found + [db.edges[k]];
        }
        todo := todo - {k};
      }
      StrLessIsTotalOrder();
      rels := SortSlice(found, ById);
      EdgesStrict(db, found, rels);
    }

    method Hydrate(hit: Hit) returns (m: Option<Match>)
      requires Inv(db) && hit.row in db.fts
      ensures m.Some? && Hydrated(db, hit, m.value)
    {
      var row := db.fts[hit.row];
      if row.chunkId !in db.chunks {
        return None;
      }
      if row.documentId !in db.documents {
        return None;
      }
      return Some(Match(db.chunks[row.chunkId], db.documents[row.documentId], -hit.rank, hit.snippet));
    }

    /** The second half of `SearchChunks`: every hit of the full-text engine, whichever rows it
        picked, is turned into its chunk and document; a missing row would be an error. */
    method SearchChunks(hits: seq<Hit>) returns (matches: Option<seq<Match>>)
      requires Inv(db)
      requires forall i :: 0 <= i < |hits| ==> hits[i].row in db.fts
      ensures matches.Some? && |matches.value| == |hits|
      ensures forall i :: 0 <= i < |hits| ==> Hydrated(db, hits[i], matches.value[i])
    {
      var out: seq<Match> := [];
      for i := 0 to |hits|
        invariant |out| == i
        invariant forall j :: 0 <= j < i ==> Hydrated(db, hits[j], out[j])
      {
        var m := Hydrate(hits[i]);
        if m.None? {
          return None;
        }
        out := out + [m.value];
      }
      return Some(out);
    }
  }

  /** A match says what the full-text row says, and its rows are the stored ones. */
  ghost predicate Hydrated(t: Tables, hit: Hit, m: Match) {
    && hit.row in t.fts && FtsOf(m.chunk) == t.fts[hit.row]
    && m.chunk.id in t.chunks && t.chunks[m.chunk.id] == m.chunk
    && m.document.id in t.documents && t.documents[m.document.id] == m.document
    && m.chunk.documentId == m.document.id
    && m.score == -hit.rank && m.snippet == hit.snippet
  }

  lemma {:induction false} PrefixFails(t: Tables, ss: seq<Statement>, k: nat)
    requires k <= |ss| && Run(t, ss[..k]).None?
    ensures Run(t, ss).None?
  {
    RunSum(t, ss[..k], ss[k..]);
    assert ss == ss[..k] + ss[k..];
  }

  lemma DeleteRepositoryRuns(t: Tables, id: string)
    ensures var plan := Plan(Operation.DeleteRepository(id));
            var after := t.(states := t.states - {id});
            && |plan| == 2 && plan[..2] == plan
            && Run(t, plan[..0]) == Some(t) && Run(t, plan[..1]) == Some(after)
            && Run(t, plan) == if forall k :: k in t.documents ==> t.documents[k].repositoryId != id
                               then Some(after.(repositories := t.repositories - {id})) else None
  {
    var plan := Plan(Operation.DeleteRepository(id));
    assert plan[..0] == [] && plan[..1] == [DeleteState(id)];
    RunOne(t, DeleteState(id));
  }

  lemma DocumentsStrict(t: Tables, repositoryId: string, found: seq<Document>, docs: seq<Document>)
    requires PathsUnique(t) && Distinct(found) && multiset(docs) == multiset(found) && Sorted(ByPath, docs)
    requires forall d :: d in found ==> d.id in t.documents && t.documents[d.id] == d && d.repositoryId == repositoryId
    ensures StrictlySorted(ByPath, docs) && forall d :: d in docs <==> d in found
  {
    StrLessIsTotalOrder();
    PermutationMembers(docs, found);
    DistinctPermutation(found, docs);
    forall i, j | 0 <= i < j < |docs| ensures ByPath(docs[i], docs[j]) {
      assert docs[i] in found && docs[j] in found;
    }
  }

  lemma EdgesStrict(t: Tables, found: seq<Edge>, rels: seq<Edge>)
    requires Distinct(found) && multiset(rels) == multiset(found) && Sorted(ById, rels)
    requires forall e :: e in found ==> e.id in t.edges && t.edges[e.id] == e
    ensures StrictlySorted(ById, rels) && forall e :: e in rels <==> e in found
  {
    StrLessIsTotalOrder();
    PermutationMembers(rels, found);
    DistinctPermutation(found, rels);
    forall i, j | 0 <= i < j < |rels| ensures ById(rels[i], rels[j]) {
      assert rels[i] in found && rels[j] in found;
    }
  }
}
