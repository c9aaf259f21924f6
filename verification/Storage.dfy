/** `internal/storage/sqlite`: the index as tables. A table is a map from its primary
    key; a statement fails when it would break a key or a foreign key of schema.go, and
    a transaction's statements take effect together or not at all. */
module Storage {
  import opened Wrappers
  import opened Taxonomy

  datatype Repository = Repository(id: string, name: string, localPath: string, lastIndexedCommit: string)

  datatype Document = Document(
    id: string, repositoryId: string, path: string, docType: DocType, title: string,
    metadata: map<string, string>, content: string, contentHash: string)

  datatype Chunk = Chunk(id: string, documentId: string, index: nat, heading: string, content: string)

  datatype FtsRow = FtsRow(content: string, chunkId: string, documentId: string, heading: string)

  datatype Tag = Tag(id: string, documentId: string, key: string, value: string)

  datatype Edge = Edge(id: string, from: string, to: string, relType: string, source: string)

  datatype IndexState = IndexState(documentCount: nat, clean: bool)

  datatype Tables = Tables(
    repositories: map<string, Repository>,
    documents: map<string, Document>,
    chunks: map<string, Chunk>,
    fts: map<nat, FtsRow>,       // by row number; the virtual table has no key of its own
    nextRow: nat,
    tags: map<string, Tag>,
    edges: map<string, Edge>,
    states: map<string, IndexState>)

  const EMPTY: Tables := Tables(map[], map[], map[], map[], 0, map[], map[], map[])

  // ----- statements

  datatype Statement =
    | UpsertRepository(r: Repository)
    | UpsertDocument(d: Document)
    | ClearTags(documentId: string)
    | InsertTag(tag: Tag)
    | ClearEdgesFrom(documentId: string)
    | InsertEdge(edge: Edge)
    | InsertEdgeIfNew(edge: Edge)
    | ClearChunkRows(documentId: string)
    | ClearFtsRows(documentId: string)
    | InsertChunkRow(chunk: Chunk)
    | InsertFtsRow(row: FtsRow)
    | ClearEdgesOf(documentId: string)
    | DeleteDocumentRow(documentId: string)
    | UpsertState(repositoryId: string, state: IndexState)
    | DeleteState(repositoryId: string)
    | DeleteRepositoryRow(repositoryId: string)

  function ChunksWithout(t: Tables, id: string): map<string, Chunk> {
    map k | k in t.chunks && t.chunks[k].documentId != id :: t.chunks[k]
  }

  function FtsWithout(t: Tables, id: string): map<nat, FtsRow> {
    map k | k in t.fts && t.fts[k].documentId != id :: t.fts[k]
  }

  function TagsWithout(t: Tables, id: string): map<string, Tag> {
    map k | k in t.tags && t.tags[k].documentId != id :: t.tags[k]
  }

  function EdgesNotFrom(t: Tables, id: string): map<string, Edge> {
    map k | k in t.edges && t.edges[k].from != id :: t.edges[k]
  }

  function EdgesNotOf(t: Tables, id: string): map<string, Edge> {
    map k | k in t.edges && t.edges[k].from != id && t.edges[k].to != id :: t.edges[k]
  }

  /** Another row already holds the document's repository and path. */
  predicate PathTaken(t: Tables, d: Document) {
    exists k :: k in t.documents && k != d.id && t.documents[k].repositoryId == d.repositoryId && t.documents[k].path == d.path
  }

  predicate Referenced(t: Tables, id: string) {
    (exists k :: k in t.chunks && t.chunks[k].documentId == id) || (exists k :: k in t.tags && t.tags[k].documentId == id)
  }

  predicate Registers(t: Tables, repositoryId: string) {
    (exists k :: k in t.documents && t.documents[k].repositoryId == repositoryId) || repositoryId in t.states
  }

  /** One statement; `None` is a constraint violation. */
  function Exec(t: Tables, s: Statement): Option<Tables> {
    match s
    case UpsertRepository(r) => Some(t.(repositories := t.repositories[r.id := r]))
    case UpsertDocument(d) =>
      if d.repositoryId !in t.repositories || PathTaken(t, d) then None
      else Some(t.(documents := t.documents[d.id := d]))
    case ClearTags(id) => Some(t.(tags := TagsWithout(t, id)))
    case InsertTag(tag) =>
      if tag.id in t.tags || tag.documentId !in t.documents then None
      else Some(t.(tags := t.tags[tag.id := tag]))
    case ClearEdgesFrom(id) => Some(t.(edges := EdgesNotFrom(t, id)))
    case InsertEdge(e) => if e.id in t.edges then None else Some(t.(edges := t.edges[e.id := e]))
    case InsertEdgeIfNew(e) => if e.id in t.edges then Some(t) else Some(t.(edges := t.edges[e.id := e]))
    case ClearChunkRows(id) => Some(t.(chunks := ChunksWithout(t, id)))
    case ClearFtsRows(id) => Some(t.(fts := FtsWithout(t, id)))
    case InsertChunkRow(c) =>
      if c.id in t.chunks || c.documentId !in t.documents then None
      else Some(t.(chunks := t.chunks[c.id := c]))
    case InsertFtsRow(row) => Some(t.(fts := t.fts[t.nextRow := row], nextRow := t.nextRow + 1))
    case ClearEdgesOf(id) => Some(t.(edges := EdgesNotOf(t, id)))
    case DeleteDocumentRow(id) =>
      if Referenced(t, id) then None else Some(t.(documents := t.documents - {id}))
    case UpsertState(id, state) =>
      if id !in t.repositories then None else Some(t.(states := t.states[id := state]))
    case DeleteState(id) => Some(t.(states := t.states - {id}))
    case DeleteRepositoryRow(id) =>
      if Registers(t, id) then None else Some(t.(repositories := t.repositories - {id}))
  }

  /** Statements in order, stopping at the first violation. */
  function Run(t: Tables, ss: seq<Statement>): Option<Tables> {
    if ss == [] then Some(t)
    else
      var before := Run(t, ss[..|ss| - 1]);
      if before.None? then None else Exec(before.value, ss[|ss| - 1])
  }

  lemma {:induction false} RunSum(t: Tables, a: seq<Statement>, b: seq<Statement>)
    ensures Run(t, a + b) == if Run(t, a).None? then None else Run(Run(t, a).value, b)
    decreases |b|
  {
    if b == [] {
      assert a + b == a;
    } else {
      assert (a + b)[..|a + b| - 1] == a + b[..|b| - 1];
      RunSum(t, a, b[..|b| - 1]);
    }
  }

  lemma RunOne(t: Tables, s: Statement)
    ensures Run(t, [s]) == Exec(t, s)
  {
    assert [s][..0] == [];
  }

  // ----- what each operation does

  /** A document with the tags and edges written beside it. */
  datatype CanonicalDocument = CanonicalDocument(row: Document, tags: seq<Tag>, edges: seq<Edge>)

  function TagInserts(documentId: string, tags: seq<Tag>): (ss: seq<Statement>)
    ensures |ss| == |tags|
  {
    seq(|tags|, i requires 0 <= i < |tags| => InsertTag(tags[i].(documentId := documentId)))
  }

  function EdgeInserts(edges: seq<Edge>): (ss: seq<Statement>)
    ensures |ss| == |edges|
  {
    seq(|edges|, i requires 0 <= i < |edges| => InsertEdge(edges[i]))
  }

  function FtsOf(c: Chunk): FtsRow {
    FtsRow(c.content, c.id, c.documentId, c.heading)
  }

  function ChunkInserts(documentId: string, chunks: seq<Chunk>): seq<Statement> {
    if chunks == [] then []
    else
      var c := chunks[|chunks| - 1].(documentId := documentId);
      ChunkInserts(documentId, chunks[..|chunks| - 1]) + [InsertChunkRow(c), InsertFtsRow(FtsOf(c))]
  }

  datatype Operation =
    | PutRepository(r: Repository)
    | PutDocument(doc: CanonicalDocument)
    | PutChunks(documentId: string, chunks: seq<Chunk>)
    | PutTags(documentId: string, tags: seq<Tag>)
    | PutRelationship(edge: Edge)
    | DeleteDocument(documentId: string)
    | PutIndexState(repositoryId: string, state: IndexState)
    | DeleteRepository(repositoryId: string)

  function Plan(op: Operation): seq<Statement> {
    match op
    case PutRepository(r) => [UpsertRepository(r)]
    case PutDocument(doc) =>
      [UpsertDocument(doc.row)] + ([ClearTags(doc.row.id)] + TagInserts(doc.row.id, doc.tags))
      + ([ClearEdgesFrom(doc.row.id)] + EdgeInserts(doc.edges))
    case PutChunks(id, chunks) => [ClearChunkRows(id), ClearFtsRows(id)] + ChunkInserts(id, chunks)
    case PutTags(id, tags) => [ClearTags(id)] + TagInserts(id, tags)
    case PutRelationship(e) => [InsertEdgeIfNew(e)]
    case DeleteDocument(id) =>
      [ClearFtsRows(id), ClearChunkRows(id), ClearTags(id), ClearEdgesOf(id), DeleteDocumentRow(id)]
    case PutIndexState(id, state) => [UpsertState(id, state)]
    case DeleteRepository(id) => [DeleteState(id), DeleteRepositoryRow(id)]
  }

  /** `PutTags` and `DeleteRepository` run their statements outside a transaction. */
  predicate Transactional(op: Operation) {
    !op.PutTags? && !op.DeleteRepository?
  }

  // ----- the invariant

  /** Full-text rows and chunk rows are in step: one row for every chunk, saying what it says. */
  ghost predicate InStep(chunks: map<string, Chunk>, fts: map<nat, FtsRow>, nextRow: nat) {
    && (forall k :: k in fts ==> k < nextRow && fts[k].chunkId in chunks && fts[k] == FtsOf(chunks[fts[k].chunkId]))
    && (forall j, k :: j in fts && k in fts && fts[j].chunkId == fts[k].chunkId ==> j == k)
    && (forall id :: id in chunks ==> chunks[id].id == id && exists k :: k in fts && fts[k].chunkId == id)
  }

  /** A full-text row holds the words of its own chunk. */
  lemma RowSays(t: Tables, k: nat)
    requires FtsInStep(t) && k in t.fts
    ensures var row := t.fts[k];
            && row.chunkId in t.chunks && row.content == t.chunks[row.chunkId].content
            && row.heading == t.chunks[row.chunkId].heading && row.documentId == t.chunks[row.chunkId].documentId
  {
  }

  ghost predicate FtsInStep(t: Tables) {
    InStep(t.chunks, t.fts, t.nextRow)
  }

  ghost predicate RowsOwned(t: Tables) {
    && (forall id :: id in t.documents ==> t.documents[id].id == id && t.documents[id].repositoryId in t.repositories)
    && (forall id :: id in t.chunks ==> t.chunks[id].id == id && t.chunks[id].documentId in t.documents)
    && (forall id :: id in t.tags ==> t.tags[id].id == id && t.tags[id].documentId in t.documents)
    && (forall id :: id in t.edges ==> t.edges[id].id == id)
    && (forall id :: id in t.states ==> id in t.repositories)
    && (forall id :: id in t.repositories ==> t.repositories[id].id == id)
  }

  ghost predicate PathsUnique(t: Tables) {
    forall i, j :: i in t.documents && j in t.documents ==>
      (t.documents[i].repositoryId == t.documents[j].repositoryId && t.documents[i].path == t.documents[j].path ==> i == j)
  }

  ghost predicate Inv(t: Tables) {
    FtsInStep(t) && RowsOwned(t) && PathsUnique(t)
  }

  // ----- statements that keep the invariant on their own

  predicate Single(s: Statement) {
    !s.ClearChunkRows? && !s.ClearFtsRows? && !s.InsertChunkRow? && !s.InsertFtsRow?
  }

  lemma SingleLeavesChunks(t: Tables, s: Statement)
    requires Single(s) && Exec(t, s).Some?
    ensures var u := Exec(t, s).value; u.fts == t.fts && u.chunks == t.chunks && u.nextRow == t.nextRow
  {
  }

  lemma UpsertKeepsRows(t: Tables, s: Statement)
    requires s.UpsertRepository? || s.UpsertDocument? || s.UpsertState?
    requires RowsOwned(t) && Exec(t, s).Some?
    ensures RowsOwned(Exec(t, s).value)
  {
  }

  lemma InsertKeepsRows(t: Tables, s: Statement)
    requires s.InsertTag? || s.InsertEdge? || s.InsertEdgeIfNew?
    requires RowsOwned(t) && Exec(t, s).Some?
    ensures RowsOwned(Exec(t, s).value)
  {
  }

  lemma ClearKeepsRows(t: Tables, s: Statement)
    requires s.ClearTags? || s.ClearEdgesFrom? || s.ClearEdgesOf?
    requires RowsOwned(t) && Exec(t, s).Some?
    ensures RowsOwned(Exec(t, s).value)
  {
  }

  lemma DeleteKeepsRows(t: Tables, s: Statement)
    requires s.DeleteDocumentRow? || s.DeleteState? || s.DeleteRepositoryRow?
    requires RowsOwned(t) && Exec(t, s).Some?
    ensures RowsOwned(Exec(t, s).value)
  {
  }

  lemma SingleKeepsRows(t: Tables, s: Statement)
    requires RowsOwned(t) && Single(s) && Exec(t, s).Some?
    ensures RowsOwned(Exec(t, s).value)
  {
    if s.UpsertRepository? || s.UpsertDocument? || s.UpsertState? {
      UpsertKeepsRows(t, s);
    } else if s.InsertTag? || s.InsertEdge? || s.InsertEdgeIfNew? {
      InsertKeepsRows(t, s);
    } else if s.ClearTags? || s.ClearEdgesFrom? || s.ClearEdgesOf? {
      ClearKeepsRows(t, s);
    } else {
      DeleteKeepsRows(t, s);
    }
  }

  lemma SingleKeepsPaths(t: Tables, s: Statement)
    requires PathsUnique(t) && Single(s) && Exec(t, s).Some?
    ensures PathsUnique(Exec(t, s).value)
  {
    match s {
      case UpsertDocument(d) =>
      case DeleteDocumentRow(id) =>
      case _ =>
    }
  }

  lemma SingleKeepsInv(t: Tables, s: Statement)
    requires Inv(t) && Single(s) && Exec(t, s).Some?
    ensures Inv(Exec(t, s).value)
  {
    SingleLeavesChunks(t, s);
    SingleKeepsRows(t, s);
    SingleKeepsPaths(t, s);
  }

  lemma {:induction false} SinglesKeepInv(t: Tables, ss: seq<Statement>)
    requires Inv(t) && (forall i :: 0 <= i < |ss| ==> Single(ss[i])) && Run(t, ss).Some?
    ensures Inv(Run(t, ss).value)
  {
    if ss == [] {
    } else {
      SinglesKeepInv(t, ss[..|ss| - 1]);
      SingleKeepsInv(Run(t, ss[..|ss| - 1]).value, ss[|ss| - 1]);
    }
  }

  // ----- the two tables that change together

  function WithoutChunks(t: Tables, id: string): Tables {
    t.(chunks := ChunksWithout(t, id), fts := FtsWithout(t, id))
  }

  lemma ClearKeepsStep(t: Tables, id: string)
    requires FtsInStep(t)
    ensures FtsInStep(WithoutChunks(t, id))
  {
    var u := WithoutChunks(t, id);
    forall c | c in u.chunks ensures exists k :: k in u.fts && u.fts[k].chunkId == c {
      var k :| k in t.fts && t.fts[k].chunkId == c;
      assert k in u.fts;
    }
  }

  lemma ClearBothKeepsInv(t: Tables, id: string)
    requires Inv(t)
    ensures Inv(WithoutChunks(t, id))
  {
    ClearKeepsStep(t, id);
  }

  function WithChunk(t: Tables, c: Chunk): Tables {
    t.(chunks := t.chunks[c.id := c], fts := t.fts[t.nextRow := FtsOf(c)], nextRow := t.nextRow + 1)
  }

  lemma InsertKeepsStep(chunks: map<string, Chunk>, fts: map<nat, FtsRow>, nextRow: nat, c: Chunk)
    requires InStep(chunks, fts, nextRow) && c.id !in chunks
    ensures InStep(chunks[c.id := c], fts[nextRow := FtsOf(c)], nextRow + 1)
  {
    var more, rows := chunks[c.id := c], fts[nextRow := FtsOf(c)];
    forall id | id in more ensures exists k :: k in rows && rows[k].chunkId == id {
      if id == c.id {
        assert rows[nextRow].chunkId == id;
      } else {
        var k :| k in fts && fts[k].chunkId == id;
        assert k in rows && rows[k].chunkId == id;
      }
    }
  }

  lemma InsertBothKeepsInv(t: Tables, c: Chunk)
    requires Inv(t) && c.id !in t.chunks && c.documentId in t.documents
    ensures Inv(WithChunk(t, c))
  {
    InsertKeepsStep(t.chunks, t.fts, t.nextRow, c);
  }

  /** The statement pair for one chunk acts as one insertion. */
  lemma ChunkPair(t: Tables, c: Chunk)
    ensures Run(t, [InsertChunkRow(c), InsertFtsRow(FtsOf(c))]) ==
            if c.id in t.chunks || c.documentId !in t.documents then None else Some(WithChunk(t, c))
  {
    var ss := [InsertChunkRow(c), InsertFtsRow(FtsOf(c))];
    assert ss[..1] == [InsertChunkRow(c)];
    RunOne(t, InsertChunkRow(c));
  }

  lemma {:induction false} ChunkInsertsKeepInv(t: Tables, id: string, chunks: seq<Chunk>)
    requires Inv(t) && Run(t, ChunkInserts(id, chunks)).Some?
    ensures Inv(Run(t, ChunkInserts(id, chunks)).value)
  {
    if chunks == [] {
    } else {
      var n := |chunks| - 1;
      var c := chunks[n].(documentId := id);
      RunSum(t, ChunkInserts(id, chunks[..n]), [InsertChunkRow(c), InsertFtsRow(FtsOf(c))]);
      ChunkInsertsKeepInv(t, id, chunks[..n]);
      var mid := Run(t, ChunkInserts(id, chunks[..n])).value;
      ChunkPair(mid, c);
      InsertBothKeepsInv(mid, c);
    }
  }

  lemma ClearPair(t: Tables, id: string)
    ensures Run(t, [ClearChunkRows(id), ClearFtsRows(id)]) == Some(WithoutChunks(t, id))
    ensures Run(t, [ClearFtsRows(id), ClearChunkRows(id)]) == Some(WithoutChunks(t, id))
  {
    assert [ClearChunkRows(id), ClearFtsRows(id)][..1] == [ClearChunkRows(id)];
    assert [ClearFtsRows(id), ClearChunkRows(id)][..1] == [ClearFtsRows(id)];
    RunOne(t, ClearChunkRows(id));
    RunOne(t, ClearFtsRows(id));
  }

  lemma PutChunksKeepsInv(t: Tables, id: string, chunks: seq<Chunk>)
    requires Inv(t) && Run(t, Plan(PutChunks(id, chunks))).Some?
    ensures Inv(Run(t, Plan(PutChunks(id, chunks))).value)
  {
    RunSum(t, [ClearChunkRows(id), ClearFtsRows(id)], ChunkInserts(id, chunks));
    ClearPair(t, id);
    ClearBothKeepsInv(t, id);
    ChunkInsertsKeepInv(WithoutChunks(t, id), id, chunks);
  }

  lemma DeleteDocumentKeepsInv(t: Tables, id: string)
    requires Inv(t) && Run(t, Plan(DeleteDocument(id))).Some?
    ensures Inv(Run(t, Plan(DeleteDocument(id))).value)
  {
    var rest := [ClearTags(id), ClearEdgesOf(id), DeleteDocumentRow(id)];
    assert Plan(DeleteDocument(id)) == [ClearFtsRows(id), ClearChunkRows(id)] + rest;
    RunSum(t, [ClearFtsRows(id), ClearChunkRows(id)], rest);
    ClearPair(t, id);
    ClearBothKeepsInv(t, id);
    SinglesKeepInv(WithoutChunks(t, id), rest);
  }

  /** Every operation that runs to its end keeps the invariant. */
  lemma PlanKeepsInv(t: Tables, op: Operation)
    requires Inv(t) && Run(t, Plan(op)).Some?
    ensures Inv(Run(t, Plan(op)).value)
  {
    match op {
      case PutChunks(id, chunks) => PutChunksKeepsInv(t, id, chunks);
      case DeleteDocument(id) => DeleteDocumentKeepsInv(t, id);
      case _ => SinglesKeepInv(t, Plan(op));
    }
  }

  // ----- runs of the store

  /** One call: a transaction commits whole or rolls back; statements outside one may stop anywhere. */
  ghost predicate Step(t: Tables, op: Operation, u: Tables) {
    if Transactional(op) then u == t || Run(t, Plan(op)) == Some(u)
    else exists k :: 0 <= k <= |Plan(op)| && Run(t, Plan(op)[..k]) == Some(u)
  }

  lemma StepKeepsInv(t: Tables, op: Operation, u: Tables)
    requires Inv(t) && Step(t, op, u)
    ensures Inv(u)
  {
    if Transactional(op) {
      if u != t {
        PlanKeepsInv(t, op);
      }
    } else {
      var k :| 0 <= k <= |Plan(op)| && Run(t, Plan(op)[..k]) == Some(u);
      SinglesKeepInv(t, Plan(op)[..k]);
    }
  }

  /** A history of calls on a store that started empty. */
  ghost predicate History(ops: seq<Operation>, trace: seq<Tables>) {
    && |trace| == |ops| + 1 && trace[0] == EMPTY
    && forall i :: 0 <= i < |ops| ==> Step(trace[i], ops[i], trace[i + 1])
  }

  /** Whatever calls are made, and wherever they fail, every state along the way is sound. */
  lemma {:induction false} EveryHistoryKeepsInv(ops: seq<Operation>, trace: seq<Tables>, i: nat)
    requires History(ops, trace) && i <= |ops|
    ensures Inv(trace[i])
  {
    if i == 0 {
    } else {
      EveryHistoryKeepsInv(ops, trace, i - 1);
      StepKeepsInv(trace[i - 1], ops[i - 1], trace[i]);
    }
  }
}
