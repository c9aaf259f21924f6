/** What holds of every store that the kernel's own writes can reach: beside the keys of the
    schema, every row carries the identifier that its contents determine. */
module Reachable {
  import opened Wrappers
  import opened Text
  import opened Identity
  import opened Taxonomy
  import opened Storage
  import opened Effects
  import opened Extraction
  import opened Pipeline

  /** A row written as its constructor makes it. */
  ghost predicate CanonicalStatement(s: Statement) {
    match s
    case UpsertDocument(d) => d.id == DocumentID(d.repositoryId, d.path) && Clean(d.path) && RepoName(d.repositoryId)
    case InsertTag(tag) => tag.id == TagID(tag.documentId, tag.key, tag.value)
    case InsertEdge(e) => CanonicalEdge(e)
    case InsertEdgeIfNew(e) => CanonicalEdge(e)
    case InsertChunkRow(c) => c.id == ChunkID(c.documentId, c.index)
    case _ => true
  }

  predicate CanonicalEdge(e: Edge) {
    e.id == EdgeID(e.from, e.to, e.relType) && '|' !in e.from
  }

  lemma ExecKeepsCanon(t: Tables, s: Statement)
    requires Canon(t) && CanonicalStatement(s) && Exec(t, s).Some?
    ensures Canon(Exec(t, s).value)
  {
    ExecKeepsChunks(t, s);
    ExecKeepsTags(t, s);
    ExecKeepsEdges(t, s);
    if s.UpsertDocument? {
      DocumentsStayCanonical(t.documents, s.d);
    }
  }

  lemma ExecKeepsChunks(t: Tables, s: Statement)
    requires ChunksCanonical(t.chunks) && CanonicalStatement(s) && Exec(t, s).Some?
    ensures ChunksCanonical(Exec(t, s).value.chunks)
  {
    ExecChunks(t, s);
    var u := Exec(t, s).value;
    if !s.InsertChunkRow? {
      assert forall k :: k in u.chunks ==> (k, u.chunks[k]) in u.chunks.Items;
    }
  }

  lemma ExecChunks(t: Tables, s: Statement)
    requires Exec(t, s).Some?
    ensures var u := Exec(t, s).value;
            if s.InsertChunkRow? then u.chunks == t.chunks[s.chunk.id := s.chunk] else u.chunks.Items <= t.chunks.Items
  {
  }

  lemma ExecTags(t: Tables, s: Statement)
    requires Exec(t, s).Some?
    ensures var u := Exec(t, s).value;
            if s.InsertTag? then u.tags == t.tags[s.tag.id := s.tag] else u.tags.Items <= t.tags.Items
  {
  }

  lemma ExecKeepsTags(t: Tables, s: Statement)
    requires TagsCanonical(t.tags) && CanonicalStatement(s) && Exec(t, s).Some?
    ensures TagsCanonical(Exec(t, s).value.tags)
  {
    ExecTags(t, s);
    var u := Exec(t, s).value;
    if !s.InsertTag? {
      assert forall k :: k in u.tags ==> (k, u.tags[k]) in u.tags.Items;
    }
  }

  lemma ExecEdges(t: Tables, s: Statement)
    requires Exec(t, s).Some?
    ensures var u := Exec(t, s).value;
            if s.InsertEdge? || s.InsertEdgeIfNew? then u.edges == t.edges || u.edges == t.edges[s.edge.id := s.edge]
            else u.edges.Items <= t.edges.Items
  {
  }

  lemma ExecKeepsEdges(t: Tables, s: Statement)
    requires EdgesCanonical(t) && CanonicalStatement(s) && Exec(t, s).Some?
    ensures EdgesCanonical(Exec(t, s).value)
  {
    ExecEdges(t, s);
    var u := Exec(t, s).value;
    if !s.InsertEdge? && !s.InsertEdgeIfNew? {
      assert forall k :: k in u.edges ==> (k, u.edges[k]) in u.edges.Items;
    }
  }

  lemma {:induction false} RunKeepsCanon(t: Tables, ss: seq<Statement>)
    requires Canon(t) && AllCanonical(ss) && Run(t, ss).Some?
    ensures Canon(Run(t, ss).value)
  {
    if ss == [] {
    } else {
      var n := |ss| - 1;
      assert AllCanonical(ss[..n]);
      RunKeepsCanon(t, ss[..n]);
      ExecKeepsCanon(Run(t, ss[..n]).value, ss[n]);
    }
  }

  ghost predicate AllCanonical(ss: seq<Statement>) {
    forall i :: 0 <= i < |ss| ==> CanonicalStatement(ss[i])
  }

  ghost predicate CanonicalOperation(op: Operation) {
    AllCanonical(Plan(op))
  }

  /** One call, complete or failed anywhere. */
  lemma StepKeepsCanon(t: Tables, op: Operation, u: Tables)
    requires Canon(t) && CanonicalOperation(op) && Step(t, op, u)
    ensures Canon(u)
  {
    if Transactional(op) {
      if u != t {
        RunKeepsCanon(t, Plan(op));
      }
    } else {
      var k :| 0 <= k <= |Plan(op)| && Run(t, Plan(op)[..k]) == Some(u);
      RunKeepsCanon(t, Plan(op)[..k]);
    }
  }

  /** A history of canonical calls. */
  ghost predicate CanonicalHistory(ops: seq<Operation>, trace: seq<Tables>) {
    History(ops, trace) && forall j :: 0 <= j < |ops| ==> CanonicalOperation(ops[j])
  }

  lemma EmptyIsCanonical()
    ensures Canon(EMPTY)
  {
  }

  lemma HistoryStep(ops: seq<Operation>, trace: seq<Tables>, i: nat)
    requires CanonicalHistory(ops, trace) && i < |ops|
    ensures Canon(trace[i]) ==> Canon(trace[i + 1])
  {
    if Canon(trace[i]) {
      StepKeepsCanon(trace[i], ops[i], trace[i + 1]);
    }
  }

  predicate KeptAt(holds: Tables -> bool, trace: seq<Tables>, i: nat)
    requires i + 1 < |trace|
  {
    holds(trace[i]) ==> holds(trace[i + 1])
  }

  /** What every step keeps holds all along. */
  lemma {:induction false} Along(holds: Tables -> bool, trace: seq<Tables>, i: nat)
    requires i < |trace| && holds(trace[0]) && forall j: nat :: j + 1 < |trace| ==> KeptAt(holds, trace, j)
    ensures holds(trace[i])
  {
    if i == 0 {
    } else {
      Along(holds, trace, i - 1);
      assert KeptAt(holds, trace, i - 1);
    }
  }

  lemma HistoryKeepsCanon(ops: seq<Operation>, trace: seq<Tables>, i: nat)
    requires CanonicalHistory(ops, trace) && i <= |ops|
    ensures Canon(trace[i])
  {
    EmptyIsCanonical();
    forall j: nat | j + 1 < |trace| ensures KeptAt(Canon, trace, j) {
      HistoryStep(ops, trace, j);
    }
    Along(Canon, trace, i);
  }

  /** Every store reached from the empty one by canonical calls, in any order and failing
      anywhere, is sound and canonical. */
  lemma EveryHistoryIsCanonical(ops: seq<Operation>, trace: seq<Tables>, i: nat)
    requires CanonicalHistory(ops, trace) && i <= |ops|
    ensures Inv(trace[i]) && Canon(trace[i])
  {
    EveryHistoryKeepsInv(ops, trace, i);
    HistoryKeepsCanon(ops, trace, i);
  }

  /** Replacing a document's edges by extracted ones breaks no primary key in any such store. */
  lemma ReachableEdgesFit(ops: seq<Operation>, trace: seq<Tables>, i: nat, documentId: string, edges: seq<Edge>)
    requires CanonicalHistory(ops, trace) && i <= |ops|
    requires ProperEdges(documentId, edges) && TrimSpace(documentId) == documentId && '|' !in documentId
    ensures EdgeIdsFree(EdgesNotFrom(trace[i], documentId), edges)
  {
    HistoryKeepsCanon(ops, trace, i);
    ExtractedEdgesFit(trace[i], documentId, edges);
  }

  // ----- the kernel's calls are canonical

  /** Registrations, states and deletions write no row with a derived identifier. */
  lemma PlainCallsAreCanonical(op: Operation)
    requires op.PutRepository? || op.PutIndexState? || op.DeleteDocument? || op.DeleteRepository?
    ensures CanonicalOperation(op)
  {
  }

  lemma CanonicalSum(a: seq<Statement>, b: seq<Statement>)
    requires AllCanonical(a) && AllCanonical(b)
    ensures AllCanonical(a + b)
  {
  }

  lemma {:induction false} ChunkInsertsCanonical(id: string, pieces: seq<Piece>, n: nat)
    requires n <= |pieces|
    ensures AllCanonical(ChunkInserts(id, ChunksOf(id, pieces)[..n]))
  {
    if n == 0 {
    } else {
      var chunks := ChunksOf(id, pieces);
      ChunkInsertsCanonical(id, pieces, n - 1);
      assert chunks[..n][..n - 1] == chunks[..n - 1];
      var c := chunks[n - 1];
      assert c.(documentId := id) == c;
      CanonicalSum(ChunkInserts(id, chunks[..n - 1]), [InsertChunkRow(c), InsertFtsRow(FtsOf(c))]);
    }
  }

  /** The two writes of an indexed file. */
  lemma IndexWritesAreCanonical(repo: string, raw: Raw, parsed: Parsed, docType: DocType, edges: seq<Edge>, pieces: seq<Piece>)
    requires RepoName(repo) && Clean(raw.path) && ProperEdges(DocumentID(repo, raw.path), edges)
    ensures var row := DocumentOf(repo, raw, parsed, docType);
            && CanonicalOperation(PutDocument(CanonicalDocument(row, TagsOf(row.id, parsed.tags), edges)))
            && CanonicalOperation(PutChunks(row.id, ChunksOf(row.id, pieces)))
  {
    var row := DocumentOf(repo, raw, parsed, docType);
    DocumentIDFacts(repo, raw.path);
    ChunkPlanCanonical(row.id, pieces);
    DocumentPlanCanonical(row, TagsOf(row.id, parsed.tags), edges);
  }

  lemma ChunkPlanCanonical(id: string, pieces: seq<Piece>)
    ensures CanonicalOperation(PutChunks(id, ChunksOf(id, pieces)))
  {
    ChunkInsertsCanonical(id, pieces, |pieces|);
    assert ChunksOf(id, pieces)[..|pieces|] == ChunksOf(id, pieces);
    CanonicalSum([ClearChunkRows(id), ClearFtsRows(id)], ChunkInserts(id, ChunksOf(id, pieces)));
  }

  lemma DocumentPlanCanonical(row: Document, tags: seq<Tag>, edges: seq<Edge>)
    requires CanonicalStatement(UpsertDocument(row)) && TrimSpace(row.id) == row.id && '|' !in row.id
    requires forall i :: 0 <= i < |tags| ==> tags[i].id == TagID(row.id, tags[i].key, tags[i].value)
    requires ProperEdges(row.id, edges)
    ensures CanonicalOperation(PutDocument(CanonicalDocument(row, tags, edges)))
  {
    ProperAreCanonical(row.id, edges);
    TagsAreCanonical(row.id, tags);
    CanonicalSum([ClearTags(row.id)], TagInserts(row.id, tags));
    CanonicalSum([ClearEdgesFrom(row.id)], EdgeInserts(edges));
    CanonicalSum([UpsertDocument(row)], [ClearTags(row.id)] + TagInserts(row.id, tags));
    CanonicalSum([UpsertDocument(row)] + ([ClearTags(row.id)] + TagInserts(row.id, tags)), [ClearEdgesFrom(row.id)] + EdgeInserts(edges));
  }

  lemma TagsAreCanonical(id: string, tags: seq<Tag>)
    requires forall i :: 0 <= i < |tags| ==> tags[i].id == TagID(id, tags[i].key, tags[i].value)
    ensures AllCanonical(TagInserts(id, tags))
  {
  }

  lemma ProperAreCanonical(id: string, edges: seq<Edge>)
    requires ProperEdges(id, edges) && TrimSpace(id) == id && '|' !in id
    ensures AllCanonical(EdgeInserts(edges))
  {
    forall i | 0 <= i < |edges| ensures CanonicalEdge(edges[i]) {
      assert edges[i] in edges;
    }
  }
}
