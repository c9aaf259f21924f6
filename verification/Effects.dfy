/** When the store's operations succeed, and exactly what they leave. */
module Effects {
  import opened Wrappers
  import opened Storage

  function AddTags(m: map<string, Tag>, id: string, tags: seq<Tag>): map<string, Tag> {
    if tags == [] then m
    else
      var n := |tags| - 1;
      AddTags(m, id, tags[..n])[tags[n].id := tags[n].(documentId := id)]
  }

  function AddEdges(m: map<string, Edge>, edges: seq<Edge>): map<string, Edge> {
    if edges == [] then m
    else
      var n := |edges| - 1;
      AddEdges(m, edges[..n])[edges[n].id := edges[n]]
  }

  function AddChunks(m: map<string, Chunk>, id: string, chunks: seq<Chunk>): map<string, Chunk> {
    if chunks == [] then m
    else
      var n := |chunks| - 1;
      AddChunks(m, id, chunks[..n])[chunks[n].id := chunks[n].(documentId := id)]
  }

  predicate TagIdsFree(m: map<string, Tag>, tags: seq<Tag>) {
    && (forall i, j :: 0 <= i < j < |tags| ==> tags[i].id != tags[j].id)
    && (forall i :: 0 <= i < |tags| ==> tags[i].id !in m)
  }

  predicate EdgeIdsFree(m: map<string, Edge>, edges: seq<Edge>) {
    && (forall i, j :: 0 <= i < j < |edges| ==> edges[i].id != edges[j].id)
    && (forall i :: 0 <= i < |edges| ==> edges[i].id !in m)
  }

  predicate ChunkIdsFree(m: map<string, Chunk>, chunks: seq<Chunk>) {
    && (forall i, j :: 0 <= i < j < |chunks| ==> chunks[i].id != chunks[j].id)
    && (forall i :: 0 <= i < |chunks| ==> chunks[i].id !in m)
  }

  lemma {:induction false} AddTagsKeys(m: map<string, Tag>, id: string, tags: seq<Tag>, k: string)
    ensures k in AddTags(m, id, tags) <==> k in m || exists i :: 0 <= i < |tags| && tags[i].id == k
  {
    if tags == [] {
    } else {
      var n := |tags| - 1;
      AddTagsKeys(m, id, tags[..n], k);
      if k == tags[n].id {
        assert tags[n].id == k;
      }
    }
  }

  lemma {:induction false} AddEdgesKeys(m: map<string, Edge>, edges: seq<Edge>, k: string)
    ensures k in AddEdges(m, edges) <==> k in m || exists i :: 0 <= i < |edges| && edges[i].id == k
  {
    if edges == [] {
    } else {
      var n := |edges| - 1;
      AddEdgesKeys(m, edges[..n], k);
      if k == edges[n].id {
        assert edges[n].id == k;
      }
    }
  }

  lemma {:induction false} AddChunksKeys(m: map<string, Chunk>, id: string, chunks: seq<Chunk>, k: string)
    ensures k in AddChunks(m, id, chunks) <==> k in m || exists i :: 0 <= i < |chunks| && chunks[i].id == k
  {
    if chunks == [] {
    } else {
      var n := |chunks| - 1;
      AddChunksKeys(m, id, chunks[..n], k);
      if k == chunks[n].id {
        assert chunks[n].id == k;
      }
    }
  }

  lemma TagIdsLast(m: map<string, Tag>, tags: seq<Tag>)
    requires tags != []
    ensures var n := |tags| - 1;
            TagIdsFree(m, tags) <==>
            TagIdsFree(m, tags[..n]) && tags[n].id !in m && forall i :: 0 <= i < n ==> tags[..n][i].id != tags[n].id
  {
    var n := |tags| - 1;
    assert forall i :: 0 <= i < n ==> tags[..n][i] == tags[i];
  }

  lemma EdgeIdsLast(m: map<string, Edge>, edges: seq<Edge>)
    requires edges != []
    ensures var n := |edges| - 1;
            EdgeIdsFree(m, edges) <==>
            EdgeIdsFree(m, edges[..n]) && edges[n].id !in m && forall i :: 0 <= i < n ==> edges[..n][i].id != edges[n].id
  {
    var n := |edges| - 1;
    assert forall i :: 0 <= i < n ==> edges[..n][i] == edges[i];
  }

  lemma ChunkIdsLast(m: map<string, Chunk>, chunks: seq<Chunk>)
    requires chunks != []
    ensures var n := |chunks| - 1;
            ChunkIdsFree(m, chunks) <==>
            ChunkIdsFree(m, chunks[..n]) && chunks[n].id !in m && forall i :: 0 <= i < n ==> chunks[..n][i].id != chunks[n].id
  {
    var n := |chunks| - 1;
    assert forall i :: 0 <= i < n ==> chunks[..n][i] == chunks[i];
  }

  lemma {:induction false} TagInsertsRun(t: Tables, id: string, tags: seq<Tag>)
    requires id in t.documents
    ensures Run(t, TagInserts(id, tags)) ==
            if TagIdsFree(t.tags, tags) then Some(t.(tags := AddTags(t.tags, id, tags))) else None
  {
    if tags == [] {
    } else {
      var n := |tags| - 1;
      assert TagInserts(id, tags)[..n] == TagInserts(id, tags[..n]);
      TagInsertsRun(t, id, tags[..n]);
      AddTagsKeys(t.tags, id, tags[..n], tags[n].id);
      TagIdsLast(t.tags, tags);
    }
  }

  lemma EdgesFreeAfter(t: Tables, edges: seq<Edge>)
    requires edges != []
    ensures var n := |edges| - 1;
            EdgeIdsFree(t.edges, edges) <==> EdgeIdsFree(t.edges, edges[..n]) && edges[n].id !in AddEdges(t.edges, edges[..n])
  {
    AddEdgesKeys(t.edges, edges[..|edges| - 1], edges[|edges| - 1].id);
    EdgeIdsLast(t.edges, edges);
  }

  lemma {:induction false} EdgeInsertsRun(t: Tables, edges: seq<Edge>)
    ensures Run(t, EdgeInserts(edges)) ==
            if EdgeIdsFree(t.edges, edges) then Some(t.(edges := AddEdges(t.edges, edges))) else None
  {
    if edges == [] {
    } else {
      var n := |edges| - 1;
      assert EdgeInserts(edges)[..n] == EdgeInserts(edges[..n]);
      EdgeInsertsRun(t, edges[..n]);
      EdgesFreeAfter(t, edges);
    }
  }

  /** What a stored document leaves. */
  function DocumentPut(t: Tables, doc: CanonicalDocument): Tables {
    t.(documents := t.documents[doc.row.id := doc.row],
       tags := AddTags(TagsWithout(t, doc.row.id), doc.row.id, doc.tags),
       edges := AddEdges(EdgesNotFrom(t, doc.row.id), doc.edges))
  }

  predicate DocumentFits(t: Tables, doc: CanonicalDocument) {
    && doc.row.repositoryId in t.repositories && !PathTaken(t, doc.row)
    && TagIdsFree(TagsWithout(t, doc.row.id), doc.tags)
    && EdgeIdsFree(EdgesNotFrom(t, doc.row.id), doc.edges)
  }

  /** `PutDocument` succeeds exactly when no key is broken, and replaces row, tags and edges. */
  lemma PutDocumentRuns(t: Tables, doc: CanonicalDocument)
    ensures Run(t, Plan(PutDocument(doc))) == if DocumentFits(t, doc) then Some(DocumentPut(t, doc)) else None
  {
    var id := doc.row.id;
    var first := [UpsertDocument(doc.row)];
    var second := [ClearTags(id)] + TagInserts(id, doc.tags);
    var third := [ClearEdgesFrom(id)] + EdgeInserts(doc.edges);
    RunSum(t, first + second, third);
    RunSum(t, first, second);
    RunOne(t, UpsertDocument(doc.row));
    if Run(t, first).Some? {
      var t1 := t.(documents := t.documents[id := doc.row]);
      TagsReplaced(t1, id, doc.tags);
      assert TagsWithout(t1, id) == TagsWithout(t, id);
      if Run(t1, second).Some? {
        var t2 := t1.(tags := AddTags(TagsWithout(t, id), id, doc.tags));
        EdgesReplaced(t2, id, doc.edges);
        assert EdgesNotFrom(t2, id) == EdgesNotFrom(t, id);
      }
    }
  }

  lemma TagsReplaced(t: Tables, id: string, tags: seq<Tag>)
    requires id in t.documents
    ensures Run(t, [ClearTags(id)] + TagInserts(id, tags)) ==
            if TagIdsFree(TagsWithout(t, id), tags) then Some(t.(tags := AddTags(TagsWithout(t, id), id, tags))) else None
  {
    RunSum(t, [ClearTags(id)], TagInserts(id, tags));
    RunOne(t, ClearTags(id));
    TagInsertsRun(t.(tags := TagsWithout(t, id)), id, tags);
  }

  lemma EdgesReplaced(t: Tables, id: string, edges: seq<Edge>)
    ensures Run(t, [ClearEdgesFrom(id)] + EdgeInserts(edges)) ==
            if EdgeIdsFree(EdgesNotFrom(t, id), edges) then Some(t.(edges := AddEdges(EdgesNotFrom(t, id), edges))) else None
  {
    RunSum(t, [ClearEdgesFrom(id)], EdgeInserts(edges));
    RunOne(t, ClearEdgesFrom(id));
    EdgeInsertsRun(t.(edges := EdgesNotFrom(t, id)), edges);
  }

  /** All but the full-text rows, which the invariant ties to the chunks. */
  ghost predicate OnlyChunksChanged(t: Tables, u: Tables, chunks: map<string, Chunk>) {
    u == t.(chunks := chunks, fts := u.fts, nextRow := u.nextRow)
  }

  lemma {:induction false} ChunkInsertsRun(t: Tables, id: string, chunks: seq<Chunk>)
    requires id in t.documents
    ensures var r := Run(t, ChunkInserts(id, chunks));
            && (r.Some? <==> ChunkIdsFree(t.chunks, chunks))
            && (r.Some? ==> OnlyChunksChanged(t, r.value, AddChunks(t.chunks, id, chunks)))
  {
    if chunks == [] {
    } else {
      var n := |chunks| - 1;
      var c := chunks[n].(documentId := id);
      ChunkInsertsRun(t, id, chunks[..n]);
      RunSum(t, ChunkInserts(id, chunks[..n]), [InsertChunkRow(c), InsertFtsRow(FtsOf(c))]);
      AddChunksKeys(t.chunks, id, chunks[..n], c.id);
      ChunkIdsLast(t.chunks, chunks);
      if Run(t, ChunkInserts(id, chunks[..n])).Some? {
        ChunkPair(Run(t, ChunkInserts(id, chunks[..n])).value, c);
      }
    }
  }

  /** `PutChunks` succeeds exactly when the document is there and no chunk id is taken. */
  lemma PutChunksRuns(t: Tables, id: string, chunks: seq<Chunk>)
    requires id in t.documents
    ensures var r := Run(t, Plan(PutChunks(id, chunks)));
            && (r.Some? <==> ChunkIdsFree(ChunksWithout(t, id), chunks))
            && (r.Some? ==> OnlyChunksChanged(t, r.value, AddChunks(ChunksWithout(t, id), id, chunks)))
  {
    RunSum(t, [ClearChunkRows(id), ClearFtsRows(id)], ChunkInserts(id, chunks));
    ClearPair(t, id);
    ChunkInsertsRun(WithoutChunks(t, id), id, chunks);
  }

  function DocumentDeleted(t: Tables, id: string): Tables {
    t.(chunks := ChunksWithout(t, id), fts := FtsWithout(t, id), tags := TagsWithout(t, id),
       edges := EdgesNotOf(t, id), documents := t.documents - {id})
  }

  /** Deleting in dependency order never meets a foreign key. */
  lemma DeleteDocumentRuns(t: Tables, id: string)
    ensures Run(t, Plan(DeleteDocument(id))) == Some(DocumentDeleted(t, id))
  {
    var t1 := WithoutChunks(t, id);
    var rows := [ClearTags(id), ClearEdgesOf(id), DeleteDocumentRow(id)];
    assert Plan(DeleteDocument(id)) == [ClearFtsRows(id), ClearChunkRows(id)] + rows;
    ClearPair(t, id);
    RunSum(t, [ClearFtsRows(id), ClearChunkRows(id)], rows);
    RowsDeleted(t1, id);
    assert TagsWithout(t1, id) == TagsWithout(t, id) && EdgesNotOf(t1, id) == EdgesNotOf(t, id);
  }

  lemma RowsDeleted(t: Tables, id: string)
    requires forall k :: k in t.chunks ==> t.chunks[k].documentId != id
    ensures Run(t, [ClearTags(id), ClearEdgesOf(id), DeleteDocumentRow(id)])
         == Some(t.(tags := TagsWithout(t, id), edges := EdgesNotOf(t, id), documents := t.documents - {id}))
  {
    var t1 := t.(tags := TagsWithout(t, id), edges := EdgesNotOf(t, id));
    assert [ClearTags(id), ClearEdgesOf(id), DeleteDocumentRow(id)] == [ClearTags(id), ClearEdgesOf(id)] + [DeleteDocumentRow(id)];
    RunSum(t, [ClearTags(id), ClearEdgesOf(id)], [DeleteDocumentRow(id)]);
    SatellitesCleared(t, id);
    RunOne(t1, DeleteDocumentRow(id));
    assert !Referenced(t1, id);
  }

  lemma SatellitesCleared(t: Tables, id: string)
    ensures Run(t, [ClearTags(id), ClearEdgesOf(id)]) == Some(t.(tags := TagsWithout(t, id), edges := EdgesNotOf(t, id)))
  {
    var t1 := t.(tags := TagsWithout(t, id));
    assert [ClearTags(id), ClearEdgesOf(id)] == [ClearTags(id)] + [ClearEdgesOf(id)];
    RunSum(t, [ClearTags(id)], [ClearEdgesOf(id)]);
    RunOne(t, ClearTags(id));
    RunOne(t1, ClearEdgesOf(id));
    assert EdgesNotOf(t1, id) == EdgesNotOf(t, id);
  }
}
