/** What one file becomes on its way into the index (`internal/indexer/indexer.go`):
    parser and normaliser, taxonomy, chunker and reference resolver are parameters. */
module Pipeline {
  import opened Wrappers
  import opened Text
  import opened Sorting
  import opened Identity
  import opened Taxonomy
  import opened Storage
  import opened Effects
  import opened Extraction

  datatype Raw = Raw(path: string, bytes: string)

  datatype Piece = Piece(heading: string, content: string)

  /** What the parser and the normaliser make of a file. */
  datatype Parsed = Parsed(docType: DocType, title: string, content: string, metadata: map<string, string>, tags: seq<(string, string)>)

  datatype Config = Config(
    parse: (string, string) -> Option<Parsed>,
    split: string -> Option<seq<Piece>>,
    resolver: Option<(Tables, Reference) -> Resolution>)

  /** A path or repository name as the constructors leave it. */
  predicate Clean(s: string) {
    s != "" && TrimSpace(s) == s
  }

  predicate AllClean(raws: seq<Raw>) {
    forall i :: 0 <= i < |raws| ==> Clean(raws[i].path)
  }

  function DocumentOf(repo: string, raw: Raw, parsed: Parsed, docType: DocType): Document {
    Document(DocumentID(repo, raw.path), repo, raw.path, docType, parsed.title, parsed.metadata, parsed.content, Digest(raw.bytes))
  }

  function TagsOf(id: string, tags: seq<(string, string)>): (r: seq<Tag>)
    ensures |r| == |tags|
    ensures forall i :: 0 <= i < |tags| ==> r[i] == Tag(TagID(id, tags[i].0, tags[i].1), id, tags[i].0, tags[i].1)
  {
    seq(|tags|, i requires 0 <= i < |tags| => Tag(TagID(id, tags[i].0, tags[i].1), id, tags[i].0, tags[i].1))
  }

  function ChunksOf(id: string, pieces: seq<Piece>): (r: seq<Chunk>)
    ensures |r| == |pieces|
    ensures forall i :: 0 <= i < |pieces| ==> r[i] == Chunk(ChunkID(id, i), id, i, pieces[i].heading, pieces[i].content)
  {
    seq(|pieces|, i requires 0 <= i < |pieces| => Chunk(ChunkID(id, i), id, i, pieces[i].heading, pieces[i].content))
  }

  predicate TagsDistinct(id: string, tags: seq<(string, string)>) {
    forall i, j :: 0 <= i < j < |tags| ==> TagID(id, tags[i].0, tags[i].1) != TagID(id, tags[j].0, tags[j].1)
  }

  // ----- what the index should hold for a file

  datatype Entry = Entry(row: Document, chunks: set<Chunk>)

  /** The type a file is stored with. */
  ghost function StoredType(rules: seq<Mapping>, raw: Raw, parsed: Parsed): DocType {
    Classified(rules, raw.path, parsed.docType)
  }

  /** The entry of a file, or nothing when a stage refuses it. */
  ghost function Image(cfg: Config, rules: seq<Mapping>, repo: string, raw: Raw): Option<Entry> {
    var parsed := cfg.parse(raw.path, raw.bytes);
    if parsed.None? then None
    else
      var id := DocumentID(repo, raw.path);
      var pieces := cfg.split(parsed.value.content);
      if pieces.None? || !TagsDistinct(id, parsed.value.tags) then None
      else Some(Entry(DocumentOf(repo, raw, parsed.value, StoredType(rules, raw, parsed.value)),
                      set c | c in ChunksOf(id, pieces.value)))
  }

  ghost function ChunksStored(t: Tables, id: string): set<Chunk> {
    set c | c in t.chunks && t.chunks[c].documentId == id :: t.chunks[c]
  }

  /** What the index holds for a path of a repository. */
  ghost function EntryAt(t: Tables, repo: string, path: string): Option<Entry> {
    var id := DocumentID(repo, path);
    if id in t.documents then Some(Entry(t.documents[id], ChunksStored(t, id))) else None
  }

  // ----- identifiers in the store

  /** Every row carries the identifier its constructor derives. */
  ghost predicate Canon(t: Tables) {
    && DocumentsCanonical(t.documents)
    && ChunksCanonical(t.chunks)
    && TagsCanonical(t.tags)
    && EdgesCanonical(t)
  }

  ghost predicate DocumentsCanonical(documents: map<string, Document>) {
    forall id :: id in documents ==>
      var d := documents[id]; id == DocumentID(d.repositoryId, d.path) && Clean(d.path) && RepoName(d.repositoryId)
  }

  ghost predicate ChunksCanonical(chunks: map<string, Chunk>) {
    forall id :: id in chunks ==> id == ChunkID(chunks[id].documentId, chunks[id].index)
  }

  ghost predicate TagsCanonical(tags: map<string, Tag>) {
    forall id :: id in tags ==> id == TagID(tags[id].documentId, tags[id].key, tags[id].value)
  }

  predicate RepoName(repo: string) {
    Clean(repo) && '|' !in repo
  }

  lemma DocumentIDFacts(repo: string, path: string)
    ensures '|' !in DocumentID(repo, path) && TrimSpace(DocumentID(repo, path)) == DocumentID(repo, path)
  {
    DigestIsHex(Join([TrimSpace(repo), TrimSpace(path)], "|"));
  }

  lemma SameDocumentID(r: string, p: string, s: string, q: string)
    requires RepoName(r) && RepoName(s) && Clean(p) && Clean(q) && DocumentID(r, p) == DocumentID(s, q)
    ensures r == s && p == q
  {
    DocumentIDInjective(r, p, s, q);
  }

  /** No other document of the store can stand in the way of writing this one. */
  lemma WriteFits(t: Tables, repo: string, raw: Raw, parsed: Parsed, docType: DocType, edges: seq<Edge>)
    requires Inv(t) && Canon(t) && RepoName(repo) && Clean(raw.path) && repo in t.repositories
    requires ProperEdges(DocumentID(repo, raw.path), edges)
    ensures var row := DocumentOf(repo, raw, parsed, docType);
            DocumentFits(t, CanonicalDocument(row, TagsOf(row.id, parsed.tags), edges)) <==> TagsDistinct(row.id, parsed.tags)
  {
    var row := DocumentOf(repo, raw, parsed, docType);
    DocumentIDFacts(repo, raw.path);
    ExtractedEdgesFit(t, row.id, edges);
    forall i | 0 <= i < |parsed.tags| ensures TagsOf(row.id, parsed.tags)[i].id !in TagsWithout(t, row.id) {
      TagIdFree(t, row.id, parsed.tags[i].0, parsed.tags[i].1);
    }
    PathFree(t, repo, raw.path);
  }

  /** Two tags of a document share an identifier exactly when key and value joined by a bar agree. */
  lemma TagIdsCoincide(id: string, a: (string, string), b: (string, string))
    requires '|' !in id
    ensures TagID(id, a.0, a.1) == TagID(id, b.0, b.1) <==> a.0 + "|" + a.1 == b.0 + "|" + b.1
  {
    JoinThree(id, a.0, a.1);
    JoinThree(id, b.0, b.1);
    if TagID(id, a.0, a.1) == TagID(id, b.0, b.1) {
      TripleHead(id, a.0, a.1, id, b.0, b.1);
    }
  }

  /** Tags whose keys hold no bar have distinct identifiers exactly when they are distinct. */
  lemma BarFreeTagsFit(id: string, tags: seq<(string, string)>)
    requires '|' !in id && forall i :: 0 <= i < |tags| ==> '|' !in tags[i].0
    ensures TagsDistinct(id, tags) <==> Distinct(tags)
  {
    forall i, j | 0 <= i < j < |tags| && tags[i] != tags[j]
      ensures TagID(id, tags[i].0, tags[i].1) != TagID(id, tags[j].0, tags[j].1)
    {
      TagIdsCoincide(id, tags[i], tags[j]);
      if tags[i].0 + "|" + tags[i].1 == tags[j].0 + "|" + tags[j].1 {
        FirstBar(tags[i].0, tags[i].1, tags[j].0, tags[j].1);
      }
    }
  }

  /** Two different tags that share one. */
  lemma BarInKeyCollides(id: string)
    requires '|' !in id
    ensures !TagsDistinct(id, [("a|b", "c"), ("a", "b|c")])
  {
    var tags := [("a|b", "c"), ("a", "b|c")];
    assert "a|b" + "|" + "c" == "a" + "|" + "b|c";
    TagIdsCoincide(id, tags[0], tags[1]);
  }

  lemma PathFree(t: Tables, repo: string, path: string)
    requires Canon(t)
    ensures forall k :: k in t.documents && t.documents[k].repositoryId == repo && t.documents[k].path == path ==> k == DocumentID(repo, path)
  {
  }

  lemma TagIdFree(t: Tables, id: string, key: string, value: string)
    requires Canon(t) && RowsOwned(t) && '|' !in id
    ensures TagID(id, key, value) !in TagsWithout(t, id)
  {
    var k := TagID(id, key, value);
    if k in t.tags {
      var tag := t.tags[k];
      var d := t.documents[tag.documentId];
      DocumentIDFacts(d.repositoryId, d.path);
      TripleHead(id, key, value, tag.documentId, tag.key, tag.value);
    }
  }

  lemma ChunkIdFree(t: Tables, id: string, index: nat)
    requires Canon(t) && RowsOwned(t) && '|' !in id
    ensures ChunkID(id, index) !in ChunksWithout(t, id)
  {
    var k := ChunkID(id, index);
    if k in t.chunks {
      var c := t.chunks[k];
      var d := t.documents[c.documentId];
      DocumentIDFacts(d.repositoryId, d.path);
      ChunkIDInjective(id, index, c.documentId, c.index);
    }
  }

  lemma ChunksFit(t: Tables, id: string, pieces: seq<Piece>)
    requires Canon(t) && RowsOwned(t) && '|' !in id
    ensures ChunkIdsFree(ChunksWithout(t, id), ChunksOf(id, pieces))
  {
    var cs := ChunksOf(id, pieces);
    forall i, j | 0 <= i < j < |cs| ensures cs[i].id != cs[j].id {
      if cs[i].id == cs[j].id {
        ChunkIDInjective(id, i, id, j);
      }
    }
    forall i | 0 <= i < |cs| ensures cs[i].id !in ChunksWithout(t, id) {
      ChunkIdFree(t, id, i);
    }
  }

  // ----- writing one document

  /** The configured resolver, on the tables as they are. */
  function ResolverAt(cfg: Config, t: Tables): Resolver
    requires cfg.resolver.Some?
  {
    (ref: Reference) => cfg.resolver.value(t, ref)
  }

  /** Some field of the document's metadata declares the edge, and the resolver finds its target. */
  ghost predicate DeclaredLink(cfg: Config, t: Tables, doc: Document, e: Edge) {
    cfg.resolver.Some? && exists k :: k in doc.metadata.Keys && Contributes(doc, ResolverAt(cfg, t), k, e)
  }

  /** Exactly the edges declared, each once. */
  ghost predicate LinksOf(cfg: Config, t: Tables, doc: Document, edges: seq<Edge>) {
    ProperEdges(doc.id, edges) && forall e :: e in edges <==> DeclaredLink(cfg, t, doc, e)
  }

  /** Some field's reference cannot be resolved. */
  ghost predicate LinkFails(cfg: Config, t: Tables, doc: Document) {
    cfg.resolver.Some? && exists k :: FieldFails(doc, ResolverAt(cfg, t), k)
  }

  /** The tables after a document, its tags, its declared edges and its chunks are written. */
  ghost predicate Written(cfg: Config, t: Tables, row: Document, tags: seq<Tag>, chunks: seq<Chunk>, u: Tables) {
    && u.repositories == t.repositories && u.states == t.states
    && u.documents == t.documents[row.id := row]
    && u.tags == AddTags(TagsWithout(t, row.id), row.id, tags)
    && u.chunks == AddChunks(ChunksWithout(t, row.id), row.id, chunks)
    && exists edges :: LinksOf(cfg, t, row, edges) && u.edges == AddEdges(EdgesNotFrom(t, row.id), edges)
  }

  lemma {:induction false} AddedChunks(m: map<string, Chunk>, id: string, chunks: seq<Chunk>, k: string)
    requires ChunkIdsFree(m, chunks)
    ensures k in AddChunks(m, id, chunks) <==> k in m || exists i :: 0 <= i < |chunks| && chunks[i].id == k
    ensures k in m ==> AddChunks(m, id, chunks)[k] == m[k]
    ensures forall i :: 0 <= i < |chunks| && chunks[i].id == k ==> k in AddChunks(m, id, chunks) && AddChunks(m, id, chunks)[k] == chunks[i].(documentId := id)
  {
    AddChunksKeys(m, id, chunks, k);
    if chunks == [] {
    } else {
      var n := |chunks| - 1;
      AddedChunks(m, id, chunks[..n], k);
    }
  }

  lemma {:induction false} AddedTags(m: map<string, Tag>, id: string, tags: seq<Tag>, k: string)
    requires k in AddTags(m, id, tags)
    ensures (k in m && AddTags(m, id, tags)[k] == m[k]) ||
            exists i :: 0 <= i < |tags| && tags[i].id == k && AddTags(m, id, tags)[k] == tags[i].(documentId := id)
  {
    if tags == [] {
    } else {
      var n := |tags| - 1;
      if k == tags[n].id {
        assert AddTags(m, id, tags)[k] == tags[n].(documentId := id);
      } else {
        AddedTags(m, id, tags[..n], k);
      }
    }
  }

  lemma {:induction false} AddedEdges(m: map<string, Edge>, edges: seq<Edge>, k: string)
    requires k in AddEdges(m, edges)
    ensures (k in m && AddEdges(m, edges)[k] == m[k]) ||
            exists i :: 0 <= i < |edges| && edges[i].id == k && AddEdges(m, edges)[k] == edges[i]
  {
    if edges == [] {
    } else {
      var n := |edges| - 1;
      if k == edges[n].id {
        assert AddEdges(m, edges)[k] == edges[n];
      } else {
        AddedEdges(m, edges[..n], k);
      }
    }
  }

  /** `m` is `old` with the chunks of one document replaced by `cs`. */
  ghost predicate Replaced(old_: map<string, Chunk>, m: map<string, Chunk>, id: string, cs: seq<Chunk>) {
    && (forall k :: k in m ==> Kept(old_, m, id, k) || (m[k] in cs && m[k].id == k))
    && (forall k :: k in old_ && old_[k].documentId != id ==> k in m && m[k] == old_[k])
    && (forall i :: 0 <= i < |cs| ==> cs[i].id in m && m[cs[i].id] == cs[i])
  }

  ghost predicate Kept(old_: map<string, Chunk>, m: map<string, Chunk>, id: string, k: string)
    requires k in m
  {
    k in old_ && old_[k].documentId != id && m[k] == old_[k]
  }

  lemma ReplaceOne(old_: map<string, Chunk>, base: map<string, Chunk>, id: string, cs: seq<Chunk>, k: string)
    requires base == map c | c in old_ && old_[c].documentId != id :: old_[c]
    requires ChunkIdsFree(base, cs) && forall i :: 0 <= i < |cs| ==> cs[i].documentId == id
    ensures var m := AddChunks(base, id, cs);
            && (k in m ==> Kept(old_, m, id, k) || (m[k] in cs && m[k].id == k))
            && (k in base ==> k in m && m[k] == old_[k])
  {
    AddedChunks(base, id, cs, k);
    if k in AddChunks(base, id, cs) && k !in base {
      var i :| 0 <= i < |cs| && cs[i].id == k;
      assert cs[i].(documentId := id) == cs[i];
    }
  }

  lemma ReplaceChunks(t: Tables, id: string, pieces: seq<Piece>)
    requires Canon(t) && RowsOwned(t) && '|' !in id
    ensures Replaced(t.chunks, AddChunks(ChunksWithout(t, id), id, ChunksOf(id, pieces)), id, ChunksOf(id, pieces))
  {
    var cs, base := ChunksOf(id, pieces), ChunksWithout(t, id);
    ChunksFit(t, id, pieces);
    var m := AddChunks(base, id, cs);
    forall k | k in m ensures Kept(t.chunks, m, id, k) || (m[k] in cs && m[k].id == k) {
      ReplaceOne(t.chunks, base, id, cs, k);
    }
    forall k | k in t.chunks && t.chunks[k].documentId != id ensures k in m && m[k] == t.chunks[k] {
      ReplaceOne(t.chunks, base, id, cs, k);
    }
    forall i | 0 <= i < |cs| ensures cs[i].id in m && m[cs[i].id] == cs[i] {
      AddedChunks(base, id, cs, cs[i].id);
      assert cs[i].(documentId := id) == cs[i];
    }
  }

  lemma ReplacedStored(t: Tables, u: Tables, id: string, pieces: seq<Piece>)
    requires Replaced(t.chunks, u.chunks, id, ChunksOf(id, pieces))
    ensures ChunksStored(u, id) == set c | c in ChunksOf(id, pieces)
  {
    var cs := ChunksOf(id, pieces);
    forall c | c in cs ensures c in ChunksStored(u, id) {
      var i :| 0 <= i < |cs| && cs[i] == c;
      assert cs[i].id in u.chunks;
    }
    forall c | c in ChunksStored(u, id) ensures c in cs {
      var k :| k in u.chunks && u.chunks[k].documentId == id && u.chunks[k] == c;
      assert !Kept(t.chunks, u.chunks, id, k);
    }
  }

  lemma ReplacedElsewhere(t: Tables, u: Tables, id: string, pieces: seq<Piece>, other: string)
    requires Replaced(t.chunks, u.chunks, id, ChunksOf(id, pieces)) && other != id
    ensures ChunksStored(u, other) == ChunksStored(t, other)
  {
    forall c | c in ChunksStored(t, other) ensures c in ChunksStored(u, other) {
      var k :| k in t.chunks && t.chunks[k].documentId == other && t.chunks[k] == c;
      assert k in u.chunks && u.chunks[k] == c;
    }
    forall c | c in ChunksStored(u, other) ensures c in ChunksStored(t, other) {
      var k :| k in u.chunks && u.chunks[k].documentId == other && u.chunks[k] == c;
      assert Kept(t.chunks, u.chunks, id, k);
    }
  }

  lemma ReplacedCanon(t: Tables, u: Tables, id: string, pieces: seq<Piece>)
    requires Canon(t) && Replaced(t.chunks, u.chunks, id, ChunksOf(id, pieces))
    ensures forall k :: k in u.chunks ==> k == ChunkID(u.chunks[k].documentId, u.chunks[k].index)
  {
    forall k | k in u.chunks ensures k == ChunkID(u.chunks[k].documentId, u.chunks[k].index) {
      if !Kept(t.chunks, u.chunks, id, k) {
        var cs := ChunksOf(id, pieces);
        var i :| 0 <= i < |cs| && cs[i] == u.chunks[k];
      }
    }
  }

  /** Writing one document changes its entry to the written one and no other entry. */
  lemma WrittenEntries(cfg: Config, t: Tables, row: Document, tags: seq<Tag>, pieces: seq<Piece>, u: Tables)
    requires Inv(t) && Canon(t) && '|' !in row.id && Written(cfg, t, row, tags, ChunksOf(row.id, pieces), u)
    ensures ChunksStored(u, row.id) == set c | c in ChunksOf(row.id, pieces)
    ensures forall id :: id != row.id ==> ChunksStored(u, id) == ChunksStored(t, id)
  {
    ReplaceChunks(t, row.id, pieces);
    ReplacedStored(t, u, row.id, pieces);
    forall id | id != row.id ensures ChunksStored(u, id) == ChunksStored(t, id) {
      ReplacedElsewhere(t, u, row.id, pieces, id);
    }
  }

  lemma WrittenTags(t: Tables, id: string, tags: seq<(string, string)>)
    requires Canon(t)
    ensures var m := AddTags(TagsWithout(t, id), id, TagsOf(id, tags));
            TagsCanonical(m)
  {
    var m := AddTags(TagsWithout(t, id), id, TagsOf(id, tags));
    forall k | k in m ensures k == TagID(m[k].documentId, m[k].key, m[k].value) {
      AddedTags(TagsWithout(t, id), id, TagsOf(id, tags), k);
    }
  }

  lemma WrittenEdges(t: Tables, id: string, edges: seq<Edge>, u: Tables)
    requires EdgesCanonical(t) && ProperEdges(id, edges) && TrimSpace(id) == id && '|' !in id
    requires u.edges == AddEdges(EdgesNotFrom(t, id), edges)
    ensures EdgesCanonical(u)
  {
    forall k | k in u.edges
      ensures var e := u.edges[k]; e.id == k && k == EdgeID(e.from, e.to, e.relType) && '|' !in e.from
    {
      AddedEdges(EdgesNotFrom(t, id), edges, k);
      if !(k in EdgesNotFrom(t, id) && u.edges[k] == t.edges[k]) {
        var i :| 0 <= i < |edges| && edges[i].id == k && u.edges[k] == edges[i];
        assert edges[i] in edges;
      }
    }
  }

  // ----- tags and edges of one document

  ghost function EdgesFrom(t: Tables, id: string): set<Edge> {
    set k | k in t.edges && t.edges[k].from == id :: t.edges[k]
  }

  ghost function TagsStored(t: Tables, id: string): set<Tag> {
    set k | k in t.tags && t.tags[k].documentId == id :: t.tags[k]
  }

  lemma {:induction false} EdgesFreeKept(m: map<string, Edge>, edges: seq<Edge>, k: string)
    requires EdgeIdsFree(m, edges)
    ensures k in m ==> k in AddEdges(m, edges) && AddEdges(m, edges)[k] == m[k]
    ensures forall i :: 0 <= i < |edges| && edges[i].id == k ==> k in AddEdges(m, edges) && AddEdges(m, edges)[k] == edges[i]
  {
    if edges == [] {
    } else {
      EdgesFreeKept(m, edges[..|edges| - 1], k);
    }
  }

  /** Replacing a document's edges leaves exactly the new ones from it, and those of every other
      document as they were. */
  lemma EdgesElsewhere(t: Tables, id: string, edges: seq<Edge>, u: Tables)
    requires EdgesCanonical(t) && ProperEdges(id, edges) && TrimSpace(id) == id && '|' !in id
    requires u.edges == AddEdges(EdgesNotFrom(t, id), edges)
    ensures forall e :: e in EdgesFrom(u, id) <==> e in edges
    ensures forall k :: k != id ==> EdgesFrom(u, k) == EdgesFrom(t, k)
  {
    ExtractedEdgesFit(t, id, edges);
    forall e ensures e in EdgesFrom(u, id) <==> e in edges {
      OwnEdge(t, id, edges, u, e);
    }
    forall k | k != id ensures EdgesFrom(u, k) == EdgesFrom(t, k) {
      forall e ensures e in EdgesFrom(u, k) <==> e in EdgesFrom(t, k) {
        OtherEdge(t, id, edges, u, k, e);
      }
    }
  }

  lemma OwnEdge(t: Tables, id: string, edges: seq<Edge>, u: Tables, e: Edge)
    requires ProperEdges(id, edges) && TrimSpace(id) == id && EdgeIdsFree(EdgesNotFrom(t, id), edges)
    requires u.edges == AddEdges(EdgesNotFrom(t, id), edges)
    ensures e in EdgesFrom(u, id) <==> e in edges
  {
    if e in edges {
      var i :| 0 <= i < |edges| && edges[i] == e;
      EdgesFreeKept(EdgesNotFrom(t, id), edges, e.id);
      assert u.edges[e.id] == e;
    }
    if e in EdgesFrom(u, id) {
      var k :| k in u.edges && u.edges[k].from == id && u.edges[k] == e;
      AddedEdges(EdgesNotFrom(t, id), edges, k);
    }
  }

  lemma OtherEdge(t: Tables, id: string, edges: seq<Edge>, u: Tables, other: string, e: Edge)
    requires other != id && ProperEdges(id, edges) && TrimSpace(id) == id && EdgeIdsFree(EdgesNotFrom(t, id), edges)
    requires u.edges == AddEdges(EdgesNotFrom(t, id), edges)
    ensures e in EdgesFrom(u, other) <==> e in EdgesFrom(t, other)
  {
    if e in EdgesFrom(t, other) {
      var k :| k in t.edges && t.edges[k].from == other && t.edges[k] == e;
      EdgesFreeKept(EdgesNotFrom(t, id), edges, k);
      assert u.edges[k] == e;
    }
    if e in EdgesFrom(u, other) {
      var k :| k in u.edges && u.edges[k].from == other && u.edges[k] == e;
      AddedEdges(EdgesNotFrom(t, id), edges, k);
      if i :| 0 <= i < |edges| && edges[i] == e {
        assert edges[i] in edges;
      }
      assert k in t.edges && t.edges[k] == e;
    }
  }

  /** After the write the document's edges are exactly the declared ones. */
  lemma WrittenLinks(cfg: Config, t: Tables, row: Document, tags: seq<Tag>, chunks: seq<Chunk>, u: Tables)
    requires EdgesCanonical(t) && TrimSpace(row.id) == row.id && '|' !in row.id && Written(cfg, t, row, tags, chunks, u)
    ensures forall e :: e in EdgesFrom(u, row.id) <==> DeclaredLink(cfg, t, row, e)
    ensures forall k :: k != row.id ==> EdgesFrom(u, k) == EdgesFrom(t, k)
  {
    var edges :| LinksOf(cfg, t, row, edges) && u.edges == AddEdges(EdgesNotFrom(t, row.id), edges);
    EdgesElsewhere(t, row.id, edges, u);
  }

  lemma {:induction false} TagsKept(m: map<string, Tag>, id: string, tags: seq<Tag>, k: string)
    requires k in m && forall i :: 0 <= i < |tags| ==> tags[i].id != k
    ensures k in AddTags(m, id, tags) && AddTags(m, id, tags)[k] == m[k]
  {
    if tags == [] {
    } else {
      TagsKept(m, id, tags[..|tags| - 1], k);
    }
  }

  lemma {:induction false} TagsFreeKept(m: map<string, Tag>, id: string, tags: seq<Tag>, k: string)
    requires TagIdsFree(m, tags)
    ensures forall i :: 0 <= i < |tags| && tags[i].id == k ==>
              k in AddTags(m, id, tags) && AddTags(m, id, tags)[k] == tags[i].(documentId := id)
  {
    if tags == [] {
    } else {
      TagsFreeKept(m, id, tags[..|tags| - 1], k);
    }
  }

  /** After the write the document has exactly the tags written. */
  lemma WrittenTagsExactly(t: Tables, id: string, tags: seq<(string, string)>, u: Tables)
    requires Canon(t) && RowsOwned(t) && '|' !in id && TagsDistinct(id, tags)
    requires u.tags == AddTags(TagsWithout(t, id), id, TagsOf(id, tags))
    ensures forall tag :: tag in TagsStored(u, id) <==> tag in TagsOf(id, tags)
  {
    var all := TagsOf(id, tags);
    forall i | 0 <= i < |tags| ensures all[i].id !in TagsWithout(t, id) {
      TagIdFree(t, id, tags[i].0, tags[i].1);
    }
    forall tag ensures tag in TagsStored(u, id) <==> tag in all {
      if tag in all {
        var i :| 0 <= i < |all| && all[i] == tag;
        TagsFreeKept(TagsWithout(t, id), id, all, tag.id);
        assert u.tags[tag.id] == tag;
      }
      if tag in TagsStored(u, id) {
        var k :| k in u.tags && u.tags[k].documentId == id && u.tags[k] == tag;
        AddedTags(TagsWithout(t, id), id, all, k);
      }
    }
  }

  /** Replacing a document's tags leaves those of every other document as they were. */
  lemma TagsElsewhere(t: Tables, id: string, tags: seq<(string, string)>, u: Tables)
    requires Canon(t) && RowsOwned(t) && '|' !in id
    requires u.tags == AddTags(TagsWithout(t, id), id, TagsOf(id, tags))
    ensures forall k :: k != id ==> TagsStored(u, k) == TagsStored(t, k)
  {
    forall k | k != id ensures TagsStored(u, k) == TagsStored(t, k) {
      forall tag ensures tag in TagsStored(u, k) <==> tag in TagsStored(t, k) {
        OtherTag(t, id, tags, u, k, tag);
      }
    }
  }

  lemma OtherTag(t: Tables, id: string, tags: seq<(string, string)>, u: Tables, other: string, tag: Tag)
    requires Canon(t) && RowsOwned(t) && '|' !in id && other != id
    requires u.tags == AddTags(TagsWithout(t, id), id, TagsOf(id, tags))
    ensures tag in TagsStored(u, other) <==> tag in TagsStored(t, other)
  {
    if tag in TagsStored(t, other) {
      var k :| k in t.tags && t.tags[k].documentId == other && t.tags[k] == tag;
      forall i | 0 <= i < |tags| ensures TagsOf(id, tags)[i].id != k {
        TagIdFree(t, id, tags[i].0, tags[i].1);
      }
      TagsKept(TagsWithout(t, id), id, TagsOf(id, tags), k);
      assert u.tags[k] == tag;
    }
    if tag in TagsStored(u, other) {
      var k :| k in u.tags && u.tags[k].documentId == other && u.tags[k] == tag;
      AddedTags(TagsWithout(t, id), id, TagsOf(id, tags), k);
      assert k in t.tags && t.tags[k] == tag;
    }
  }

  lemma ChunksStayCanonical(t: Tables, id: string, pieces: seq<Piece>)
    requires Canon(t) && RowsOwned(t) && '|' !in id
    ensures ChunksCanonical(AddChunks(ChunksWithout(t, id), id, ChunksOf(id, pieces)))
  {
    var u := t.(chunks := AddChunks(ChunksWithout(t, id), id, ChunksOf(id, pieces)));
    ReplaceChunks(t, id, pieces);
    ReplacedCanon(t, u, id, pieces);
  }

  lemma DocumentsStayCanonical(documents: map<string, Document>, row: Document)
    requires DocumentsCanonical(documents)
    requires row.id == DocumentID(row.repositoryId, row.path) && Clean(row.path) && RepoName(row.repositoryId)
    ensures DocumentsCanonical(documents[row.id := row])
  {
  }

  lemma WrittenKeepsCanon(cfg: Config, t: Tables, repo: string, raw: Raw, parsed: Parsed, docType: DocType, pieces: seq<Piece>, u: Tables)
    requires Inv(t) && Canon(t) && RepoName(repo) && Clean(raw.path)
    requires var row := DocumentOf(repo, raw, parsed, docType);
             Written(cfg, t, row, TagsOf(row.id, parsed.tags), ChunksOf(row.id, pieces), u)
    ensures Canon(u)
  {
    var row := DocumentOf(repo, raw, parsed, docType);
    DocumentIDFacts(repo, raw.path);
    ChunksStayCanonical(t, row.id, pieces);
    WrittenTags(t, row.id, parsed.tags);
    EdgesStayCanonical(t, row.id, u);
    DocumentsStayCanonical(t.documents, row);
  }

  lemma EdgesStayCanonical(t: Tables, id: string, u: Tables)
    requires EdgesCanonical(t) && TrimSpace(id) == id && '|' !in id
    requires exists edges :: ProperEdges(id, edges) && u.edges == AddEdges(EdgesNotFrom(t, id), edges)
    ensures EdgesCanonical(u)
  {
    var edges :| ProperEdges(id, edges) && u.edges == AddEdges(EdgesNotFrom(t, id), edges);
    WrittenEdges(t, id, edges, u);
  }
}
