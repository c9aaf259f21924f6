/** `internal/indexer/indexer.go`: `indexOne`, `Index`, `Sync` and `finish`. */
module Indexing {
  import opened Wrappers
  import opened Text
  import opened Identity
  import opened Taxonomy
  import opened Storage
  import opened Effects
  import opened Sqlite
  import opened Extraction
  import opened Pipeline

  datatype Reason = ParseFailed | LinkFailed | ChunkFailed | WriteDocumentFailed | WriteChunksFailed | DeleteFailed

  datatype Outcome = Added | Updated | Unchanged | Removed | Failed(reason: Reason)

  datatype Tally = Tally(
    scanned: nat, added: nat, updated: nat, same: nat, errors: nat, deleted: nat, failures: seq<(string, Reason)>)

  /** What one outcome adds to the numbers of a run. */
  function Counted(t: Tally, path: string, outcome: Outcome): Tally {
    match outcome
    case Added => t.(added := t.added + 1)
    case Updated => t.(updated := t.updated + 1)
    case Unchanged => t.(same := t.same + 1)
    case Removed => t.(deleted := t.deleted + 1)
    case Failed(reason) => t.(errors := t.errors + 1, failures := t.failures + [(path, reason)])
  }

  /** `kernel.IndexResult`. */
  class Report {
    var scanned: nat
    var added: nat
    var updated: nat
    var same: nat
    var errors: nat
    var deleted: nat
    var failures: seq<(string, Reason)>

    constructor (total: nat)
      ensures View() == Tally(total, 0, 0, 0, 0, 0, [])
    {
      scanned, added, updated, same, errors, deleted, failures := total, 0, 0, 0, 0, 0, [];
    }

    ghost function View(): Tally
      reads this
    {
      Tally(scanned, added, updated, same, errors, deleted, failures)
    }

    /** `IndexResult.Fail` keeps the count and the list in step. */
    method Fail(path: string, reason: Reason)
      modifies this
      ensures View() == Counted(old(View()), path, Failed(reason))
    {
      errors := errors + 1;
      failures := failures + [(path, reason)];
    }
  }

  // ----- one file

  /** The stored row has the file's bytes and type already. */
  ghost predicate UpToDate(t: Tables, row: Document) {
    row.id in t.documents && t.documents[row.id].contentHash == row.contentHash && t.documents[row.id].docType == row.docType
  }

  /** What indexing one file does when nothing fails underneath. */
  ghost predicate OneStep(cfg: Config, rules: seq<Mapping>, repo: string, t: Tables, raw: Raw, u: Tables, outcome: Outcome) {
    var parsed := cfg.parse(raw.path, raw.bytes);
    if parsed.None? then u == t && outcome == Failed(ParseFailed)
    else
      var row := DocumentOf(repo, raw, parsed.value, StoredType(rules, raw, parsed.value));
      var pieces := cfg.split(parsed.value.content);
      if UpToDate(t, row) then u == t && outcome == Unchanged
      else if LinkFails(cfg, t, row) then u == t && outcome == Failed(LinkFailed)
      else if pieces.None? then u == t && outcome == Failed(ChunkFailed)
      else if !TagsDistinct(row.id, parsed.value.tags) then u == t && outcome == Failed(WriteDocumentFailed)
      else Inv(u) && Written(cfg, t, row, TagsOf(row.id, parsed.value.tags), ChunksOf(row.id, pieces.value), u)
           && outcome == if row.id in t.documents then Updated else Added
  }

  ghost predicate Ready(t: Tables, repo: string) {
    Inv(t) && Canon(t) && RepoName(repo) && repo in t.repositories
  }

  /** Nothing but one document's rows may differ. */
  ghost predicate SameElsewhere(t: Tables, u: Tables, id: string) {
    && u.repositories == t.repositories && u.states == t.states
    && (forall k :: k != id ==> (k in u.documents <==> k in t.documents) && (k in t.documents ==> u.documents[k] == t.documents[k]))
    && (forall k :: k != id ==> ChunksStored(u, k) == ChunksStored(t, k))
    && (forall k :: k != id ==> EdgesFrom(u, k) == EdgesFrom(t, k) && TagsStored(u, k) == TagsStored(t, k))
  }

  /** A resolver that answers, with identifiers as `contentID` makes them. */
  ghost predicate ResolverSound(cfg: Config, t: Tables) {
    cfg.resolver.Some? ==>
      forall ref :: var r := cfg.resolver.value(t, ref); !r.Broken? && (r.Resolved? ==> Clean(r.id))
  }

  lemma SoundNeverFails(cfg: Config, t: Tables, doc: Document)
    requires ResolverSound(cfg, t) && TrimSpace(doc.id) == doc.id != ""
    ensures !LinkFails(cfg, t, doc)
  {
  }

  /** Front-matter links, when a resolver is configured. */
  method Links(cfg: Config, t: Tables, doc: Document) returns (edges: Option<seq<Edge>>)
    requires TrimSpace(doc.id) == doc.id != ""
    ensures edges.Some? ==> LinksOf(cfg, t, doc, edges.value)
    ensures edges.None? <==> LinkFails(cfg, t, doc)
  {
    if cfg.resolver.None? {
      return Some([]);
    }
    edges := Extract(doc, ResolverAt(cfg, t));
  }

  /** The two writes of a file: document first, then chunks. */
  method Write(store: Store, doc: CanonicalDocument, chunks: seq<Chunk>, faults: (Fault, Fault)) returns (failed: Option<Reason>)
    requires Inv(store.db)
    modifies store
    ensures Inv(store.db)
    ensures failed.None? ==>
              DocumentFits(old(store.db), doc) && Run(DocumentPut(old(store.db), doc), Plan(PutChunks(doc.row.id, chunks))) == Some(store.db)
    ensures failed == Some(WriteDocumentFailed) ==> store.db == old(store.db)
    ensures failed == Some(WriteChunksFailed) ==> DocumentFits(old(store.db), doc) && store.db == DocumentPut(old(store.db), doc)
    ensures failed.None? || failed == Some(WriteDocumentFailed) || failed == Some(WriteChunksFailed)
    ensures faults == (None, None) ==>
              && (failed == Some(WriteDocumentFailed) <==> !DocumentFits(old(store.db), doc))
              && (failed == Some(WriteChunksFailed) <==>
                  DocumentFits(old(store.db), doc) && Run(DocumentPut(old(store.db), doc), Plan(PutChunks(doc.row.id, chunks))).None?)
  {
    ghost var before := store.db;
    var ok := store.PutDocument(doc, faults.0);
    StepKeepsInv(before, PutDocument(doc), store.db);
    if !ok {
      return Some(WriteDocumentFailed);
    }
    ghost var mid := store.db;
    ok := store.PutChunks(doc.row.id, chunks, faults.1);
    StepKeepsInv(mid, PutChunks(doc.row.id, chunks), store.db);
    if !ok {
      return Some(WriteChunksFailed);
    }
    return None;
  }

  /** A completed pair of writes is one `Written` step. */
  lemma WritesAreWritten(cfg: Config, t: Tables, repo: string, raw: Raw, parsed: Parsed, docType: DocType, edges: seq<Edge>, pieces: seq<Piece>)
    requires Ready(t, repo) && Clean(raw.path)
    requires LinksOf(cfg, t, DocumentOf(repo, raw, parsed, docType), edges) && TagsDistinct(DocumentID(repo, raw.path), parsed.tags)
    ensures var row := DocumentOf(repo, raw, parsed, docType);
            var mid := DocumentPut(t, CanonicalDocument(row, TagsOf(row.id, parsed.tags), edges));
            var r := Run(mid, Plan(PutChunks(row.id, ChunksOf(row.id, pieces))));
            r.Some? && Written(cfg, t, row, TagsOf(row.id, parsed.tags), ChunksOf(row.id, pieces), r.value)
  {
    var row := DocumentOf(repo, raw, parsed, docType);
    DocumentIDFacts(repo, raw.path);
    ChunksFit(t, row.id, pieces);
    PutWritten(cfg, t, row, TagsOf(row.id, parsed.tags), edges, ChunksOf(row.id, pieces));
  }

  lemma PutWritten(cfg: Config, t: Tables, row: Document, tags: seq<Tag>, edges: seq<Edge>, chunks: seq<Chunk>)
    requires LinksOf(cfg, t, row, edges) && ChunkIdsFree(ChunksWithout(t, row.id), chunks)
    ensures var mid := DocumentPut(t, CanonicalDocument(row, tags, edges));
            var r := Run(mid, Plan(PutChunks(row.id, chunks)));
            r.Some? && Written(cfg, t, row, tags, chunks, r.value)
  {
    var mid := DocumentPut(t, CanonicalDocument(row, tags, edges));
    PutChunksRuns(mid, row.id, chunks);
    assert ChunksWithout(mid, row.id) == ChunksWithout(t, row.id);
  }

  /** A document written without its chunks: sound, and no other entry changed. */
  lemma HalfWritten(t: Tables, repo: string, raw: Raw, parsed: Parsed, docType: DocType, edges: seq<Edge>)
    requires Ready(t, repo) && Clean(raw.path) && ProperEdges(DocumentID(repo, raw.path), edges)
    ensures var row := DocumentOf(repo, raw, parsed, docType);
            var u := DocumentPut(t, CanonicalDocument(row, TagsOf(row.id, parsed.tags), edges));
            Canon(u) && SameElsewhere(t, u, row.id)
  {
    var row := DocumentOf(repo, raw, parsed, docType);
    var u := DocumentPut(t, CanonicalDocument(row, TagsOf(row.id, parsed.tags), edges));
    HalfCanonical(t, repo, raw, parsed, docType, edges, u);
    SameChunks(t, u);
    DocumentIDFacts(repo, raw.path);
    EdgesElsewhere(t, row.id, edges, u);
    TagsElsewhere(t, row.id, parsed.tags, u);
  }

  lemma SameChunks(t: Tables, u: Tables)
    requires u.chunks == t.chunks
    ensures forall k :: ChunksStored(u, k) == ChunksStored(t, k)
  {
  }

  lemma HalfCanonical(t: Tables, repo: string, raw: Raw, parsed: Parsed, docType: DocType, edges: seq<Edge>, u: Tables)
    requires Ready(t, repo) && Clean(raw.path) && ProperEdges(DocumentID(repo, raw.path), edges)
    requires var row := DocumentOf(repo, raw, parsed, docType);
             u == DocumentPut(t, CanonicalDocument(row, TagsOf(row.id, parsed.tags), edges))
    ensures Canon(u)
  {
    var row := DocumentOf(repo, raw, parsed, docType);
    DocumentIDFacts(repo, raw.path);
    WrittenTags(t, row.id, parsed.tags);
    EdgesStayCanonical(t, row.id, u);
    DocumentsStayCanonical(t.documents, row);
  }

  lemma WrittenElsewhere(cfg: Config, t: Tables, repo: string, raw: Raw, parsed: Parsed, docType: DocType, pieces: seq<Piece>, u: Tables)
    requires Ready(t, repo) && Clean(raw.path) && Inv(u)
    requires var row := DocumentOf(repo, raw, parsed, docType);
             Written(cfg, t, row, TagsOf(row.id, parsed.tags), ChunksOf(row.id, pieces), u)
    ensures Ready(u, repo) && SameElsewhere(t, u, DocumentID(repo, raw.path))
  {
    var row := DocumentOf(repo, raw, parsed, docType);
    DocumentIDFacts(repo, raw.path);
    WrittenKeepsCanon(cfg, t, repo, raw, parsed, docType, pieces, u);
    WrittenEntries(cfg, t, row, TagsOf(row.id, parsed.tags), pieces, u);
    WrittenLinks(cfg, t, row, TagsOf(row.id, parsed.tags), ChunksOf(row.id, pieces), u);
    TagsElsewhere(t, row.id, parsed.tags, u);
  }

  /** From the lookup on: skip an unchanged file, else link, chunk and write. */
  method IndexParsed(store: Store, cfg: Config, ghost rules: seq<Mapping>, repo: string, raw: Raw, parsed: Parsed,
                     docType: DocType, faults: (Fault, Fault)) returns (outcome: Outcome)
    requires Ready(store.db, repo) && Clean(raw.path)
    requires cfg.parse(raw.path, raw.bytes) == Some(parsed) && docType == StoredType(rules, raw, parsed)
    modifies store
    ensures Ready(store.db, repo) && SameElsewhere(old(store.db), store.db, DocumentID(repo, raw.path))
    ensures !outcome.Removed?
    ensures faults == (None, None) ==>
              OneStep(cfg, rules, repo, old(store.db), raw, store.db, outcome)
  {
    var row := DocumentOf(repo, raw, parsed, docType);
    DocumentIDFacts(repo, raw.path);
    DigestIsHex(raw.bytes);
    var found := store.FindDocumentByPath(repo, raw.path);
    FoundIsById(store.db, repo, raw.path, found);
    if found.Some? && row.contentHash != "" && found.value.contentHash == row.contentHash && found.value.docType == row.docType {
      return Unchanged;
    }
    DigestIsHex(Join([TrimSpace(repo), TrimSpace(raw.path)], "|"));
    var edges := Links(cfg, store.db, row);
    if edges.None? {
      return Failed(LinkFailed);
    }
    var pieces := cfg.split(parsed.content);
    if pieces.None? {
      return Failed(ChunkFailed);
    }
    var doc := CanonicalDocument(row, TagsOf(row.id, parsed.tags), edges.value);
    WriteFits(store.db, repo, raw, parsed, docType, edges.value);
    ghost var before := store.db;
    var failed := Write(store, doc, ChunksOf(row.id, pieces.value), faults);
    WriteOutcome(cfg, before, repo, raw, parsed, docType, edges.value, pieces.value, store.db, failed);
    if failed.Some? {
      return Failed(failed.value);
    }
    return if found.Some? then Updated else Added;
  }

  lemma FoundIsById(t: Tables, repo: string, path: string, found: Option<Document>)
    requires Canon(t) && RowsOwned(t)
    requires found.Some? ==> exists k :: k in t.documents && t.documents[k] == found.value && found.value.repositoryId == repo && found.value.path == path
    requires found.None? ==> forall k :: k in t.documents ==> !(t.documents[k].repositoryId == repo && t.documents[k].path == path)
    requires RepoName(repo) && Clean(path)
    ensures found.Some? <==> DocumentID(repo, path) in t.documents
    ensures found.Some? ==> found.value == t.documents[DocumentID(repo, path)]
  {
    var id := DocumentID(repo, path);
    if id in t.documents {
      SameDocumentID(repo, path, t.documents[id].repositoryId, t.documents[id].path);
    }
  }

  lemma WriteOutcome(cfg: Config, t: Tables, repo: string, raw: Raw, parsed: Parsed, docType: DocType, edges: seq<Edge>, pieces: seq<Piece>,
                     u: Tables, failed: Option<Reason>)
    requires Ready(t, repo) && Clean(raw.path) && LinksOf(cfg, t, DocumentOf(repo, raw, parsed, docType), edges) && Inv(u)
    requires var row := DocumentOf(repo, raw, parsed, docType);
             var doc := CanonicalDocument(row, TagsOf(row.id, parsed.tags), edges);
             var chunks := ChunksOf(row.id, pieces);
             && (failed.None? ==> DocumentFits(t, doc) && Run(DocumentPut(t, doc), Plan(PutChunks(row.id, chunks))) == Some(u))
             && (failed == Some(WriteDocumentFailed) ==> u == t)
             && (failed == Some(WriteChunksFailed) ==> DocumentFits(t, doc) && u == DocumentPut(t, doc))
             && (failed.None? || failed == Some(WriteDocumentFailed) || failed == Some(WriteChunksFailed))
    ensures Ready(u, repo) && SameElsewhere(t, u, DocumentID(repo, raw.path))
    ensures var row := DocumentOf(repo, raw, parsed, docType);
            && (failed.None? ==> Written(cfg, t, row, TagsOf(row.id, parsed.tags), ChunksOf(row.id, pieces), u))
            && (TagsDistinct(row.id, parsed.tags) ==>
                Run(DocumentPut(t, CanonicalDocument(row, TagsOf(row.id, parsed.tags), edges)), Plan(PutChunks(row.id, ChunksOf(row.id, pieces)))).Some?)
  {
    var row := DocumentOf(repo, raw, parsed, docType);
    WriteFits(t, repo, raw, parsed, docType, edges);
    if TagsDistinct(row.id, parsed.tags) {
      WritesAreWritten(cfg, t, repo, raw, parsed, docType, edges, pieces);
    }
    if failed.None? {
      WrittenElsewhere(cfg, t, repo, raw, parsed, docType, pieces, u);
    } else if failed == Some(WriteChunksFailed) {
      HalfWritten(t, repo, raw, parsed, docType, edges);
    }
  }

  /** `indexOne`: whatever happens to a file, it is counted once and no other document changes. */
  method IndexOne(store: Store, cfg: Config, rules: seq<Mapping>, repo: string, raw: Raw, report: Report, faults: (Fault, Fault))
    returns (outcome: Outcome)
    requires Ready(store.db, repo) && Clean(raw.path)
    modifies store, report
    ensures Ready(store.db, repo) && SameElsewhere(old(store.db), store.db, DocumentID(repo, raw.path))
    ensures !outcome.Removed? && report.View() == Counted(old(report.View()), raw.path, outcome)
    ensures faults == (None, None) ==>
              OneStep(cfg, rules, repo, old(store.db), raw, store.db, outcome)
  {
    var parsed := cfg.parse(raw.path, raw.bytes);
    if parsed.None? {
      outcome := Failed(ParseFailed);
      report.Fail(raw.path, ParseFailed);
      return;
    }
    var docType := ApplyTaxonomy(rules, raw.path, parsed.value.docType);
    outcome := IndexParsed(store, cfg, rules, repo, raw, parsed.value, docType, faults);
    match outcome {
      case Added => report.added := report.added + 1;
      case Updated => report.updated := report.updated + 1;
      case Unchanged => report.same := report.same + 1;
      case Failed(reason) => report.Fail(raw.path, reason);
    }
  }
}
