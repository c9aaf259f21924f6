/** The edges that index runs leave: of each file, those its front matter declares. */
module IndexLinks {
  import opened Identity
  import opened Taxonomy
  import opened Storage
  import opened Effects
  import opened Pipeline
  import opened Indexing
  import opened Runs
  import opened Collecting

  /** The row a file is written as. */
  ghost function RowOf(rules: seq<Mapping>, repo: string, raw: Raw, parsed: Parsed): Document {
    DocumentOf(repo, raw, parsed, StoredType(rules, raw, parsed))
  }

  /** The edges from the file's document are exactly those some field of its metadata declares and
      the resolver finds a target for, on the tables `t`. */
  ghost predicate LinkedAs(cfg: Config, rules: seq<Mapping>, repo: string, t: Tables, raw: Raw, u: Tables) {
    var parsed := cfg.parse(raw.path, raw.bytes);
    parsed.Some? && forall e :: e in EdgesFrom(u, DocumentID(repo, raw.path)) <==> DeclaredLink(cfg, t, RowOf(rules, repo, raw, parsed.value), e)
  }

  predicate Stored(outcome: Outcome) {
    outcome == Added || outcome == Updated
  }

  /** A file that is added or updated gets its declared edges; whatever happens to it, no other
      document's edges change. */
  lemma StepLinks(cfg: Config, rules: seq<Mapping>, repo: string, t: Tables, raw: Raw, u: Tables, outcome: Outcome)
    requires Ready(t, repo) && Clean(raw.path) && OneStep(cfg, rules, repo, t, raw, u, outcome)
    ensures if Stored(outcome) then LinkedAs(cfg, rules, repo, t, raw, u) else u == t
    ensures forall id :: id != DocumentID(repo, raw.path) ==> EdgesFrom(u, id) == EdgesFrom(t, id)
  {
    if Stored(outcome) {
      var tags, chunks := StoredIsWritten(cfg, rules, repo, t, raw, u, outcome);
      var row := RowOf(rules, repo, raw, cfg.parse(raw.path, raw.bytes).value);
      DocumentIDFacts(repo, raw.path);
      WrittenLinks(cfg, t, row, tags, chunks, u);
    } else {
      NotStored(cfg, rules, repo, t, raw, u, outcome);
    }
  }

  lemma StoredIsWritten(cfg: Config, rules: seq<Mapping>, repo: string, t: Tables, raw: Raw, u: Tables, outcome: Outcome)
    returns (tags: seq<Tag>, chunks: seq<Chunk>)
    requires OneStep(cfg, rules, repo, t, raw, u, outcome) && Stored(outcome)
    ensures cfg.parse(raw.path, raw.bytes).Some?
    ensures Written(cfg, t, RowOf(rules, repo, raw, cfg.parse(raw.path, raw.bytes).value), tags, chunks, u)
  {
    var parsed := cfg.parse(raw.path, raw.bytes).value;
    var id := RowOf(rules, repo, raw, parsed).id;
    tags, chunks := TagsOf(id, parsed.tags), ChunksOf(id, cfg.split(parsed.content).value);
  }

  lemma NotStored(cfg: Config, rules: seq<Mapping>, repo: string, t: Tables, raw: Raw, u: Tables, outcome: Outcome)
    requires OneStep(cfg, rules, repo, t, raw, u, outcome) && !Stored(outcome)
    ensures u == t
  {
  }

  /** A file fails for its links exactly when it is not up to date and one of its references cannot
      be resolved; the tables are then as they were. */
  lemma LinkFailure(cfg: Config, rules: seq<Mapping>, repo: string, t: Tables, raw: Raw, u: Tables, outcome: Outcome)
    requires OneStep(cfg, rules, repo, t, raw, u, outcome) && cfg.parse(raw.path, raw.bytes).Some?
    ensures var row := RowOf(rules, repo, raw, cfg.parse(raw.path, raw.bytes).value);
            outcome == Failed(LinkFailed) <==> !UpToDate(t, row) && LinkFails(cfg, t, row)
    ensures outcome == Failed(LinkFailed) ==> u == t
  {
  }

  lemma {:induction false} EdgesUntouched(repo: string, raws: seq<Raw>, trace: seq<Tables>, id: string, m: nat, n: nat)
    requires Hops(repo, raws, trace) && m <= n <= |raws|
    requires forall i :: m <= i < n ==> DocumentID(repo, raws[i].path) != id
    ensures EdgesFrom(trace[n], id) == EdgesFrom(trace[m], id)
    decreases n
  {
    if m < n {
      EdgesUntouched(repo, raws, trace, id, m, n - 1);
      assert HopAt(repo, raws, trace, n - 1);
    }
  }

  lemma OtherFiles(cfg: Config, rules: seq<Mapping>, repo: string, raws: seq<Raw>, trace: seq<Tables>, outcomes: seq<Outcome>, i: nat)
    requires Faultless(cfg, rules, repo, raws, trace, outcomes) && AllClean(raws) && DistinctPaths(raws) && i < |raws|
    ensures forall j :: 0 <= j < |raws| && j != i ==> DocumentID(repo, raws[j].path) != DocumentID(repo, raws[i].path)
  {
    assert ReadyAt(repo, trace, 0);
    forall j | 0 <= j < |raws| && j != i ensures DocumentID(repo, raws[j].path) != DocumentID(repo, raws[i].path) {
      if DocumentID(repo, raws[j].path) == DocumentID(repo, raws[i].path) {
        SameDocumentID(repo, raws[j].path, repo, raws[i].path);
      }
    }
  }

  /** After a run that no engine failure strikes each file stored by it has exactly the edges its
      front matter declares, resolved on the tables it found; the other files keep theirs. */
  lemma RunLinks(cfg: Config, rules: seq<Mapping>, repo: string, raws: seq<Raw>, trace: seq<Tables>, outcomes: seq<Outcome>, i: nat)
    requires Faultless(cfg, rules, repo, raws, trace, outcomes) && AllClean(raws) && DistinctPaths(raws) && i < |raws|
    ensures if Stored(outcomes[i]) then LinkedAs(cfg, rules, repo, trace[i], raws[i], trace[|raws|])
            else EdgesFrom(trace[|raws|], DocumentID(repo, raws[i].path)) == EdgesFrom(trace[0], DocumentID(repo, raws[i].path))
  {
    var id := DocumentID(repo, raws[i].path);
    OtherFiles(cfg, rules, repo, raws, trace, outcomes, i);
    FaultlessAt(cfg, rules, repo, raws, trace, outcomes, i);
    StepLinks(cfg, rules, repo, trace[i], raws[i], trace[i + 1], outcomes[i]);
    EdgesUntouched(repo, raws, trace, id, 0, i);
    EdgesUntouched(repo, raws, trace, id, i + 1, |raws|);
  }

  /** So a full index into a store without the repository links every file that it can store. */
  lemma FullIndexLinks(cfg: Config, rules: seq<Mapping>, repo: string, raws: seq<Raw>, trace: seq<Tables>, outcomes: seq<Outcome>, i: nat)
    requires CleanRun(cfg, rules, repo, raws, trace, outcomes) && AllClean(raws) && DistinctPaths(raws) && i < |raws|
    requires EntryAt(trace[0], repo, raws[i].path).None? && Image(cfg, rules, repo, raws[i]).Some?
    ensures outcomes[i] == Added && LinkedAs(cfg, rules, repo, trace[i], raws[i], trace[|raws|])
  {
    RunLinks(cfg, rules, repo, raws, trace, outcomes, i);
    RunAt(cfg, rules, repo, raws, trace, outcomes, i);
    OtherFiles(cfg, rules, repo, raws, trace, outcomes, i);
    NotThereYet(repo, raws, trace, DocumentID(repo, raws[i].path), i);
  }

  lemma {:induction false} NotThereYet(repo: string, raws: seq<Raw>, trace: seq<Tables>, id: string, n: nat)
    requires Hops(repo, raws, trace) && n <= |raws| && id !in trace[0].documents
    requires forall i :: 0 <= i < n ==> DocumentID(repo, raws[i].path) != id
    ensures id !in trace[n].documents
  {
    if n == 0 {
    } else {
      NotThereYet(repo, raws, trace, id, n - 1);
      assert HopAt(repo, raws, trace, n - 1);
    }
  }

  // ----- tags

  /** The document's tags are exactly those the file was parsed into. */
  ghost predicate TaggedAs(cfg: Config, repo: string, raw: Raw, u: Tables) {
    var id, parsed := DocumentID(repo, raw.path), cfg.parse(raw.path, raw.bytes);
    parsed.Some? && forall tag :: tag in TagsStored(u, id) <==> tag in TagsOf(id, parsed.value.tags)
  }

  lemma StepTags(cfg: Config, rules: seq<Mapping>, repo: string, t: Tables, raw: Raw, u: Tables, outcome: Outcome)
    requires Ready(t, repo) && Clean(raw.path) && OneStep(cfg, rules, repo, t, raw, u, outcome) && Stored(outcome)
    ensures TaggedAs(cfg, repo, raw, u)
  {
    DocumentIDFacts(repo, raw.path);
    WrittenTagsExactly(t, DocumentID(repo, raw.path), cfg.parse(raw.path, raw.bytes).value.tags, u);
  }

  /** After a run that no engine failure strikes each file stored by it has its own tags. */
  lemma RunTags(cfg: Config, rules: seq<Mapping>, repo: string, raws: seq<Raw>, trace: seq<Tables>, outcomes: seq<Outcome>, i: nat)
    requires Faultless(cfg, rules, repo, raws, trace, outcomes) && AllClean(raws) && DistinctPaths(raws) && i < |raws|
    requires Stored(outcomes[i])
    ensures TaggedAs(cfg, repo, raws[i], trace[|raws|])
  {
    OtherFiles(cfg, rules, repo, raws, trace, outcomes, i);
    FaultlessAt(cfg, rules, repo, raws, trace, outcomes, i);
    StepTags(cfg, rules, repo, trace[i], raws[i], trace[i + 1], outcomes[i]);
    TagsUntouched(repo, raws, trace, DocumentID(repo, raws[i].path), i + 1);
  }

  lemma TagsUntouched(repo: string, raws: seq<Raw>, trace: seq<Tables>, id: string, m: nat)
    requires Hops(repo, raws, trace) && m <= |raws| && forall i :: m <= i < |raws| ==> DocumentID(repo, raws[i].path) != id
    ensures TagsStored(trace[|raws|], id) == TagsStored(trace[m], id)
  {
    for n := m to |raws|
      invariant TagsStored(trace[n], id) == TagsStored(trace[m], id)
    {
      assert HopAt(repo, raws, trace, n);
    }
  }

  // ----- deletions

  /** Deleting a document takes away the edges at it, at either end, and no others. */
  lemma DeletedLinks(t: Tables, id: string)
    ensures forall k :: k in DocumentDeleted(t, id).edges <==> k in t.edges && t.edges[k].from != id && t.edges[k].to != id
    ensures forall k :: k in DocumentDeleted(t, id).edges ==> DocumentDeleted(t, id).edges[k] == t.edges[k]
    ensures EdgesFrom(DocumentDeleted(t, id), id) == {}
  {
  }

  /** A deleted target is lost to its referrer for good: as long as the referrer's bytes and type
      stay, no later run restores the edge. */
  lemma UnchangedStaysUnlinked(cfg: Config, rules: seq<Mapping>, repo: string, t: Tables, raw: Raw, u: Tables, outcome: Outcome, gone: string)
    requires Ready(t, repo) && Clean(raw.path) && gone != DocumentID(repo, raw.path)
    requires OneStep(cfg, rules, repo, DocumentDeleted(t, gone), raw, u, outcome)
    requires cfg.parse(raw.path, raw.bytes).Some? && UpToDate(t, RowOf(rules, repo, raw, cfg.parse(raw.path, raw.bytes).value))
    ensures outcome == Unchanged
    ensures forall e :: e in EdgesFrom(u, DocumentID(repo, raw.path)) <==> e in EdgesFrom(t, DocumentID(repo, raw.path)) && e.to != gone
  {
    StillUpToDate(t, gone, RowOf(rules, repo, raw, cfg.parse(raw.path, raw.bytes).value));
    UpToDateStays(cfg, rules, repo, DocumentDeleted(t, gone), raw, u, outcome);
    OtherEdgesDeleted(t, gone, DocumentID(repo, raw.path));
  }

  lemma StillUpToDate(t: Tables, gone: string, row: Document)
    requires UpToDate(t, row) && gone != row.id
    ensures UpToDate(DocumentDeleted(t, gone), row)
  {
  }

  lemma UpToDateStays(cfg: Config, rules: seq<Mapping>, repo: string, t: Tables, raw: Raw, u: Tables, outcome: Outcome)
    requires OneStep(cfg, rules, repo, t, raw, u, outcome)
    requires cfg.parse(raw.path, raw.bytes).Some? && UpToDate(t, RowOf(rules, repo, raw, cfg.parse(raw.path, raw.bytes).value))
    ensures u == t && outcome == Unchanged
  {
  }

  lemma OtherEdgesDeleted(t: Tables, gone: string, id: string)
    requires gone != id
    ensures forall e :: e in EdgesFrom(DocumentDeleted(t, gone), id) <==> e in EdgesFrom(t, id) && e.to != gone
  {
    var v := DocumentDeleted(t, gone);
    forall e | e in EdgesFrom(t, id) && e.to != gone ensures e in EdgesFrom(v, id) {
      var k :| k in t.edges && t.edges[k].from == id && t.edges[k] == e;
      assert v.edges[k] == e;
    }
    forall e | e in EdgesFrom(v, id) ensures e in EdgesFrom(t, id) && e.to != gone {
      var k :| k in v.edges && v.edges[k].from == id && v.edges[k] == e;
      assert t.edges[k] == e;
    }
  }
}
