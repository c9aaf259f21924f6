/** `internal/retriever/retriever.go`: search results grouped by Knowledge Type, with rules
    chosen by the files they govern. */
module Retrieval {
  import opened Wrappers
  import opened Text
  import opened Sorting
  import opened Glob
  import opened Taxonomy
  import opened Storage
  import opened Sqlite
  import opened Searching

  datatype Group = Group(name: string, results: seq<SearchResult>)

  const RULES := "Rules"

  const OTHER := "Other"

  const DEFAULT_PRIORITY: seq<string> := [
    "Architecture", "Related ADRs", RULES, "Related RFCs", "Specifications",
    "Guides", "Roadmap", "Documentation", "Related Issues", "Related PRs"]

  const MAX_SCOPED_RULES := 10

  function LabelOf(t: DocType): Option<string> {
    match t
    case Standard => Some("Architecture")
    case ADR => Some("Related ADRs")
    case Rule => Some(RULES)
    case RFC => Some("Related RFCs")
    case Roadmap => Some("Roadmap")
    case Readme => Some("Documentation")
    case Specification => Some("Specifications")
    case Guide => Some("Guides")
    case Unknown => None
  }

  lemma LabelsAreDefault(t: DocType)
    ensures LabelOf(t).Some? ==> LabelOf(t).value in DEFAULT_PRIORITY
  {
    assert DEFAULT_PRIORITY[0] == "Architecture" && DEFAULT_PRIORITY[1] == "Related ADRs" && DEFAULT_PRIORITY[2] == RULES;
    assert DEFAULT_PRIORITY[3] == "Related RFCs" && DEFAULT_PRIORITY[4] == "Specifications" && DEFAULT_PRIORITY[5] == "Guides";
    assert DEFAULT_PRIORITY[6] == "Roadmap" && DEFAULT_PRIORITY[7] == "Documentation";
  }

  /** Every Knowledge Type but unknown has a section of its own. */
  lemma LabelsSeparate(s: DocType, t: DocType)
    requires s != t
    ensures LabelOf(s) != LabelOf(t)
    ensures LabelOf(s).None? <==> s == Unknown
  {
  }

  // ----- which rules govern

  function AppliesTo(d: Document): string {
    if "applies_to" in d.metadata then d.metadata["applies_to"] else ""
  }

  /** Without paths every rule governs; with paths, a rule whose scope matches one of them. */
  ghost predicate RuleGoverns(d: Document, changed: seq<string>) {
    changed == [] || ScopeCovers(d, changed)
  }

  ghost predicate ScopeCovers(d: Document, changed: seq<string>) {
    Governs(ListedPatterns(Split(AppliesTo(d), ',')), changed)
  }

  /** A rule says what it governs in its `applies_to` field, and governs everything without one. */
  lemma ScopeIsDeclared(d: Document, changed: seq<string>)
    ensures "applies_to" !in d.metadata ==> RuleGoverns(d, changed)
    ensures "applies_to" in d.metadata ==>
              (ScopeCovers(d, changed) <==> Governs(ListedPatterns(Split(d.metadata["applies_to"], ',')), changed))
  {
    if "applies_to" !in d.metadata {
      assert Split("", ',') == [""] && [""][..0] == [];
      BlankTrims("");
      assert ListedPatterns([""]) == [];
    }
  }

  method ScopeMatchesDocument(d: Document, changed: seq<string>) returns (ok: bool)
    ensures ok <==> ScopeCovers(d, changed)
  {
    var patterns := ParseScope(AppliesTo(d));
    ok := ScopeMatches(patterns, changed);
  }

  /** `governs`. */
  method GovernsChange(d: Document, changed: seq<string>) returns (ok: bool)
    ensures ok <==> RuleGoverns(d, changed)
  {
    if |changed| == 0 {
      return true;
    }
    ok := ScopeMatchesDocument(d, changed);
  }

  // ----- grouping

  /** The hit belongs under the label; a rule only if it governs. */
  ghost predicate Belongs(r: SearchResult, changed: seq<string>, name: Option<string>) {
    LabelOf(r.document.docType) == name && (r.document.docType == Rule ==> RuleGoverns(r.document, changed))
  }

  /** The hits under a label, in the order of the search. */
  ghost function Labelled(results: seq<SearchResult>, changed: seq<string>, name: Option<string>): seq<SearchResult> {
    if results == [] then []
    else
      var n := |results| - 1;
      Labelled(results[..n], changed, name) + (if Belongs(results[n], changed, name) then [results[n]] else [])
  }

  type ByLabel = map<string, seq<SearchResult>>

  function Get(byLabel: ByLabel, name: string): seq<SearchResult> {
    if name in byLabel then byLabel[name] else []
  }

  ghost predicate Grouped(results: seq<SearchResult>, changed: seq<string>, byLabel: ByLabel, other: seq<SearchResult>) {
    && (forall name :: Get(byLabel, name) == Labelled(results, changed, Some(name)))
    && other == Labelled(results, changed, None)
  }

  lemma LabelledNext(results: seq<SearchResult>, changed: seq<string>, i: nat, name: Option<string>)
    requires i < |results|
    ensures Labelled(results[..i + 1], changed, name)
         == Labelled(results[..i], changed, name) + (if Belongs(results[i], changed, name) then [results[i]] else [])
  {
    assert results[..i + 1][..i] == results[..i];
  }

  lemma GroupedSame(results: seq<SearchResult>, changed: seq<string>, i: nat, byLabel: ByLabel, other: seq<SearchResult>)
    requires i < |results| && Grouped(results[..i], changed, byLabel, other)
    requires results[i].document.docType == Rule && !RuleGoverns(results[i].document, changed)
    ensures Grouped(results[..i + 1], changed, byLabel, other)
  {
    forall key ensures Get(byLabel, key) == Labelled(results[..i + 1], changed, Some(key)) {
      LabelledNext(results, changed, i, Some(key));
    }
    LabelledNext(results, changed, i, None);
  }

  lemma GroupedLabel(results: seq<SearchResult>, changed: seq<string>, i: nat, byLabel: ByLabel, other: seq<SearchResult>, name: string)
    requires i < |results| && Grouped(results[..i], changed, byLabel, other) && Belongs(results[i], changed, Some(name))
    ensures Grouped(results[..i + 1], changed, byLabel[name := Get(byLabel, name) + [results[i]]], other)
  {
    forall key ensures Get(byLabel[name := Get(byLabel, name) + [results[i]]], key) == Labelled(results[..i + 1], changed, Some(key)) {
      LabelledNext(results, changed, i, Some(key));
    }
    LabelledNext(results, changed, i, None);
  }

  lemma GroupedOther(results: seq<SearchResult>, changed: seq<string>, i: nat, byLabel: ByLabel, other: seq<SearchResult>)
    requires i < |results| && Grouped(results[..i], changed, byLabel, other) && Belongs(results[i], changed, None)
    ensures Grouped(results[..i + 1], changed, byLabel, other + [results[i]])
  {
    forall key ensures Get(byLabel, key) == Labelled(results[..i + 1], changed, Some(key)) {
      LabelledNext(results, changed, i, Some(key));
    }
    LabelledNext(results, changed, i, None);
  }

  method GroupHits(results: seq<SearchResult>, changed: seq<string>) returns (byLabel: ByLabel, other: seq<SearchResult>)
    ensures Grouped(results, changed, byLabel, other)
  {
    byLabel, other := map[], [];
    for i := 0 to |results|
      invariant Grouped(results[..i], changed, byLabel, other)
    {
      var res := results[i];
      var governs := GovernsChange(res.document, changed);
      if res.document.docType == Rule && !governs {
        GroupedSame(results, changed, i, byLabel, other);
        continue;
      }
      var name := LabelOf(res.document.docType);
      if name.Some? {
        GroupedLabel(results, changed, i, byLabel, other, name.value);
        byLabel := byLabel[name.value := Get(byLabel, name.value) + [res]];
        continue;
      }
      GroupedOther(results, changed, i, byLabel, other);
      other := other + [res];
    }
    assert results[..|results|] == results;
  }

  // ----- rules by scope

  const NO_CHUNK := Chunk("", "", 0, "", "")

  function SnippetOf(d: Document): string {
    var body := TrimSpace(d.content);
    if |body| <= 200 then body else TrimSpace(body[..200]) + "..."
  }

  /** A short text is shown whole, a longer one by its first 200 characters at most. */
  lemma SnippetIsShort(d: Document)
    ensures var body := TrimSpace(d.content);
            if |body| <= 200 then SnippetOf(d) == body
            else |SnippetOf(d)| <= 203 && SnippetOf(d)[|SnippetOf(d)| - 3..] == "..." && SnippetOf(d)[..|SnippetOf(d)| - 3] <= body
  {
    var body := TrimSpace(d.content);
    if |body| > 200 {
      var head := body[..200];
      TrimEnds(d.content);
      assert TrimLeft(head) == head;
      TrimRightEnds(head);
      assert SnippetOf(d)[..|SnippetOf(d)| - 3] == TrimSpace(head);
    }
  }

  /** The entry of a rule: the last hit on it, or a result without a score. */
  function EntryOf(hits: seq<SearchResult>, d: Document): SearchResult {
    if hits == [] then SearchResult(d, NO_CHUNK, 0.0, SnippetOf(d), [])
    else if hits[|hits| - 1].document.id == d.id then hits[|hits| - 1]
    else EntryOf(hits[..|hits| - 1], d)
  }

  predicate LastHit(hits: seq<SearchResult>, d: Document, i: nat)
    requires i < |hits|
  {
    hits[i].document.id == d.id && forall j :: i < j < |hits| ==> hits[j].document.id != d.id
  }

  /** The entry of a rule the search hit is its last hit. */
  lemma {:induction false} EntryIsLastHit(hits: seq<SearchResult>, d: Document, i: nat)
    requires i < |hits| && LastHit(hits, d, i)
    ensures EntryOf(hits, d) == hits[i]
  {
    var n := |hits| - 1;
    if i < n {
      assert hits[..n][i] == hits[i];
      EntryIsLastHit(hits[..n], d, i);
    }
  }

  /** The entry of any other rule is the rule itself, without a score. */
  lemma {:induction false} EntryWithoutHit(hits: seq<SearchResult>, d: Document)
    requires forall i :: 0 <= i < |hits| ==> hits[i].document.id != d.id
    ensures EntryOf(hits, d).document == d && EntryOf(hits, d).score == 0.0 && EntryOf(hits, d).snippet == SnippetOf(d)
  {
    if hits == [] {
    } else {
      EntryWithoutHit(hits[..|hits| - 1], d);
    }
  }

  predicate RuleBefore(a: SearchResult, b: SearchResult) {
    a.score > b.score || (a.score == b.score && StrLess(a.document.path, b.document.path))
  }

  lemma RuleBeforeIsOrder()
    ensures WeakOrder(RuleBefore)
  {
    StrLessIsTotalOrder();
  }

  ghost predicate StoredRule(t: Tables, d: Document) {
    StoredDocument(t, d) && d.docType == Rule
  }

  ghost predicate GoverningRule(t: Tables, changed: seq<string>, d: Document) {
    StoredRule(t, d) && ScopeCovers(d, changed)
  }

  /** The entry shown for a governing rule. */
  ghost predicate RuleEntry(t: Tables, changed: seq<string>, hits: seq<SearchResult>, d: Document, r: SearchResult) {
    GoverningRule(t, changed, d) && r == EntryOf(hits, d)
  }

  ghost predicate RuleEntries(t: Tables, changed: seq<string>, hits: seq<SearchResult>, docs: seq<Document>, out: seq<SearchResult>) {
    Distinct(docs) && |out| == |docs| && forall k :: 0 <= k < |docs| ==> RuleEntry(t, changed, hits, docs[k], out[k])
  }

  /** A higher score, or the same and no later path. */
  predicate NoWorse(a: SearchResult, b: SearchResult) {
    a.score >= b.score && (a.score == b.score ==> !StrLess(b.document.path, a.document.path))
  }

  ghost predicate RulesSorted(out: seq<SearchResult>) {
    forall k, l :: 0 <= k < l < |out| ==> NoWorse(out[k], out[l])
  }

  /** Rules `docs` are governing ones and `out` their entries, the first `limit` of all by score
      and then path. */
  ghost predicate FirstRules(t: Tables, changed: seq<string>, hits: seq<SearchResult>, limit: nat, docs: seq<Document>, out: seq<SearchResult>) {
    && |docs| <= limit && RuleEntries(t, changed, hits, docs, out) && RulesSorted(out)
    && forall d :: GoverningRule(t, changed, d) && d !in docs ==> RuleLeftOut(hits, limit, out, d)
  }

  ghost predicate RuleLeftOut(hits: seq<SearchResult>, limit: nat, out: seq<SearchResult>, d: Document) {
    |out| == limit && forall k :: 0 <= k < |out| ==> NoWorse(out[k], EntryOf(hits, d))
  }

  /** The governing rules among the first `n` listed. */
  ghost predicate Candidates(t: Tables, changed: seq<string>, all: seq<Document>, n: nat, docs: seq<Document>)
    requires n <= |all|
  {
    && (forall d :: d in docs ==> d in all[..n])
    && (forall i :: 0 <= i < n && ScopeCovers(all[i], changed) ==> all[i] in docs)
  }

  method LastHits(hits: seq<SearchResult>) returns (scoreById: map<string, SearchResult>)
    ensures forall d :: EntryOf(hits, d) == if d.id in scoreById then scoreById[d.id] else EntryOf([], d)
  {
    scoreById := map[];
    for i := 0 to |hits|
      invariant forall d :: EntryOf(hits[..i], d) == if d.id in scoreById then scoreById[d.id] else EntryOf([], d)
    {
      assert hits[..i + 1][..i] == hits[..i];
      scoreById := scoreById[hits[i].document.id := hits[i]];
    }
    assert hits[..|hits|] == hits;
  }

  method GoverningRules(store: Store, changed: seq<string>, hits: seq<SearchResult>)
    returns (out: seq<SearchResult>, ghost docs: seq<Document>)
    requires Inv(store.db)
    ensures RuleEntries(store.db, changed, hits, docs, out)
    ensures forall d :: GoverningRule(store.db, changed, d) ==> d in docs
  {
    var all := store.ListDocumentsByType(Rule);
    var scoreById := LastHits(hits);
    out, docs := CollectRules(all, changed, hits, scoreById, store.db);
    forall d | GoverningRule(store.db, changed, d) ensures d in docs {
      assert d in all;
    }
  }

  method CollectRules(all: seq<Document>, changed: seq<string>, ghost hits: seq<SearchResult>, scoreById: map<string, SearchResult>, ghost t: Tables)
    returns (out: seq<SearchResult>, ghost docs: seq<Document>)
    requires Distinct(all) && forall d :: d in all ==> StoredRule(t, d)
    requires forall d :: EntryOf(hits, d) == if d.id in scoreById then scoreById[d.id] else EntryOf([], d)
    ensures RuleEntries(t, changed, hits, docs, out)
    ensures forall i :: 0 <= i < |all| && ScopeCovers(all[i], changed) ==> all[i] in docs
  {
    out, docs := [], [];
    for i := 0 to |all|
      invariant RuleEntries(t, changed, hits, docs, out) && Candidates(t, changed, all, i, docs)
    {
      var d := all[i];
      assert d in all;
      CandidateNext(t, changed, all, i, docs);
      var covers := ScopeMatchesDocument(d, changed);
      if !covers {
        continue;
      }
      var entry := EntryFor(d, hits, scoreById);
      EntriesGrow(t, changed, hits, docs, out, d, entry);
      docs := docs + [d];
      out := out + [entry];
    }
  }

  method EntryFor(d: Document, ghost hits: seq<SearchResult>, scoreById: map<string, SearchResult>) returns (r: SearchResult)
    requires forall d :: EntryOf(hits, d) == if d.id in scoreById then scoreById[d.id] else EntryOf([], d)
    ensures r == EntryOf(hits, d)
  {
    if d.id in scoreById {
      return scoreById[d.id];
    }
    return SearchResult(d, NO_CHUNK, 0.0, SnippetOf(d), []);
  }

  lemma EntriesGrow(t: Tables, changed: seq<string>, hits: seq<SearchResult>, docs: seq<Document>, out: seq<SearchResult>,
                    d: Document, r: SearchResult)
    requires RuleEntries(t, changed, hits, docs, out) && RuleEntry(t, changed, hits, d, r) && d !in docs
    ensures RuleEntries(t, changed, hits, docs + [d], out + [r])
  {
  }

  lemma CandidateNext(t: Tables, changed: seq<string>, all: seq<Document>, i: nat, docs: seq<Document>)
    requires Distinct(all) && i < |all| && Candidates(t, changed, all, i, docs)
    ensures all[i] !in docs
    ensures Candidates(t, changed, all, i + 1, docs + [all[i]])
    ensures !ScopeCovers(all[i], changed) ==> Candidates(t, changed, all, i + 1, docs)
  {
    assert all[..i + 1] == all[..i] + [all[i]];
    assert forall d :: d in docs ==> d in all[..i];
    assert all[i] !in all[..i];
  }

  /** `scopedRules`: nothing to say without paths or storage, or when no rule governs. */
  method ScopedRules(storage: Option<Store>, changed: seq<string>, hits: seq<SearchResult>)
    returns (out: seq<SearchResult>, ghost docs: seq<Document>)
    requires storage.Some? ==> Inv(storage.value.db)
    ensures |changed| == 0 || storage.None? ==> out == []
    ensures |changed| > 0 && storage.Some? ==> FirstRules(storage.value.db, changed, hits, MAX_SCOPED_RULES, docs, out)
  {
    out, docs := [], [];
    if |changed| == 0 || storage.None? {
      return;
    }
    var found;
    ghost var rules;
    found, rules := GoverningRules(storage.value, changed, hits);
    RuleBeforeIsOrder();
    ghost var perm;
    out, perm := SortStable(found, RuleBefore);
    docs := Reordered(rules, perm);
    SortedEntries(storage.value.db, changed, hits, found, rules, out, perm);
    SortedHasAll(storage.value.db, changed, found, rules, out, perm);
    CutIsFirst(storage.value.db, changed, hits, docs, out, MAX_SCOPED_RULES);
    if |out| > MAX_SCOPED_RULES {
      out := out[..MAX_SCOPED_RULES];
      docs := docs[..MAX_SCOPED_RULES];
    }
  }

  ghost function Reordered(docs: seq<Document>, perm: seq<nat>): (r: seq<Document>)
    requires forall i :: 0 <= i < |perm| ==> perm[i] < |docs|
    ensures |r| == |perm| && forall i :: 0 <= i < |perm| ==> r[i] == docs[perm[i]]
  {
    seq(|perm|, i requires 0 <= i < |perm| => docs[perm[i]])
  }

  lemma SortedEntries(t: Tables, changed: seq<string>, hits: seq<SearchResult>, found: seq<SearchResult>, rules: seq<Document>,
                      sorted: seq<SearchResult>, perm: seq<nat>)
    requires WeakOrder(RuleBefore) && RuleEntries(t, changed, hits, rules, found) && StableSort(RuleBefore, found, sorted, perm)
    ensures RuleEntries(t, changed, hits, Reordered(rules, perm), sorted) && RulesSorted(sorted)
  {
    var all := Reordered(rules, perm);
    forall k, l | 0 <= k < l < |sorted| ensures NoWorse(sorted[k], sorted[l]) && all[k] != all[l] {
      assert InOrder(RuleBefore, sorted[k], perm[k], sorted[l], perm[l]);
      DistinctPlaces(found, sorted, perm, k, l);
    }
    forall k | 0 <= k < |sorted| ensures RuleEntry(t, changed, hits, all[k], sorted[k]) {
      assert RuleEntry(t, changed, hits, rules[perm[k]], found[perm[k]]);
    }
  }

  lemma CutIsFirst(t: Tables, changed: seq<string>, hits: seq<SearchResult>, all: seq<Document>, sorted: seq<SearchResult>, limit: nat)
    requires RuleEntries(t, changed, hits, all, sorted) && RulesSorted(sorted)
    requires forall d :: GoverningRule(t, changed, d) ==> d in all
    ensures |sorted| > limit ==> FirstRules(t, changed, hits, limit, all[..limit], sorted[..limit])
    ensures |sorted| <= limit ==> FirstRules(t, changed, hits, limit, all, sorted)
  {
    if |sorted| > limit {
      forall d | GoverningRule(t, changed, d) && d !in all[..limit] ensures RuleLeftOut(hits, limit, sorted[..limit], d) {
        CutOff(t, changed, hits, all, sorted, limit, d);
      }
    }
  }

  lemma CutOff(t: Tables, changed: seq<string>, hits: seq<SearchResult>, all: seq<Document>, sorted: seq<SearchResult>, limit: nat, d: Document)
    requires RuleEntries(t, changed, hits, all, sorted) && RulesSorted(sorted) && |sorted| > limit
    requires d in all && d !in all[..limit]
    ensures RuleLeftOut(hits, limit, sorted[..limit], d)
  {
    var l :| 0 <= l < |all| && all[l] == d;
    assert RuleEntry(t, changed, hits, all[l], sorted[l]);
    assert forall k :: 0 <= k < limit ==> all[k] in all[..limit];
  }

  lemma SortedHasAll(t: Tables, changed: seq<string>, found: seq<SearchResult>, rules: seq<Document>, sorted: seq<SearchResult>, perm: seq<nat>)
    requires |found| == |rules| && StableSort(RuleBefore, found, sorted, perm)
    requires forall d :: GoverningRule(t, changed, d) ==> d in rules
    ensures forall d :: GoverningRule(t, changed, d) ==> d in Reordered(rules, perm)
  {
    forall d | GoverningRule(t, changed, d) ensures d in Reordered(rules, perm) {
      var i :| 0 <= i < |rules| && rules[i] == d;
      assert i in perm;
      var l :| 0 <= l < |perm| && perm[l] == i;
      assert Reordered(rules, perm)[l] == d;
    }
  }

  lemma DistinctPlaces(found: seq<SearchResult>, sorted: seq<SearchResult>, perm: seq<nat>, k: nat, l: nat)
    requires StableSort(RuleBefore, found, sorted, perm) && WeakOrder(RuleBefore) && k < l < |perm|
    ensures perm[k] != perm[l]
  {
    assert InOrder(RuleBefore, sorted[k], perm[k], sorted[l], perm[l]);
  }

  /** When storage knows every rule the search found, the hits that survive the scope filter are
      all on governing rules, so the fallback to them changes nothing. */
  lemma {:induction false} NoRuleNoHit(t: Tables, changed: seq<string>, results: seq<SearchResult>)
    requires changed != [] && forall d :: !GoverningRule(t, changed, d)
    requires forall r :: r in results && r.document.docType == Rule ==> StoredDocument(t, r.document)
    ensures Labelled(results, changed, Some(RULES)) == []
  {
    if results == [] {
    } else {
      var n := |results| - 1;
      assert forall r :: r in results[..n] ==> r in results;
      NoRuleNoHit(t, changed, results[..n]);
      LabelRulesOnly(results[n].document.docType);
      assert results[n] in results;
      assert !GoverningRule(t, changed, results[n].document);
    }
  }

  lemma LabelRulesOnly(t: DocType)
    ensures LabelOf(t) == Some(RULES) <==> t == Rule
  {
  }

  // ----- emitting

  /** First occurrences, in order. */
  function Deduped(labels: seq<string>): (r: seq<string>)
    ensures forall l :: l in r <==> l in labels
  {
    if labels == [] then []
    else
      var n := |labels| - 1;
      assert forall l :: l in labels <==> l in labels[..n] || l == labels[n];
      var rest := Deduped(labels[..n]);
      if labels[n] in labels[..n] then rest else rest + [labels[n]]
  }

  lemma {:induction false} DedupedDistinct(labels: seq<string>)
    ensures Distinct(Deduped(labels))
  {
    if labels == [] {
    } else {
      DedupedDistinct(labels[..|labels| - 1]);
    }
  }

  ghost predicate Emitted(labels: seq<string>, byLabel: ByLabel, groups: seq<Group>) {
    && |groups| == |Deduped(labels)|
    && forall i :: 0 <= i < |groups| ==> groups[i] == Group(Deduped(labels)[i], Get(byLabel, Deduped(labels)[i]))
  }

  method Emit(order: seq<string>, byLabel: ByLabel, before: seq<Group>, emittedBefore: set<string>, ghost done: seq<string>)
    returns (groups: seq<Group>, emitted: set<string>)
    requires Emitted(done, byLabel, before) && forall l :: l in emittedBefore <==> l in done
    ensures Emitted(done + order, byLabel, groups) && forall l :: l in emitted <==> l in done + order
  {
    groups, emitted := before, emittedBefore;
    assert done + order[..0] == done;
    for i := 0 to |order|
      invariant Emitted(done + order[..i], byLabel, groups)
      invariant forall l :: l in emitted <==> l in done + order[..i]
    {
      ghost var next := done + order[..i + 1];
      assert next[..|next| - 1] == done + order[..i] && next[|next| - 1] == order[i];
      if order[i] in emitted {
        continue;
      }
      emitted := emitted + {order[i]};
      groups := groups + [Group(order[i], Get(byLabel, order[i]))];
    }
    assert order[..|order|] == order;
  }

  // ----- retrieve

  function OrderOf(priority: seq<string>): seq<string> {
    if |priority| == 0 then DEFAULT_PRIORITY else priority
  }

  /** The Rules section: the filtered hits, unless storage and paths choose the rules by scope. */
  ghost predicate RulesSection(storage: Option<Store>, results: seq<SearchResult>, changed: seq<string>, docs: seq<Document>, rules: seq<SearchResult>)
    reads if storage.Some? then {storage.value} else {}
  {
    var filtered := Labelled(results, changed, Some(RULES));
    if |changed| == 0 || storage.None? then rules == filtered
    else exists scoped :: FirstRules(storage.value.db, changed, filtered, MAX_SCOPED_RULES, docs, scoped)
                          && rules == if scoped == [] then filtered else scoped
  }

  /** The sections in order: the caller's labels, then the default ones not yet named, each once;
      every section but Rules holds exactly the hits under its name. */
  ghost predicate Sections(priority: seq<string>, results: seq<SearchResult>, changed: seq<string>, rules: seq<SearchResult>, groups: seq<Group>) {
    var labels := Deduped(OrderOf(priority) + DEFAULT_PRIORITY);
    var other := Labelled(results, changed, None);
    && |groups| == |labels| + (if other == [] then 0 else 1)
    && (forall i :: 0 <= i < |labels| ==>
          groups[i] == Group(labels[i], if labels[i] == RULES then rules else Labelled(results, changed, Some(labels[i]))))
    && (other != [] ==> groups[|labels|] == Group(OTHER, other))
  }

  ghost predicate Retrieved(storage: Option<Store>, priority: seq<string>, results: seq<SearchResult>, changed: seq<string>,
                            groups: seq<Group>, docs: seq<Document>, rules: seq<SearchResult>)
    reads if storage.Some? then {storage.value} else {}
  {
    Sections(priority, results, changed, rules, groups) && RulesSection(storage, results, changed, docs, rules)
  }

  ghost predicate IsRetrieval(storage: Option<Store>, priority: seq<string>, results: seq<SearchResult>, changed: seq<string>,
                              groups: seq<Group>)
    reads if storage.Some? then {storage.value} else {}
  {
    exists docs, rules :: Retrieved(storage, priority, results, changed, groups, docs, rules)
  }

  /** `Retrieve`, from what the search answered. */
  method Retrieve(storage: Option<Store>, priority: seq<string>, results: seq<SearchResult>, changed: seq<string>)
    returns (groups: seq<Group>)
    requires storage.Some? ==> Inv(storage.value.db)
    ensures IsRetrieval(storage, priority, results, changed, groups)
  {
    var byLabel, other := GroupHits(results, changed);
    var scoped;
    ghost var docs;
    scoped, docs := ScopedRules(storage, changed, Get(byLabel, RULES));
    ghost var rules := if |scoped| > 0 then scoped else Get(byLabel, RULES);
    byLabel := WithRules(byLabel, scoped);
    groups := EmitSections(priority, byLabel, other);
    assert Retrieved(storage, priority, results, changed, groups, docs, rules);
  }

  /** The scoped rules replace the filtered hits, and the sections without a producer are there. */
  method WithRules(before: ByLabel, scoped: seq<SearchResult>) returns (byLabel: ByLabel)
    ensures forall name :: Get(byLabel, name) == if name == RULES && |scoped| > 0 then scoped else Get(before, name)
  {
    byLabel := before;
    if |scoped| > 0 {
      byLabel := byLabel[RULES := scoped];
    }
    if "Related Issues" !in byLabel {
      byLabel := byLabel["Related Issues" := []];
    }
    if "Related PRs" !in byLabel {
      byLabel := byLabel["Related PRs" := []];
    }
  }

  method EmitSections(priority: seq<string>, byLabel: ByLabel, other: seq<SearchResult>) returns (groups: seq<Group>)
    ensures var names := Deduped(OrderOf(priority) + DEFAULT_PRIORITY);
            && |groups| == |names| + (if other == [] then 0 else 1)
            && (forall i :: 0 <= i < |names| ==> groups[i] == Group(names[i], Get(byLabel, names[i])))
            && (other != [] ==> groups[|names|] == Group(OTHER, other))
  {
    var order := OrderOf(priority);
    var emitted;
    groups, emitted := Emit(order, byLabel, [], {}, []);
    assert [] + order == order;
    groups, emitted := Emit(DEFAULT_PRIORITY, byLabel, groups, emitted, order);
    if |other| > 0 {
      groups := groups + [Group(OTHER, other)];
    }
  }

  // ----- nothing is lost

  /** Every default label is the label of exactly one emitted section, whatever the priority. */
  lemma EveryDefaultOnce(priority: seq<string>, results: seq<SearchResult>, changed: seq<string>, rules: seq<SearchResult>,
                         groups: seq<Group>, name: string) returns (g: nat)
    requires Sections(priority, results, changed, rules, groups) && name in DEFAULT_PRIORITY
    ensures g < |groups| && groups[g].name == name
    ensures forall h :: 0 <= h < |groups| && groups[h].name == name ==> h == g
  {
    var names := Deduped(OrderOf(priority) + DEFAULT_PRIORITY);
    assert name in OrderOf(priority) + DEFAULT_PRIORITY;
    DedupedDistinct(OrderOf(priority) + DEFAULT_PRIORITY);
    g :| 0 <= g < |names| && names[g] == name;
    OtherIsNoDefault();
  }

  lemma OtherIsNoDefault()
    ensures OTHER !in DEFAULT_PRIORITY
  {
    forall i | 0 <= i < |DEFAULT_PRIORITY| ensures DEFAULT_PRIORITY[i] != OTHER {
      assert DEFAULT_PRIORITY[i][0] != OTHER[0];
    }
  }

  lemma {:induction false} LabelledHolds(results: seq<SearchResult>, changed: seq<string>, name: Option<string>, r: SearchResult)
    ensures multiset(Labelled(results, changed, name))[r] == if Belongs(r, changed, name) then multiset(results)[r] else 0
  {
    if results == [] {
    } else {
      var n := |results| - 1;
      assert results == results[..n] + [results[n]];
      LabelledHolds(results[..n], changed, name, r);
    }
  }

  /** Only rules are in the Rules section, whoever filled it. */
  lemma RulesHoldRules(storage: Option<Store>, results: seq<SearchResult>, changed: seq<string>, docs: seq<Document>,
                       rules: seq<SearchResult>, r: SearchResult)
    requires RulesSection(storage, results, changed, docs, rules) && r in rules
    ensures r.document.docType == Rule
  {
    var filtered := Labelled(results, changed, Some(RULES));
    if r in filtered {
      LabelledHolds(results, changed, Some(RULES), r);
      LabelRulesOnly(r.document.docType);
    } else {
      var scoped :| FirstRules(storage.value.db, changed, filtered, MAX_SCOPED_RULES, docs, scoped)
                    && rules == if scoped == [] then filtered else scoped;
      var k :| 0 <= k < |rules| && rules[k] == r;
      assert RuleEntry(storage.value.db, changed, filtered, docs[k], rules[k]);
      EntryIsHit(filtered, docs[k]);
    }
  }

  /** The entry of a rule is one of the hits or is made from the rule itself. */
  lemma {:induction false} EntryIsHit(hits: seq<SearchResult>, d: Document)
    ensures EntryOf(hits, d) in hits || EntryOf(hits, d).document == d
  {
    if hits == [] {
    } else {
      EntryIsHit(hits[..|hits| - 1], d);
    }
  }

  /** Every hit that is not a rule is in exactly one section, as often as the search gave it. */
  lemma HitInOneSection(storage: Option<Store>, priority: seq<string>, results: seq<SearchResult>, changed: seq<string>,
                        groups: seq<Group>, docs: seq<Document>, rules: seq<SearchResult>, r: SearchResult) returns (g: nat)
    requires Retrieved(storage, priority, results, changed, groups, docs, rules) && r in results && r.document.docType != Rule
    ensures g < |groups| && multiset(groups[g].results)[r] == multiset(results)[r]
    ensures forall h :: 0 <= h < |groups| && h != g ==> r !in groups[h].results
  {
    var names := Deduped(OrderOf(priority) + DEFAULT_PRIORITY);
    var name := LabelOf(r.document.docType);
    LabelledHolds(results, changed, name, r);
    LabelRulesOnly(r.document.docType);
    if name.Some? {
      LabelsAreDefault(r.document.docType);
      g := EveryDefaultOnce(priority, results, changed, rules, groups, name.value);
    } else {
      assert r in Labelled(results, changed, None);
      g := |names|;
    }
    forall h | 0 <= h < |groups| && h != g ensures r !in groups[h].results {
      if h < |names| && names[h] == RULES {
        NotAmongRules(storage, results, changed, docs, rules, r);
      } else {
        NotElsewhere(results, changed, if h < |names| then Some(names[h]) else None, r);
      }
    }
  }

  lemma NotAmongRules(storage: Option<Store>, results: seq<SearchResult>, changed: seq<string>, docs: seq<Document>,
                      rules: seq<SearchResult>, r: SearchResult)
    requires RulesSection(storage, results, changed, docs, rules) && r.document.docType != Rule
    ensures r !in rules
  {
    if r in rules {
      RulesHoldRules(storage, results, changed, docs, rules, r);
    }
  }

  lemma NotElsewhere(results: seq<SearchResult>, changed: seq<string>, name: Option<string>, r: SearchResult)
    ensures LabelOf(r.document.docType) != name ==> r !in Labelled(results, changed, name)
  {
    LabelledHolds(results, changed, name, r);
  }

  /** With paths and a storage that knows the rules found, the Rules section is exactly the first
      ten governing rules, also when the retriever falls back to the filtered hits. */
  lemma RulesAreFirstTen(storage: Option<Store>, results: seq<SearchResult>, changed: seq<string>, docs: seq<Document>, rules: seq<SearchResult>)
    requires storage.Some? && changed != [] && RulesSection(storage, results, changed, docs, rules)
    requires forall r :: r in results && r.document.docType == Rule ==> StoredDocument(storage.value.db, r.document)
    ensures FirstRules(storage.value.db, changed, Labelled(results, changed, Some(RULES)), MAX_SCOPED_RULES, docs, rules)
  {
    var t := storage.value.db;
    var filtered := Labelled(results, changed, Some(RULES));
    var scoped :| FirstRules(t, changed, filtered, MAX_SCOPED_RULES, docs, scoped)
                  && rules == if scoped == [] then filtered else scoped;
    if scoped == [] {
      NoneGoverns(t, changed, filtered, MAX_SCOPED_RULES, docs);
      NoRuleNoHit(t, changed, results);
    }
  }

  lemma NoneGoverns(t: Tables, changed: seq<string>, hits: seq<SearchResult>, limit: nat, docs: seq<Document>)
    requires limit > 0 && FirstRules(t, changed, hits, limit, docs, [])
    ensures forall d :: !GoverningRule(t, changed, d)
  {
    forall d ensures !GoverningRule(t, changed, d) {
      assert !RuleLeftOut(hits, limit, [], d);
    }
  }
}
