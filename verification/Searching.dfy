/** `internal/search/search.go`: from a pool of scored passages to the best documents, each
    with its related documents. */
module Searching {
  import opened Wrappers
  import opened Text
  import opened Sorting
  import opened Storage
  import opened Sqlite
  import opened Traversal
  import opened Ranking

  datatype SearchResult = SearchResult(document: Document, chunk: Chunk, score: real, snippet: string, related: seq<Document>)

  // ----- the top documents of a pool, said directly

  function DocOf(s: Scored): string {
    s.match_.document.id
  }

  /** Higher score first; equal scores keep their order in the pool. */
  predicate Before(pool: seq<Scored>, i: nat, j: nat)
    requires i < |pool| && j < |pool|
  {
    pool[i].blended > pool[j].blended || (pool[i].blended == pool[j].blended && i < j)
  }

  predicate Ahead(pool: seq<Scored>, i: nat, j: nat)
    requires i < |pool|
  {
    j < |pool| && j != i && DocOf(pool[j]) == DocOf(pool[i]) ==> Before(pool, i, j)
  }

  /** The best passage of its document. */
  ghost predicate Champion(pool: seq<Scored>, i: nat) {
    i < |pool| && forall j :: 0 <= j < |pool| ==> Ahead(pool, i, j)
  }

  /** At most `limit` champions, best first, and a champion left out is worse than all of them. */
  ghost predicate TopDocuments(pool: seq<Scored>, limit: nat, picks: seq<nat>) {
    && |picks| <= limit
    && (forall k :: 0 <= k < |picks| ==> Champion(pool, picks[k]))
    && (forall k, l :: 0 <= k < l < |picks| ==> Before(pool, picks[k], picks[l]))
    && (forall b :: Champion(pool, b) && b !in picks ==> LeftOut(pool, limit, picks, b))
  }

  ghost predicate LeftOut(pool: seq<Scored>, limit: nat, picks: seq<nat>, b: nat)
    requires b < |pool| && forall k :: 0 <= k < |picks| ==> picks[k] < |pool|
  {
    |picks| == limit && forall k :: 0 <= k < |picks| ==> Before(pool, picks[k], b)
  }

  ghost function Docs(pool: seq<Scored>): set<string> {
    set i | 0 <= i < |pool| :: DocOf(pool[i])
  }

  /** Every document has a champion. */
  lemma {:induction false} ChampionOf(pool: seq<Scored>, i: nat) returns (c: nat)
    requires i < |pool|
    ensures Champion(pool, c) && DocOf(pool[c]) == DocOf(pool[i]) && (c == i || Before(pool, c, i))
  {
    c := i;
    for j := 0 to |pool|
      invariant c < |pool| && DocOf(pool[c]) == DocOf(pool[i]) && (c == i || Before(pool, c, i))
      invariant forall k :: 0 <= k < j ==> Ahead(pool, c, k)
    {
      if DocOf(pool[j]) == DocOf(pool[c]) && j != c && !Before(pool, c, j) {
        Overtaken(pool, c, j);
        c := j;
      }
    }
  }

  lemma Overtaken(pool: seq<Scored>, c: nat, j: nat)
    requires c < |pool| && j < |pool| && DocOf(pool[j]) == DocOf(pool[c]) && j != c && !Before(pool, c, j)
    requires forall k :: 0 <= k < j ==> Ahead(pool, c, k)
    ensures Before(pool, j, c) && forall k :: 0 <= k < j ==> Ahead(pool, j, k)
  {
    forall k | 0 <= k < j ensures Ahead(pool, j, k) {
      assert Ahead(pool, c, k);
    }
  }

  lemma OneChampion(pool: seq<Scored>, a: nat, b: nat)
    requires Champion(pool, a) && Champion(pool, b) && DocOf(pool[a]) == DocOf(pool[b])
    ensures a == b
  {
    assert Ahead(pool, a, b) && Ahead(pool, b, a);
  }

  lemma PicksDistinct(pool: seq<Scored>, limit: nat, picks: seq<nat>)
    requires TopDocuments(pool, limit, picks)
    ensures Distinct(picks)
    ensures forall k, l :: 0 <= k < l < |picks| ==> DocOf(pool[picks[k]]) != DocOf(pool[picks[l]])
  {
    forall k, l | 0 <= k < l < |picks| ensures DocOf(pool[picks[k]]) != DocOf(pool[picks[l]]) && picks[k] != picks[l] {
      assert Before(pool, picks[k], picks[l]);
      if DocOf(pool[picks[k]]) == DocOf(pool[picks[l]]) {
        OneChampion(pool, picks[k], picks[l]);
      }
    }
  }

  /** What the top documents mean: each document once, with its maximum score over the pool,
      scores not increasing, and nothing left out beats anything returned. */
  lemma TopMeaning(pool: seq<Scored>, limit: nat, picks: seq<nat>, k: nat, i: nat)
    requires TopDocuments(pool, limit, picks) && k < |picks| && i < |pool|
    ensures DocOf(pool[i]) == DocOf(pool[picks[k]]) ==> pool[i].blended <= pool[picks[k]].blended
    ensures forall l :: k < l < |picks| ==> pool[picks[l]].blended <= pool[picks[k]].blended
    ensures (forall l :: 0 <= l < |picks| ==> DocOf(pool[picks[l]]) != DocOf(pool[i])) ==>
              |picks| == limit && Before(pool, picks[k], i)
  {
    assert Ahead(pool, picks[k], i);
    var c := ChampionOf(pool, i);
    if forall l :: 0 <= l < |picks| ==> DocOf(pool[picks[l]]) != DocOf(pool[i]) {
      assert c !in picks;
      assert LeftOut(pool, limit, picks, c);
    }
  }

  /** As many results as asked for, or one for each document of the pool. */
  lemma TopCount(pool: seq<Scored>, limit: nat, picks: seq<nat>)
    requires TopDocuments(pool, limit, picks)
    ensures |picks| == if limit < |Docs(pool)| then limit else |Docs(pool)|
  {
    PicksDistinct(pool, limit, picks);
    var found := PickedDocs(pool, picks, |picks|);
    assert found <= Docs(pool);
    SubsetSize(found, Docs(pool));
    if |picks| < limit {
      forall d | d in Docs(pool) ensures d in found {
        var i :| 0 <= i < |pool| && DocOf(pool[i]) == d;
        var c := ChampionOf(pool, i);
        assert c in picks;
      }
      assert found == Docs(pool);
    }
  }

  lemma {:induction false} PickedDocs(pool: seq<Scored>, picks: seq<nat>, n: nat) returns (found: set<string>)
    requires n <= |picks| && forall k :: 0 <= k < |picks| ==> picks[k] < |pool|
    requires forall k, l :: 0 <= k < l < |picks| ==> DocOf(pool[picks[k]]) != DocOf(pool[picks[l]])
    ensures found == (set k | 0 <= k < n :: DocOf(pool[picks[k]])) && |found| == n
  {
    found := {};
    for m := 0 to n
      invariant found == (set k | 0 <= k < m :: DocOf(pool[picks[k]])) && |found| == m
    {
      assert DocOf(pool[picks[m]]) !in found;
      found := found + {DocOf(pool[picks[m]])};
    }
  }

  lemma PickedElsewhere(pool: seq<Scored>, limit: nat, picks: seq<nat>, others: seq<nat>, a: nat)
    requires TopDocuments(pool, limit, picks) && TopDocuments(pool, limit, others)
    requires a in picks && a !in others
    ensures exists b :: b in others && b !in picks
  {
    if forall b :: b in others ==> b in picks {
      PicksDistinct(pool, limit, picks);
      PicksDistinct(pool, limit, others);
      TopCount(pool, limit, picks);
      TopCount(pool, limit, others);
      var all := set b | b in picks;
      assert forall b :: b in others ==> b in all - {a};
      DistinctFits(others, all - {a});
      SetOfSeq(picks);
      assert false;
    }
  }

  lemma {:induction false} SetOfSeq<T>(xs: seq<T>)
    ensures |(set x | x in xs)| <= |xs|
  {
    if xs == [] {
    } else {
      var n := |xs| - 1;
      SetOfSeq(xs[..n]);
      assert (set x | x in xs) == (set x | x in xs[..n]) + {xs[n]};
    }
  }

  /** The top documents of a pool are determined. */
  lemma TopUnique(pool: seq<Scored>, limit: nat, picks: seq<nat>, others: seq<nat>)
    requires TopDocuments(pool, limit, picks) && TopDocuments(pool, limit, others)
    ensures picks == others
  {
    forall a | a in picks ensures a in others {
      SamePick(pool, limit, picks, others, a);
    }
    forall a | a in others ensures a in picks {
      SamePick(pool, limit, others, picks, a);
    }
    var less := (i: nat, j: nat) => i < |pool| && j < |pool| && Before(pool, i, j);
    assert StrictlySorted(less, picks) && StrictlySorted(less, others);
    StrictlySortedUnique(less, picks, others);
  }

  lemma SamePick(pool: seq<Scored>, limit: nat, picks: seq<nat>, others: seq<nat>, a: nat)
    requires TopDocuments(pool, limit, picks) && TopDocuments(pool, limit, others) && a in picks
    ensures a in others
  {
    if a !in others {
      PickedElsewhere(pool, limit, picks, others, a);
      var b :| b in others && b !in picks;
      PickBeatsRest(pool, limit, picks, a, b);
      PickBeatsRest(pool, limit, others, b, a);
      assert false;
    }
  }

  lemma PickBeatsRest(pool: seq<Scored>, limit: nat, picks: seq<nat>, a: nat, b: nat)
    requires TopDocuments(pool, limit, picks) && a in picks && Champion(pool, b) && b !in picks
    ensures a < |pool| && Before(pool, a, b)
  {
    assert LeftOut(pool, limit, picks, b);
  }

  // ----- sort, collapse, truncate

  predicate HigherScore(a: Scored, b: Scored) {
    a.blended > b.blended
  }

  ghost predicate FirstOfDocument(xs: seq<Scored>, i: nat) {
    i < |xs| && forall j :: 0 <= j < i ==> DocOf(xs[j]) != DocOf(xs[i])
  }

  ghost predicate FirstsOf(xs: seq<Scored>, n: nat, kept: seq<nat>, out: seq<Scored>)
    requires n <= |xs|
  {
    && |kept| == |out|
    && (forall k :: 0 <= k < |kept| ==> kept[k] < n && FirstOfDocument(xs, kept[k]) && out[k] == xs[kept[k]])
    && (forall k, l :: 0 <= k < l < |kept| ==> kept[k] < kept[l])
    && (forall i :: 0 <= i < n && FirstOfDocument(xs, i) ==> i in kept)
  }

  ghost predicate KeepsFirsts(xs: seq<Scored>, out: seq<Scored>) {
    exists kept :: FirstsOf(xs, |xs|, kept, out)
  }

  /** `collapseToDocuments` keeps the first occurrence of each document, in order. */
  method CollapseToDocuments(xs: seq<Scored>) returns (out: seq<Scored>, ghost kept: seq<nat>)
    ensures FirstsOf(xs, |xs|, kept, out)
    ensures KeepsFirsts(xs, out)
  {
    out, kept := [], [];
    var seen: set<string> := {};
    for i := 0 to |xs|
      invariant FirstsOf(xs, i, kept, out)
      invariant forall d :: d in seen <==> exists j :: 0 <= j < i && DocOf(xs[j]) == d
    {
      var id := DocOf(xs[i]);
      if id in seen {
        assert !FirstOfDocument(xs, i);
        continue;
      }
      seen := seen + {id};
      out := out + [xs[i]];
      kept := kept + [i];
    }
  }

  /** In the sorted pool the first passage of a document is its champion. */
  lemma FirstIsChampion(pool: seq<Scored>, sorted: seq<Scored>, perm: seq<nat>, p: nat)
    requires StableSort(HigherScore, pool, sorted, perm) && p < |sorted|
    ensures FirstOfDocument(sorted, p) <==> Champion(pool, perm[p])
  {
    if FirstOfDocument(sorted, p) {
      forall j | 0 <= j < |pool| ensures Ahead(pool, perm[p], j) {
        assert j in perm;
        var q :| 0 <= q < |perm| && perm[q] == j;
        SortedBefore(pool, sorted, perm, p, q);
      }
    }
    if Champion(pool, perm[p]) {
      forall q | 0 <= q < p ensures DocOf(sorted[q]) != DocOf(sorted[p]) {
        SortedBefore(pool, sorted, perm, q, p);
        assert Ahead(pool, perm[p], perm[q]);
      }
    }
  }

  lemma SortedBefore(pool: seq<Scored>, sorted: seq<Scored>, perm: seq<nat>, p: nat, q: nat)
    requires StableSort(HigherScore, pool, sorted, perm) && p < |perm| && q < |perm|
    ensures p < q ==> Before(pool, perm[p], perm[q])
  {
    if p < q {
      assert InOrder(HigherScore, sorted[p], perm[p], sorted[q], perm[q]);
    }
  }

  ghost predicate PicksOf(pool: seq<Scored>, limit: nat, picks: seq<nat>, out: seq<Scored>) {
    && TopDocuments(pool, limit, picks) && |out| == |picks|
    && forall k :: 0 <= k < |out| ==> out[k] == pool[picks[k]]
  }

  /** The top documents of a pool, without their places. */
  ghost predicate IsTop(pool: seq<Scored>, limit: nat, out: seq<Scored>) {
    exists picks :: PicksOf(pool, limit, picks, out)
  }

  /** Sorting, collapsing and truncating give the top documents. */
  method TopOf(pool: seq<Scored>, limit: nat) returns (out: seq<Scored>, ghost picks: seq<nat>)
    ensures PicksOf(pool, limit, picks, out)
    ensures IsTop(pool, limit, out)
  {
    var sorted, perm := SortStable(pool, HigherScore);
    ghost var kept;
    out, kept := CollapseToDocuments(sorted);
    CollapsedIsTop(pool, sorted, perm, out, kept, limit);
    picks := Through(perm, kept);
    if |out| > limit {
      picks := picks[..limit];
      out := out[..limit];
    }
    assert PicksOf(pool, limit, picks, out);
  }

  ghost function Through(perm: seq<nat>, kept: seq<nat>): (picks: seq<nat>)
    requires forall k :: 0 <= k < |kept| ==> kept[k] < |perm|
    ensures |picks| == |kept| && forall k :: 0 <= k < |kept| ==> picks[k] == perm[kept[k]]
  {
    seq(|kept|, k requires 0 <= k < |kept| => perm[kept[k]])
  }

  lemma CollapsedIsTop(pool: seq<Scored>, sorted: seq<Scored>, perm: seq<nat>, out: seq<Scored>, kept: seq<nat>, limit: nat)
    requires StableSort(HigherScore, pool, sorted, perm) && FirstsOf(sorted, |sorted|, kept, out)
    ensures |out| <= limit ==> PicksOf(pool, limit, Through(perm, kept), out)
    ensures |out| > limit ==> PicksOf(pool, limit, Through(perm, kept)[..limit], out[..limit])
  {
    var all := Through(perm, kept);
    var picks := if |out| > limit then all[..limit] else all;
    forall k | 0 <= k < |all| ensures Champion(pool, all[k]) {
      FirstIsChampion(pool, sorted, perm, kept[k]);
    }
    forall k, l | 0 <= k < l < |all| ensures Before(pool, all[k], all[l]) {
      SortedBefore(pool, sorted, perm, kept[k], kept[l]);
    }
    forall b | Champion(pool, b) && b !in picks ensures LeftOut(pool, limit, picks, b) {
      var l := ChampionKept(pool, sorted, perm, out, kept, b);
      assert all[l] == b;
      assert picks == all ==> b in picks;
    }
  }

  /** Every champion is kept. */
  lemma ChampionKept(pool: seq<Scored>, sorted: seq<Scored>, perm: seq<nat>, out: seq<Scored>, kept: seq<nat>, b: nat) returns (l: nat)
    requires StableSort(HigherScore, pool, sorted, perm) && FirstsOf(sorted, |sorted|, kept, out) && Champion(pool, b)
    ensures l < |kept| && kept[l] < |perm| && perm[kept[l]] == b
  {
    assert b in perm;
    var p :| 0 <= p < |perm| && perm[p] == b;
    FirstIsChampion(pool, sorted, perm, p);
    l :| 0 <= l < |kept| && kept[l] == p;
  }

  // ----- related documents

  const MAX_RELATED := 5

  predicate StatsKey(key: string) {
    key in ["heading_count", "code_block_count", "link_count", "table_count"]
  }

  ghost predicate StoredDocument(t: Tables, d: Document) {
    d.id in t.documents && t.documents[d.id] == d
  }

  /** A stored document at the other end of one of the edges. */
  ghost predicate LinkedTo(t: Tables, doc: Document, d: Document) {
    StoredDocument(t, d) && d.id != doc.id && exists k :: Links(t, doc, d, k)
  }

  /** A stored document of the repository that carries the tag. */
  ghost predicate Carries(t: Tables, repositoryId: string, tag: Tag, d: Document) {
    && StoredDocument(t, d) && d.repositoryId == repositoryId
    && exists k :: k in t.tags && t.tags[k].documentId == d.id && t.tags[k].key == tag.key && t.tags[k].value == tag.value
  }

  ghost predicate SharesTag(t: Tables, doc: Document, tags: seq<Tag>, d: Document) {
    d.id != doc.id && exists i :: 0 <= i < |tags| && !StatsKey(tags[i].key) && Carries(t, doc.repositoryId, tags[i], d)
  }

  /** Both documents are of one repository and share a telling tag. */
  ghost predicate SharesStoredTag(t: Tables, doc: Document, d: Document) {
    d.id != doc.id && exists k :: k in t.tags && t.tags[k].documentId == doc.id && !StatsKey(t.tags[k].key)
                                  && Carries(t, doc.repositoryId, t.tags[k], d)
  }

  /** An edge to `a` comes, by identifier, before every edge to `b`. */
  ghost predicate LinkedEarlier(t: Tables, doc: Document, a: Document, b: Document) {
    exists k :: Links(t, doc, a, k) && forall l :: Links(t, doc, b, l) ==> StrLess(k, l)
  }

  ghost predicate Links(t: Tables, doc: Document, d: Document, k: string) {
    k in t.edges && Touches(t.edges[k], doc.id) && OtherEnd(t.edges[k], doc.id) == d.id
  }

  ghost predicate InLinkOrder(t: Tables, doc: Document, related: seq<Document>) {
    forall i, j :: 0 <= i < j < |related| ==> LinkedEarlier(t, doc, related[i], related[j])
  }

  /** All linked documents, in the order of their first edges, if there are any; else up to five
      that share a telling tag, fewer only when there are no more. */
  ghost predicate RelatedTo(t: Tables, doc: Document, related: seq<Document>) {
    && Distinct(related)
    && ((exists d :: LinkedTo(t, doc, d)) ==>
          InLinkOrder(t, doc, related) && forall d :: d in related <==> LinkedTo(t, doc, d))
    && ((forall d :: !LinkedTo(t, doc, d)) ==>
          && |related| <= MAX_RELATED
          && (forall d :: d in related ==> SharesStoredTag(t, doc, d))
          && (|related| < MAX_RELATED ==> forall d :: SharesStoredTag(t, doc, d) ==> d in related))
  }

  method FindDocumentsByTag(store: Store, repositoryId: string, tag: Tag, exclude: string) returns (docs: seq<Document>)
    requires Inv(store.db)
    ensures Distinct(docs)
    ensures forall d :: d in docs <==> d.id != exclude && Carries(store.db, repositoryId, tag, d)
  {
    docs := [];
    var todo := store.db.tags.Keys;
    while todo != {}
      invariant todo <= store.db.tags.Keys && Distinct(docs)
      invariant forall d :: d in docs <==> d.id != exclude && StoredDocument(store.db, d) && d.repositoryId == repositoryId
                                           && exists k :: k in store.db.tags && k !in todo && TagOn(store.db.tags[k], tag, d.id)
    {
      var k :| k in todo;
      var row := store.db.tags[k];
      if row.key == tag.key && row.value == tag.value && row.documentId != exclude {
        var d := store.db.documents[row.documentId];
        assert TagOn(row, tag, d.id);
        if d.repositoryId == repositoryId && d !in docs {
          docs := docs + [d];
        }
      }
      todo := todo - {k};
    }
    forall d ensures d in docs <==> d.id != exclude && Carries(store.db, repositoryId, tag, d) {
      if d.id != exclude && Carries(store.db, repositoryId, tag, d) {
        var k :| k in store.db.tags && store.db.tags[k].documentId == d.id && store.db.tags[k].key == tag.key && store.db.tags[k].value == tag.value;
        assert TagOn(store.db.tags[k], tag, d.id);
      }
    }
  }

  predicate TagOn(row: Tag, tag: Tag, documentId: string) {
    row.key == tag.key && row.value == tag.value && row.documentId == documentId
  }

  method LinkedDocuments(store: Store, doc: Document) returns (related: seq<Document>, seen: set<string>)
    requires Inv(store.db)
    ensures Distinct(related) && InLinkOrder(store.db, doc, related)
    ensures forall d :: d in related <==> LinkedTo(store.db, doc, d)
    ensures doc.id in seen && forall id :: id in seen && id != doc.id && id in store.db.documents ==> store.db.documents[id] in related
  {
    var rels := store.ListRelationships(doc.id);
    seen := {doc.id};
    related := [];
    for i := 0 to |rels|
      invariant Distinct(related)
      invariant forall id :: id in seen <==> id == doc.id || exists j :: 0 <= j < i && OtherEnd(rels[j], doc.id) == id
      invariant forall d :: d in related <==> StoredDocument(store.db, d) && d.id != doc.id && d.id in seen
      invariant InListOrder(rels[..i], doc, related)
    {
      ListOrderKept(rels[..i], rels[i], doc, related);
      assert rels[..i + 1] == rels[..i] + [rels[i]];
      var otherId := rels[i].to;
      if otherId == doc.id {
        otherId := rels[i].from;
      }
      assert otherId == OtherEnd(rels[i], doc.id);
      if otherId in seen {
        continue;
      }
      seen := seen + {otherId};
      if otherId in store.db.documents {
        assert store.db.documents[otherId].id == otherId;
        ListOrderNext(rels[..i], rels[i], doc, related, store.db.documents[otherId]);
        related := related + [store.db.documents[otherId]];
      }
    }
    forall d ensures d in related <==> LinkedTo(store.db, doc, d) {
      LinkedIsListed(store.db, doc, rels, d);
    }
    assert rels[..|rels|] == rels;
    ListOrderIsLinkOrder(store.db, doc, rels, related);
  }

  /** Some edge of the list leads to `a`, and none up to it leads to `b`. */
  ghost predicate ListedEarlier(rels: seq<Edge>, doc: Document, a: Document, b: Document) {
    exists j :: 0 <= j < |rels| && OtherEnd(rels[j], doc.id) == a.id && NoneLeads(rels, doc, b, j)
  }

  predicate NoneLeads(rels: seq<Edge>, doc: Document, b: Document, j: nat)
    requires j < |rels|
  {
    forall k :: 0 <= k <= j ==> OtherEnd(rels[k], doc.id) != b.id
  }

  ghost predicate InListOrder(rels: seq<Edge>, doc: Document, related: seq<Document>) {
    && (forall i, j :: 0 <= i < j < |related| ==> ListedEarlier(rels, doc, related[i], related[j]))
    && forall d :: d in related ==> exists k :: 0 <= k < |rels| && OtherEnd(rels[k], doc.id) == d.id
  }

  lemma ListedEarlierKept(rels: seq<Edge>, e: Edge, doc: Document, a: Document, b: Document)
    requires ListedEarlier(rels, doc, a, b)
    ensures ListedEarlier(rels + [e], doc, a, b)
  {
    var j :| 0 <= j < |rels| && OtherEnd(rels[j], doc.id) == a.id && NoneLeads(rels, doc, b, j);
    assert NoneLeads(rels + [e], doc, b, j);
  }

  lemma ListOrderKept(rels: seq<Edge>, e: Edge, doc: Document, related: seq<Document>)
    requires InListOrder(rels, doc, related)
    ensures InListOrder(rels + [e], doc, related)
  {
    forall i, j | 0 <= i < j < |related| ensures ListedEarlier(rels + [e], doc, related[i], related[j]) {
      ListedEarlierKept(rels, e, doc, related[i], related[j]);
    }
    forall d | d in related ensures exists k :: 0 <= k < |rels + [e]| && OtherEnd((rels + [e])[k], doc.id) == d.id {
      var k :| 0 <= k < |rels| && OtherEnd(rels[k], doc.id) == d.id;
      assert (rels + [e])[k] == rels[k];
    }
  }

  /** A document whose first edge is the last one read comes after the others. */
  lemma ListOrderNext(rels: seq<Edge>, e: Edge, doc: Document, related: seq<Document>, d: Document)
    requires InListOrder(rels, doc, related) && OtherEnd(e, doc.id) == d.id
    requires forall k :: 0 <= k < |rels| ==> OtherEnd(rels[k], doc.id) != d.id
    ensures InListOrder(rels + [e], doc, related + [d])
  {
    var more, all := rels + [e], related + [d];
    ListOrderKept(rels, e, doc, related);
    forall i, j | 0 <= i < j < |all| ensures ListedEarlier(more, doc, all[i], all[j]) {
      if j == |related| {
        assert related[i] in related;
        var k :| 0 <= k < |rels| && OtherEnd(rels[k], doc.id) == related[i].id;
        assert more[k] == rels[k] && NoneLeads(more, doc, d, k);
      }
    }
    assert more[|rels|] == e;
  }

  lemma ListOrderIsLinkOrder(t: Tables, doc: Document, rels: seq<Edge>, related: seq<Document>)
    requires Inv(t) && StrictlySorted(ById, rels) && InListOrder(rels, doc, related)
    requires forall e :: e in rels <==> Stored(t.edges, e) && Touches(e, doc.id)
    ensures InLinkOrder(t, doc, related)
  {
    forall i, j | 0 <= i < j < |related| ensures LinkedEarlier(t, doc, related[i], related[j]) {
      EarlierInOrder(t, doc, rels, related[i], related[j]);
    }
  }

  lemma EarlierInOrder(t: Tables, doc: Document, rels: seq<Edge>, a: Document, b: Document)
    requires Inv(t) && StrictlySorted(ById, rels) && ListedEarlier(rels, doc, a, b)
    requires forall e :: e in rels <==> Stored(t.edges, e) && Touches(e, doc.id)
    ensures LinkedEarlier(t, doc, a, b)
  {
    var j :| 0 <= j < |rels| && OtherEnd(rels[j], doc.id) == a.id && NoneLeads(rels, doc, b, j);
    assert rels[j] in rels;
    assert Links(t, doc, a, rels[j].id);
    forall l | Links(t, doc, b, l) ensures StrLess(rels[j].id, l) {
      LinkListed(t, doc, rels, b, j, l);
    }
  }

  lemma LinkListed(t: Tables, doc: Document, rels: seq<Edge>, b: Document, j: nat, l: string)
    requires Inv(t) && StrictlySorted(ById, rels) && j < |rels| && NoneLeads(rels, doc, b, j)
    requires forall e :: e in rels <==> Stored(t.edges, e) && Touches(e, doc.id)
    requires Links(t, doc, b, l)
    ensures StrLess(rels[j].id, l)
  {
    assert t.edges[l].id == l && t.edges[l] in rels;
    var k :| 0 <= k < |rels| && rels[k] == t.edges[l];
    assert j < k;
    assert ById(rels[j], rels[k]);
  }

  lemma LinkedIsListed(t: Tables, doc: Document, rels: seq<Edge>, d: Document)
    requires Inv(t) && forall e :: e in rels <==> Stored(t.edges, e) && Touches(e, doc.id)
    ensures LinkedTo(t, doc, d) <==>
            StoredDocument(t, d) && d.id != doc.id && exists j :: 0 <= j < |rels| && OtherEnd(rels[j], doc.id) == d.id
  {
    if j :| 0 <= j < |rels| && OtherEnd(rels[j], doc.id) == d.id {
      assert rels[j] in rels;
      assert Links(t, doc, d, rels[j].id);
    }
    if k :| Links(t, doc, d, k) {
      assert t.edges[k] in rels;
    }
  }

  /** `relatedDocuments`. */
  method RelatedDocuments(store: Store, doc: Document) returns (related: seq<Document>)
    requires Inv(store.db)
    ensures RelatedTo(store.db, doc, related)
  {
    var linked, seen := LinkedDocuments(store, doc);
    if |linked| > 0 {
      assert LinkedTo(store.db, doc, linked[0]);
      return linked;
    }
    assert forall d :: !LinkedTo(store.db, doc, d);
    var tags := store.ListTags(doc.id);
    related := SharingDocuments(store, doc, tags, seen);
    forall d ensures SharesTag(store.db, doc, tags, d) <==> SharesStoredTag(store.db, doc, d) {
      SharedThroughTable(store.db, doc, tags, d);
    }
  }

  lemma SharedThroughTable(t: Tables, doc: Document, tags: seq<Tag>, d: Document)
    requires Inv(t) && forall tag :: tag in tags <==> tag.id in t.tags && t.tags[tag.id] == tag && tag.documentId == doc.id
    ensures SharesTag(t, doc, tags, d) <==> SharesStoredTag(t, doc, d)
  {
    if SharesTag(t, doc, tags, d) {
      var i :| 0 <= i < |tags| && !StatsKey(tags[i].key) && Carries(t, doc.repositoryId, tags[i], d);
      assert tags[i] in tags;
    }
    if SharesStoredTag(t, doc, d) {
      var k :| k in t.tags && t.tags[k].documentId == doc.id && !StatsKey(t.tags[k].key) && Carries(t, doc.repositoryId, t.tags[k], d);
      assert t.tags[k] in tags;
    }
  }

  /** The fallback: documents sharing a telling tag, until there are five. */
  method SharingDocuments(store: Store, doc: Document, tags: seq<Tag>, seenBefore: set<string>) returns (related: seq<Document>)
    requires Inv(store.db)
    requires SeenIs(store.db, doc, [], seenBefore)
    ensures Distinct(related) && |related| <= MAX_RELATED
    ensures forall d :: d in related ==> SharesTag(store.db, doc, tags, d)
    ensures |related| < MAX_RELATED ==> forall d :: SharesTag(store.db, doc, tags, d) ==> d in related
  {
    related := [];
    var seen := seenBefore;
    for i := 0 to |tags|
      invariant Sharing(store.db, doc, tags, i, related) && |related| < MAX_RELATED
      invariant SeenIs(store.db, doc, related, seen)
    {
      if StatsKey(tags[i].key) {
        SharingSkipped(store.db, doc, tags, i, related);
        continue;
      }
      var others := FindDocumentsByTag(store, doc.repositoryId, tags[i], doc.id);
      ghost var before := related;
      related, seen := AddOthers(store, doc, tags, i, others, related, seen);
      if |related| >= MAX_RELATED {
        return;
      }
      SharingNext(store.db, doc, tags, i, others, before, related);
    }
    assert tags[..|tags|] == tags;
  }

  /** Among stored documents, the seen ids are the document's own and those already related. */
  ghost predicate SeenIs(t: Tables, doc: Document, related: seq<Document>, seen: set<string>) {
    forall d :: StoredDocument(t, d) ==> (d.id in seen <==> d.id == doc.id || d in related)
  }

  method AddOthers(store: Store, doc: Document, tags: seq<Tag>, n: nat, others: seq<Document>, related: seq<Document>, seen: set<string>)
    returns (more: seq<Document>, seenNow: set<string>)
    requires Inv(store.db) && n < |tags| && !StatsKey(tags[n].key)
    requires forall d :: d in others <==> d.id != doc.id && Carries(store.db, doc.repositoryId, tags[n], d)
    requires Distinct(related) && |related| < MAX_RELATED && SeenIs(store.db, doc, related, seen)
    requires forall d :: d in related ==> SharesTag(store.db, doc, tags, d)
    ensures related <= more && Distinct(more) && |more| <= MAX_RELATED && SeenIs(store.db, doc, more, seenNow)
    ensures forall d :: d in more ==> SharesTag(store.db, doc, tags, d)
    ensures |more| < MAX_RELATED ==> forall d :: d in others ==> d in more
  {
    more, seenNow := related, seen;
    for j := 0 to |others|
      invariant related <= more && Distinct(more) && |more| < MAX_RELATED && SeenIs(store.db, doc, more, seenNow)
      invariant forall d :: d in more ==> SharesTag(store.db, doc, tags, d)
      invariant forall d :: d in others[..j] ==> d in more
    {
      var other := others[j];
      assert other in others && others[..j + 1] == others[..j] + [other];
      assert SharesTag(store.db, doc, tags, other) && StoredDocument(store.db, other);
      if other.id in seenNow {
        continue;
      }
      AllIn(others[..j], more, other);
      SeenNext(store.db, doc, more, seenNow, other);
      seenNow := seenNow + {other.id};
      more := more + [other];
      if |more| >= MAX_RELATED {
        return;
      }
    }
    assert others[..|others|] == others;
  }

  lemma SeenNext(t: Tables, doc: Document, related: seq<Document>, seen: set<string>, other: Document)
    requires SeenIs(t, doc, related, seen) && StoredDocument(t, other) && other.id !in seen
    ensures other !in related && SeenIs(t, doc, related + [other], seen + {other.id})
  {
  }

  lemma AllIn(some: seq<Document>, more: seq<Document>, last: Document)
    requires forall d :: d in some ==> d in more
    ensures forall d :: d in some + [last] ==> d in more + [last]
  {
  }

  /** The related documents found from the first `n` tags. */
  ghost predicate Sharing(t: Tables, doc: Document, tags: seq<Tag>, n: nat, related: seq<Document>)
    requires n <= |tags|
  {
    && Distinct(related)
    && (forall d :: d in related ==> SharesTag(t, doc, tags, d))
    && (forall d :: SharesTag(t, doc, tags[..n], d) ==> d in related)
  }

  lemma SharingNext(t: Tables, doc: Document, tags: seq<Tag>, n: nat, others: seq<Document>, before: seq<Document>, related: seq<Document>)
    requires n < |tags| && Sharing(t, doc, tags, n, before) && before <= related && Distinct(related)
    requires forall d :: d in related ==> SharesTag(t, doc, tags, d)
    requires forall d :: d in others <==> d.id != doc.id && Carries(t, doc.repositoryId, tags[n], d)
    requires forall d :: d in others ==> d in related
    ensures Sharing(t, doc, tags, n + 1, related)
  {
    forall d | SharesTag(t, doc, tags[..n + 1], d) ensures d in related {
      SharesLast(t, doc, tags, n, d);
    }
  }

  lemma SharingSkipped(t: Tables, doc: Document, tags: seq<Tag>, n: nat, related: seq<Document>)
    requires n < |tags| && Sharing(t, doc, tags, n, related) && StatsKey(tags[n].key)
    ensures Sharing(t, doc, tags, n + 1, related)
  {
    forall d | SharesTag(t, doc, tags[..n + 1], d) ensures d in related {
      SharesLast(t, doc, tags, n, d);
    }
  }

  lemma SharesLast(t: Tables, doc: Document, tags: seq<Tag>, n: nat, d: Document)
    requires n < |tags| && SharesTag(t, doc, tags[..n + 1], d)
    ensures SharesTag(t, doc, tags[..n], d) || (!StatsKey(tags[n].key) && d.id != doc.id && Carries(t, doc.repositoryId, tags[n], d))
  {
    var first := tags[..n + 1];
    var i :| 0 <= i < |first| && !StatsKey(first[i].key) && Carries(t, doc.repositoryId, first[i], d);
    if i < n {
      assert tags[..n][i] == first[i];
    }
  }

  // ----- search

  function EffectiveLimit(limit: int): (n: nat)
    ensures n > 0
  {
    if limit <= 0 then 10 else limit
  }

  function PoolLimit(limit: nat): nat {
    if limit * 3 < 20 then 20 else limit * 3
  }

  /** A result shows the document, passage and score of the pool entry it was picked from. */
  ghost predicate ResultOf(t: Tables, s: Scored, r: SearchResult) {
    && r.document == s.match_.document && r.chunk == s.match_.chunk && r.score == s.blended && r.snippet == s.match_.snippet
    && RelatedTo(t, s.match_.document, r.related)
  }

  /** The results of a ranked pool: its top documents. */
  ghost predicate Answers(t: Tables, pool: seq<Scored>, limit: nat, picks: seq<nat>, results: seq<SearchResult>) {
    && TopDocuments(pool, limit, picks) && |results| == |picks|
    && forall k :: 0 <= k < |picks| ==> ResultOf(t, pool[picks[k]], results[k])
  }

  ghost predicate HydratedAll(t: Tables, hits: seq<Hit>, matches: seq<Match>) {
    |matches| == |hits| && forall i :: 0 <= i < |hits| ==> Hydrated(t, hits[i], matches[i])
  }

  ghost predicate Ranked(t: Tables, c: Signalling, query: string, matches: seq<Match>, limit: nat,
                         pool: seq<Scored>, picks: seq<nat>, results: seq<SearchResult>) {
    IsRank(c, query, matches, Some(pool)) && Answers(t, pool, limit, picks, results)
  }

  ghost predicate SearchedIn(t: Tables, hits: seq<Hit>, c: Signalling, query: string, limit: nat,
                             matches: seq<Match>, results: Option<seq<SearchResult>>) {
    && HydratedAll(t, hits, matches)
    && if matches == [] then results == Some([])
       else if EmbeddingFails(c.embeddings, query, matches) then results.None?
       else results.Some? && exists pool, picks :: Ranked(t, c, query, matches, limit, pool, picks, results.value)
  }

  /** What a search answers for the hits of the full-text engine: the top documents of the ranked
      pool, and nothing only when embedding fails. */
  ghost predicate IsSearch(t: Tables, hits: seq<Hit>, c: Signalling, query: string, limit: nat,
                           results: Option<seq<SearchResult>>) {
    exists matches :: SearchedIn(t, hits, c, query, limit, matches, results)
  }

  /** `Search`, over whichever rows the full-text engine picks for a pool size. */
  method Search(store: Store, graph: Option<Store>, answers: nat -> bool, embeddings: Option<Embedder>, weights: Weights,
                sqrt: real -> real, engine: nat -> seq<Hit>, query: string, limit: int)
    returns (results: Option<seq<SearchResult>>)
    requires Inv(store.db) && IsSqrt(sqrt) && (graph.Some? ==> Inv(graph.value.db))
    requires forall n, i :: 0 <= i < |engine(n)| ==> engine(n)[i].row in store.db.fts
    ensures IsSearch(store.db, engine(PoolLimit(EffectiveLimit(limit))),
                     Signalling(EdgesOf(graph), answers, embeddings, sqrt, weights), query, EffectiveLimit(limit), results)
  {
    var max := EffectiveLimit(limit);
    ghost var c := Signalling(EdgesOf(graph), answers, embeddings, sqrt, weights);
    var hits := engine(PoolLimit(max));
    var found := store.SearchChunks(hits);
    var matches := found.value;
    if |matches| == 0 {
      results := Some([]);
      assert SearchedIn(store.db, hits, c, query, max, matches, results);
      return;
    }
    var scored := Rank(graph, answers, embeddings, weights, query, matches, sqrt);
    if scored.None? {
      results := None;
      assert SearchedIn(store.db, hits, c, query, max, matches, results);
      return;
    }
    ghost var picks;
    var top;
    top, picks := TopOf(scored.value, max);
    var out := ShowResults(store, top);
    results := Some(out);
    assert Ranked(store.db, c, query, matches, max, scored.value, picks, out);
    assert SearchedIn(store.db, hits, c, query, max, matches, results);
  }

  method ShowResults(store: Store, top: seq<Scored>) returns (out: seq<SearchResult>)
    requires Inv(store.db)
    ensures |out| == |top| && forall k :: 0 <= k < |top| ==> ResultOf(store.db, top[k], out[k])
  {
    out := [];
    for i := 0 to |top|
      invariant |out| == i && forall k :: 0 <= k < i ==> ResultOf(store.db, top[k], out[k])
    {
      var m := top[i].match_;
      var related := RelatedDocuments(store, m.document);
      out := out + [SearchResult(m.document, m.chunk, top[i].blended, m.snippet, related)];
    }
  }

  /** With the default weights every score shown lies in [0, 1]. */
  lemma ScoresShown(t: Tables, hits: seq<Hit>, c: Signalling, query: string, limit: nat,
                    results: seq<SearchResult>, k: nat)
    requires IsSearch(t, hits, c, query, limit, Some(results)) && c.weights == ZERO && k < |results|
    ensures 0.0 <= results[k].score <= 1.0
  {
    var matches :| SearchedIn(t, hits, c, query, limit, matches, Some(results));
    var pool, picks :| Ranked(t, c, query, matches, limit, pool, picks, results);
    var graphBoost, embedBoost :| RankedWith(c, query, matches, pool, graphBoost, embedBoost);
    assert ResultOf(t, pool[picks[k]], results[k]);
    BlendBounded(DefaultWeights(c.embeddings.Some?), matches, graphBoost, embedBoost, pool, picks[k]);
  }

  /** What a search answers is on stored documents. */
  lemma SearchedAreStored(t: Tables, hits: seq<Hit>, c: Signalling, query: string, limit: nat,
                          results: seq<SearchResult>)
    requires IsSearch(t, hits, c, query, limit, Some(results))
    ensures forall r :: r in results ==> StoredDocument(t, r.document)
  {
    forall r | r in results ensures StoredDocument(t, r.document) {
      var k :| 0 <= k < |results| && results[k] == r;
      ResultIsStored(t, hits, c, query, limit, results, k);
    }
  }

  lemma ResultIsStored(t: Tables, hits: seq<Hit>, c: Signalling, query: string, limit: nat,
                       results: seq<SearchResult>, k: nat)
    requires IsSearch(t, hits, c, query, limit, Some(results)) && k < |results|
    ensures StoredDocument(t, results[k].document)
  {
    var matches :| SearchedIn(t, hits, c, query, limit, matches, Some(results));
    var pool, picks :| Ranked(t, c, query, matches, limit, pool, picks, results);
    var graphBoost, embedBoost :| RankedWith(c, query, matches, pool, graphBoost, embedBoost);
    assert ResultOf(t, pool[picks[k]], results[k]);
    assert Hydrated(t, hits[picks[k]], matches[picks[k]]);
  }
}
