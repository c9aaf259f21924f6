/** `internal/storage/sqlite/traverse.go` and `internal/graph/graph.go`: the bounded walk over
    the relationships table, and the subgraph it spans. */
module Traversal {
  import opened Sorting
  import opened Storage
  import opened Sqlite

  type EdgeTable = map<string, Edge>

  // ----- walks, independently of how they are found

  /** The edge lies between the two documents, in either direction. */
  predicate Between(e: Edge, a: string, b: string) {
    (e.from == a && e.to == b) || (e.from == b && e.to == a)
  }

  ghost predicate Adjacent(edges: EdgeTable, a: string, b: string) {
    exists k :: k in edges && Between(edges[k], a, b)
  }

  /** Consecutive documents of the walk are adjacent. */
  ghost predicate IsWalk(edges: EdgeTable, walk: seq<string>) {
    forall i, j :: 0 <= i && j == i + 1 < |walk| ==> Adjacent(edges, walk[i], walk[j])
  }

  ghost predicate Leads(edges: EdgeTable, walk: seq<string>, a: string, b: string) {
    walk != [] && walk[0] == a && walk[|walk| - 1] == b && IsWalk(edges, walk)
  }

  /** An undirected walk of exactly `n` edges joins the two documents. */
  ghost predicate Reaches(edges: EdgeTable, a: string, b: string, n: nat) {
    exists walk :: |walk| == n + 1 && Leads(edges, walk, a, b)
  }

  /** The ball: what a walk of at most `depth` edges reaches. A negative depth is none. */
  ghost predicate Within(edges: EdgeTable, a: string, b: string, depth: int) {
    exists n: nat :: (n <= depth || n == 0) && Reaches(edges, a, b, n)
  }

  // ----- laws of the ball

  lemma CentreReaches(edges: EdgeTable, a: string)
    ensures Reaches(edges, a, a, 0)
  {
    assert Leads(edges, [a], a, a);
  }

  lemma ReachesOne(edges: EdgeTable, a: string, b: string, c: string, n: nat)
    requires Reaches(edges, a, b, n) && Adjacent(edges, b, c)
    ensures Reaches(edges, a, c, n + 1)
  {
    var walk :| |walk| == n + 1 && Leads(edges, walk, a, b);
    var longer := walk + [c];
    forall i, j | 0 <= i && j == i + 1 < |longer| ensures Adjacent(edges, longer[i], longer[j]) {
      if j < |walk| {
        assert Adjacent(edges, walk[i], walk[j]);
      }
    }
    assert Leads(edges, longer, a, c);
  }

  /** The last step of a walk. */
  lemma LastStep(edges: EdgeTable, a: string, c: string, n: nat) returns (b: string)
    requires n > 0 && Reaches(edges, a, c, n)
    ensures Reaches(edges, a, b, n - 1) && Adjacent(edges, b, c)
  {
    var walk :| |walk| == n + 1 && Leads(edges, walk, a, c);
    b := walk[n - 1];
    var shorter := walk[..n];
    assert forall i, j :: 0 <= i && j == i + 1 < |shorter| ==> Adjacent(edges, walk[i], walk[j]) && shorter[i] == walk[i] && shorter[j] == walk[j];
    assert Leads(edges, shorter, a, b);
    assert Adjacent(edges, walk[n - 1], walk[n]);
  }

  lemma {:induction false} ReachesJoin(edges: EdgeTable, a: string, b: string, c: string, m: nat, n: nat)
    requires Reaches(edges, a, b, m) && Reaches(edges, b, c, n)
    ensures Reaches(edges, a, c, m + n)
    decreases n
  {
    if n == 0 {
      var walk :| |walk| == 1 && Leads(edges, walk, b, c);
    } else {
      var last := LastStep(edges, b, c, n);
      ReachesJoin(edges, a, b, last, m, n - 1);
      ReachesOne(edges, a, last, c, m + n - 1);
    }
  }

  lemma {:induction false} ReachesBack(edges: EdgeTable, a: string, b: string, n: nat)
    requires Reaches(edges, a, b, n)
    ensures Reaches(edges, b, a, n)
    decreases n
  {
    if n == 0 {
      var walk :| |walk| == 1 && Leads(edges, walk, a, b);
    } else {
      var last := LastStep(edges, a, b, n);
      ReachesBack(edges, a, last, n - 1);
      assert Adjacent(edges, b, last) by {
        var k :| k in edges && Between(edges[k], last, b);
        assert Between(edges[k], b, last);
      }
      CentreReaches(edges, b);
      ReachesOne(edges, b, b, last, 0);
      ReachesJoin(edges, b, last, a, 1, n - 1);
    }
  }

  /** Being within reach does not depend on the direction. */
  lemma WithinSymmetric(edges: EdgeTable, a: string, b: string, depth: int)
    ensures Within(edges, a, b, depth) <==> Within(edges, b, a, depth)
  {
    if Within(edges, a, b, depth) {
      var n: nat :| (n <= depth || n == 0) && Reaches(edges, a, b, n);
      ReachesBack(edges, a, b, n);
    }
    if Within(edges, b, a, depth) {
      var n: nat :| (n <= depth || n == 0) && Reaches(edges, b, a, n);
      ReachesBack(edges, b, a, n);
    }
  }

  /** Balls compose: what is within `n` of something within `m` is within `m + n`. */
  lemma WithinTriangle(edges: EdgeTable, a: string, b: string, c: string, m: nat, n: nat)
    requires Within(edges, a, b, m) && Within(edges, b, c, n)
    ensures Within(edges, a, c, m + n)
  {
    var i: nat :| (i <= m || i == 0) && Reaches(edges, a, b, i);
    var j: nat :| (j <= n || j == 0) && Reaches(edges, b, c, j);
    ReachesJoin(edges, a, b, c, i, j);
  }

  /** The ball grows with the depth and with the table. */
  lemma WithinMonotone(edges: EdgeTable, more: EdgeTable, a: string, b: string, small: int, large: int)
    requires small <= large && edges.Items <= more.Items && Within(edges, a, b, small)
    ensures Within(more, a, b, large)
  {
    var n: nat :| (n <= small || n == 0) && Reaches(edges, a, b, n);
    var walk :| |walk| == n + 1 && Leads(edges, walk, a, b);
    forall i, j | 0 <= i && j == i + 1 < |walk| ensures Adjacent(more, walk[i], walk[j]) {
      assert Adjacent(edges, walk[i], walk[j]);
      var k :| k in edges && Between(edges[k], walk[i], walk[j]);
      assert (k, edges[k]) in edges.Items;
      assert (k, edges[k]) in more.Items;
    }
    assert Leads(more, walk, a, b);
    assert Reaches(more, a, b, n);
  }

  // ----- the recursive query

  datatype Row = Row(id: string, hops: nat)

  /** The other end of the edge: CASE WHEN from = id THEN to ELSE from END. */
  function Across(e: Edge, id: string): string {
    if e.from == id then e.to else e.from
  }

  predicate Touches(e: Edge, id: string) {
    e.from == id || e.to == id
  }

  lemma AdjacentIsAcross(edges: EdgeTable, a: string, b: string)
    ensures Adjacent(edges, a, b) <==> exists k :: k in edges && Touches(edges[k], a) && Across(edges[k], a) == b
  {
    if Adjacent(edges, a, b) {
      var k :| k in edges && Between(edges[k], a, b);
      assert Touches(edges[k], a) && Across(edges[k], a) == b;
    }
    if k :| k in edges && Touches(edges[k], a) && Across(edges[k], a) == b {
      assert Between(edges[k], a, b);
    }
  }

  ghost predicate TrueRow(edges: EdgeTable, root: string, depth: nat, row: Row) {
    row.hops <= depth && Reaches(edges, root, row.id, row.hops)
  }

  ghost predicate TrueRows(edges: EdgeTable, root: string, depth: nat, table: seq<Row>) {
    forall i :: 0 <= i < |table| ==> TrueRow(edges, root, depth, table[i])
  }

  /** Everything one step from the row, over the edges given, is in the table one hop later. */
  ghost predicate Followed(edges: EdgeTable, keys: set<string>, table: seq<Row>, row: Row) {
    forall k :: k in keys && k in edges && Touches(edges[k], row.id) ==> Row(Across(edges[k], row.id), row.hops + 1) in table
  }

  ghost predicate FollowedUpTo(edges: EdgeTable, depth: nat, table: seq<Row>, next: nat)
    requires next <= |table|
  {
    forall i :: 0 <= i < next && table[i].hops < depth ==> Followed(edges, edges.Keys, table, table[i])
  }

  lemma FollowedLonger(edges: EdgeTable, depth: nat, table: seq<Row>, longer: seq<Row>, next: nat)
    requires next <= |table| && table <= longer && FollowedUpTo(edges, depth, table, next)
    ensures FollowedUpTo(edges, depth, longer, next)
  {
    forall i | 0 <= i < next && longer[i].hops < depth ensures Followed(edges, edges.Keys, longer, longer[i]) {
      assert Followed(edges, edges.Keys, table, table[i]);
    }
  }

  /** One row of the work queue joined with the edge table; UNION keeps a row once. */
  method Join(edges: EdgeTable, ghost root: string, depth: nat, table: seq<Row>, row: Row) returns (longer: seq<Row>)
    requires Distinct(table) && TrueRows(edges, root, depth, table) && TrueRow(edges, root, depth, row) && row.hops < depth
    ensures table <= longer && Distinct(longer) && TrueRows(edges, root, depth, longer)
    ensures Followed(edges, edges.Keys, longer, row)
  {
    longer := table;
    var todo := edges.Keys;
    while todo != {}
      invariant todo <= edges.Keys
      invariant table <= longer && Distinct(longer) && TrueRows(edges, root, depth, longer)
      invariant Followed(edges, edges.Keys - todo, longer, row)
    {
      var k :| k in todo;
      if Touches(edges[k], row.id) {
        var found := Row(Across(edges[k], row.id), row.hops + 1);
        AdjacentIsAcross(edges, row.id, found.id);
        ReachesOne(edges, root, row.id, found.id, row.hops);
        if found !in longer {
          longer := longer + [found];
        }
      }
      todo := todo - {k};
    }
    assert edges.Keys - {} == edges.Keys;
  }

  /** Every row the query can ever produce. */
  ghost function AllRows(edges: EdgeTable, root: string, depth: nat): set<Row> {
    set id, hops | id in Ids(edges, root) && 0 <= hops <= depth :: Row(id, hops)
  }

  lemma TrueRowKnown(edges: EdgeTable, root: string, depth: nat, row: Row)
    requires TrueRow(edges, root, depth, row)
    ensures row in AllRows(edges, root, depth)
  {
    if row.hops > 0 {
      var b := LastStep(edges, root, row.id, row.hops);
      var k :| k in edges && Between(edges[k], b, row.id);
    } else {
      var walk :| |walk| == 1 && Leads(edges, walk, root, row.id);
    }
  }

  lemma {:induction false} DistinctFits<T>(xs: seq<T>, universe: set<T>)
    requires Distinct(xs) && forall x :: x in xs ==> x in universe
    ensures |xs| <= |universe|
  {
    if xs == [] {
    } else {
      var n := |xs| - 1;
      assert forall x :: x in xs[..n] ==> x in xs;
      assert xs[n] in xs;
      DistinctFits(xs[..n], universe - {xs[n]});
    }
  }

  lemma TableFits(edges: EdgeTable, root: string, depth: nat, table: seq<Row>)
    requires Distinct(table) && TrueRows(edges, root, depth, table)
    ensures |table| <= |AllRows(edges, root, depth)|
  {
    forall row | row in table ensures row in AllRows(edges, root, depth) {
      TrueRowKnown(edges, root, depth, row);
    }
    DistinctFits(table, AllRows(edges, root, depth));
  }

  /** The walk table WITH RECURSIVE grows until no row is left to join. It ends on cyclic
      graphs too: there are finitely many documents and hop counts, and no row comes twice. */
  method WalkTable(edges: EdgeTable, root: string, depth: nat) returns (table: seq<Row>)
    ensures Distinct(table)
    ensures forall row :: row in table <==> TrueRow(edges, root, depth, row)
  {
    table := [Row(root, 0)];
    CentreReaches(edges, root);
    var next := 0;
    TableFits(edges, root, depth, table);
    while next < |table|
      invariant next <= |table| <= |AllRows(edges, root, depth)|
      invariant Distinct(table) && TrueRows(edges, root, depth, table)
      invariant table != [] && table[0] == Row(root, 0)
      invariant FollowedUpTo(edges, depth, table, next)
      decreases |AllRows(edges, root, depth)| - next
    {
      var row := table[next];
      ghost var before := table;
      assert TrueRow(edges, root, depth, row);
      if row.hops < depth {
        table := Join(edges, root, depth, table, row);
        FollowedLonger(edges, depth, before, table, next);
      }
      next := next + 1;
      TableFits(edges, root, depth, table);
    }
    forall row | TrueRow(edges, root, depth, row) ensures row in table {
      EveryWalkFound(edges, root, depth, table, row);
    }
  }

  lemma {:induction false} EveryWalkFound(edges: EdgeTable, root: string, depth: nat, table: seq<Row>, row: Row)
    requires table != [] && table[0] == Row(root, 0) && FollowedUpTo(edges, depth, table, |table|)
    requires TrueRow(edges, root, depth, row)
    ensures row in table
    decreases row.hops
  {
    if row.hops > 0 {
      var b := LastStep(edges, root, row.id, row.hops);
      var earlier := Row(b, row.hops - 1);
      EveryWalkFound(edges, root, depth, table, earlier);
      var i :| 0 <= i < |table| && table[i] == earlier;
      AdjacentIsAcross(edges, b, row.id);
      assert Followed(edges, edges.Keys, table, table[i]);
    } else {
      var walk :| |walk| == 1 && Leads(edges, walk, root, row.id);
      assert row == table[0];
    }
  }

  lemma WithinIsRow(edges: EdgeTable, root: string, depth: int, id: string)
    ensures Within(edges, root, id, depth) <==>
            exists hops: nat :: TrueRow(edges, root, if depth < 0 then 0 else depth, Row(id, hops))
  {
    if Within(edges, root, id, depth) {
      var n: nat :| (n <= depth || n == 0) && Reaches(edges, root, id, n);
      assert TrueRow(edges, root, if depth < 0 then 0 else depth, Row(id, n));
    }
  }

  /** `TraverseRelationships`: each document other than the root exactly once, if and only if
      a walk of at most `depth` edges reaches it. */
  method TraverseRelationships(store: Store, documentId: string, depth: int) returns (out: seq<string>)
    ensures Distinct(out)
    ensures forall id :: id in out <==> id != documentId && Within(store.db.edges, documentId, id, depth)
  {
    var bound := if depth < 0 then 0 else depth;
    var table := WalkTable(store.db.edges, documentId, bound);
    out := [];
    for i := 0 to |table|
      invariant Distinct(out)
      invariant forall id :: id in out <==> id != documentId && exists j :: 0 <= j < i && table[j].id == id
    {
      if table[i].id != documentId && table[i].id !in out {
        out := out + [table[i].id];
      }
    }
    forall id ensures id in out <==> id != documentId && Within(store.db.edges, documentId, id, depth) {
      WithinIsRow(store.db.edges, documentId, depth, id);
      if id != documentId && Within(store.db.edges, documentId, id, depth) {
        var hops: nat :| TrueRow(store.db.edges, documentId, bound, Row(id, hops));
        assert Row(id, hops) in table;
      }
      if id in out {
        var j :| 0 <= j < |table| && table[j].id == id;
        assert table[j] in table;
        assert TrueRow(store.db.edges, documentId, bound, Row(id, table[j].hops));
      }
    }
  }

  // ----- the subgraph

  datatype Subgraph = Subgraph(root: string, edges: seq<Edge>)

  /** `Neighbors`: the store's own list of the edges at a document. */
  method Neighbors(store: Store, documentId: string) returns (rels: seq<Edge>)
    requires Inv(store.db)
    ensures StrictlySorted(ById, rels)
    ensures forall e :: e in rels <==> e.id in store.db.edges && store.db.edges[e.id] == e && Touches(e, documentId)
  {
    rels := store.ListRelationships(documentId);
  }

  predicate Inside(reachable: set<string>, e: Edge) {
    e.from in reachable && e.to in reachable
  }

  predicate Stored(edges: EdgeTable, e: Edge) {
    e.id in edges && edges[e.id] == e
  }

  /** The edges gathered so far: inside, stored, each id once, and all those touching a document
      already visited. */
  ghost predicate Gathered(edges: EdgeTable, reachable: set<string>, visited: set<string>, out: seq<Edge>, seen: set<string>) {
    && (forall i, j :: 0 <= i < j < |out| ==> out[i].id != out[j].id)
    && (forall e :: e in out ==> Stored(edges, e) && Inside(reachable, e))
    && (forall id :: id in seen <==> exists e :: e in out && e.id == id)
    && (forall e :: Stored(edges, e) && Inside(reachable, e) && (e.from in visited || e.to in visited) ==> e in out)
  }

  method Gather(edges: EdgeTable, reachable: set<string>, ghost visited: set<string>, id: string, rels: seq<Edge>,
                before: seq<Edge>, seenBefore: set<string>) returns (out: seq<Edge>, seen: set<string>)
    requires Gathered(edges, reachable, visited, before, seenBefore)
    requires forall e :: e in rels <==> Stored(edges, e) && Touches(e, id)
    ensures Gathered(edges, reachable, visited + {id}, out, seen)
  {
    out, seen := before, seenBefore;
    for i := 0 to |rels|
      invariant Gathered(edges, reachable, visited, out, seen)
      invariant forall j :: 0 <= j < i && Inside(reachable, rels[j]) ==> rels[j] in out
    {
      var r := rels[i];
      assert r in rels && Stored(edges, r);
      if r.id in seen {
        var e :| e in out && e.id == r.id;
        assert Stored(edges, e);
        continue;
      }
      if r.from !in reachable || r.to !in reachable {
        continue;
      }
      GatherOne(edges, reachable, visited, out, seen, r);
      seen := seen + {r.id};
      out := out + [r];
    }
  }

  lemma GatherOne(edges: EdgeTable, reachable: set<string>, visited: set<string>, out: seq<Edge>, seen: set<string>, r: Edge)
    requires Gathered(edges, reachable, visited, out, seen) && Stored(edges, r) && Inside(reachable, r) && r.id !in seen
    ensures Gathered(edges, reachable, visited, out + [r], seen + {r.id})
  {
    var more := out + [r];
    forall id ensures id in seen + {r.id} <==> exists e :: e in more && e.id == id {
      if id in seen {
        var e :| e in out && e.id == id;
        assert e in more;
      }
      if id == r.id {
        assert r in more;
      }
    }
    forall i, j | 0 <= i < j < |more| ensures more[i].id != more[j].id {
      if j == |out| {
        assert more[i] in out;
      }
    }
  }

  /** The induced subgraph: exactly the stored edges with both ends in the ball, each once. */
  ghost predicate Induced(edges: EdgeTable, root: string, depth: int, out: seq<Edge>) {
    && (forall i, j :: 0 <= i < j < |out| ==> out[i].id != out[j].id)
    && (forall e :: e in out <==> Stored(edges, e) && Within(edges, root, e.from, depth) && Within(edges, root, e.to, depth))
  }

  /** `Graph.Traverse`. */
  method Traverse(store: Store, documentId: string, depth: int) returns (g: Subgraph)
    requires Inv(store.db)
    ensures g.root == documentId && Induced(store.db.edges, documentId, depth, g.edges)
  {
    var ids := TraverseRelationships(store, documentId, depth);
    var reachable := {documentId};
    for i := 0 to |ids|
      invariant forall id :: id in reachable <==> id == documentId || id in ids[..i]
    {
      assert ids[..i + 1] == ids[..i] + [ids[i]];
      reachable := reachable + {ids[i]};
    }
    assert ids[..|ids|] == ids;
    CentreReaches(store.db.edges, documentId);
    assert Within(store.db.edges, documentId, documentId, depth);
    var seen: set<string> := {};
    var edges: seq<Edge> := [];
    var todo := reachable;
    while todo != {}
      invariant todo <= reachable
      invariant Gathered(store.db.edges, reachable, reachable - todo, edges, seen)
    {
      var id :| id in todo;
      var rels := store.ListRelationships(id);
      edges, seen := Gather(store.db.edges, reachable, reachable - todo, id, rels, edges, seen);
      assert reachable - (todo - {id}) == reachable - todo + {id};
      todo := todo - {id};
    }
    assert reachable - {} == reachable;
    g := Subgraph(documentId, edges);
  }

  /** A deeper traversal keeps every edge of a shallower one. */
  lemma SubgraphGrows(edges: EdgeTable, root: string, small: int, large: int, fewer: seq<Edge>, more: seq<Edge>)
    requires small <= large && Induced(edges, root, small, fewer) && Induced(edges, root, large, more)
    ensures forall e :: e in fewer ==> e in more
  {
    forall e | e in fewer ensures e in more {
      WithinMonotone(edges, edges, root, e.from, small, large);
      WithinMonotone(edges, edges, root, e.to, small, large);
    }
  }

  // ----- depth enough

  /** Once a deeper walk finds nothing new, no depth does. */
  lemma {:induction false} Saturated(edges: EdgeTable, root: string, depth: nat, id: string, n: nat)
    requires forall x :: Within(edges, root, x, depth + 1) ==> Within(edges, root, x, depth)
    requires Reaches(edges, root, id, n)
    ensures Within(edges, root, id, depth)
    decreases n
  {
    if n == 0 {
    } else {
      var b := LastStep(edges, root, id, n);
      Saturated(edges, root, depth, b, n - 1);
      var m: nat :| (m <= depth || m == 0) && Reaches(edges, root, b, m);
      ReachesOne(edges, root, b, id, m);
      assert Within(edges, root, id, depth + 1);
    }
  }

  ghost function Ids(edges: EdgeTable, root: string): set<string> {
    {root} + (set k | k in edges :: edges[k].from) + (set k | k in edges :: edges[k].to)
  }

  ghost function Ball(edges: EdgeTable, root: string, depth: nat): set<string> {
    set id | id in Ids(edges, root) && Within(edges, root, id, depth)
  }

  lemma BallHolds(edges: EdgeTable, root: string, id: string, depth: nat)
    ensures id in Ball(edges, root, depth) <==> Within(edges, root, id, depth)
  {
    if Within(edges, root, id, depth) {
      var n: nat :| (n <= depth || n == 0) && Reaches(edges, root, id, n);
      TrueRowKnown(edges, root, n, Row(id, n));
    }
  }

  /** A ball that has not stopped growing gains a document with every step. */
  lemma {:induction false} BallGrows(edges: EdgeTable, root: string, depth: nat)
    requires forall d: nat :: d < depth ==> Ball(edges, root, d) != Ball(edges, root, d + 1)
    ensures |Ball(edges, root, depth)| > depth
  {
    if depth == 0 {
      CentreReaches(edges, root);
      BallHolds(edges, root, root, 0);
      assert {root} <= Ball(edges, root, 0);
      SubsetSize({root}, Ball(edges, root, 0));
    } else {
      BallGrows(edges, root, depth - 1);
      assert Ball(edges, root, depth - 1) != Ball(edges, root, depth - 1 + 1);
      BallWidens(edges, root, depth - 1);
      SubsetSize(Ball(edges, root, depth - 1), Ball(edges, root, depth));
    }
  }

  lemma BallWidens(edges: EdgeTable, root: string, depth: nat)
    ensures Ball(edges, root, depth) <= Ball(edges, root, depth + 1)
  {
    forall id | id in Ball(edges, root, depth) ensures id in Ball(edges, root, depth + 1) {
      WithinMonotone(edges, edges, root, id, depth, depth + 1);
    }
  }

  lemma {:induction false} SubsetSize<T>(a: set<T>, b: set<T>)
    requires a <= b
    ensures |a| <= |b| && (a != b ==> |a| < |b|)
  {
    assert b == a + (b - a);
    if a != b {
      var x :| x in b - a;
    }
  }

  /** A depth of the number of documents on any edge reaches the whole connected component. */
  lemma DeepEnough(edges: EdgeTable, root: string, id: string, n: nat)
    requires Reaches(edges, root, id, n)
    ensures Within(edges, root, id, |Ids(edges, root)|)
  {
    var all := |Ids(edges, root)|;
    if forall d: nat :: d < all ==> Ball(edges, root, d) != Ball(edges, root, d + 1) {
      BallGrows(edges, root, all);
      SubsetSize(Ball(edges, root, all), Ids(edges, root));
    } else {
      var d: nat :| d < all && Ball(edges, root, d) == Ball(edges, root, d + 1);
      forall x | Within(edges, root, x, d + 1) ensures Within(edges, root, x, d) {
        BallHolds(edges, root, x, d + 1);
        BallHolds(edges, root, x, d);
      }
      Saturated(edges, root, d, id, n);
      WithinMonotone(edges, edges, root, id, d, all);
    }
  }
}
