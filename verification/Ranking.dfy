/** `internal/search/rank.go`: the blend of keyword, graph and embedding signals, over the
    reals. */
module Ranking {
  import opened Wrappers
  import opened Sorting
  import opened Storage
  import opened Sqlite
  import opened Traversal

  type Vector = seq<real>

  datatype Weights = Weights(keyword: real, graph: real, embedding: real)

  datatype Scored = Scored(match_: Match, blended: real)

  const ZERO: Weights := Weights(0.0, 0.0, 0.0)

  function DefaultWeights(hasEmbeddings: bool): Weights {
    if hasEmbeddings then Weights(0.70, 0.20, 0.10) else Weights(0.80, 0.20, 0.0)
  }

  function EffectiveWeights(w: Weights, hasEmbeddings: bool): Weights {
    if w == ZERO then DefaultWeights(hasEmbeddings) else w
  }

  // ----- min-max scaling

  function Least(values: seq<real>): real
    requires values != []
  {
    var n := |values| - 1;
    if n == 0 then values[0] else if values[n] < Least(values[..n]) then values[n] else Least(values[..n])
  }

  function Greatest(values: seq<real>): real
    requires values != []
  {
    var n := |values| - 1;
    if n == 0 then values[0] else if values[n] > Greatest(values[..n]) then values[n] else Greatest(values[..n])
  }

  /** The extremes are values of the list that bound all others. */
  lemma {:induction false} ExtremesBound(values: seq<real>)
    requires values != []
    ensures Least(values) in values && Greatest(values) in values
    ensures forall i :: 0 <= i < |values| ==> Least(values) <= values[i] <= Greatest(values)
  {
    var n := |values| - 1;
    if n == 0 {
    } else {
      ExtremesBound(values[..n]);
      assert forall i :: 0 <= i < n ==> values[..n][i] == values[i];
    }
  }

  function Between01(v: real, min: real, max: real): real
    requires max != min
  {
    (v - min) / (max - min)
  }

  function Normal(values: seq<real>, i: nat): real
    requires i < |values|
  {
    var min, max := Least(values), Greatest(values);
    if max == min then 1.0 else Between01(values[i], min, max)
  }

  method Extremes(values: seq<real>) returns (min: real, max: real)
    requires values != []
    ensures min == Least(values) && max == Greatest(values)
  {
    min, max := values[0], values[0];
    for i := 0 to |values|
      invariant i == 0 ==> min == max == values[0]
      invariant i > 0 ==> min == Least(values[..i]) && max == Greatest(values[..i])
    {
      assert values[..i + 1][..i] == values[..i];
      if values[i] < min {
        min := values[i];
      }
      if values[i] > max {
        max := values[i];
      }
    }
    assert values[..|values|] == values;
  }

  /** `normalize`. */
  method Normalize(values: seq<real>) returns (out: seq<real>)
    ensures |out| == |values| && forall i :: 0 <= i < |values| ==> out[i] == Normal(values, i)
  {
    out := [];
    if |values| == 0 {
      return;
    }
    var min, max := Extremes(values);
    if max == min {
      for i := 0 to |values|
        invariant |out| == i && forall j :: 0 <= j < i ==> out[j] == 1.0
      {
        out := out + [1.0];
      }
      return;
    }
    for i := 0 to |values|
      invariant |out| == i && forall j :: 0 <= j < i ==> out[j] == Between01(values[j], min, max)
    {
      out := out + [Between01(values[i], min, max)];
    }
  }

  lemma QuotientOf(a: real, d: real) returns (q: real)
    requires d != 0.0
    ensures q == a / d && q * d == a
  {
    q := a / d;
  }

  lemma QuotientOrder(a: real, b: real, d: real)
    requires d > 0.0
    ensures a <= b <==> a / d <= b / d
  {
    var p := QuotientOf(a, d);
    var q := QuotientOf(b, d);
    if p <= q {
      ScaleOrder(p, q, d);
    } else {
      StrictScale(q, p, d);
    }
  }

  lemma Distribute(x: real, y: real, d: real)
    ensures (y - x) * d == y * d - x * d
  {
  }

  lemma NoNegative(x: real, y: real)
    requires x >= 0.0 && y >= 0.0
    ensures x * y >= 0.0
  {
    if x == 0.0 || y == 0.0 {
      ZeroProduct(x, y);
    } else {
      PositiveProduct(x, y, x * y);
    }
  }

  lemma ScaleOrder(x: real, y: real, d: real)
    requires x <= y && d >= 0.0
    ensures x * d <= y * d
  {
    NoNegative(y - x, d);
    Distribute(x, y, d);
  }

  lemma StrictScale(x: real, y: real, d: real)
    requires x < y && d > 0.0
    ensures x * d < y * d
  {
    PositiveProduct(y - x, d, (y - x) * d);
    Distribute(x, y, d);
  }

  lemma Placed(x: real, y: real, min: real, max: real)
    requires min <= x <= max && min < max
    ensures 0.0 <= Between01(x, min, max) <= 1.0
    ensures Between01(x, min, max) <= Between01(y, min, max) <==> x <= y
    ensures x == max ==> Between01(x, min, max) == 1.0
    ensures x == min ==> Between01(x, min, max) == 0.0
  {
    var d := max - min;
    QuotientOrder(x - min, y - min, d);
    QuotientOrder(0.0, x - min, d);
    QuotientOrder(x - min, d, d);
    UnitQuotients(d);
  }

  lemma UnitQuotients(d: real)
    requires d > 0.0
    ensures d / d == 1.0 && 0.0 / d == 0.0
  {
  }

  /** Scaling keeps the order both ways, lands in [0, 1], gives every best value 1 and, unless
      all values tie, every worst value 0. */
  lemma NormalKeepsOrder(values: seq<real>, i: nat, j: nat)
    requires i < |values| && j < |values|
    ensures 0.0 <= Normal(values, i) <= 1.0
    ensures Normal(values, i) <= Normal(values, j) <==> values[i] <= values[j]
    ensures values[i] == Greatest(values) ==> Normal(values, i) == 1.0
    ensures values[i] == Least(values) && Least(values) != Greatest(values) ==> Normal(values, i) == 0.0
  {
    var min, max := Least(values), Greatest(values);
    ExtremesBound(values);
    if max != min {
      Placed(values[i], values[j], min, max);
    }
  }

  /** Scaling is linear: unless all tie, the scaled value is the share of the range below the value. */
  lemma NormalIsLinear(values: seq<real>, i: nat) returns (share: real, range: real)
    requires i < |values| && Least(values) != Greatest(values)
    ensures share == Normal(values, i) && range == Greatest(values) - Least(values)
    ensures share * range == values[i] - Least(values)
  {
    range := Greatest(values) - Least(values);
    share := QuotientOf(values[i] - Least(values), range);
  }

  // ----- graph connectivity

  /** The two ends of an edge at a document are the document and the other end. */
  lemma OtherEndIsOther(e: Edge, id: string)
    requires Touches(e, id)
    ensures {e.from, e.to} == {id, OtherEnd(e, id)}
    ensures e.from != e.to ==> OtherEnd(e, id) != id
  {
  }

  function OtherEnd(e: Edge, id: string): string {
    if e.to == id then e.from else e.to
  }

  /** The edges at a document whose other end is in the pool. */
  ghost function Linked(edges: EdgeTable, pool: set<string>, id: string): set<string> {
    set k | k in edges && Touches(edges[k], id) && OtherEnd(edges[k], id) in pool
  }

  ghost function Pool(matches: seq<Match>): set<string> {
    set i | 0 <= i < |matches| :: matches[i].document.id
  }

  /** A failed lookup counts nothing. */
  ghost function Connections(edges: EdgeTable, matches: seq<Match>, answers: nat -> bool, i: nat): nat
    requires i < |matches|
  {
    if answers(i) then |Linked(edges, Pool(matches), matches[i].document.id)| else 0
  }

  ghost predicate Busiest(edges: EdgeTable, matches: seq<Match>, answers: nat -> bool, n: nat, most: nat)
    requires n <= |matches|
  {
    && (forall i :: 0 <= i < n ==> Connections(edges, matches, answers, i) <= most)
    && (most > 0 ==> exists i :: 0 <= i < n && Connections(edges, matches, answers, i) == most)
  }

  method CountLinked(rels: seq<Edge>, pool: set<string>, id: string, ghost edges: EdgeTable) returns (count: nat)
    requires StrictlySorted(ById, rels)
    requires forall e :: e in rels <==> Stored(edges, e) && Touches(e, id)
    requires forall k :: k in edges ==> edges[k].id == k
    ensures count == |Linked(edges, pool, id)|
  {
    count := 0;
    ghost var counted: set<string> := {};
    for i := 0 to |rels|
      invariant count == |counted|
      invariant forall k :: k in counted <==> exists j :: 0 <= j < i && rels[j].id == k && OtherEnd(rels[j], id) in pool
    {
      var other := rels[i].to;
      if other == id {
        other := rels[i].from;
      }
      if other in pool {
        assert rels[i].id !in counted by {
          Text.StrLessIsTotalOrder();
          forall j | 0 <= j < i ensures rels[j].id != rels[i].id {
            assert ById(rels[j], rels[i]);
          }
        }
        counted := counted + {rels[i].id};
        count := count + 1;
      }
    }
    forall k ensures k in counted <==> k in Linked(edges, pool, id) {
      if k in counted {
        var j :| 0 <= j < |rels| && rels[j].id == k && OtherEnd(rels[j], id) in pool;
        assert rels[j] in rels;
      }
      if k in Linked(edges, pool, id) {
        assert edges[k] in rels;
        var j :| 0 <= j < |rels| && rels[j] == edges[k];
        assert rels[j].id == k;
      }
    }
    assert counted == Linked(edges, pool, id);
  }

  /** `graphBoosts`: each match's share of the busiest match's connections within the pool. */
  method GraphBoosts(graph: Option<Store>, matches: seq<Match>, answers: nat -> bool) returns (boosts: seq<real>)
    requires graph.Some? ==> Inv(graph.value.db)
    ensures |boosts| == |matches|
    ensures graph.None? || |matches| < 2 ==> boosts == seq(|matches|, i => 0.0)
    ensures graph.Some? && |matches| >= 2 ==> AreBoosts(graph.value.db.edges, matches, answers, boosts)
  {
    boosts := seq(|matches|, i => 0.0);
    if graph.None? || |matches| < 2 {
      return;
    }
    var counts, most := CountConnections(graph.value, matches, answers);
    if most == 0 {
      assert SharesOf(graph.value.db.edges, matches, answers, boosts, 0);
      return;
    }
    boosts := [];
    for i := 0 to |matches|
      invariant |boosts| == i && forall j :: 0 <= j < i ==> boosts[j] == Share(counts[j], most)
    {
      boosts := boosts + [Share(counts[i], most)];
    }
    assert SharesOf(graph.value.db.edges, matches, answers, boosts, most);
  }

  method CountConnections(graph: Store, matches: seq<Match>, answers: nat -> bool) returns (counts: seq<nat>, most: nat)
    requires Inv(graph.db)
    ensures |counts| == |matches| && Busiest(graph.db.edges, matches, answers, |matches|, most)
    ensures forall i :: 0 <= i < |matches| ==> counts[i] == Connections(graph.db.edges, matches, answers, i)
  {
    var inPool: set<string> := {};
    for i := 0 to |matches|
      invariant inPool == set j | 0 <= j < i :: matches[j].document.id
    {
      inPool := inPool + {matches[i].document.id};
    }
    ghost var edges := graph.db.edges;
    most := 0;
    counts := [];
    for i := 0 to |matches|
      invariant |counts| == i
      invariant forall j :: 0 <= j < i ==> counts[j] == Connections(edges, matches, answers, j)
      invariant Busiest(edges, matches, answers, i, most)
    {
      var count := CountOne(graph, matches, answers, i, inPool);
      BusiestNext(edges, matches, answers, i, most);
      counts := counts + [count];
      if count > most {
        most := count;
      }
    }
  }

  method CountOne(graph: Store, matches: seq<Match>, answers: nat -> bool, i: nat, inPool: set<string>) returns (count: nat)
    requires Inv(graph.db) && i < |matches| && inPool == Pool(matches)
    ensures count == Connections(graph.db.edges, matches, answers, i)
  {
    count := 0;
    if answers(i) {
      var rels := Neighbors(graph, matches[i].document.id);
      count := CountLinked(rels, inPool, matches[i].document.id, graph.db.edges);
    }
  }

  lemma BusiestNext(edges: EdgeTable, matches: seq<Match>, answers: nat -> bool, n: nat, most: nat)
    requires n < |matches| && Busiest(edges, matches, answers, n, most)
    ensures var count := Connections(edges, matches, answers, n);
            Busiest(edges, matches, answers, n + 1, if count > most then count else most)
  {
    var count := Connections(edges, matches, answers, n);
    if count <= most && most > 0 {
      var i :| 0 <= i < n && Connections(edges, matches, answers, i) == most;
      assert i < n + 1;
    }
  }

  function Share(count: nat, most: nat): real {
    if most == 0 then 0.0 else count as real / most as real
  }

  ghost predicate AreBoosts(edges: EdgeTable, matches: seq<Match>, answers: nat -> bool, boosts: seq<real>) {
    |boosts| == |matches| && exists most :: SharesOf(edges, matches, answers, boosts, most)
  }

  ghost predicate SharesOf(edges: EdgeTable, matches: seq<Match>, answers: nat -> bool, boosts: seq<real>, most: nat)
    requires |boosts| == |matches|
  {
    && Busiest(edges, matches, answers, |matches|, most)
    && forall i :: 0 <= i < |matches| ==> boosts[i] == Share(Connections(edges, matches, answers, i), most)
  }

  lemma ShareOrder(a: nat, b: nat, most: nat)
    requires a <= most && b <= most
    ensures 0.0 <= Share(a, most) <= 1.0
    ensures Share(a, most) <= Share(b, most) <==> a <= b
    ensures most > 0 ==> Share(most, most) == 1.0
  {
    if most > 0 {
      QuotientOrder(a as real, b as real, most as real);
      QuotientOrder(0.0, a as real, most as real);
      QuotientOrder(a as real, most as real, most as real);
      UnitQuotients(most as real);
    }
  }

  /** A boost is the match's share of the most connections any match has. */
  lemma BoostIsShare(edges: EdgeTable, matches: seq<Match>, answers: nat -> bool, boosts: seq<real>, i: nat, k: nat)
    requires AreBoosts(edges, matches, answers, boosts) && i < |matches| && k < |matches|
    requires forall j :: 0 <= j < |matches| ==> Connections(edges, matches, answers, j) <= Connections(edges, matches, answers, k)
    ensures boosts[i] * Connections(edges, matches, answers, k) as real == Connections(edges, matches, answers, i) as real
  {
    var most :| SharesOf(edges, matches, answers, boosts, most);
    var c := Connections(edges, matches, answers, i);
    if most > 0 {
      var q := QuotientOf(c as real, most as real);
      assert boosts[i] == q;
    }
  }

  /** Boosts lie in [0, 1], rank matches by their number of connections, and reach 1 as soon as
      there is any connection. */
  lemma BoostsOrderConnections(edges: EdgeTable, matches: seq<Match>, answers: nat -> bool, boosts: seq<real>, i: nat, j: nat)
    requires AreBoosts(edges, matches, answers, boosts) && i < |matches| && j < |matches|
    ensures 0.0 <= boosts[i] <= 1.0
    ensures boosts[i] <= boosts[j] <==> Connections(edges, matches, answers, i) <= Connections(edges, matches, answers, j)
    ensures Connections(edges, matches, answers, i) > 0 ==> exists k :: 0 <= k < |matches| && boosts[k] == 1.0
  {
    var most :| SharesOf(edges, matches, answers, boosts, most);
    ShareOrder(Connections(edges, matches, answers, i), Connections(edges, matches, answers, j), most);
    if most > 0 {
      var k :| 0 <= k < |matches| && Connections(edges, matches, answers, k) == most;
      assert boosts[k] == 1.0;
    }
  }

  // ----- cosine similarity

  function Dot(a: Vector, b: Vector): real
    requires |a| == |b|
  {
    if a == [] then 0.0
    else
      var n := |a| - 1;
      Dot(a[..n], b[..n]) + a[n] * b[n]
  }

  lemma {:induction false} DotSelf(a: Vector)
    ensures Dot(a, a) >= 0.0
  {
    if a == [] {
    } else {
      DotSelf(a[..|a| - 1]);
      SquareSign(a[|a| - 1]);
    }
  }

  lemma SquareSign(x: real)
    ensures x * x >= 0.0
    ensures x != 0.0 ==> x * x > 0.0
  {
    if x > 0.0 {
      assert x * x > 0.0;
    } else if x < 0.0 {
      assert x * x > 0.0;
    }
  }

  lemma ZeroProduct(x: real, y: real)
    requires x == 0.0 || y == 0.0
    ensures x * y == 0.0
  {
  }

  function Magnitude(x: real): (r: real)
    ensures r >= 0.0 && (r == x || r == -x)
  {
    if x < 0.0 then -x else x
  }

  lemma NegativeSquare(x: real)
    ensures (-x) * (-x) == x * x
  {
  }

  lemma {:induction false} DotSymmetric(a: Vector, b: Vector)
    requires |a| == |b|
    ensures Dot(a, b) == Dot(b, a)
  {
    if a == [] {
    } else {
      DotSymmetric(a[..|a| - 1], b[..|b| - 1]);
    }
  }

  /** |t| <= s when t * t <= s * s. */
  lemma RootOrder(t: real, s: real)
    requires s >= 0.0 && t * t <= s * s
    ensures -s <= t <= s
  {
    NegativeSquare(t);
    var m := Magnitude(t);
    assert m * m == t * t;
    SquareOrder(s, m);
  }

  lemma SquareOrder(s: real, t: real)
    requires s >= 0.0
    ensures t > s ==> s * s < t * t
  {
    if t > s {
      StrictSquare(s, t);
    }
  }

  lemma StrictSquare(s: real, t: real)
    requires 0.0 <= s < t
    ensures s * s < t * t
  {
    assert t * t - s * s == (t - s) * (t + s);
    StrictScale(0.0, t - s, t + s);
  }

  /** The step from n to n + 1 coordinates. */
  lemma CauchyStep(d: real, a: real, b: real, x: real, y: real)
    requires a >= 0.0 && b >= 0.0 && d * d <= a * b
    ensures (d + x * y) * (d + x * y) <= (a + x * x) * (b + y * y)
  {
    var u, v := a * (y * y), b * (x * x);
    var t := d * (x * y);
    assert u >= 0.0 && v >= 0.0 by {
      SquareSign(x);
      SquareSign(y);
    }
    MixedTerm(d, a, b, x, y);
    assert 4.0 * (t * t) <= 4.0 * (u * v);
    assert (u + v) * (u + v) - 4.0 * (u * v) == (u - v) * (u - v);
    SquareSign(u - v);
    assert (2.0 * t) * (2.0 * t) == 4.0 * (t * t);
    RootOrder(2.0 * t, u + v);
    Expand(d, a, b, x, y);
  }

  lemma MixedTerm(d: real, a: real, b: real, x: real, y: real)
    requires d * d <= a * b
    ensures (d * (x * y)) * (d * (x * y)) <= (a * (y * y)) * (b * (x * x))
  {
    var q := (x * y) * (x * y);
    SquareSign(x * y);
    ScaleOrder(d * d, a * b, q);
    assert (d * (x * y)) * (d * (x * y)) == (d * d) * q;
    assert (a * (y * y)) * (b * (x * x)) == (a * b) * ((y * y) * (x * x));
    assert (y * y) * (x * x) == q;
  }

  lemma Expand(d: real, a: real, b: real, x: real, y: real)
    ensures (d + x * y) * (d + x * y) == d * d + 2.0 * (d * (x * y)) + (x * x) * (y * y)
    ensures (a + x * x) * (b + y * y) == a * b + a * (y * y) + b * (x * x) + (x * x) * (y * y)
  {
    assert (x * y) * (x * y) == (x * x) * (y * y);
  }

  lemma DotLast(a: Vector, b: Vector)
    requires |a| == |b| > 0
    ensures Dot(a, b) == Dot(a[..|a| - 1], b[..|a| - 1]) + a[|a| - 1] * b[|a| - 1]
  {
  }

  /** d * d <= a * b, in one word. */
  predicate SquareWithin(d: real, a: real, b: real) {
    d * d <= a * b
  }

  lemma CauchyNext(d: real, a: real, b: real, x: real, y: real, d1: real, a1: real, b1: real)
    requires a >= 0.0 && b >= 0.0 && SquareWithin(d, a, b)
    requires d1 == d + x * y && a1 == a + x * x && b1 == b + y * y
    ensures SquareWithin(d1, a1, b1)
  {
    CauchyStep(d, a, b, x, y);
  }

  /** Cauchy-Schwarz: the square of the accumulated dot product is at most the product of the
      accumulated magnitudes. */
  lemma {:induction false} CauchySchwarz(a: Vector, b: Vector)
    requires |a| == |b|
    ensures SquareWithin(Dot(a, b), Dot(a, a), Dot(b, b))
  {
    if a == [] {
    } else {
      var n := |a| - 1;
      CauchySchwarz(a[..n], b[..n]);
      DotSelf(a[..n]);
      DotSelf(b[..n]);
      DotLast(a, b);
      DotLast(a, a);
      DotLast(b, b);
      CauchyNext(Dot(a[..n], b[..n]), Dot(a[..n], a[..n]), Dot(b[..n], b[..n]), a[n], b[n], Dot(a, b), Dot(a, a), Dot(b, b));
    }
  }

  /** `math.Sqrt` without rounding. */
  ghost predicate IsSqrt(sqrt: real -> real) {
    forall x: real :: x >= 0.0 ==> RootOf(sqrt(x), x)
  }

  predicate RootOf(r: real, x: real) {
    r >= 0.0 && r * r == x
  }

  lemma RootPositive(r: real, x: real)
    requires RootOf(r, x) && x > 0.0
    ensures r > 0.0
  {
  }

  lemma RootProduct(r: real, x: real, s: real, y: real)
    requires RootOf(r, x) && RootOf(s, y)
    ensures r * s >= 0.0 && (r * s) * (r * s) == x * y
  {
    assert (r * s) * (r * s) == (r * r) * (s * s);
  }

  lemma RatioOf(d: real, m: real) returns (r: real)
    requires m >= 0.0 && m != 0.0 && -m <= d <= m
    ensures r == d / m && -1.0 <= r <= 1.0 && r * m == d
  {
    r := d / m;
    QuotientOrder(d, m, m);
    QuotientOrder(-m, d, m);
    assert (-m) / m == -1.0;
  }

  predicate NoAngle(a: Vector, b: Vector) {
    |a| == 0 || |a| != |b| || Dot(a, a) == 0.0 || Dot(b, b) == 0.0
  }

  function LengthProduct(a: Vector, b: Vector, sqrt: real -> real): real {
    sqrt(Dot(a, a)) * sqrt(Dot(b, b))
  }

  function Cosine(a: Vector, b: Vector, sqrt: real -> real): real
    requires NoAngle(a, b) || LengthProduct(a, b, sqrt) != 0.0
  {
    if NoAngle(a, b) then 0.0 else Dot(a, b) / LengthProduct(a, b, sqrt)
  }

  lemma CosineDefined(a: Vector, b: Vector, sqrt: real -> real)
    requires IsSqrt(sqrt)
    ensures NoAngle(a, b) || LengthProduct(a, b, sqrt) > 0.0
  {
    if !NoAngle(a, b) {
      DotSelf(a);
      DotSelf(b);
      var r, s := sqrt(Dot(a, a)), sqrt(Dot(b, b));
      RootPositive(r, Dot(a, a));
      RootPositive(s, Dot(b, b));
    }
  }

  lemma LengthsBound(d: real, ma: real, mb: real, r: real, s: real, m: real)
    requires SquareWithin(d, ma, mb) && RootOf(r, ma) && RootOf(s, mb) && m == r * s
    ensures m >= 0.0 && -m <= d <= m
  {
    RootProduct(r, ma, s, mb);
    RootOrder(d, r * s);
  }

  lemma PositiveProduct(x: real, y: real, p: real)
    requires x > 0.0 && y > 0.0 && x * y == p
    ensures p > 0.0
  {
  }

  lemma RootOfPositive(r: real, x: real)
    requires RootOf(r, x)
    ensures r != 0.0 ==> x > 0.0
  {
    if r != 0.0 {
      PositiveProduct(r, r, x);
    }
  }

  lemma NoLength(r: real, ma: real, s: real, mb: real, m: real)
    requires RootOf(r, ma) && RootOf(s, mb) && (ma == 0.0 || mb == 0.0) && m == r * s
    ensures m == 0.0
  {
    RootOfPositive(r, ma);
    RootOfPositive(s, mb);
    ZeroProduct(r, s);
  }

  lemma LengthProductBounds(a: Vector, b: Vector, sqrt: real -> real)
    requires IsSqrt(sqrt) && |a| == |b|
    ensures LengthProduct(a, b, sqrt) >= 0.0
    ensures -LengthProduct(a, b, sqrt) <= Dot(a, b) <= LengthProduct(a, b, sqrt)
  {
    CauchySchwarz(a, b);
    DotSelf(a);
    DotSelf(b);
    assert RootOf(sqrt(Dot(a, a)), Dot(a, a)) && RootOf(sqrt(Dot(b, b)), Dot(b, b));
    LengthsBound(Dot(a, b), Dot(a, a), Dot(b, b), sqrt(Dot(a, a)), sqrt(Dot(b, b)), LengthProduct(a, b, sqrt));
  }

  lemma LengthProductZero(a: Vector, b: Vector, sqrt: real -> real)
    requires IsSqrt(sqrt) && |a| == |b| && NoAngle(a, b)
    ensures LengthProduct(a, b, sqrt) == 0.0
  {
    DotSelf(a);
    DotSelf(b);
    assert RootOf(sqrt(Dot(a, a)), Dot(a, a)) && RootOf(sqrt(Dot(b, b)), Dot(b, b));
    NoLength(sqrt(Dot(a, a)), Dot(a, a), sqrt(Dot(b, b)), Dot(b, b), LengthProduct(a, b, sqrt));
  }

  /** The similarity is the cosine: in [-1, 1], and its product with the two lengths is the dot
      product, for zero vectors too. */
  lemma CosineBounded(a: Vector, b: Vector, sqrt: real -> real)
    requires IsSqrt(sqrt) && |a| == |b|
    requires NoAngle(a, b) || LengthProduct(a, b, sqrt) != 0.0
    ensures -1.0 <= Cosine(a, b, sqrt) <= 1.0
    ensures Cosine(a, b, sqrt) * LengthProduct(a, b, sqrt) == Dot(a, b)
  {
    LengthProductBounds(a, b, sqrt);
    if NoAngle(a, b) {
      LengthProductZero(a, b, sqrt);
      ZeroProduct(Cosine(a, b, sqrt), LengthProduct(a, b, sqrt));
    } else {
      var r := RatioOf(Dot(a, b), LengthProduct(a, b, sqrt));
      assert Cosine(a, b, sqrt) == r;
    }
  }

  function Scaled(k: real, a: Vector): (b: Vector)
    ensures |b| == |a| && forall i :: 0 <= i < |a| ==> b[i] == k * a[i]
  {
    seq(|a|, i requires 0 <= i < |a| => k * a[i])
  }

  lemma ScaledStep(k: real, d: real, x: real, y: real)
    ensures k * d + (k * x) * y == k * (d + x * y)
  {
    assert (k * x) * y == k * (x * y);
  }

  lemma ScaledPrefix(k: real, a: Vector)
    requires a != []
    ensures Scaled(k, a)[..|a| - 1] == Scaled(k, a[..|a| - 1]) && Scaled(k, a)[|a| - 1] == k * a[|a| - 1]
  {
    var n := |a| - 1;
    assert forall i :: 0 <= i < n ==> Scaled(k, a)[..n][i] == k * a[i] == Scaled(k, a[..n])[i];
  }

  lemma {:induction false} DotScaled(k: real, a: Vector, b: Vector)
    requires |a| == |b|
    ensures Dot(Scaled(k, a), b) == k * Dot(a, b)
  {
    if a == [] {
    } else {
      var n := |a| - 1;
      DotScaled(k, a[..n], b[..n]);
      ScaledPrefix(k, a);
      DotLast(Scaled(k, a), b);
      DotLast(a, b);
      ScaledStep(k, Dot(a[..n], b[..n]), a[n], b[n]);
    }
  }

  lemma MultipleAngle(k: real, m: real, q: real, r: real, s: real)
    requires k > 0.0 && m > 0.0 && q == k * (k * m) && RootOf(r, q) && RootOf(s, m)
    ensures r * s == k * m > 0.0
  {
    StrictScale(0.0, k, m);
    RootProduct(r, q, s, m);
    assert (k * (k * m)) * m == (k * m) * (k * m);
    RootOrder(k * m, r * s);
    RootOrder(r * s, k * m);
  }

  lemma DotsOfMultiple(k: real, a: Vector)
    ensures Dot(Scaled(k, a), a) == k * Dot(a, a)
    ensures Dot(Scaled(k, a), Scaled(k, a)) == k * (k * Dot(a, a))
  {
    DotScaled(k, a, a);
    DotScaled(k, a, Scaled(k, a));
    DotSymmetric(a, Scaled(k, a));
  }

  /** A vector points the way of each of its positive multiples: their similarity is 1. */
  lemma CosineOfMultiple(k: real, a: Vector, sqrt: real -> real)
    requires IsSqrt(sqrt) && k > 0.0 && Dot(a, a) != 0.0
    ensures !NoAngle(Scaled(k, a), a) && LengthProduct(Scaled(k, a), a, sqrt) != 0.0
    ensures Cosine(Scaled(k, a), a, sqrt) == 1.0
  {
    LengthOfMultiple(k, a, sqrt);
    UnitQuotients(Dot(Scaled(k, a), a));
  }

  lemma LengthOfMultiple(k: real, a: Vector, sqrt: real -> real)
    requires IsSqrt(sqrt) && k > 0.0 && Dot(a, a) != 0.0
    ensures LengthProduct(Scaled(k, a), a, sqrt) == Dot(Scaled(k, a), a) > 0.0
    ensures Dot(Scaled(k, a), Scaled(k, a)) > 0.0
  {
    var m := Dot(a, a);
    var q := Dot(Scaled(k, a), Scaled(k, a));
    DotSelf(a);
    DotsOfMultiple(k, a);
    PositiveMultiple(k, m);
    assert RootOf(sqrt(q), q) && RootOf(sqrt(m), m);
    MultipleAngle(k, m, q, sqrt(q), sqrt(m));
  }

  lemma PositiveMultiple(k: real, m: real)
    requires k > 0.0 && m > 0.0
    ensures k * m > 0.0 && k * (k * m) > 0.0
  {
    StrictScale(0.0, m, k);
    StrictScale(0.0, k * m, k);
  }

  method Accumulate(a: Vector, b: Vector) returns (dot: real, magA: real, magB: real)
    requires |a| == |b|
    ensures dot == Dot(a, b) && magA == Dot(a, a) && magB == Dot(b, b)
  {
    dot, magA, magB := 0.0, 0.0, 0.0;
    for i := 0 to |a|
      invariant dot == Dot(a[..i], b[..i]) && magA == Dot(a[..i], a[..i]) && magB == Dot(b[..i], b[..i])
    {
      assert a[..i + 1][..i] == a[..i] && b[..i + 1][..i] == b[..i];
      DotLast(a[..i + 1], b[..i + 1]);
      DotLast(a[..i + 1], a[..i + 1]);
      DotLast(b[..i + 1], b[..i + 1]);
      dot := dot + a[i] * b[i];
      magA := magA + a[i] * a[i];
      magB := magB + b[i] * b[i];
    }
    assert a[..|a|] == a && b[..|b|] == b;
  }

  /** `cosineSimilarity`. */
  method CosineSimilarity(a: Vector, b: Vector, sqrt: real -> real) returns (r: real)
    requires IsSqrt(sqrt)
    ensures NoAngle(a, b) || LengthProduct(a, b, sqrt) != 0.0
    ensures r == Cosine(a, b, sqrt)
  {
    CosineDefined(a, b, sqrt);
    if |a| == 0 || |b| == 0 || |a| != |b| {
      return 0.0;
    }
    var dot, magA, magB := Accumulate(a, b);
    if magA == 0.0 || magB == 0.0 {
      return 0.0;
    }
    var lengths := sqrt(magA) * sqrt(magB);
    assert lengths == LengthProduct(a, b, sqrt);
    return dot / lengths;
  }

  // ----- embedding signal

  type Embedder = seq<string> -> Option<seq<Vector>>

  function Texts(query: string, matches: seq<Match>): (t: seq<string>)
    ensures |t| == |matches| + 1
  {
    [query] + seq(|matches|, i requires 0 <= i < |matches| => matches[i].chunk.content)
  }

  /** The clamped similarity of a match's text with the query. */
  ghost predicate IsSimilarity(query: Vector, v: Vector, sqrt: real -> real, sim: real) {
    && (NoAngle(query, v) || LengthProduct(query, v, sqrt) != 0.0)
    && sim == if Cosine(query, v, sqrt) < 0.0 then 0.0 else Cosine(query, v, sqrt)
  }

  ghost predicate AreSimilarities(vectors: seq<Vector>, sqrt: real -> real, sims: seq<real>) {
    |vectors| == |sims| + 1 && forall i :: 0 <= i < |sims| ==> IsSimilarity(vectors[0], vectors[i + 1], sqrt, sims[i])
  }

  lemma SimilarityBounded(query: Vector, v: Vector, sqrt: real -> real, sim: real)
    requires IsSqrt(sqrt) && IsSimilarity(query, v, sqrt, sim)
    ensures 0.0 <= sim <= 1.0
  {
    if |query| == |v| {
      CosineBounded(query, v, sqrt);
    }
  }

  /** `embeddingBoosts`: fails when the provider does, or answers with another number of vectors. */
  method EmbeddingBoosts(embed: Embedder, query: string, matches: seq<Match>, sqrt: real -> real) returns (r: Option<seq<real>>)
    requires IsSqrt(sqrt)
    ensures var vectors := embed(Texts(query, matches));
            && (r.None? <==> vectors.None? || |vectors.value| != |matches| + 1)
            && (r.Some? ==> |r.value| == |matches| && AreSimilarities(vectors.value, sqrt, r.value))
  {
    var texts := [query];
    for i := 0 to |matches|
      invariant texts == Texts(query, matches)[..i + 1]
    {
      texts := texts + [matches[i].chunk.content];
    }
    assert texts == Texts(query, matches);
    var answer := embed(texts);
    if answer.None? {
      return None;
    }
    var vectors := answer.value;
    if |vectors| != |texts| {
      return None;
    }
    var sims: seq<real> := [];
    for i := 0 to |matches|
      invariant |sims| == i
      invariant forall j :: 0 <= j < i ==> IsSimilarity(vectors[0], vectors[j + 1], sqrt, sims[j])
    {
      var sim := CosineSimilarity(vectors[0], vectors[i + 1], sqrt);
      if sim < 0.0 {
        sim := 0.0;
      }
      sims := sims + [sim];
    }
    return Some(sims);
  }

  // ----- the blend

  function Scores(matches: seq<Match>): (s: seq<real>)
    ensures |s| == |matches| && forall i :: 0 <= i < |s| ==> s[i] == matches[i].score
  {
    seq(|matches|, i requires 0 <= i < |matches| => matches[i].score)
  }

  function Blend(w: Weights, keyword: real, graph: real, embedding: real): real {
    w.keyword * keyword + w.graph * graph + w.embedding * embedding
  }

  /** Each signal counts by its own weight. */
  lemma BlendWeighs(w: Weights, keyword: real, graph: real, embedding: real, more: real)
    ensures Blend(w, keyword + more, graph, embedding) == Blend(w, keyword, graph, embedding) + w.keyword * more
    ensures Blend(w, keyword, graph + more, embedding) == Blend(w, keyword, graph, embedding) + w.graph * more
    ensures Blend(w, keyword, graph, embedding + more) == Blend(w, keyword, graph, embedding) + w.embedding * more
    ensures Blend(w, 0.0, 0.0, 0.0) == 0.0
  {
    Expanded(w.keyword, keyword, more);
    Expanded(w.graph, graph, more);
    Expanded(w.embedding, embedding, more);
  }

  lemma Expanded(w: real, x: real, more: real)
    ensures w * (x + more) == w * x + w * more
  {
  }

  /** A signal per match, each in [0, 1]. */
  predicate Signals(matches: seq<Match>, xs: seq<real>) {
    |xs| == |matches| && forall i :: 0 <= i < |xs| ==> 0.0 <= xs[i] <= 1.0
  }

  /** Every match keeps its place and gets the blend of its three signals. */
  ghost predicate Blended(w: Weights, matches: seq<Match>, graph: seq<real>, embedding: seq<real>, out: seq<Scored>) {
    && Signals(matches, graph) && Signals(matches, embedding) && |out| == |matches|
    && forall i :: 0 <= i < |out| ==>
         out[i].match_ == matches[i] && out[i].blended == Blend(w, Normal(Scores(matches), i), graph[i], embedding[i])
  }

  /** The blending loop of `rank`; without a provider there is no third signal. */
  method BlendAll(w: Weights, matches: seq<Match>, keyword: seq<real>, boosts: seq<real>, sims: Option<seq<real>>)
    returns (scored: seq<Scored>)
    requires |keyword| == |boosts| == |matches| && (sims.Some? ==> |sims.value| == |matches|)
    ensures |scored| == |matches|
    ensures forall i :: 0 <= i < |matches| ==>
              scored[i] == Scored(matches[i], Blend(w, keyword[i], boosts[i], if sims.Some? then sims.value[i] else 0.0))
  {
    scored := [];
    for i := 0 to |matches|
      invariant |scored| == i
      invariant forall j :: 0 <= j < i ==>
                  scored[j] == Scored(matches[j], Blend(w, keyword[j], boosts[j], if sims.Some? then sims.value[j] else 0.0))
    {
      var blended := w.keyword * keyword[i] + w.graph * boosts[i];
      if sims.Some? {
        blended := blended + w.embedding * sims.value[i];
      }
      scored := scored + [Scored(matches[i], blended)];
    }
  }

  /** The graph signal: connection shares, or nothing without a graph or a second match. */
  ghost predicate GraphSignal(edges: Option<EdgeTable>, matches: seq<Match>, answers: nat -> bool, boosts: seq<real>) {
    if edges.Some? && |matches| >= 2 then AreBoosts(edges.value, matches, answers, boosts) else boosts == seq(|matches|, i => 0.0)
  }

  /** The provider fails, or answers with another number of vectors. */
  predicate EmbeddingFails(embeddings: Option<Embedder>, query: string, matches: seq<Match>) {
    embeddings.Some? && var vectors := embeddings.value(Texts(query, matches)); vectors.None? || |vectors.value| != |matches| + 1
  }

  /** The embedding signal: clamped similarities, or nothing without a provider. */
  ghost predicate EmbeddingSignal(embeddings: Option<Embedder>, query: string, matches: seq<Match>, sqrt: real -> real, sims: seq<real>)
    requires !EmbeddingFails(embeddings, query, matches)
  {
    if embeddings.Some? then AreSimilarities(embeddings.value(Texts(query, matches)).value, sqrt, sims)
    else sims == seq(|matches|, i => 0.0)
  }

  /** The signals beside the keyword score. */
  datatype Signalling = Signalling(edges: Option<EdgeTable>, answers: nat -> bool, embeddings: Option<Embedder>, sqrt: real -> real, weights: Weights)

  ghost predicate RankedWith(c: Signalling, query: string, matches: seq<Match>, out: seq<Scored>, graphBoost: seq<real>, embedBoost: seq<real>)
    requires !EmbeddingFails(c.embeddings, query, matches)
  {
    && GraphSignal(c.edges, matches, c.answers, graphBoost)
    && EmbeddingSignal(c.embeddings, query, matches, c.sqrt, embedBoost)
    && Blended(EffectiveWeights(c.weights, c.embeddings.Some?), matches, graphBoost, embedBoost, out)
  }

  /** What ranking answers: nothing when embedding fails, else the blend of the three signals. */
  ghost predicate IsRank(c: Signalling, query: string, matches: seq<Match>, out: Option<seq<Scored>>) {
    if EmbeddingFails(c.embeddings, query, matches) then out.None?
    else out.Some? && exists graphBoost, embedBoost :: RankedWith(c, query, matches, out.value, graphBoost, embedBoost)
  }

  ghost function EdgesOf(graph: Option<Store>): Option<EdgeTable>
    reads if graph.Some? then {graph.value} else {}
  {
    if graph.Some? then Some(graph.value.db.edges) else None
  }

  /** `rank`. */
  method Rank(graph: Option<Store>, answers: nat -> bool, embeddings: Option<Embedder>, weights: Weights,
              query: string, matches: seq<Match>, sqrt: real -> real) returns (out: Option<seq<Scored>>)
    requires IsSqrt(sqrt) && (graph.Some? ==> Inv(graph.value.db))
    ensures IsRank(Signalling(EdgesOf(graph), answers, embeddings, sqrt, weights), query, matches, out)
  {
    var keyword := Normalize(Scores(matches));
    var boosts := GraphBoosts(graph, matches, answers);
    BoostsAreSignals(graph, matches, answers, boosts);
    var w := if weights == ZERO then DefaultWeights(embeddings.Some?) else weights;
    var sims: Option<seq<real>> := None;
    if embeddings.Some? {
      sims := EmbeddingBoosts(embeddings.value, query, matches, sqrt);
      if sims.None? {
        return None;
      }
      SimilaritiesBounded(embeddings.value(Texts(query, matches)).value, sqrt, sims.value);
    }
    var scored := BlendAll(w, matches, keyword, boosts, sims);
    ghost var embedBoost := if sims.Some? then sims.value else seq(|matches|, i => 0.0);
    assert RankedWith(Signalling(EdgesOf(graph), answers, embeddings, sqrt, weights), query, matches, scored, boosts, embedBoost);
    out := Some(scored);
  }

  lemma BoostsAreSignals(graph: Option<Store>, matches: seq<Match>, answers: nat -> bool, boosts: seq<real>)
    requires if graph.Some? && |matches| >= 2 then AreBoosts(graph.value.db.edges, matches, answers, boosts)
             else boosts == seq(|matches|, i => 0.0)
    ensures Signals(matches, boosts)
  {
    if graph.Some? && |matches| >= 2 {
      forall i | 0 <= i < |boosts| ensures 0.0 <= boosts[i] <= 1.0 {
        BoostsOrderConnections(graph.value.db.edges, matches, answers, boosts, i, i);
      }
    }
  }

  lemma SimilaritiesBounded(vectors: seq<Vector>, sqrt: real -> real, sims: seq<real>)
    requires IsSqrt(sqrt) && AreSimilarities(vectors, sqrt, sims)
    ensures forall i :: 0 <= i < |sims| ==> 0.0 <= sims[i] <= 1.0
  {
    forall i | 0 <= i < |sims| ensures 0.0 <= sims[i] <= 1.0 {
      SimilarityBounded(vectors[0], vectors[i + 1], sqrt, sims[i]);
    }
  }

  lemma WeightedSignal(w: real, x: real) returns (p: real)
    requires w >= 0.0 && 0.0 <= x <= 1.0
    ensures p == w * x && 0.0 <= p <= w
  {
    p := w * x;
    NoNegative(w, x);
    NoNegative(1.0 - x, w);
    Distribute(x, 1.0, w);
  }

  lemma BlendRange(w: Weights, k: real, g: real, e: real)
    requires w.keyword >= 0.0 && w.graph >= 0.0 && w.embedding >= 0.0
    requires 0.0 <= k <= 1.0 && 0.0 <= g <= 1.0 && 0.0 <= e <= 1.0
    ensures 0.0 <= Blend(w, k, g, e) <= w.keyword + w.graph + w.embedding
  {
    var x := WeightedSignal(w.keyword, k);
    var y := WeightedSignal(w.graph, g);
    var z := WeightedSignal(w.embedding, e);
    assert Blend(w, k, g, e) == x + y + z;
    SumBounded(x, y, z, w.keyword, w.graph, w.embedding);
  }

  lemma SumBounded(x: real, y: real, z: real, a: real, b: real, c: real)
    requires 0.0 <= x <= a && 0.0 <= y <= b && 0.0 <= z <= c
    ensures 0.0 <= x + y + z <= a + b + c
  {
  }

  /** A blend with weights that are not negative lies between 0 and their sum; the default
      weights sum to 1. */
  lemma BlendBounded(w: Weights, matches: seq<Match>, graph: seq<real>, embedding: seq<real>, out: seq<Scored>, i: nat)
    requires Blended(w, matches, graph, embedding, out) && i < |matches|
    requires w.keyword >= 0.0 && w.graph >= 0.0 && w.embedding >= 0.0
    ensures 0.0 <= out[i].blended <= w.keyword + w.graph + w.embedding
    ensures w == DefaultWeights(true) || w == DefaultWeights(false) ==> out[i].blended <= 1.0
  {
    NormalKeepsOrder(Scores(matches), i, i);
    BlendRange(w, Normal(Scores(matches), i), graph[i], embedding[i]);
  }

  /** Keyword relevance dominates by default: whatever the graph and the embeddings say, a best
      keyword match scores above a worst one unless all tie. */
  lemma KeywordDominates(hasEmbeddings: bool, matches: seq<Match>, graph: seq<real>, embedding: seq<real>, out: seq<Scored>, i: nat, j: nat)
    requires Blended(DefaultWeights(hasEmbeddings), matches, graph, embedding, out) && i < |matches| && j < |matches|
    requires matches[i].score == Greatest(Scores(matches)) && matches[j].score == Least(Scores(matches))
    requires matches[i].score != matches[j].score
    ensures out[i].blended > out[j].blended
  {
    ExtremesBound(Scores(matches));
    NormalKeepsOrder(Scores(matches), i, j);
    NormalKeepsOrder(Scores(matches), j, i);
  }
}
