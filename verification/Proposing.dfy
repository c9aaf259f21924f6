/** The loops of `internal/taxonomy/propose.go`, each proved against the definitions
    of module `Proposal`. */
module Proposing {
  import opened Wrappers
  import opened Text
  import opened Sorting
  import opened Taxonomy
  import opened Proposal

  // ----- groupByDirectory

  datatype Observation = Observation(dir: string, docs: seq<Doc>, direct: seq<Doc>, unknown: nat)

  ghost function ObservationOf(docs: seq<Doc>, dir: string): Observation {
    Observation(dir, Filter(docs, IsBelow(dir)), Filter(docs, IsIn(dir)), UnknownBelow(docs, dir))
  }

  function Depth(dir: string): nat {
    if dir == "" then 0 else Depth(dir[..|dir| - 1]) + (if dir[|dir| - 1] == '/' then 1 else 0)
  }

  predicate ShallowFirst(a: string, b: string) {
    if Depth(a) != Depth(b) then Depth(a) < Depth(b) else StrLess(a, b)
  }

  predicate ShallowerThan(a: Observation, b: Observation) {
    ShallowFirst(a.dir, b.dir)
  }

  lemma ShallowFirstIsTotalOrder()
    ensures WeakOrder(ShallowFirst)
    ensures forall a, b :: a != b ==> ShallowFirst(a, b) || ShallowFirst(b, a)
  {
    StrLessIsTotalOrder();
  }

  ghost predicate Holding(docs: seq<Doc>, dir: string) {
    Filter(docs, IsBelow(dir)) != []
  }

  /** Every directory above some document, once, shallowest first, with its evidence. */
  ghost predicate Observes(docs: seq<Doc>, obs: seq<Observation>) {
    && StrictlySorted(ShallowerThan, obs)
    && (forall i :: 0 <= i < |obs| ==> obs[i] == ObservationOf(docs, obs[i].dir) && Holding(docs, obs[i].dir))
    && (forall dir :: Holding(docs, dir) ==> ObservationOf(docs, dir) in obs)
  }

  function Listed(m: map<string, seq<Doc>>, dir: string): seq<Doc> {
    if dir in m then m[dir] else []
  }

  lemma {:induction false} UpwardDistinct(dir: string)
    ensures Distinct(Upward(dir))
    decreases Rank(dir)
  {
    if !Stops(dir) {
      UpwardDistinct(Dir(dir));
      assert forall d :: d in Upward(Dir(dir)) ==> d != dir by {
        assert !Stops(Dir(dir)) ==> |Dir(dir)| < |dir|;
      }
    }
  }

  method AddToEach(m: map<string, seq<Doc>>, dirs: seq<string>, d: Doc) returns (r: map<string, seq<Doc>>)
    requires Distinct(dirs)
    ensures forall dir :: Listed(r, dir) == Listed(m, dir) + (if dir in dirs then [d] else [])
    ensures forall dir :: dir in r <==> dir in m || dir in dirs
  {
    r := m;
    for i := 0 to |dirs|
      invariant forall dir :: AddedTo(m, r, dirs[..i], d, dir)
    {
      assert dirs[i] !in dirs[..i];
      ghost var before := r;
      r := r[dirs[i] := Listed(r, dirs[i]) + [d]];
      AddedNext(m, before, r, dirs[..i], dirs[i], d);
      assert dirs[..i + 1] == dirs[..i] + [dirs[i]];
    }
    assert dirs[..|dirs|] == dirs;
    forall dir ensures Listed(r, dir) == Listed(m, dir) + (if dir in dirs then [d] else []) && (dir in r <==> dir in m || dir in dirs) {
      assert AddedTo(m, r, dirs, d, dir);
    }
  }

  /** The document is listed once more for the directory if it is among those done. */
  predicate AddedTo(m: map<string, seq<Doc>>, r: map<string, seq<Doc>>, done: seq<string>, d: Doc, dir: string) {
    && Listed(r, dir) == Listed(m, dir) + (if dir in done then [d] else [])
    && (dir in r <==> dir in m || dir in done)
  }

  lemma AddedNext(m: map<string, seq<Doc>>, r: map<string, seq<Doc>>, more: map<string, seq<Doc>>, done: seq<string>, next: string, d: Doc)
    requires next !in done && more == r[next := Listed(r, next) + [d]] && forall dir :: AddedTo(m, r, done, d, dir)
    ensures forall dir :: AddedTo(m, more, done + [next], d, dir)
  {
    var upTo := done + [next];
    forall dir ensures AddedTo(m, more, upTo, d, dir) {
      assert AddedTo(m, r, done, d, dir);
    }
  }

  ghost predicate MembersOf(docs: seq<Doc>, members: map<string, seq<Doc>>) {
    && (forall dir :: Listed(members, dir) == Filter(docs, IsBelow(dir)))
    && (forall dir :: dir in members ==> Listed(members, dir) != [])
  }

  ghost predicate DirectOf(docs: seq<Doc>, direct: map<string, seq<Doc>>) {
    forall dir :: dir != "." ==> Listed(direct, dir) == Filter(docs, IsIn(dir))
  }

  method CollectMember(members: map<string, seq<Doc>>, d: Doc, ghost docs: seq<Doc>) returns (r: map<string, seq<Doc>>)
    requires MembersOf(docs, members)
    ensures MembersOf(docs + [d], r)
  {
    var up := Ancestors(d.path);
    UpwardDistinct(Dir(d.path));
    r := AddToEach(members, up, d);
    forall dir ensures Listed(r, dir) == Filter(docs + [d], IsBelow(dir)) {
      FilterAppend(docs, d, IsBelow(dir));
    }
  }

  method CollectDirect(direct: map<string, seq<Doc>>, d: Doc, ghost docs: seq<Doc>) returns (r: map<string, seq<Doc>>)
    requires DirectOf(docs, direct)
    ensures DirectOf(docs + [d], r)
  {
    r := direct;
    var parent := Dir(d.path);
    if parent != "." {
      r := r[parent := Listed(r, parent) + [d]];
    }
    forall dir | dir != "." ensures Listed(r, dir) == Filter(docs + [d], IsIn(dir)) {
      FilterAppend(docs, d, IsIn(dir));
    }
  }

  method Collect(docs: seq<Doc>) returns (members: map<string, seq<Doc>>, direct: map<string, seq<Doc>>)
    ensures MembersOf(docs, members) && DirectOf(docs, direct)
  {
    members, direct := map[], map[];
    for i := 0 to |docs|
      invariant MembersOf(docs[..i], members) && DirectOf(docs[..i], direct)
    {
      assert docs[..i + 1] == docs[..i] + [docs[i]];
      members := CollectMember(members, docs[i], docs[..i]);
      direct := CollectDirect(direct, docs[i], docs[..i]);
    }
    assert docs[..|docs|] == docs;
  }

  method CountUnknown(docs: seq<Doc>) returns (n: nat)
    ensures n == UnknownIn(docs)
  {
    n := 0;
    for i := 0 to |docs|
      invariant n == UnknownIn(docs[..i])
    {
      FilterStep(docs, i, IsUnknown());
      if docs[i].docType == Unknown {
        n := n + 1;
      }
    }
    assert docs[..|docs|] == docs;
  }

  method SortedDirectories(members: map<string, seq<Doc>>) returns (dirs: seq<string>)
    ensures StrictlySorted(ShallowFirst, dirs)
    ensures forall dir :: dir in dirs <==> dir in members
  {
    var found: seq<string> := [];
    var todo := members.Keys;
    while todo != {}
      invariant Distinct(found)
      invariant todo <= members.Keys
      invariant forall dir :: dir in found <==> dir in members && dir !in todo
    {
      var dir :| dir in todo;
      found := found + [dir];
      todo := todo - {dir};
    }
    ShallowFirstIsTotalOrder();
    dirs := SortSlice(found, ShallowFirst);
    PermutationMembers(dirs, found);
    DistinctPermutation(found, dirs);
    SortedDistinctIsStrict(ShallowFirst, dirs);
  }

  method Observe(docs: seq<Doc>, dir: string, members: map<string, seq<Doc>>, direct: map<string, seq<Doc>>)
    returns (ob: Observation)
    requires MembersOf(docs, members) && DirectOf(docs, direct) && dir in members
    ensures ob == ObservationOf(docs, dir)
  {
    assert Listed(members, dir) == Filter(docs, IsBelow(dir));
    HoldingIsProper(docs, dir);
    var unknown := CountUnknown(members[dir]);
    ob := Observation(dir, members[dir], Listed(direct, dir), unknown);
  }

  ghost function Observations(docs: seq<Doc>, dirs: seq<string>): seq<Observation> {
    if dirs == [] then []
    else Observations(docs, dirs[..|dirs| - 1]) + [ObservationOf(docs, dirs[|dirs| - 1])]
  }

  method GroupByDirectory(docs: seq<Doc>) returns (obs: seq<Observation>)
    ensures Observes(docs, obs)
  {
    var members, direct := Collect(docs);
    var dirs := SortedDirectories(members);
    obs := [];
    for i := 0 to |dirs|
      invariant obs == Observations(docs, dirs[..i])
    {
      ObservationsStep(docs, dirs, i);
      var ob := Observe(docs, dirs[i], members, direct);
      obs := obs + [ob];
    }
    assert dirs[..|dirs|] == dirs;
    MembersHold(docs, members);
    GroupedInOrder(docs, dirs);
  }

  lemma ObservationsStep(docs: seq<Doc>, dirs: seq<string>, i: nat)
    requires i < |dirs|
    ensures Observations(docs, dirs[..i + 1]) == Observations(docs, dirs[..i]) + [ObservationOf(docs, dirs[i])]
  {
    assert dirs[..i + 1][..i] == dirs[..i];
  }

  lemma {:induction false} ObservationAt(docs: seq<Doc>, dirs: seq<string>, k: nat)
    requires k < |dirs|
    ensures |Observations(docs, dirs)| == |dirs| && Observations(docs, dirs)[k] == ObservationOf(docs, dirs[k])
  {
    var n := |dirs| - 1;
    if k < n {
      ObservationAt(docs, dirs[..n], k);
    } else if n > 0 {
      ObservationAt(docs, dirs[..n], 0);
    }
  }

  lemma MembersHold(docs: seq<Doc>, members: map<string, seq<Doc>>)
    requires MembersOf(docs, members)
    ensures forall dir :: dir in members <==> Holding(docs, dir)
  {
    forall dir ensures dir in members <==> Holding(docs, dir) {
      assert Listed(members, dir) == Filter(docs, IsBelow(dir));
    }
  }

  lemma GroupedInOrder(docs: seq<Doc>, dirs: seq<string>)
    requires StrictlySorted(ShallowFirst, dirs)
    requires forall dir :: dir in dirs <==> Holding(docs, dir)
    ensures Observes(docs, Observations(docs, dirs))
  {
    var obs := Observations(docs, dirs);
    assert |obs| == |dirs| by {
      if dirs != [] {
        ObservationAt(docs, dirs, 0);
      }
    }
    forall k | 0 <= k < |dirs| ensures obs[k] == ObservationOf(docs, dirs[k]) && Holding(docs, dirs[k]) {
      ObservationAt(docs, dirs, k);
      assert dirs[k] in dirs;
    }
    forall dir | Holding(docs, dir) ensures ObservationOf(docs, dir) in obs {
      assert dir in dirs;
      var k :| 0 <= k < |dirs| && dirs[k] == dir;
      assert obs[k] == ObservationOf(docs, dir);
    }
  }

  lemma HoldingIsProper(docs: seq<Doc>, dir: string)
    requires Holding(docs, dir)
    ensures !Stops(dir)
  {
    var d := Filter(docs, IsBelow(dir))[0];
    FilterMembers(docs, IsBelow(dir), d);
  }

  // ----- the walk over the directories

  lemma ParentShallower(dir: string)
    requires !Stops(dir) && !Stops(Dir(dir))
    ensures Depth(Dir(dir)) < Depth(dir)
  {
    var k := AfterLast(dir, '/');
    DepthGrows(dir, k - 1, k);
    DepthGrows(dir, k, |dir|);
    assert dir[..|dir|] == dir;
  }

  lemma {:induction false} DepthGrows(s: string, i: nat, j: nat)
    requires i <= j <= |s|
    ensures Depth(s[..i]) <= Depth(s[..j])
    ensures i < j && s[j - 1] == '/' ==> Depth(s[..i]) < Depth(s[..j])
    decreases j
  {
    if i < j {
      assert s[..j][..j - 1] == s[..j - 1];
      DepthGrows(s, i, j - 1);
    }
  }

  lemma {:induction false} AboveIsShallower(dir: string, up: string)
    requires !Stops(dir) && up in Upward(Dir(dir))
    ensures Depth(up) < Depth(dir)
    decreases Rank(dir)
  {
    ParentShallower(dir);
    if up != Dir(dir) {
      AboveIsShallower(Dir(dir), up);
    }
  }

  lemma {:induction false} AboveIsAbove(from: string, dir: string, up: string)
    requires dir in Upward(from) && up in Upward(Dir(dir))
    ensures up in Upward(from)
    decreases Rank(from)
  {
    if dir != from {
      AboveIsAbove(Dir(from), dir, up);
    }
  }

  lemma AboveHolds(docs: seq<Doc>, dir: string, up: string)
    requires Holding(docs, dir) && up in Upward(Dir(dir))
    ensures Holding(docs, up)
  {
    var d := Filter(docs, IsBelow(dir))[0];
    FilterMembers(docs, IsBelow(dir), d);
    AboveIsAbove(Dir(d.path), dir, up);
    FilterMembers(docs, IsBelow(up), d);
  }

  function Dirs(obs: seq<Observation>): (dirs: seq<string>)
    ensures |dirs| == |obs| && forall i :: 0 <= i < |obs| ==> dirs[i] == obs[i].dir
  {
    seq(|obs|, i requires 0 <= i < |obs| => obs[i].dir)
  }

  lemma AboveComesFirst(docs: seq<Doc>, obs: seq<Observation>, i: nat, up: string)
    requires Observes(docs, obs) && i < |obs|
    requires up in Upward(Dir(obs[i].dir))
    ensures up in Dirs(obs)[..i]
  {
    HoldingIsProper(docs, obs[i].dir);
    AboveHolds(docs, obs[i].dir, up);
    AboveIsShallower(obs[i].dir, up);
    assert ObservationOf(docs, up) in obs;
    var k :| 0 <= k < |obs| && obs[k] == ObservationOf(docs, up);
    assert i < k ==> ShallowerThan(obs[i], obs[k]);
    assert Dirs(obs)[k] == up && k < i;
  }

  ghost predicate Remembers(docs: seq<Doc>, claimed: map<string, DocType>, dir: string) {
    && (dir in claimed <==> Claims(docs, dir))
    && (dir in claimed ==> Claim(docs, dir) == Some(claimed[dir]))
  }

  /** `coveredByAncestor`. */
  method CoveredByAncestor(dir: string, claimed: map<string, DocType>, ghost docs: seq<Doc>) returns (r: Option<string>)
    requires forall up :: up in Upward(Dir(dir)) ==> Remembers(docs, claimed, up)
    ensures r == Nearest(docs, Dir(dir))
  {
    var parent := Dir(dir);
    while !Stops(parent)
      invariant Nearest(docs, Dir(dir)) == Nearest(docs, parent)
      invariant forall up :: up in Upward(parent) ==> Remembers(docs, claimed, up)
      decreases Rank(parent)
    {
      assert parent in Upward(parent);
      if parent in claimed {
        return Some(parent);
      }
      parent := Dir(parent);
    }
    return None;
  }

  ghost function ProposedAmong(docs: seq<Doc>, dirs: seq<string>): seq<Proposed> {
    if dirs == [] then []
    else
      var dir := dirs[|dirs| - 1];
      ProposedAmong(docs, dirs[..|dirs| - 1]) + (if Claims(docs, dir) then [ProposedFor(docs, dir, 0)] else [])
  }

  ghost function SkippedAmong(docs: seq<Doc>, dirs: seq<string>): seq<Skipped> {
    if dirs == [] then []
    else
      var dir := dirs[|dirs| - 1];
      SkippedAmong(docs, dirs[..|dirs| - 1]) + (if PassedOver(docs, dir) then [SkippedFor(docs, dir)] else [])
  }

  datatype Verdict = Nothing | Report(s: Skipped) | Offer(m: Proposed)

  /** The verdict on a directory is the one its claim decides. */
  ghost predicate Right(docs: seq<Doc>, dir: string, v: Verdict) {
    match v
    case Nothing => !Claims(docs, dir) && !PassedOver(docs, dir)
    case Report(s) => PassedOver(docs, dir) && s == SkippedFor(docs, dir)
    case Offer(m) => Claims(docs, dir) && m == ProposedFor(docs, dir, 0)
  }

  lemma IdentifiedRight(docs: seq<Doc>, dir: string, held: Identified)
    requires Identifies(dir, Filter(docs, IsIn(dir)), held)
    ensures held == Identify(docs, dir)
  {
    IdentifyIdentifies(docs, dir);
    IdentifiesOnce(dir, Filter(docs, IsIn(dir)), held, Identify(docs, dir));
  }

  method IdentifyObserved(ob: Observation, ghost docs: seq<Doc>) returns (held: Identified)
    requires ob == ObservationOf(docs, ob.dir)
    ensures held == Identify(docs, ob.dir)
  {
    held := IdentifyDirectory(ob.dir, ob.direct);
    IdentifiedRight(docs, ob.dir, held);
  }

  /** The body of `Propose`'s main loop. */
  method Judge(ob: Observation, claimed: map<string, DocType>, ghost docs: seq<Doc>) returns (v: Verdict)
    requires ob == ObservationOf(docs, ob.dir) && !Stops(ob.dir)
    requires forall up :: up in Upward(Dir(ob.dir)) ==> Remembers(docs, claimed, up)
    ensures Right(docs, ob.dir, v)
  {
    if ob.unknown == 0 {
      return Nothing;
    }
    var held := IdentifyObserved(ob, docs);
    if held.Unclear? {
      return Report(Skipped(Pattern(ob.dir), Because(held.reason), ob.unknown));
    }
    var parent := CoveredByAncestor(ob.dir, claimed, docs);
    NearestClaims(docs, Dir(ob.dir));
    if parent.Some? && claimed[parent.value] == held.t {
      return Report(Skipped(Pattern(ob.dir), CoveredBy(Pattern(parent.value)), ob.unknown));
    }
    return Offer(Proposed(Pattern(ob.dir), held.t, held.evidence, 0));
  }

  /** `claimed` holds exactly the claims of the directories seen so far. */
  ghost predicate Recalls(docs: seq<Doc>, claimed: map<string, DocType>, dirs: seq<string>) {
    && (forall d :: d in dirs ==> Remembers(docs, claimed, d))
    && (forall d :: d in claimed ==> d in dirs)
  }

  lemma RecallNext(docs: seq<Doc>, claimed: map<string, DocType>, dirs: seq<string>, dir: string, after: map<string, DocType>)
    requires Recalls(docs, claimed, dirs) && dir !in dirs
    requires after == if Claims(docs, dir) then claimed[dir := Claim(docs, dir).value] else claimed
    ensures Recalls(docs, after, dirs + [dir])
  {
    forall d | d in dirs + [dir] ensures Remembers(docs, after, d) {
      if d != dir {
        assert Remembers(docs, claimed, d);
      } else {
        assert dir !in claimed;
      }
    }
  }

  method JudgeNext(docs: seq<Doc>, obs: seq<Observation>, i: nat, claimed: map<string, DocType>) returns (v: Verdict)
    requires Observes(docs, obs) && i < |obs|
    requires Recalls(docs, claimed, Dirs(obs)[..i])
    ensures Right(docs, obs[i].dir, v)
    ensures obs[i].dir !in Dirs(obs)[..i]
  {
    HoldingIsProper(docs, obs[i].dir);
    NewDirectory(obs, i, docs);
    forall up | up in Upward(Dir(obs[i].dir)) ensures Remembers(docs, claimed, up) {
      AboveComesFirst(docs, obs, i, up);
    }
    v := Judge(obs[i], claimed, docs);
  }

  /** What the loop knows once it has seen `dirs`. */
  ghost predicate Walked(docs: seq<Doc>, dirs: seq<string>, claimed: map<string, DocType>,
                         mappings: seq<Proposed>, skipped: seq<Skipped>) {
    Recalls(docs, claimed, dirs) && mappings == ProposedAmong(docs, dirs) && skipped == SkippedAmong(docs, dirs)
  }

  lemma WalkOn(docs: seq<Doc>, dirs: seq<string>, claimed: map<string, DocType>, mappings: seq<Proposed>,
               skipped: seq<Skipped>, i: nat, v: Verdict)
    requires i < |dirs| && Walked(docs, dirs[..i], claimed, mappings, skipped)
    requires dirs[i] !in dirs[..i] && Right(docs, dirs[i], v)
    ensures Walked(docs, dirs[..i + 1], if v.Offer? then claimed[dirs[i] := v.m.t] else claimed,
                   mappings + (if v.Offer? then [v.m] else []), skipped + (if v.Report? then [v.s] else []))
  {
    assert dirs[..i + 1] == dirs[..i] + [dirs[i]] && dirs[..i + 1][..i] == dirs[..i];
    RecallNext(docs, claimed, dirs[..i], dirs[i], if v.Offer? then claimed[dirs[i] := v.m.t] else claimed);
  }

  /** The main loop of `Propose`, shallowest directory first. */
  method Walk(docs: seq<Doc>, obs: seq<Observation>) returns (mappings: seq<Proposed>, skipped: seq<Skipped>)
    requires Observes(docs, obs)
    ensures mappings == ProposedAmong(docs, Dirs(obs))
    ensures skipped == SkippedAmong(docs, Dirs(obs))
  {
    mappings, skipped := [], [];
    var claimed: map<string, DocType> := map[];
    ghost var dirs := Dirs(obs);
    for i := 0 to |obs|
      invariant Walked(docs, dirs[..i], claimed, mappings, skipped)
    {
      var verdict := JudgeNext(docs, obs, i, claimed);
      WalkOn(docs, dirs, claimed, mappings, skipped, i, verdict);
      match verdict {
        case Nothing =>
        case Report(s) =>
          skipped := skipped + [s];
        case Offer(m) =>
          claimed := claimed[obs[i].dir := m.t];
          mappings := mappings + [m];
      }
    }
    assert dirs[..|obs|] == dirs;
  }

  lemma NewDirectory(obs: seq<Observation>, i: nat, docs: seq<Doc>)
    requires Observes(docs, obs) && i < |obs|
    ensures obs[i].dir !in Dirs(obs)[..i]
  {
    ShallowFirstIsTotalOrder();
    forall k | 0 <= k < i ensures Dirs(obs)[k] != obs[i].dir {
      assert ShallowerThan(obs[k], obs[i]);
    }
  }

  lemma {:induction false} NearestClaims(docs: seq<Doc>, dir: string)
    ensures Nearest(docs, dir).Some? ==> Nearest(docs, dir).value in Upward(dir) && Claims(docs, Nearest(docs, dir).value)
    decreases Rank(dir)
  {
    if !Stops(dir) && !Claims(docs, dir) {
      NearestClaims(docs, Dir(dir));
    }
  }
}
