/** Further theorems about proposals: which claim decides a document, that no
    directory is dropped, and that the order of the documents is immaterial. */
module ProposalScope {
  import opened Wrappers
  import opened Text
  import opened Sorting
  import opened Glob
  import opened Taxonomy
  import opened Proposal
  import opened Proposing
  import opened Measuring
  import opened ProposalTheorems

  // ----- ancestry is prefix order

  /** Neither rooted nor starting with the current directory. */
  predicate Relative(path: string) {
    !("/" <= path) && !("./" <= path)
  }

  lemma NoSlashNoDirectory(from: string, dir: string)
    requires AfterLast(from, '/') == 0
    ensures !(dir + "/" <= from)
  {
    assert (dir + "/")[|dir|] == '/';
  }

  lemma ParentIsProper(from: string)
    requires Relative(from) && AfterLast(from, '/') > 0
    ensures var up := from[..AfterLast(from, '/') - 1]; !Stops(up) && Relative(up) && up + "/" <= from
  {
    var k := AfterLast(from, '/');
    var up := from[..k - 1];
    assert from[..k] == up + "/";
    assert "." + "/" == "./" && "" + "/" == "/";
    assert up != "" && up[0] == from[0];
    assert "./" <= up ==> "./" <= from;
  }

  lemma {:induction false} UpwardIsPrefix(from: string, dir: string)
    requires Relative(from)
    ensures dir in Upward(from) <==> !Stops(from) && (dir == from || dir + "/" <= from)
    decreases Rank(from)
  {
    if !Stops(from) {
      var k := AfterLast(from, '/');
      if k == 0 {
        NoSlashNoDirectory(from, dir);
      } else {
        var up := from[..k - 1];
        ParentIsProper(from);
        UpwardIsPrefix(up, dir);
        PrefixThroughLastSlash(from, dir);
      }
    }
  }

  lemma PrefixThroughLastSlash(from: string, dir: string)
    requires AfterLast(from, '/') > 0
    ensures var up := from[..AfterLast(from, '/') - 1];
            dir + "/" <= from <==> dir == up || dir + "/" <= up
  {
    var k := AfterLast(from, '/');
    var up := from[..k - 1];
    if dir + "/" <= from {
      assert from[|dir|] == '/' && |dir| < k;
      assert from[..|dir|] == dir;
      if |dir| < k - 1 {
        assert up[..|dir| + 1] == from[..|dir| + 1];
      }
    }
    if dir == up {
      assert from[..k] == up + "/";
    }
  }

  /** On a relative path, "below" means "has the directory and a slash in front". */
  lemma UnderIsPrefix(path: string, dir: string)
    requires Relative(path)
    ensures Under(path, dir) <==> dir + "/" <= path
  {
    var k := AfterLast(path, '/');
    if k == 0 {
      NoSlashNoDirectory(path, dir);
    } else {
      var up := path[..k - 1];
      ParentIsProper(path);
      UpwardIsPrefix(up, dir);
      PrefixThroughLastSlash(path, dir);
    }
  }

  // ----- the deepest claim decides

  lemma {:induction false} NearestIsLongest(eff: seq<Doc>, from: string, dir: string)
    requires dir in Upward(from) && Claims(eff, dir)
    ensures Nearest(eff, from).Some?
    ensures dir == Nearest(eff, from).value || |dir| < |Nearest(eff, from).value|
    decreases Rank(from)
  {
    if !Claims(eff, from) {
      NearestIsLongest(eff, Dir(from), dir);
    }
  }

  /** The line of the deepest claiming directory above a document, if there is one. */
  ghost function DeepestLine(eff: seq<Doc>, path: string): Option<Mapping> {
    var near := Nearest(eff, Dir(path));
    if near.None? then None
    else if Claims(eff, near.value) then Some(LineFor(Pattern(near.value), Claim(eff, near.value).value))
    else None
  }

  /** Clean relative paths below directories without wildcards. */
  predicate PlainPaths(docs: seq<Doc>) {
    forall i :: 0 <= i < |docs| ==> Relative(docs[i].path) && Plain(Dir(docs[i].path))
  }

  lemma BelowPlainIsPlain(path: string, dir: string)
    requires Relative(path) && Plain(Dir(path)) && Under(path, dir)
    ensures Plain(dir)
  {
    UnderIsPrefix(path, dir);
    var from := Dir(path);
    assert (dir + "/")[|dir|] == '/' && path[|dir|] == '/';
    assert |dir| <= |from|;
    assert forall i :: 0 <= i < |dir| ==> dir[i] == (dir + "/")[i] == path[i] == from[i];
  }

  lemma ClaimIsPlain(eff: seq<Doc>, dir: string)
    requires Claims(eff, dir) && PlainPaths(eff)
    ensures Plain(dir)
  {
    var below := Filter(eff, IsBelow(dir));
    FilterMembers(eff, IsBelow(dir), below[0]);
    var k :| 0 <= k < |eff| && eff[k] == below[0];
    BelowPlainIsPlain(eff[k].path, dir);
  }

  /** A claimed line matches exactly the paths under its directory. */
  lemma ClaimMatches(eff: seq<Doc>, dir: string, path: string)
    requires Claims(eff, dir) && PlainPaths(eff) && Relative(path)
    ensures Matches(Pattern(dir), path) <==> Under(path, dir)
  {
    ClaimIsPlain(eff, dir);
    DirectoryMatches(dir, path);
    UnderIsPrefix(path, dir);
  }

  lemma MatchingDirectory(eff: seq<Doc>, dir: string, path: string)
    requires PlainPaths(eff) && Relative(path) && Claims(eff, dir) && Matches(Pattern(dir), path)
    ensures var near := Nearest(eff, Dir(path));
            near.Some? && Claims(eff, near.value) && (dir == near.value || |Pattern(dir)| < |Pattern(near.value)|)
  {
    ClaimMatches(eff, dir, path);
    NearestIsLongest(eff, Dir(path), dir);
    NearestClaims(eff, Dir(path));
  }

  lemma MatchingClaim(eff: seq<Doc>, m: Mapping, path: string)
    requires PlainPaths(eff) && Relative(path)
    requires NewLine(eff, [], m) && Matches(m.pattern, path)
    ensures DeepestLine(eff, path).Some?
    ensures m == DeepestLine(eff, path).value || Outranks(DeepestLine(eff, path).value, m)
  {
    var dir :| Claims(eff, dir) && m == LineFor(Pattern(dir), Claim(eff, dir).value);
    MatchingDirectory(eff, dir, path);
    DeepestOutranks(eff, dir, path, m);
  }

  lemma DeepestOutranks(eff: seq<Doc>, dir: string, path: string, m: Mapping)
    requires Claims(eff, dir) && m == LineFor(Pattern(dir), Claim(eff, dir).value)
    requires var near := Nearest(eff, Dir(path));
             near.Some? && Claims(eff, near.value) && (dir == near.value || |Pattern(dir)| < |Pattern(near.value)|)
    ensures DeepestLine(eff, path).Some?
    ensures m == DeepestLine(eff, path).value || Outranks(DeepestLine(eff, path).value, m)
  {
    var near := Nearest(eff, Dir(path)).value;
    LongerOutranks(LineFor(Pattern(near), Claim(eff, near).value), m);
  }

  lemma LongerOutranks(a: Mapping, b: Mapping)
    ensures |a.pattern| > |b.pattern| ==> Outranks(a, b)
  {
  }

  lemma DeepestLineMatches(eff: seq<Doc>, path: string)
    requires PlainPaths(eff) && Relative(path) && DeepestLine(eff, path).Some?
    ensures NewLine(eff, [], DeepestLine(eff, path).value) && Matches(DeepestLine(eff, path).value.pattern, path)
  {
    var near := Nearest(eff, Dir(path)).value;
    assert !DeclaredPattern([], Pattern(near));
    NearestClaims(eff, Dir(path));
    ClaimMatches(eff, near, path);
  }

  lemma DeepestIsMostSpecific(eff: seq<Doc>, rules: seq<Mapping>, path: string)
    requires PlainPaths(eff) && Relative(path)
    requires StrictlySorted(Outranks, rules) && forall m :: m in rules <==> NewLine(eff, [], m)
    ensures Decides(rules, path) == DeepestLine(eff, path)
  {
    FirstMatchIsMostSpecific(rules, path);
    forall m | m in rules && Matches(m.pattern, path)
      ensures DeepestLine(eff, path).Some? && (m == DeepestLine(eff, path).value || Outranks(DeepestLine(eff, path).value, m))
    {
      MatchingClaim(eff, m, path);
    }
    if DeepestLine(eff, path).Some? {
      DeepestLineMatches(eff, path);
      MostSpecificIsDecisive(rules, path, DeepestLine(eff, path).value);
    }
  }

  /** With no taxonomy to start from, each document is given the type claimed by its deepest
      proposed ancestor directory, and nothing when no ancestor was proposed for. */
  lemma DeepestClaimDecides(docs: seq<Doc>, decode: Decoder, p: Result, lines: seq<Mapping>,
                            tax: Option<seq<Mapping>>, path: string)
    requires IsProposal(docs, [], decode, p, lines, tax) && p.unknownBefore > 0 && Faithful(decode, lines)
    requires PlainPaths(docs) && Relative(path)
    ensures tax.Some? && Decides(tax.value, path) == DeepestLine(Effective(docs, []), path)
  {
    var eff := Effective(docs, []);
    ReadingIsMerged(eff, [], decode, lines, tax);
    DeepestIsMostSpecific(eff, tax.value, path);
  }

  lemma {:induction false} NearestThrough(eff: seq<Doc>, from: string, dir: string)
    requires dir in Upward(from)
    ensures var near := Nearest(eff, from);
            near == Nearest(eff, dir) || (near.Some? && dir in Upward(Dir(near.value)))
    decreases Rank(from)
  {
    if dir != from && !Claims(eff, from) {
      NearestThrough(eff, Dir(from), dir);
    }
  }

  /** A directory skipped as already covered loses no classification: below it a deeper
      claim decides, or the covering claim, which says what the directory would have said. */
  lemma CoveredLosesNothing(eff: seq<Doc>, dir: string, path: string)
    requires PassedOver(eff, dir) && Identify(eff, dir).Holds? && Under(path, dir)
    ensures DeepestLine(eff, path).Some?
    ensures var near := Nearest(eff, Dir(path)).value;
            dir in Upward(Dir(near)) || DeepestLine(eff, path).value.docType == Identify(eff, dir).t
  {
    NearestThrough(eff, Dir(path), dir);
    NearestClaims(eff, Dir(path));
  }

  // ----- every directory is accounted for

  /** Some document beneath the directory is still unknown. */
  ghost predicate Gains(eff: seq<Doc>, dir: string) {
    exists d :: d in eff && d.docType == Unknown && Under(d.path, dir)
  }

  lemma GainsCounted(eff: seq<Doc>, dir: string)
    ensures Gains(eff, dir) <==> UnknownBelow(eff, dir) > 0
    ensures Gains(eff, dir) ==> !Stops(dir)
  {
    var below := Filter(eff, IsBelow(dir));
    if d :| d in eff && d.docType == Unknown && Under(d.path, dir) {
      FilterMembers(eff, IsBelow(dir), d);
      FilterMembers(below, IsUnknown(), d);
    }
    if UnknownBelow(eff, dir) > 0 {
      var d := Filter(below, IsUnknown())[0];
      FilterMembers(below, IsUnknown(), d);
      FilterMembers(eff, IsBelow(dir), d);
    }
  }

  function ProposedPatterns(mappings: seq<Proposed>): (r: seq<string>)
    ensures |r| == |mappings| && forall i :: 0 <= i < |r| ==> r[i] == mappings[i].pattern
  {
    seq(|mappings|, i requires 0 <= i < |mappings| => mappings[i].pattern)
  }

  function SkippedPatterns(skipped: seq<Skipped>): (r: seq<string>)
    ensures |r| == |skipped| && forall i :: 0 <= i < |r| ==> r[i] == skipped[i].pattern
  {
    seq(|skipped|, i requires 0 <= i < |skipped| => skipped[i].pattern)
  }

  lemma ProposedOnce(eff: seq<Doc>, mappings: seq<Proposed>, credit: string -> nat, dir: string)
    requires MappingsRight(eff, mappings, credit)
    ensures multiset(ProposedPatterns(mappings))[Pattern(dir)] == if Claims(eff, dir) then 1 else 0
  {
    StrLessIsTotalOrder();
    var patterns := ProposedPatterns(mappings);
    forall i, j | 0 <= i < j < |patterns| ensures patterns[i] != patterns[j] {
      assert ByProposedPattern(mappings[i], mappings[j]);
    }
    DistinctCount(patterns, Pattern(dir));
    if Pattern(dir) in patterns {
      var k :| 0 <= k < |patterns| && patterns[k] == Pattern(dir);
      assert mappings[k] in mappings;
      var other :| Claims(eff, other) && mappings[k] == ProposedFor(eff, other, credit(Pattern(other)));
      PatternInjective(dir, other);
    }
    if Claims(eff, dir) {
      assert ProposedFor(eff, dir, credit(Pattern(dir))) in mappings;
      var k :| 0 <= k < |mappings| && mappings[k] == ProposedFor(eff, dir, credit(Pattern(dir)));
      assert patterns[k] == Pattern(dir);
    }
  }

  lemma SkippedOnce(eff: seq<Doc>, skipped: seq<Skipped>, dir: string)
    requires SkippedRight(eff, skipped)
    ensures multiset(SkippedPatterns(skipped))[Pattern(dir)] == if PassedOver(eff, dir) then 1 else 0
  {
    StrLessIsTotalOrder();
    var patterns := SkippedPatterns(skipped);
    forall i, j | 0 <= i < j < |patterns| ensures patterns[i] != patterns[j] {
      assert BySkippedPattern(skipped[i], skipped[j]);
    }
    DistinctCount(patterns, Pattern(dir));
    if Pattern(dir) in patterns {
      var k :| 0 <= k < |patterns| && patterns[k] == Pattern(dir);
      assert skipped[k] in skipped;
      var other :| PassedOver(eff, other) && skipped[k] == SkippedFor(eff, other);
      PatternInjective(dir, other);
    }
    if PassedOver(eff, dir) {
      assert SkippedFor(eff, dir) in skipped;
      var k :| 0 <= k < |skipped| && skipped[k] == SkippedFor(eff, dir);
      assert patterns[k] == Pattern(dir);
    }
  }

  /** Whenever the file reads back, every directory with an unknown document beneath it
      appears exactly once in the report, proposed or skipped, and no other does. */
  lemma EveryDirectoryReported(docs: seq<Doc>, existing: seq<Mapping>, decode: Decoder, p: Result,
                               lines: seq<Mapping>, tax: Option<seq<Mapping>>, dir: string)
    requires IsProposal(docs, existing, decode, p, lines, tax) && tax.Some?
    ensures multiset(ProposedPatterns(p.mappings))[Pattern(dir)] + multiset(SkippedPatterns(p.skipped))[Pattern(dir)]
            == if Gains(Effective(docs, existing), dir) then 1 else 0
  {
    var eff := Effective(docs, existing);
    ProposedOnce(eff, p.mappings, CreditIn(eff, tax.value), dir);
    SkippedOnce(eff, p.skipped, dir);
    GainsCounted(eff, dir);
  }

  // ----- the order of the documents

  lemma {:induction false} FilterCount<T>(xs: seq<T>, keep: T -> bool, y: T)
    ensures multiset(Filter(xs, keep))[y] == if keep(y) then multiset(xs)[y] else 0
  {
    if xs == [] {
    } else {
      var n := |xs| - 1;
      assert xs == xs[..n] + [xs[n]];
      FilterCount(xs[..n], keep, y);
    }
  }

  lemma FilterPermutation<T(!new)>(xs: seq<T>, ys: seq<T>, keep: T -> bool)
    requires multiset(xs) == multiset(ys)
    ensures multiset(Filter(xs, keep)) == multiset(Filter(ys, keep))
    ensures |Filter(xs, keep)| == |Filter(ys, keep)|
  {
    forall y ensures multiset(Filter(xs, keep))[y] == multiset(Filter(ys, keep))[y] {
      FilterCount(xs, keep, y);
      FilterCount(ys, keep, y);
    }
    PermutationMembers(Filter(xs, keep), Filter(ys, keep));
  }

  lemma SameFrontMatter(xs: seq<Doc>, ys: seq<Doc>)
    requires multiset(xs) == multiset(ys)
    ensures FrontMatter(xs) == FrontMatter(ys) && TypedIn(xs) == TypedIn(ys)
  {
    FilterPermutation(xs, ys, IsTyped());
    forall t ensures Majority(xs, t) <==> Majority(ys, t) {
      FilterPermutation(xs, ys, HasType(t));
    }
    forall t, u | Majority(xs, t) && Majority(xs, u) ensures t == u {
      MajorityUnique(xs, t, u);
    }
  }

  lemma {:induction false} SameClaims(xs: seq<Doc>, ys: seq<Doc>, dir: string)
    requires multiset(xs) == multiset(ys)
    ensures Claim(xs, dir) == Claim(ys, dir)
    ensures UnknownBelow(xs, dir) == UnknownBelow(ys, dir) && Identify(xs, dir) == Identify(ys, dir)
    decreases Rank(dir), 0
  {
    FilterPermutation(xs, ys, IsBelow(dir));
    FilterPermutation(Filter(xs, IsBelow(dir)), Filter(ys, IsBelow(dir)), IsUnknown());
    FilterPermutation(xs, ys, IsIn(dir));
    SameFrontMatter(Filter(xs, IsIn(dir)), Filter(ys, IsIn(dir)));
    if !Stops(dir) {
      SameNearest(xs, ys, Dir(dir));
      var near := Nearest(xs, Dir(dir));
      if near.Some? {
        SameClaims(xs, ys, near.value);
      }
    }
  }

  lemma {:induction false} SameNearest(xs: seq<Doc>, ys: seq<Doc>, dir: string)
    requires multiset(xs) == multiset(ys)
    ensures Nearest(xs, dir) == Nearest(ys, dir)
    decreases Rank(dir), 1
  {
    if !Stops(dir) {
      SameClaims(xs, ys, dir);
      SameNearest(xs, ys, Dir(dir));
    }
  }

  lemma SameReports(xs: seq<Doc>, ys: seq<Doc>)
    requires multiset(xs) == multiset(ys)
    ensures forall dir :: Claims(xs, dir) <==> Claims(ys, dir)
    ensures forall dir, n :: Claims(xs, dir) ==> ProposedFor(xs, dir, n) == ProposedFor(ys, dir, n)
    ensures forall dir :: PassedOver(xs, dir) <==> PassedOver(ys, dir)
    ensures forall dir :: PassedOver(xs, dir) ==> SkippedFor(xs, dir) == SkippedFor(ys, dir)
  {
    forall dir
      ensures Claim(xs, dir) == Claim(ys, dir) && UnknownBelow(xs, dir) == UnknownBelow(ys, dir)
      ensures Identify(xs, dir) == Identify(ys, dir) && Nearest(xs, dir) == Nearest(ys, dir)
    {
      SameClaims(xs, ys, dir);
      SameNearest(xs, ys, dir);
    }
  }

  lemma SameSkipped(xs: seq<Doc>, ys: seq<Doc>, a: seq<Skipped>, b: seq<Skipped>)
    requires multiset(xs) == multiset(ys) && SkippedRight(xs, a) && SkippedRight(ys, b)
    ensures a == b
  {
    SameReports(xs, ys);
    StrLessIsTotalOrder();
    forall s ensures s in a <==> s in b {
      if dir :| PassedOver(xs, dir) && s == SkippedFor(xs, dir) {
        assert PassedOver(ys, dir) && s == SkippedFor(ys, dir);
      }
      if dir :| PassedOver(ys, dir) && s == SkippedFor(ys, dir) {
        assert PassedOver(xs, dir) && s == SkippedFor(xs, dir);
      }
    }
    StrictlySortedUnique(BySkippedPattern, a, b);
  }

  lemma SameMappings(xs: seq<Doc>, ys: seq<Doc>, a: seq<Proposed>, b: seq<Proposed>, cx: string -> nat, cy: string -> nat)
    requires multiset(xs) == multiset(ys) && MappingsRight(xs, a, cx) && MappingsRight(ys, b, cy)
    requires forall pattern :: cx(pattern) == cy(pattern)
    ensures a == b
  {
    SameReports(xs, ys);
    StrLessIsTotalOrder();
    forall m ensures m in a <==> m in b {
      if dir :| Claims(xs, dir) && m == ProposedFor(xs, dir, cx(Pattern(dir))) {
        assert Claims(ys, dir) && m == ProposedFor(ys, dir, cy(Pattern(dir)));
      }
      if dir :| Claims(ys, dir) && m == ProposedFor(ys, dir, cy(Pattern(dir))) {
        assert Claims(xs, dir) && m == ProposedFor(xs, dir, cx(Pattern(dir)));
      }
    }
    StrictlySortedUnique(ByProposedPattern, a, b);
  }

  lemma SameLines(xs: seq<Doc>, ys: seq<Doc>, existing: seq<Mapping>, a: seq<Mapping>, b: seq<Mapping>)
    requires multiset(xs) == multiset(ys) && IsMergedFile(xs, existing, a) && IsMergedFile(ys, existing, b)
    ensures a == b
  {
    forall dir ensures Claim(xs, dir) == Claim(ys, dir) {
      SameClaims(xs, ys, dir);
    }
    StrLessIsTotalOrder();
    forall m ensures NewLine(xs, existing, m) <==> NewLine(ys, existing, m) {
      if dir :| Claims(xs, dir) && m == LineFor(Pattern(dir), Claim(xs, dir).value) && !DeclaredPattern(existing, Pattern(dir)) {
        assert Claims(ys, dir);
      }
      if dir :| Claims(ys, dir) && m == LineFor(Pattern(dir), Claim(ys, dir).value) && !DeclaredPattern(existing, Pattern(dir)) {
        assert Claims(xs, dir);
      }
    }
    StrictlySortedUnique(ByPattern, a, b);
  }

  function MapAll<A, B>(xs: seq<A>, f: A -> B): seq<B> {
    if xs == [] then [] else MapAll(xs[..|xs| - 1], f) + [f(xs[|xs| - 1])]
  }

  lemma {:induction false} MapSum<A, B>(xs: seq<A>, ys: seq<A>, f: A -> B)
    ensures MapAll(xs + ys, f) == MapAll(xs, f) + MapAll(ys, f)
    decreases |ys|
  {
    if ys == [] {
      assert xs + ys == xs;
    } else {
      assert (xs + ys)[..|xs + ys| - 1] == xs + ys[..|ys| - 1];
      MapSum(xs, ys[..|ys| - 1], f);
    }
  }

  function Without<A>(xs: seq<A>, k: nat): seq<A>
    requires k < |xs|
  {
    xs[..k] + xs[k + 1..]
  }

  lemma WithoutOne<A>(xs: seq<A>, k: nat)
    requires k < |xs|
    ensures multiset(Without(xs, k)) == multiset(xs) - multiset{xs[k]}
  {
    assert xs == xs[..k] + [xs[k]] + xs[k + 1..];
  }

  lemma MapOne<A, B>(x: A, f: A -> B)
    ensures MapAll([x], f) == [f(x)]
  {
    assert [x][..0] == [];
  }

  lemma MapAround<A, B>(before: seq<A>, x: A, after: seq<A>, f: A -> B)
    ensures MapAll(before + ([x] + after), f) == MapAll(before, f) + ([f(x)] + MapAll(after, f))
  {
    MapSum(before, [x] + after, f);
    MapSum([x], after, f);
    MapOne(x, f);
  }

  lemma MapWithout<A, B>(xs: seq<A>, k: nat, f: A -> B)
    requires k < |xs|
    ensures multiset(MapAll(xs, f)) == multiset(MapAll(Without(xs, k), f)) + multiset{f(xs[k])}
  {
    assert xs == xs[..k] + ([xs[k]] + xs[k + 1..]);
    MapAround(xs[..k], xs[k], xs[k + 1..], f);
    MapSum(xs[..k], xs[k + 1..], f);
  }

  lemma {:induction false} MapPermutation<A, B>(xs: seq<A>, ys: seq<A>, f: A -> B)
    requires multiset(xs) == multiset(ys)
    ensures multiset(MapAll(xs, f)) == multiset(MapAll(ys, f))
    decreases |xs|
  {
    PermutationMembers(xs, ys);
    if xs == [] {
    } else {
      assert xs[0] in ys;
      var k :| 0 <= k < |ys| && ys[k] == xs[0];
      WithoutOne(xs, 0);
      WithoutOne(ys, k);
      MapWithout(xs, 0, f);
      MapWithout(ys, k, f);
      MapPermutation(Without(xs, 0), Without(ys, k), f);
    }
  }

  ghost function Reclassify(existing: seq<Mapping>): Doc -> Doc {
    (d: Doc) => Doc(d.path, Classified(existing, d.path, d.docType))
  }

  function PathOf(): Doc -> string { (d: Doc) => d.path }

  lemma {:induction false} EffectiveIsMap(docs: seq<Doc>, existing: seq<Mapping>)
    ensures Effective(docs, existing) == MapAll(docs, Reclassify(existing))
  {
    if docs == [] {
    } else {
      var n := |docs| - 1;
      EffectiveIsMap(docs[..n], existing);
      assert Effective(docs, existing) == Effective(docs[..n], existing) + [Reclassify(existing)(docs[n])];
    }
  }

  lemma {:induction false} PathsIsMap(docs: seq<Doc>)
    ensures Paths(docs) == MapAll(docs, PathOf())
  {
    if docs == [] {
    } else {
      var n := |docs| - 1;
      PathsIsMap(docs[..n]);
      assert Paths(docs) == Paths(docs[..n]) + [docs[n].path];
    }
  }

  lemma SameCredit(xs: seq<Doc>, ys: seq<Doc>, rules: seq<Mapping>, pattern: string)
    requires multiset(xs) == multiset(ys)
    ensures CreditIn(xs, rules)(pattern) == CreditIn(ys, rules)(pattern)
  {
    FilterPermutation(xs, ys, Rescued(rules));
    PermutationMembers(Filter(xs, Rescued(rules)), Filter(ys, Rescued(rules)));
    assert PathSet(Filter(xs, Rescued(rules))) == PathSet(Filter(ys, Rescued(rules)));
  }

  lemma SameOverridden(docs: seq<Doc>, other: seq<Doc>, rules: seq<Mapping>, a: seq<string>, b: seq<string>)
    requires multiset(docs) == multiset(other)
    requires Sorted(StrLess, a) && multiset(a) == multiset(Paths(Filter(docs, Overrules(rules))))
    requires Sorted(StrLess, b) && multiset(b) == multiset(Paths(Filter(other, Overrules(rules))))
    ensures a == b
  {
    FilterPermutation(docs, other, Overrules(rules));
    var x, y := Filter(docs, Overrules(rules)), Filter(other, Overrules(rules));
    PathsIsMap(x);
    PathsIsMap(y);
    MapPermutation(x, y, PathOf());
    StrLessIsTotalOrder();
    SortedPermutationUnique(StrLess, a, b);
  }

  lemma SameReading(decode: Decoder, lines: seq<Mapping>, a: Option<seq<Mapping>>, b: Option<seq<Mapping>>)
    requires IsReading(decode, lines, a) && IsReading(decode, lines, b)
    ensures a == b
  {
    if a.Some? {
      DeclaredRulesUnique(decode(TextOf(lines)).value, a.value, b.value);
    }
  }

  lemma SameMeasure(docs: seq<Doc>, other: seq<Doc>, xs: seq<Doc>, ys: seq<Doc>, tax: Option<seq<Mapping>>, p: Result, q: Result)
    requires multiset(docs) == multiset(other) && multiset(xs) == multiset(ys)
    requires p.unknownBefore == q.unknownBefore
    requires IsMeasured(docs, xs, tax, p) && IsMeasured(other, ys, tax, q)
    ensures p.mappings == q.mappings && p.unknownAfter == q.unknownAfter && p.overridden == q.overridden
  {
    if tax.Some? {
      var rules := tax.value;
      FilterPermutation(xs, ys, Unclaimed(rules));
      forall pattern ensures CreditIn(xs, rules)(pattern) == CreditIn(ys, rules)(pattern) {
        SameCredit(xs, ys, rules, pattern);
      }
      SameMappings(xs, ys, p.mappings, q.mappings, CreditIn(xs, rules), CreditIn(ys, rules));
      SameOverridden(docs, other, rules, p.overridden, q.overridden);
    }
  }

  /** The same documents in any order give the same proposal, field for field, and so the
      loops' map iterations leave no trace in it. */
  lemma ProposalOrderIndependent(docs: seq<Doc>, other: seq<Doc>, existing: seq<Mapping>, decode: Decoder,
                                 p: Result, q: Result, pLines: seq<Mapping>, qLines: seq<Mapping>,
                                 pTax: Option<seq<Mapping>>, qTax: Option<seq<Mapping>>)
    requires multiset(docs) == multiset(other)
    requires IsProposal(docs, existing, decode, p, pLines, pTax)
    requires IsProposal(other, existing, decode, q, qLines, qTax)
    ensures p == q
  {
    var xs, ys := Effective(docs, existing), Effective(other, existing);
    PermutationMembers(docs, other);
    EffectiveIsMap(docs, existing);
    EffectiveIsMap(other, existing);
    MapPermutation(docs, other, Reclassify(existing));
    FilterPermutation(xs, ys, IsUnknown());
    FilterPermutation(xs, ys, AtRoot());
    if p.unknownBefore > 0 {
      SameLines(xs, ys, existing, pLines, qLines);
      SameReading(decode, pLines, pTax, qTax);
      SameSkipped(xs, ys, p.skipped, q.skipped);
      SameMeasure(docs, other, xs, ys, pTax, p, q);
    }
  }
}
