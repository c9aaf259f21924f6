/** `merged`, `measure` and `Propose` of `internal/taxonomy/propose.go`, and what a
    proposal is, without its loops: module `ProposalTheorems` reasons about that. */
module Measuring {
  import opened Wrappers
  import opened Text
  import opened Sorting
  import opened Taxonomy
  import opened TaxonomyFile
  import opened Proposal
  import opened Proposing

  // ----- the baseline

  /** The documents as the repository's own taxonomy already leaves them. */
  ghost function Effective(docs: seq<Doc>, existing: seq<Mapping>): (eff: seq<Doc>)
    ensures |eff| == |docs|
    ensures forall i :: 0 <= i < |docs| ==>
              eff[i] == Doc(docs[i].path, Classified(existing, docs[i].path, docs[i].docType))
  {
    seq(|docs|, i requires 0 <= i < |docs| => Doc(docs[i].path, Classified(existing, docs[i].path, docs[i].docType)))
  }

  method EffectiveDocs(docs: seq<Doc>, existing: seq<Mapping>) returns (eff: seq<Doc>)
    ensures eff == Effective(docs, existing)
  {
    eff := [];
    for i := 0 to |docs|
      invariant |eff| == i
      invariant forall k :: 0 <= k < i ==>
                  eff[k] == Doc(docs[k].path, Classified(existing, docs[k].path, docs[k].docType))
    {
      var t := ApplyTaxonomy(existing, docs[i].path, docs[i].docType);
      eff := eff + [Doc(docs[i].path, t)];
    }
  }

  function AtRoot(): Doc -> bool { (d: Doc) => d.docType == Unknown && Dir(d.path) == "." }

  method CountAtRoot(docs: seq<Doc>) returns (n: nat)
    ensures n == |Filter(docs, AtRoot())|
  {
    n := 0;
    for i := 0 to |docs|
      invariant n == |Filter(docs[..i], AtRoot())|
    {
      FilterStep(docs, i, AtRoot());
      if docs[i].docType == Unknown && Dir(docs[i].path) == "." {
        n := n + 1;
      }
    }
    assert docs[..|docs|] == docs;
  }

  // ----- merged

  function LinesOf(mappings: seq<Proposed>): (lines: seq<Mapping>)
    ensures |lines| == |mappings|
    ensures forall i :: 0 <= i < |mappings| ==> lines[i] == LineFor(mappings[i].pattern, mappings[i].t)
  {
    seq(|mappings|, i requires 0 <= i < |mappings| => LineFor(mappings[i].pattern, mappings[i].t))
  }

  /** The first line of each pattern. */
  ghost function FirstOfEach(lines: seq<Mapping>): seq<Mapping> {
    if lines == [] then []
    else
      var n := |lines| - 1;
      FirstOfEach(lines[..n]) + (if DeclaredPattern(lines[..n], lines[n].pattern) then [] else [lines[n]])
  }

  method KeepFirst(lines: seq<Mapping>) returns (out: seq<Mapping>)
    ensures out == FirstOfEach(lines)
  {
    out := [];
    var seen: set<string> := {};
    for i := 0 to |lines|
      invariant out == FirstOfEach(lines[..i])
      invariant forall p :: p in seen <==> DeclaredPattern(lines[..i], p)
    {
      KeepFirstStep(lines, i);
      if lines[i].pattern !in seen {
        out := out + [lines[i]];
        seen := seen + {lines[i].pattern};
      }
    }
    assert lines[..|lines|] == lines;
  }

  lemma KeepFirstStep(lines: seq<Mapping>, i: nat)
    requires i < |lines|
    ensures FirstOfEach(lines[..i + 1]) ==
            FirstOfEach(lines[..i]) + (if DeclaredPattern(lines[..i], lines[i].pattern) then [] else [lines[i]])
    ensures forall p :: DeclaredPattern(lines[..i + 1], p) <==> DeclaredPattern(lines[..i], p) || p == lines[i].pattern
  {
    assert lines[..i + 1][..i] == lines[..i];
    assert lines[..i + 1] == lines[..i] + [lines[i]];
    assert lines[..i + 1][i] in lines[..i + 1];
    forall p | DeclaredPattern(lines[..i], p) ensures DeclaredPattern(lines[..i + 1], p) {
      var m :| m in lines[..i] && m.pattern == p;
      assert m in lines[..i + 1];
    }
  }

  lemma {:induction false} FirstOfEachDistinct(lines: seq<Mapping>)
    ensures DistinctPatterns(FirstOfEach(lines))
    ensures forall m :: m in FirstOfEach(lines) ==> m in lines
  {
    if lines == [] {
    } else {
      var n := |lines| - 1;
      FirstOfEachDistinct(lines[..n]);
      assert lines == lines[..n] + [lines[n]];
      forall i | 0 <= i < |FirstOfEach(lines[..n])| ensures DeclaredPattern(lines[..n], FirstOfEach(lines[..n])[i].pattern) {
        assert FirstOfEach(lines[..n])[i] in lines[..n];
      }
    }
  }

  /** `merged`: the repository's own lines plus the new ones, sorted by pattern. */
  method Merged(existing: seq<Mapping>, mappings: seq<Proposed>) returns (lines: seq<Mapping>)
    ensures StrictlySorted(ByPattern, lines)
    ensures multiset(lines) == multiset(FirstOfEach(existing + LinesOf(mappings)))
  {
    var news: seq<Mapping> := [];
    for i := 0 to |mappings|
      invariant |news| == i
      invariant forall k :: 0 <= k < i ==> news[k] == LineFor(mappings[k].pattern, mappings[k].t)
    {
      news := news + [LineFor(mappings[i].pattern, mappings[i].t)];
    }
    assert news == LinesOf(mappings);
    var kept := KeepFirst(existing + news);
    FirstOfEachDistinct(existing + news);
    StrLessIsTotalOrder();
    lines := SortSlice(kept, ByPattern);
    DistinctPatternsSorted(kept, lines);
  }

  /** A new line of the file: one a directory claims whose pattern was not declared before. */
  ghost predicate NewLine(eff: seq<Doc>, existing: seq<Mapping>, m: Mapping) {
    exists dir :: Claims(eff, dir) && m == LineFor(Pattern(dir), Claim(eff, dir).value)
                  && !DeclaredPattern(existing, Pattern(dir))
  }

  /** The file that would be written. */
  ghost predicate IsMergedFile(eff: seq<Doc>, existing: seq<Mapping>, lines: seq<Mapping>) {
    StrictlySorted(ByPattern, lines) && forall m :: m in lines <==> m in existing || NewLine(eff, existing, m)
  }

  lemma {:induction false} DistinctLinesAllKept(lines: seq<Mapping>)
    requires DistinctPatterns(lines)
    ensures FirstOfEach(lines) == lines
  {
    if lines == [] {
    } else {
      var n := |lines| - 1;
      DistinctLinesAllKept(lines[..n]);
      assert lines == lines[..n] + [lines[n]];
      LastPatternNew(lines);
    }
  }

  lemma LastPatternNew(lines: seq<Mapping>)
    requires lines != [] && DistinctPatterns(lines)
    ensures !DeclaredPattern(lines[..|lines| - 1], lines[|lines| - 1].pattern)
  {
    var n := |lines| - 1;
    forall m | m in lines[..n] ensures m.pattern != lines[n].pattern {
      var k :| 0 <= k < n && lines[k] == m;
    }
  }

  lemma {:induction false} FirstOfEachSum(a: seq<Mapping>, b: seq<Mapping>, m: Mapping)
    requires DistinctPatterns(a) && DistinctPatterns(b)
    ensures m in FirstOfEach(a + b) <==> m in a || (m in b && !DeclaredPattern(a, m.pattern))
    decreases |b|
  {
    if b == [] {
      assert a + b == a;
      DistinctLinesAllKept(a);
    } else {
      var n := |b| - 1;
      assert (a + b)[..|a + b| - 1] == a + b[..n];
      assert b == b[..n] + [b[n]];
      FirstOfEachSum(a, b[..n], m);
      FreshPattern(a, b[..n], b[n].pattern);
    }
  }

  lemma FreshPattern(a: seq<Mapping>, b: seq<Mapping>, p: string)
    requires forall k :: 0 <= k < |b| ==> b[k].pattern != p
    ensures DeclaredPattern(a + b, p) <==> DeclaredPattern(a, p)
  {
    if DeclaredPattern(a, p) {
      var m :| m in a && m.pattern == p;
      assert m in a + b;
    }
  }

  // ----- measure

  /** A YAML decoder, whatever it does; what it reads back from a printed file matters below. */
  type Decoder = string -> Option<map<string, string>>

  function TextOf(lines: seq<Mapping>): string {
    if lines == [] then "" else Join(FileLines(PROPOSED_HEADER, lines), "\n")
  }

  /** `tax` is what decoding and `ParseTaxonomy` make of the printed file. */
  ghost predicate IsReading(decode: Decoder, lines: seq<Mapping>, tax: Option<seq<Mapping>>) {
    var file := decode(TextOf(lines));
    if file.Some? && forall p :: p in file.value ==> ReadableLine(p, file.value[p])
    then tax.Some? && Declares(file.value, tax.value)
    else tax.None?
  }

  method ReadProposal(decode: Decoder, lines: seq<Mapping>) returns (tax: Option<seq<Mapping>>)
    ensures IsReading(decode, lines, tax)
  {
    var text := "";
    if lines != [] {
      text := RenderTaxonomy(PROPOSED_HEADER, lines);
    }
    var file := decode(text);
    if file.None? {
      return None;
    }
    var parsed := ParseTaxonomy(file.value);
    match parsed
    case Rejected(_) => return None;
    case Parsed(rules) => return Some(rules);
  }

  ghost predicate Decided(tax: seq<Mapping>, path: string, pattern: string) {
    Decides(tax, path).Some? && Decides(tax, path).value.pattern == pattern
  }

  ghost function Unclaimed(tax: seq<Mapping>): Doc -> bool {
    (d: Doc) => d.docType == Unknown && Decides(tax, d.path).None?
  }

  ghost function Rescued(tax: seq<Mapping>): Doc -> bool {
    (d: Doc) => d.docType == Unknown && Decides(tax, d.path).Some?
  }

  ghost function Overrules(tax: seq<Mapping>): Doc -> bool {
    (d: Doc) => d.docType != Unknown && TypeDeclared(tax, d.path).Some? && TypeDeclared(tax, d.path).value != d.docType
  }

  function Paths(docs: seq<Doc>): (paths: seq<string>)
    ensures |paths| == |docs| && forall i :: 0 <= i < |docs| ==> paths[i] == docs[i].path
  {
    seq(|docs|, i requires 0 <= i < |docs| => docs[i].path)
  }

  ghost function PathSet(docs: seq<Doc>): set<string> {
    set d | d in docs :: d.path
  }

  /** The paths a file's pattern gets credit for. */
  ghost function Credit(eff: seq<Doc>, tax: seq<Mapping>, pattern: string): set<string> {
    DecidedAmong(PathSet(Filter(eff, Rescued(tax))), tax, pattern)
  }

  method CountImpact(eff: seq<Doc>, tax: seq<Mapping>) returns (classified: set<string>, unknownAfter: nat)
    ensures classified == PathSet(Filter(eff, Rescued(tax)))
    ensures unknownAfter == |Filter(eff, Unclaimed(tax))|
  {
    classified, unknownAfter := {}, 0;
    for i := 0 to |eff|
      invariant classified == PathSet(Filter(eff[..i], Rescued(tax)))
      invariant unknownAfter == |Filter(eff[..i], Unclaimed(tax))|
    {
      FilterStep(eff, i, Rescued(tax));
      FilterStep(eff, i, Unclaimed(tax));
      PathSetStep(Filter(eff[..i], Rescued(tax)), eff[i]);
      if eff[i].docType != Unknown {
        continue;
      }
      var _, claims := TypeFor(tax, eff[i].path);
      if claims {
        classified := classified + {eff[i].path};
        continue;
      }
      unknownAfter := unknownAfter + 1;
    }
    assert eff[..|eff|] == eff;
  }

  lemma PathSetStep(docs: seq<Doc>, d: Doc)
    ensures PathSet(docs + [d]) == PathSet(docs) + {d.path}
    ensures PathSet(docs + []) == PathSet(docs)
  {
    assert docs + [] == docs;
    assert forall e :: e in docs + [d] <==> e in docs || e == d;
  }

  method FindOverridden(docs: seq<Doc>, tax: seq<Mapping>) returns (overridden: seq<string>)
    ensures Sorted(StrLess, overridden)
    ensures multiset(overridden) == multiset(Paths(Filter(docs, Overrules(tax))))
  {
    var found: seq<string> := [];
    for i := 0 to |docs|
      invariant found == Paths(Filter(docs[..i], Overrules(tax)))
    {
      FilterStep(docs, i, Overrules(tax));
      if docs[i].docType == Unknown {
        continue;
      }
      var t, claims := TypeFor(tax, docs[i].path);
      if claims && t != docs[i].docType {
        found := found + [docs[i].path];
      }
    }
    assert docs[..|docs|] == docs;
    StrLessIsTotalOrder();
    overridden := SortSlice(found, StrLess);
  }

  function CreditOf(credit: map<string, nat>, pattern: string): nat {
    if pattern in credit then credit[pattern] else 0
  }

  /** The paths of a set that one pattern decides. */
  ghost function DecidedAmong(paths: set<string>, tax: seq<Mapping>, pattern: string): set<string> {
    set p | p in paths && Decided(tax, p, pattern)
  }

  lemma DecidedStep(done: set<string>, tax: seq<Mapping>, path: string, pattern: string)
    requires path !in done
    ensures |DecidedAmong(done + {path}, tax, pattern)| ==
            |DecidedAmong(done, tax, pattern)| + (if Decided(tax, path, pattern) then 1 else 0)
  {
    var before := DecidedAmong(done, tax, pattern);
    assert DecidedAmong(done + {path}, tax, pattern) ==
           if Decided(tax, path, pattern) then before + {path} else before;
  }

  ghost predicate CreditsAre(credit: map<string, nat>, paths: set<string>, tax: seq<Mapping>) {
    forall pattern :: CreditOf(credit, pattern) == |DecidedAmong(paths, tax, pattern)|
  }

  method CreditOne(credit: map<string, nat>, tax: seq<Mapping>, path: string, ghost done: set<string>)
    returns (r: map<string, nat>)
    requires CreditsAre(credit, done, tax) && path !in done
    ensures CreditsAre(r, done + {path}, tax)
  {
    var m := MappingFor(tax, path);
    r := credit;
    if m.Some? {
      r := credit[m.value.pattern := CreditOf(credit, m.value.pattern) + 1];
    }
    forall pattern ensures CreditOf(r, pattern) == |DecidedAmong(done + {path}, tax, pattern)| {
      DecidedStep(done, tax, path, pattern);
    }
  }

  method GiveCredit(classified: set<string>, tax: seq<Mapping>) returns (credit: map<string, nat>)
    ensures CreditsAre(credit, classified, tax)
  {
    credit := map[];
    var todo := classified;
    ghost var done: set<string> := {};
    forall pattern ensures |DecidedAmong({}, tax, pattern)| == 0 {
      assert DecidedAmong({}, tax, pattern) == {};
    }
    while todo != {}
      invariant todo + done == classified && todo !! done
      invariant CreditsAre(credit, done, tax)
      decreases todo
    {
      var path :| path in todo;
      credit := CreditOne(credit, tax, path, done);
      todo, done := todo - {path}, done + {path};
    }
    assert done == classified;
  }

  method Credited(mappings: seq<Proposed>, credit: map<string, nat>) returns (r: seq<Proposed>)
    ensures |r| == |mappings|
    ensures forall i :: 0 <= i < |r| ==> r[i] == mappings[i].(classifies := CreditOf(credit, mappings[i].pattern))
  {
    r := mappings;
    for i := 0 to |mappings|
      invariant |r| == |mappings|
      invariant forall k :: 0 <= k < i ==> r[k] == mappings[k].(classifies := CreditOf(credit, mappings[k].pattern))
      invariant forall k :: i <= k < |r| ==> r[k] == mappings[k]
    {
      r := r[i := r[i].(classifies := CreditOf(credit, r[i].pattern))];
    }
  }

  // ----- the proposal

  datatype Result = Result(
    mappings: seq<Proposed>,
    existing: seq<Mapping>,
    skipped: seq<Skipped>,
    documents: nat,
    unknownBefore: nat,
    unknownAfter: nat,
    overridden: seq<string>,
    rootUnknown: nat)

  predicate ByProposedPattern(a: Proposed, b: Proposed) { StrLess(a.pattern, b.pattern) }

  predicate BySkippedPattern(a: Skipped, b: Skipped) { StrLess(a.pattern, b.pattern) }

  /** One mapping per claim, with the given credit. */
  ghost predicate MappingsRight(eff: seq<Doc>, mappings: seq<Proposed>, credit: string -> nat) {
    && StrictlySorted(ByProposedPattern, mappings)
    && forall m :: m in mappings <==>
                   exists dir :: Claims(eff, dir) && m == ProposedFor(eff, dir, credit(Pattern(dir)))
  }

  ghost predicate SkippedRight(eff: seq<Doc>, skipped: seq<Skipped>) {
    && StrictlySorted(BySkippedPattern, skipped)
    && forall s :: s in skipped <==> exists dir :: PassedOver(eff, dir) && s == SkippedFor(eff, dir)
  }

  ghost function CreditIn(eff: seq<Doc>, tax: seq<Mapping>): string -> nat {
    (pattern: string) => |Credit(eff, tax, pattern)|
  }

  /** What `measure` establishes. */
  ghost predicate IsMeasured(docs: seq<Doc>, eff: seq<Doc>, tax: Option<seq<Mapping>>, p: Result) {
    match tax
    case None => p.mappings == [] && p.unknownAfter == p.unknownBefore && p.overridden == []
    case Some(rules) =>
      && MappingsRight(eff, p.mappings, CreditIn(eff, rules))
      && p.unknownAfter == |Filter(eff, Unclaimed(rules))|
      && Sorted(StrLess, p.overridden)
      && multiset(p.overridden) == multiset(Paths(Filter(docs, Overrules(rules))))
  }

  ghost predicate IsProposal(docs: seq<Doc>, existing: seq<Mapping>, decode: Decoder,
                             p: Result, lines: seq<Mapping>, tax: Option<seq<Mapping>>) {
    var eff := Effective(docs, existing);
    && p.existing == existing && p.documents == |docs|
    && p.unknownBefore == UnknownIn(eff) && p.rootUnknown == |Filter(eff, AtRoot())|
    && if p.unknownBefore == 0
       then p.mappings == [] && p.skipped == [] && p.unknownAfter == 0 && p.overridden == [] && lines == [] && tax == None
       else IsMergedFile(eff, existing, lines) && IsReading(decode, lines, tax)
            && SkippedRight(eff, p.skipped) && IsMeasured(docs, eff, tax, p)
  }

  /** The proposal, with some merged file and its reading. */
  ghost predicate Proposes(docs: seq<Doc>, existing: seq<Mapping>, decode: Decoder, p: Result) {
    exists lines, tax :: IsProposal(docs, existing, decode, p, lines, tax)
  }

  // ----- from the walk to the proposal

  lemma {:induction false} ProposedMembers(eff: seq<Doc>, dirs: seq<string>, m: Proposed)
    ensures m in ProposedAmong(eff, dirs) <==> exists dir :: dir in dirs && Claims(eff, dir) && m == ProposedFor(eff, dir, 0)
  {
    if dirs == [] {
    } else {
      var n := |dirs| - 1;
      assert dirs == dirs[..n] + [dirs[n]];
      ProposedMembers(eff, dirs[..n], m);
    }
  }

  lemma {:induction false} SkippedMembers(eff: seq<Doc>, dirs: seq<string>, s: Skipped)
    ensures s in SkippedAmong(eff, dirs) <==> exists dir :: dir in dirs && PassedOver(eff, dir) && s == SkippedFor(eff, dir)
  {
    if dirs == [] {
    } else {
      var n := |dirs| - 1;
      assert dirs == dirs[..n] + [dirs[n]];
      SkippedMembers(eff, dirs[..n], s);
    }
  }

  /** A directory with an unknown document beneath it is one of the observed ones. */
  lemma GainsIsObserved(eff: seq<Doc>, obs: seq<Observation>, dir: string)
    requires Observes(eff, obs) && !Stops(dir) && UnknownBelow(eff, dir) > 0
    ensures dir in Dirs(obs)
  {
    assert Holding(eff, dir);
    assert ObservationOf(eff, dir) in obs;
    var k :| 0 <= k < |obs| && obs[k] == ObservationOf(eff, dir);
    assert Dirs(obs)[k] == dir;
  }

  lemma {:induction false} ProposedPatternsDistinct(eff: seq<Doc>, dirs: seq<string>)
    requires Distinct(dirs)
    ensures forall i, j :: 0 <= i < j < |ProposedAmong(eff, dirs)| ==>
              ProposedAmong(eff, dirs)[i].pattern != ProposedAmong(eff, dirs)[j].pattern
  {
    if dirs == [] {
    } else {
      var n := |dirs| - 1;
      var before := ProposedAmong(eff, dirs[..n]);
      ProposedPatternsDistinct(eff, dirs[..n]);
      forall i | 0 <= i < |before| ensures before[i].pattern != Pattern(dirs[n]) {
        ProposedMembers(eff, dirs[..n], before[i]);
        var dir :| dir in dirs[..n] && Claims(eff, dir) && before[i] == ProposedFor(eff, dir, 0);
        PatternInjective(dir, dirs[n]);
      }
    }
  }

  lemma {:induction false} SkippedPatternsDistinct(eff: seq<Doc>, dirs: seq<string>)
    requires Distinct(dirs)
    ensures forall i, j :: 0 <= i < j < |SkippedAmong(eff, dirs)| ==>
              SkippedAmong(eff, dirs)[i].pattern != SkippedAmong(eff, dirs)[j].pattern
  {
    if dirs == [] {
    } else {
      var n := |dirs| - 1;
      var before := SkippedAmong(eff, dirs[..n]);
      SkippedPatternsDistinct(eff, dirs[..n]);
      forall i | 0 <= i < |before| ensures before[i].pattern != Pattern(dirs[n]) {
        SkippedMembers(eff, dirs[..n], before[i]);
        var dir :| dir in dirs[..n] && PassedOver(eff, dir) && before[i] == SkippedFor(eff, dir);
        PatternInjective(dir, dirs[n]);
      }
    }
  }

  lemma ObservedDistinct(eff: seq<Doc>, obs: seq<Observation>)
    requires Observes(eff, obs)
    ensures Distinct(Dirs(obs))
  {
    ShallowFirstIsTotalOrder();
    forall i, j | 0 <= i < j < |obs| ensures obs[i].dir != obs[j].dir {
      assert ShallowerThan(obs[i], obs[j]);
    }
  }

  ghost function NoCredit(): string -> nat { (pattern: string) => 0 }

  method SortProposed(eff: seq<Doc>, ghost obs: seq<Observation>, walked: seq<Proposed>) returns (mappings: seq<Proposed>)
    requires Observes(eff, obs) && walked == ProposedAmong(eff, Dirs(obs))
    ensures MappingsRight(eff, mappings, NoCredit())
  {
    StrLessIsTotalOrder();
    mappings := SortSlice(walked, ByProposedPattern);
    PermutationMembers(mappings, walked);
    ObservedDistinct(eff, obs);
    ProposedPatternsDistinct(eff, Dirs(obs));
    SortedProposed(walked, mappings);
    forall m ensures m in mappings <==> exists dir :: Claims(eff, dir) && m == ProposedFor(eff, dir, 0) {
      ProposedMembers(eff, Dirs(obs), m);
      forall dir | Claims(eff, dir) ensures dir in Dirs(obs) {
        GainsIsObserved(eff, obs, dir);
      }
    }
  }

  lemma SortedProposed(walked: seq<Proposed>, mappings: seq<Proposed>)
    requires multiset(mappings) == multiset(walked) && Sorted(ByProposedPattern, mappings)
    requires forall i, j :: 0 <= i < j < |walked| ==> walked[i].pattern != walked[j].pattern
    ensures StrictlySorted(ByProposedPattern, mappings)
  {
    StrLessIsTotalOrder();
    assert Distinct(walked);
    DistinctPermutation(walked, mappings);
    PermutationMembers(mappings, walked);
    forall i, j | 0 <= i < j < |mappings| ensures ByProposedPattern(mappings[i], mappings[j]) {
      assert mappings[i] in walked && mappings[j] in walked;
      var a :| 0 <= a < |walked| && walked[a] == mappings[i];
      var b :| 0 <= b < |walked| && walked[b] == mappings[j];
    }
  }

  method SortSkipped(eff: seq<Doc>, ghost obs: seq<Observation>, walked: seq<Skipped>) returns (skipped: seq<Skipped>)
    requires Observes(eff, obs) && walked == SkippedAmong(eff, Dirs(obs))
    ensures SkippedRight(eff, skipped)
  {
    StrLessIsTotalOrder();
    skipped := SortSlice(walked, BySkippedPattern);
    PermutationMembers(skipped, walked);
    ObservedDistinct(eff, obs);
    SkippedPatternsDistinct(eff, Dirs(obs));
    SortedSkipped(walked, skipped);
    forall s ensures s in skipped <==> exists dir :: PassedOver(eff, dir) && s == SkippedFor(eff, dir) {
      SkippedMembers(eff, Dirs(obs), s);
      forall dir | PassedOver(eff, dir) ensures dir in Dirs(obs) {
        GainsIsObserved(eff, obs, dir);
      }
    }
  }

  lemma SortedSkipped(walked: seq<Skipped>, skipped: seq<Skipped>)
    requires multiset(skipped) == multiset(walked) && Sorted(BySkippedPattern, skipped)
    requires forall i, j :: 0 <= i < j < |walked| ==> walked[i].pattern != walked[j].pattern
    ensures StrictlySorted(BySkippedPattern, skipped)
  {
    StrLessIsTotalOrder();
    assert Distinct(walked);
    DistinctPermutation(walked, skipped);
    PermutationMembers(skipped, walked);
    forall i, j | 0 <= i < j < |skipped| ensures BySkippedPattern(skipped[i], skipped[j]) {
      assert skipped[i] in walked && skipped[j] in walked;
      var a :| 0 <= a < |walked| && walked[a] == skipped[i];
      var b :| 0 <= b < |walked| && walked[b] == skipped[j];
    }
  }

  method MergeProposed(eff: seq<Doc>, existing: seq<Mapping>, mappings: seq<Proposed>) returns (lines: seq<Mapping>)
    requires DistinctPatterns(existing) && MappingsRight(eff, mappings, NoCredit())
    ensures IsMergedFile(eff, existing, lines)
  {
    lines := Merged(existing, mappings);
    var news := LinesOf(mappings);
    StrLessIsTotalOrder();
    forall i, j | 0 <= i < j < |news| ensures news[i].pattern != news[j].pattern {
      assert ByProposedPattern(mappings[i], mappings[j]);
    }
    PermutationMembers(lines, FirstOfEach(existing + news));
    forall m ensures m in lines <==> m in existing || NewLine(eff, existing, m) {
      FirstOfEachSum(existing, news, m);
      NewLinesAreClaims(eff, mappings, m);
    }
  }

  lemma NewLinesAreClaims(eff: seq<Doc>, mappings: seq<Proposed>, m: Mapping)
    requires MappingsRight(eff, mappings, NoCredit())
    ensures m in LinesOf(mappings) <==>
            exists dir :: Claims(eff, dir) && m == LineFor(Pattern(dir), Claim(eff, dir).value)
  {
    if m in LinesOf(mappings) {
      var k :| 0 <= k < |mappings| && LinesOf(mappings)[k] == m;
      assert mappings[k] in mappings;
      var dir :| Claims(eff, dir) && mappings[k] == ProposedFor(eff, dir, NoCredit()(Pattern(dir)));
    }
    if dir :| Claims(eff, dir) && m == LineFor(Pattern(dir), Claim(eff, dir).value) {
      assert ProposedFor(eff, dir, NoCredit()(Pattern(dir))) in mappings;
      var k :| 0 <= k < |mappings| && mappings[k] == ProposedFor(eff, dir, 0);
      assert LinesOf(mappings)[k] == m;
    }
  }

  /** `measure`. */
  method Measure(p: Result, docs: seq<Doc>, eff: seq<Doc>, lines: seq<Mapping>, decode: Decoder)
    returns (r: Result, ghost tax: Option<seq<Mapping>>)
    requires MappingsRight(eff, p.mappings, NoCredit())
    ensures IsReading(decode, lines, tax) && IsMeasured(docs, eff, tax, r)
    ensures r == p.(mappings := r.mappings, unknownAfter := r.unknownAfter, overridden := r.overridden)
  {
    var read := ReadProposal(decode, lines);
    tax := read;
    if read.None? {
      r := p.(mappings := [], unknownAfter := p.unknownBefore, overridden := []);
      return;
    }
    var rules := read.value;
    var classified, unknownAfter := CountImpact(eff, rules);
    var overridden := FindOverridden(docs, rules);
    var credit := GiveCredit(classified, rules);
    var mappings := Credited(p.mappings, credit);
    CreditedRight(eff, rules, p.mappings, mappings);
    r := p.(mappings := mappings, unknownAfter := unknownAfter, overridden := overridden);
  }

  lemma CreditedRight(eff: seq<Doc>, tax: seq<Mapping>, before: seq<Proposed>, after: seq<Proposed>)
    requires MappingsRight(eff, before, NoCredit())
    requires |after| == |before|
    requires forall i :: 0 <= i < |after| ==>
               after[i] == before[i].(classifies := |Credit(eff, tax, before[i].pattern)|)
    ensures MappingsRight(eff, after, CreditIn(eff, tax))
  {
    forall i, j | 0 <= i < j < |after| ensures ByProposedPattern(after[i], after[j]) {
      assert ByProposedPattern(before[i], before[j]);
    }
    forall m | m in after
      ensures exists dir :: Claims(eff, dir) && m == ProposedFor(eff, dir, CreditIn(eff, tax)(Pattern(dir)))
    {
      var k :| 0 <= k < |after| && after[k] == m;
      assert before[k] in before;
      var dir :| Claims(eff, dir) && before[k] == ProposedFor(eff, dir, NoCredit()(Pattern(dir)));
      assert m == ProposedFor(eff, dir, CreditIn(eff, tax)(Pattern(dir)));
    }
    forall dir | Claims(eff, dir) ensures ProposedFor(eff, dir, CreditIn(eff, tax)(Pattern(dir))) in after {
      assert ProposedFor(eff, dir, NoCredit()(Pattern(dir))) in before;
      var k :| 0 <= k < |before| && before[k] == ProposedFor(eff, dir, 0);
      assert after[k] == ProposedFor(eff, dir, CreditIn(eff, tax)(Pattern(dir)));
    }
  }

  /** `Propose`. */
  method Propose(docs: seq<Doc>, existing: seq<Mapping>, decode: Decoder) returns (p: Result)
    requires DistinctPatterns(existing)
    ensures Proposes(docs, existing, decode, p)
  {
    ghost var lines, tax;
    p, lines, tax := ProposeWith(docs, existing, decode);
  }

  /** `TaxonomyAuto` up to the proposal: the repository's own file is parsed, and a proposal is
      made on top of it unless it does not parse. */
  method ProposeUpdate(docs: seq<Doc>, file: map<string, string>, decode: Decoder) returns (r: Option<Result>)
    ensures r.None? <==> exists p :: p in file && !ReadableLine(p, file[p])
    ensures r.Some? ==> exists existing :: Declares(file, existing) && WellFormed(existing) && Proposes(docs, existing, decode, r.value)
  {
    var parsed := ParseTaxonomy(file);
    match parsed {
      case Rejected(_) =>
        r := None;
      case Parsed(existing) =>
        DeclaredIsWellFormed(file, existing);
        WellFormedPatterns(existing);
        var p := Propose(docs, existing, decode);
        r := Some(p);
    }
  }

  // The ghost results are the merged file and what reading it back gave.
  method ProposeWith(docs: seq<Doc>, existing: seq<Mapping>, decode: Decoder)
    returns (p: Result, ghost lines: seq<Mapping>, ghost tax: Option<seq<Mapping>>)
    requires DistinctPatterns(existing)
    ensures IsProposal(docs, existing, decode, p, lines, tax)
  {
    var eff := EffectiveDocs(docs, existing);
    var unknown := CountUnknown(eff);
    var atRoot := CountAtRoot(eff);
    p := Result([], existing, [], |docs|, unknown, 0, [], atRoot);
    if unknown == 0 {
      lines, tax := [], None;
      return;
    }
    var obs := GroupByDirectory(eff);
    var walked, passed := Walk(eff, obs);
    var mappings := SortProposed(eff, obs, walked);
    var skipped := SortSkipped(eff, obs, passed);
    var merged := MergeProposed(eff, existing, mappings);
    lines := merged;
    p, tax := Measure(p.(mappings := mappings, skipped := skipped), docs, eff, merged, decode);
  }
}
