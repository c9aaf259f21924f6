/** What a reader of a proposal may rely on: its numbers are the ones indexing will
    give, the deepest claim decides, nothing is dropped, and the order in which the
    documents were collected does not matter. */
module ProposalTheorems {
  import opened Wrappers
  import opened Text
  import opened Sorting
  import opened Glob
  import opened Taxonomy
  import opened TaxonomyFile
  import opened Yaml
  import opened Proposal
  import opened Measuring

  // ----- the file reads back

  /** The decoder returns the printed lines. */
  ghost predicate Faithful(decode: Decoder, lines: seq<Mapping>) {
    decode(TextOf(lines)) == Some(FileOf(lines))
  }

  /** YAML's reader is faithful exactly to safe patterns. */
  lemma SafeLinesReadBack(lines: seq<Mapping>)
    requires DistinctPatterns(lines) && KnownWords(lines)
    ensures Faithful(ReadSection, lines) <==> forall m :: m in lines ==> PlainSafe(m.pattern)
  {
    if lines == [] {
      NoContent([""]);
      assert Split(Breaks(""), '\n') == [""];
    } else {
      HeadersAreComments();
      PrintedFileReadsBack(PROPOSED_HEADER, lines);
    }
  }

  lemma ClaimLineReadable(eff: seq<Doc>, dir: string)
    requires Claims(eff, dir)
    ensures var m := LineFor(Pattern(dir), Claim(eff, dir).value);
            ReadableLine(m.pattern, m.declared) && m == LineOf(m.pattern, m.declared)
  {
    ClaimedTypes(eff, dir);
    WordsAreTrimmed(Claim(eff, dir).value);
    BlankTrims(Pattern(dir));
    assert Pattern(dir)[|dir|] == '/';
  }

  lemma MergedDistinct(eff: seq<Doc>, existing: seq<Mapping>, lines: seq<Mapping>)
    requires IsMergedFile(eff, existing, lines)
    ensures DistinctPatterns(lines)
  {
    SortedByPatternDistinct(lines);
  }

  /** Read back faithfully, the proposed file declares exactly the merged lines. */
  lemma ReadingIsMerged(eff: seq<Doc>, existing: seq<Mapping>, decode: Decoder, lines: seq<Mapping>, tax: Option<seq<Mapping>>)
    requires WellFormed(existing) && IsMergedFile(eff, existing, lines)
    requires Faithful(decode, lines) && IsReading(decode, lines, tax)
    ensures tax.Some? && StrictlySorted(Outranks, tax.value)
    ensures forall m :: m in tax.value <==> m in lines
  {
    MergedDistinct(eff, existing, lines);
    FileOfMembers(lines);
    forall m | m in lines ensures ReadableLine(m.pattern, m.declared) && m == LineOf(m.pattern, m.declared) {
      if m !in existing {
        var dir :| Claims(eff, dir) && m == LineFor(Pattern(dir), Claim(eff, dir).value);
        ClaimLineReadable(eff, dir);
      }
    }
    forall p | p in FileOf(lines) ensures ReadableLine(p, FileOf(lines)[p]) {
      var m :| m in lines && m.pattern == p;
    }
    PrintedLinesDeclared(lines, tax.value);
  }

  /** Under the proposed file, a path is decided by the more specific of what decided it before and
      what the proposed lines say. */
  lemma ProposalDecides(eff: seq<Doc>, existing: seq<Mapping>, decode: Decoder, lines: seq<Mapping>, tax: Option<seq<Mapping>>,
                        novel: seq<Mapping>, path: string)
    requires WellFormed(existing) && IsMergedFile(eff, existing, lines)
    requires Faithful(decode, lines) && IsReading(decode, lines, tax)
    requires StrictlySorted(Outranks, novel) && forall m :: m in novel <==> NewLine(eff, existing, m)
    ensures tax.Some? && Decides(tax.value, path) == Stronger(Decides(existing, path), Decides(novel, path))
  {
    ReadingIsMerged(eff, existing, decode, lines, tax);
    MergeIsJoin(existing, novel, tax.value, path);
  }

  // ----- measured impact is real impact

  ghost function LeftUnknown(rules: seq<Mapping>): Doc -> bool {
    (d: Doc) => Classified(rules, d.path, d.docType) == Unknown
  }

  /** The documents indexing leaves unknown under the written file. */
  ghost function RealUnknown(docs: seq<Doc>, rules: seq<Mapping>): nat {
    |Filter(docs, LeftUnknown(rules))|
  }

  /** Unknown documents the written file decides by an `Other` line. */
  ghost function HeldByOther(rules: seq<Mapping>): Doc -> bool {
    (d: Doc) => d.docType == Unknown && TypeDeclared(rules, d.path) == Some(Unknown)
  }

  /** An `Other` line that decides in the merged file already decided before the merge. */
  lemma OtherLinesAreOld(eff: seq<Doc>, existing: seq<Mapping>, rules: seq<Mapping>, path: string)
    requires WellFormed(existing) && StrictlySorted(Outranks, rules)
    requires forall m :: m in rules <==> m in existing || NewLine(eff, existing, m)
    requires Decides(rules, path).Some? && Decides(rules, path).value.docType == Unknown
    ensures Decides(existing, path) == Decides(rules, path)
  {
    var w := Decides(rules, path).value;
    FirstMatchIsMostSpecific(rules, path);
    if w !in existing {
      var dir :| Claims(eff, dir) && w == LineFor(Pattern(dir), Claim(eff, dir).value);
      ClaimedTypes(eff, dir);
    }
    assert MostSpecificMatch(existing, path, w);
    MostSpecificIsDecisive(existing, path, w);
  }

  /** A path no merged line matches was matched by no existing line. */
  lemma UnmatchedBefore(existing: seq<Mapping>, rules: seq<Mapping>, path: string)
    requires StrictlySorted(Outranks, existing) && StrictlySorted(Outranks, rules)
    requires forall m :: m in existing ==> m in rules
    requires Decides(rules, path).None?
    ensures Decides(existing, path).None?
  {
    FirstMatchIsMostSpecific(rules, path);
    FirstMatchIsMostSpecific(existing, path);
  }

  lemma {:induction false} RealCountSplits(docs: seq<Doc>, existing: seq<Mapping>, rules: seq<Mapping>, all: seq<Doc>, n: nat)
    requires WellFormed(existing) && StrictlySorted(Outranks, rules) && n <= |docs|
    requires forall m :: m in rules <==> m in existing || NewLine(all, existing, m)
    ensures var eff := Effective(docs, existing);
            |Filter(docs[..n], LeftUnknown(rules))| ==
            |Filter(eff[..n], Unclaimed(rules))| + |Filter(eff[..n], HeldByOther(rules))|
  {
    var eff := Effective(docs, existing);
    if n == 0 {
    } else {
      RealCountSplits(docs, existing, rules, all, n - 1);
      FilterStep(docs, n - 1, LeftUnknown(rules));
      FilterStep(eff, n - 1, Unclaimed(rules));
      FilterStep(eff, n - 1, HeldByOther(rules));
      var path := docs[n - 1].path;
      if Decides(rules, path).None? {
        UnmatchedBefore(existing, rules, path);
      } else if Decides(rules, path).value.docType == Unknown {
        OtherLinesAreOld(all, existing, rules, path);
      }
    }
  }

  /** Some proposed line matches the path and is more specific than `w`. */
  ghost predicate Outranked(eff: seq<Doc>, existing: seq<Mapping>, w: Mapping, path: string) {
    exists m :: NewLine(eff, existing, m) && Matches(m.pattern, path) && Outranks(m, w)
  }

  /** The repository's own file decides the path by an `Other` line, and no proposed line takes
      the path from it. */
  ghost predicate HeldPath(eff: seq<Doc>, existing: seq<Mapping>, path: string) {
    var w := Decides(existing, path);
    w.Some? && w.value.docType == Unknown && !Outranked(eff, existing, w.value, path)
  }

  ghost function HeldBack(eff: seq<Doc>, existing: seq<Mapping>): Doc -> bool {
    (d: Doc) => d.docType == Unknown && HeldPath(eff, existing, d.path)
  }

  /** An `Other` line decides in the merged file exactly where it holds a path back. */
  lemma HeldIsDecidedByOther(eff: seq<Doc>, existing: seq<Mapping>, rules: seq<Mapping>, path: string)
    requires WellFormed(existing) && StrictlySorted(Outranks, rules)
    requires forall m :: m in rules <==> m in existing || NewLine(eff, existing, m)
    ensures TypeDeclared(rules, path) == Some(Unknown) <==> HeldPath(eff, existing, path)
    ensures HeldPath(eff, existing, path) ==> Decides(rules, path) == Decides(existing, path)
  {
    FirstMatchIsMostSpecific(rules, path);
    FirstMatchIsMostSpecific(existing, path);
    MoreSpecificIsTotalOrder();
    if TypeDeclared(rules, path) == Some(Unknown) {
      OtherLinesAreOld(eff, existing, rules, path);
      forall m | NewLine(eff, existing, m) && Matches(m.pattern, path)
        ensures !Outranks(m, Decides(existing, path).value)
      {
        assert m in rules;
      }
    }
    if HeldPath(eff, existing, path) {
      HeldDecides(eff, existing, rules, path);
    }
  }

  lemma HeldDecides(eff: seq<Doc>, existing: seq<Mapping>, rules: seq<Mapping>, path: string)
    requires WellFormed(existing) && StrictlySorted(Outranks, rules)
    requires forall m :: m in rules <==> m in existing || NewLine(eff, existing, m)
    requires HeldPath(eff, existing, path)
    ensures Decides(rules, path) == Decides(existing, path)
  {
    var w := Decides(existing, path).value;
    FirstMatchIsMostSpecific(existing, path);
    forall o | o in rules && o != w && Matches(o.pattern, path) ensures Outranks(w, o) {
      SamePatternSameRule(rules, w, o);
      assert NewLine(eff, existing, o) ==> !Outranks(o, w);
    }
    MostSpecificIsDecisive(rules, path, w);
  }

  lemma {:induction false} FilterAgrees<T>(xs: seq<T>, f: T -> bool, g: T -> bool)
    requires forall x :: x in xs ==> f(x) == g(x)
    ensures Filter(xs, f) == Filter(xs, g)
  {
    if xs == [] {
    } else {
      var n := |xs| - 1;
      assert xs[n] in xs && forall x :: x in xs[..n] ==> x in xs;
      FilterAgrees(xs[..n], f, g);
    }
  }

  lemma FilterEmpty<T>(xs: seq<T>, f: T -> bool)
    ensures |Filter(xs, f)| == 0 <==> forall x :: x in xs ==> !f(x)
  {
    forall x ensures x in Filter(xs, f) <==> x in xs && f(x) {
      FilterMembers(xs, f, x);
    }
    if |Filter(xs, f)| > 0 {
      assert Filter(xs, f)[0] in Filter(xs, f);
    }
  }

  /** Indexing under the written file leaves unknown what the proposal counted and the unknown
      documents held back by an `Other` line of the repository's own file; the count is the real
      one if and only if there is no such document. */
  lemma MeasuredImpactIsReal(docs: seq<Doc>, existing: seq<Mapping>, decode: Decoder,
                             p: Result, lines: seq<Mapping>, tax: Option<seq<Mapping>>)
    requires WellFormed(existing) && IsProposal(docs, existing, decode, p, lines, tax)
    requires p.unknownBefore > 0 && Faithful(decode, lines)
    ensures tax.Some?
    ensures var eff := Effective(docs, existing);
            && RealUnknown(docs, tax.value) == p.unknownAfter + |Filter(eff, HeldBack(eff, existing))|
            && (RealUnknown(docs, tax.value) == p.unknownAfter <==> forall d :: d in eff ==> !HeldBack(eff, existing)(d))
  {
    var eff := Effective(docs, existing);
    ReadingIsMerged(eff, existing, decode, lines, tax);
    RealCount(docs, existing, tax.value, eff);
    HeldCount(eff, existing, tax.value);
    FilterEmpty(eff, HeldBack(eff, existing));
  }

  lemma HeldCount(eff: seq<Doc>, existing: seq<Mapping>, rules: seq<Mapping>)
    requires WellFormed(existing) && StrictlySorted(Outranks, rules)
    requires forall m :: m in rules <==> m in existing || NewLine(eff, existing, m)
    ensures Filter(eff, HeldByOther(rules)) == Filter(eff, HeldBack(eff, existing))
  {
    forall d | d in eff ensures HeldByOther(rules)(d) == HeldBack(eff, existing)(d) {
      HeldIsDecidedByOther(eff, existing, rules, d.path);
    }
    FilterAgrees(eff, HeldByOther(rules), HeldBack(eff, existing));
  }

  lemma RealCount(docs: seq<Doc>, existing: seq<Mapping>, rules: seq<Mapping>, eff: seq<Doc>)
    requires WellFormed(existing) && StrictlySorted(Outranks, rules) && eff == Effective(docs, existing)
    requires forall m :: m in rules <==> m in existing || NewLine(eff, existing, m)
    ensures RealUnknown(docs, rules) == |Filter(eff, Unclaimed(rules))| + |Filter(eff, HeldByOther(rules))|
  {
    RealCountSplits(docs, existing, rules, eff, |docs|);
    assert docs[..|docs|] == docs && eff[..|docs|] == eff;
  }

  // ----- credit adds up

  function SumClassifies(mappings: seq<Proposed>): nat {
    if mappings == [] then 0
    else SumClassifies(mappings[..|mappings| - 1]) + mappings[|mappings| - 1].classifies
  }

  /** The rescued paths some proposed pattern decides. */
  ghost function CreditedPaths(paths: set<string>, rules: seq<Mapping>, mappings: seq<Proposed>): set<string> {
    set p | p in paths && exists m :: m in mappings && Decided(rules, p, m.pattern)
  }

  lemma {:induction false} CreditsAddUp(paths: set<string>, rules: seq<Mapping>, mappings: seq<Proposed>)
    requires forall i, j :: 0 <= i < j < |mappings| ==> mappings[i].pattern != mappings[j].pattern
    requires forall i :: 0 <= i < |mappings| ==> mappings[i].classifies == |DecidedAmong(paths, rules, mappings[i].pattern)|
    ensures SumClassifies(mappings) == |CreditedPaths(paths, rules, mappings)|
  {
    if mappings == [] {
      assert CreditedPaths(paths, rules, []) == {};
    } else {
      var n := |mappings| - 1;
      var before := CreditedPaths(paths, rules, mappings[..n]);
      var last := DecidedAmong(paths, rules, mappings[n].pattern);
      CreditsAddUp(paths, rules, mappings[..n]);
      assert mappings == mappings[..n] + [mappings[n]];
      forall p | p in before ensures p !in last {
        var m :| m in mappings[..n] && Decided(rules, p, m.pattern);
        var k :| 0 <= k < n && mappings[k] == m;
      }
      assert CreditedPaths(paths, rules, mappings) == before + last;
    }
  }

  ghost predicate DistinctPaths(docs: seq<Doc>) {
    forall i, j :: 0 <= i < j < |docs| ==> docs[i].path != docs[j].path
  }

  lemma {:induction false} FilteredPathsDistinct(docs: seq<Doc>, keep: Doc -> bool)
    requires DistinctPaths(docs)
    ensures |PathSet(Filter(docs, keep))| == |Filter(docs, keep)|
  {
    if docs == [] {
      assert PathSet(Filter(docs, keep)) == {};
    } else {
      var n := |docs| - 1;
      var kept := Filter(docs[..n], keep);
      FilteredPathsDistinct(docs[..n], keep);
      PathSetStep(kept, docs[n]);
      forall d | d in kept ensures d.path != docs[n].path {
        FilterMembers(docs[..n], keep, d);
        var k :| 0 <= k < n && docs[k] == d;
      }
    }
  }

  lemma {:induction false} UnknownSplits(eff: seq<Doc>, rules: seq<Mapping>)
    ensures UnknownIn(eff) == |Filter(eff, Unclaimed(rules))| + |Filter(eff, Rescued(rules))|
  {
    if eff == [] {
    } else {
      UnknownSplits(eff[..|eff| - 1], rules);
    }
  }

  /** The rescued paths no proposed pattern gets credit for. */
  ghost function Elsewhere(eff: seq<Doc>, rules: seq<Mapping>, mappings: seq<Proposed>): set<string> {
    var rescued := PathSet(Filter(eff, Rescued(rules)));
    rescued - CreditedPaths(rescued, rules, mappings)
  }

  lemma CreditSplits(docs: seq<Doc>, existing: seq<Mapping>, decode: Decoder,
                     p: Result, lines: seq<Mapping>, tax: Option<seq<Mapping>>)
    requires IsProposal(docs, existing, decode, p, lines, tax) && tax.Some?
    requires DistinctPaths(docs)
    ensures p.unknownBefore == p.unknownAfter + SumClassifies(p.mappings)
                               + |Elsewhere(Effective(docs, existing), tax.value, p.mappings)|
  {
    var eff := Effective(docs, existing);
    var rescued := PathSet(Filter(eff, Rescued(tax.value)));
    UnknownSplits(eff, tax.value);
    FilteredPathsDistinct(eff, Rescued(tax.value));
    MappingsCredited(eff, tax.value, p.mappings);
    CreditsAddUp(rescued, tax.value, p.mappings);
    assert CreditedPaths(rescued, tax.value, p.mappings) <= rescued;
  }

  /** Some directory claims a line of this pattern. */
  ghost predicate ClaimedPattern(eff: seq<Doc>, pattern: string) {
    exists dir :: Claims(eff, dir) && Pattern(dir) == pattern
  }

  /** Held back by an `Other` line whose pattern no directory claims as well, so that no proposed
      line is credited with the document. */
  ghost function Uncredited(eff: seq<Doc>, existing: seq<Mapping>): Doc -> bool {
    (d: Doc) => UncreditedDoc(eff, existing, d)
  }

  ghost predicate UncreditedDoc(eff: seq<Doc>, existing: seq<Mapping>, d: Doc) {
    && d.docType == Unknown && HeldPath(eff, existing, d.path)
    && !ClaimedPattern(eff, Decides(existing, d.path).value.pattern)
  }

  ghost predicate CreditedBySome(rules: seq<Mapping>, mappings: seq<Proposed>, path: string) {
    exists m :: m in mappings && Decided(rules, path, m.pattern)
  }

  lemma CreditedByClaim(eff: seq<Doc>, rules: seq<Mapping>, mappings: seq<Proposed>, path: string)
    requires MappingsRight(eff, mappings, CreditIn(eff, rules)) && Decides(rules, path).Some?
    ensures CreditedBySome(rules, mappings, path) <==>
            ClaimedPattern(eff, Decides(rules, path).value.pattern)
  {
    if CreditedBySome(rules, mappings, path) {
      var m :| m in mappings && Decided(rules, path, m.pattern);
      var dir :| Claims(eff, dir) && m == ProposedFor(eff, dir, CreditIn(eff, rules)(Pattern(dir)));
    }
    if ClaimedPattern(eff, Decides(rules, path).value.pattern) {
      var dir :| Claims(eff, dir) && Pattern(dir) == Decides(rules, path).value.pattern;
      var m := ProposedFor(eff, dir, CreditIn(eff, rules)(Pattern(dir)));
      assert m in mappings && Decided(rules, path, m.pattern);
    }
  }

  /** An unknown document the merged file decides by a line no directory claims is held back. */
  lemma UnclaimedIsHeld(docs: seq<Doc>, existing: seq<Mapping>, rules: seq<Mapping>, d: Doc)
    requires WellFormed(existing) && StrictlySorted(Outranks, rules)
    requires forall m :: m in rules <==> m in existing || NewLine(Effective(docs, existing), existing, m)
    requires d in Effective(docs, existing) && d.docType == Unknown && Decides(rules, d.path).Some?
    requires !ClaimedPattern(Effective(docs, existing), Decides(rules, d.path).value.pattern)
    ensures HeldPath(Effective(docs, existing), existing, d.path)
  {
    var eff := Effective(docs, existing);
    var w := Decides(rules, d.path).value;
    FirstMatchIsMostSpecific(rules, d.path);
    assert w in existing by {
      if dir :| Claims(eff, dir) && w == LineFor(Pattern(dir), Claim(eff, dir).value) {
        assert ClaimedPattern(eff, w.pattern);
      }
    }
    assert MostSpecificMatch(existing, d.path, w);
    MostSpecificIsDecisive(existing, d.path, w);
    var k :| 0 <= k < |docs| && eff[k] == d;
    assert w.docType == Unknown;
    HeldIsDecidedByOther(eff, existing, rules, d.path);
  }

  lemma NotCredited(docs: seq<Doc>, existing: seq<Mapping>, rules: seq<Mapping>, mappings: seq<Proposed>, d: Doc)
    requires WellFormed(existing) && StrictlySorted(Outranks, rules)
    requires forall m :: m in rules <==> m in existing || NewLine(Effective(docs, existing), existing, m)
    requires MappingsRight(Effective(docs, existing), mappings, CreditIn(Effective(docs, existing), rules))
    requires d in Effective(docs, existing) && d.docType == Unknown && Decides(rules, d.path).Some?
    requires !CreditedBySome(rules, mappings, d.path)
    ensures UncreditedDoc(Effective(docs, existing), existing, d)
  {
    var eff := Effective(docs, existing);
    CreditedByClaim(eff, rules, mappings, d.path);
    assert !ClaimedPattern(eff, Decides(rules, d.path).value.pattern);
    UnclaimedIsHeld(docs, existing, rules, d);
    HeldDecides(eff, existing, rules, d.path);
  }

  lemma UncreditedIsRescued(eff: seq<Doc>, existing: seq<Mapping>, rules: seq<Mapping>, mappings: seq<Proposed>, d: Doc)
    requires WellFormed(existing) && StrictlySorted(Outranks, rules)
    requires forall m :: m in rules <==> m in existing || NewLine(eff, existing, m)
    requires MappingsRight(eff, mappings, CreditIn(eff, rules)) && UncreditedDoc(eff, existing, d)
    ensures Decides(rules, d.path).Some? && !CreditedBySome(rules, mappings, d.path)
  {
    HeldDecides(eff, existing, rules, d.path);
    CreditedByClaim(eff, rules, mappings, d.path);
  }

  lemma ElsewhereIsUncredited(docs: seq<Doc>, existing: seq<Mapping>, rules: seq<Mapping>, mappings: seq<Proposed>)
    requires WellFormed(existing) && StrictlySorted(Outranks, rules)
    requires forall m :: m in rules <==> m in existing || NewLine(Effective(docs, existing), existing, m)
    requires MappingsRight(Effective(docs, existing), mappings, CreditIn(Effective(docs, existing), rules))
    ensures var eff := Effective(docs, existing);
            Elsewhere(eff, rules, mappings) == PathSet(Filter(eff, Uncredited(eff, existing)))
  {
    var eff := Effective(docs, existing);
    forall d | d in eff
      ensures Rescued(rules)(d) && !CreditedBySome(rules, mappings, d.path) <==> Uncredited(eff, existing)(d)
    {
      if Rescued(rules)(d) && !CreditedBySome(rules, mappings, d.path) {
        NotCredited(docs, existing, rules, mappings, d);
      } else if UncreditedDoc(eff, existing, d) {
        UncreditedIsRescued(eff, existing, rules, mappings, d);
      }
    }
    ElsewhereOf(eff, rules, mappings, Uncredited(eff, existing));
  }

  lemma ElsewhereOf(eff: seq<Doc>, rules: seq<Mapping>, mappings: seq<Proposed>, keep: Doc -> bool)
    requires forall d :: d in eff ==> (Rescued(rules)(d) && !CreditedBySome(rules, mappings, d.path) <==> keep(d))
    ensures Elsewhere(eff, rules, mappings) == PathSet(Filter(eff, keep))
  {
    forall d ensures d in Filter(eff, Rescued(rules)) <==> d in eff && Rescued(rules)(d) {
      FilterMembers(eff, Rescued(rules), d);
    }
    forall d ensures d in Filter(eff, keep) <==> d in eff && keep(d) {
      FilterMembers(eff, keep, d);
    }
    forall path ensures path in CreditedPaths(PathSet(Filter(eff, Rescued(rules))), rules, mappings) <==>
                        path in PathSet(Filter(eff, Rescued(rules))) && CreditedBySome(rules, mappings, path) {
    }
  }

  /** The baseline is what stays unknown, the credit of every proposed line, and the documents an
      `Other` line of the repository's own file took without being proposed itself; the credits
      account for the whole gain if and only if there is no such document. */
  lemma CreditAccountsForBaseline(docs: seq<Doc>, existing: seq<Mapping>, decode: Decoder,
                                  p: Result, lines: seq<Mapping>, tax: Option<seq<Mapping>>)
    requires WellFormed(existing) && IsProposal(docs, existing, decode, p, lines, tax)
    requires p.unknownBefore > 0 && Faithful(decode, lines) && DistinctPaths(docs)
    ensures var eff := Effective(docs, existing);
            && p.unknownBefore == p.unknownAfter + SumClassifies(p.mappings) + |Filter(eff, Uncredited(eff, existing))|
            && (p.unknownBefore == p.unknownAfter + SumClassifies(p.mappings) <==>
                forall d :: d in eff ==> !Uncredited(eff, existing)(d))
  {
    var eff := Effective(docs, existing);
    ReadingIsMerged(eff, existing, decode, lines, tax);
    CreditSplits(docs, existing, decode, p, lines, tax);
    ElsewhereIsUncredited(docs, existing, tax.value, p.mappings);
    FilteredPathsDistinct(eff, Uncredited(eff, existing));
    FilterEmpty(eff, Uncredited(eff, existing));
  }

  lemma MappingsCredited(eff: seq<Doc>, rules: seq<Mapping>, mappings: seq<Proposed>)
    requires MappingsRight(eff, mappings, CreditIn(eff, rules))
    ensures forall i, j :: 0 <= i < j < |mappings| ==> mappings[i].pattern != mappings[j].pattern
    ensures forall i :: 0 <= i < |mappings| ==>
              mappings[i].classifies == |DecidedAmong(PathSet(Filter(eff, Rescued(rules))), rules, mappings[i].pattern)|
  {
    StrLessIsTotalOrder();
    forall i, j | 0 <= i < j < |mappings| ensures mappings[i].pattern != mappings[j].pattern {
      assert ByProposedPattern(mappings[i], mappings[j]);
    }
    forall i | 0 <= i < |mappings|
      ensures mappings[i].classifies == |DecidedAmong(PathSet(Filter(eff, Rescued(rules))), rules, mappings[i].pattern)|
    {
      assert mappings[i] in mappings;
      var dir :| Claims(eff, dir) && mappings[i] == ProposedFor(eff, dir, CreditIn(eff, rules)(Pattern(dir)));
    }
  }

  /** Without an `Other` line in the repository's file both counts are exact. */
  lemma ExactWithoutOther(docs: seq<Doc>, existing: seq<Mapping>, decode: Decoder,
                          p: Result, lines: seq<Mapping>, tax: Option<seq<Mapping>>)
    requires WellFormed(existing) && IsProposal(docs, existing, decode, p, lines, tax)
    requires p.unknownBefore > 0 && Faithful(decode, lines) && DistinctPaths(docs)
    requires forall m :: m in existing ==> m.docType != Unknown
    ensures tax.Some? && RealUnknown(docs, tax.value) == p.unknownAfter
    ensures p.unknownBefore == p.unknownAfter + SumClassifies(p.mappings)
  {
    var eff := Effective(docs, existing);
    MeasuredImpactIsReal(docs, existing, decode, p, lines, tax);
    CreditAccountsForBaseline(docs, existing, decode, p, lines, tax);
    forall d | d in eff ensures !HeldBack(eff, existing)(d) {
      FirstMatchIsMostSpecific(existing, d.path);
    }
  }

  // ----- an `Other` line makes the count too small

  /** A top-level directory declared `Other`, and a document directly in it. */
  predicate OtherCase(dir: string, file: string) {
    !Stops(dir) && '/' !in dir && Plain(dir) && '/' !in file
  }

  function OtherDoc(dir: string, file: string): Doc {
    Doc(dir + "/" + file, Unknown)
  }

  function OtherLine(dir: string): Mapping {
    LineFor(Pattern(dir), Unknown)
  }

  lemma OtherLineReadable(dir: string)
    ensures WellFormed([OtherLine(dir)])
  {
    CanonicalNamesRoundTrip(Unknown);
    WordsAreTrimmed(Unknown);
    BlankTrims(Pattern(dir));
    assert Pattern(dir)[|dir|] == '/';
  }

  lemma OtherLineDecides(dir: string, file: string)
    requires OtherCase(dir, file)
    ensures Decides([OtherLine(dir)], OtherDoc(dir, file).path) == Some(OtherLine(dir))
    ensures Effective([OtherDoc(dir, file)], [OtherLine(dir)]) == [OtherDoc(dir, file)]
  {
    DirectoryMatches(dir, OtherDoc(dir, file).path);
  }

  lemma OnlyDirectoryAbove(dir: string, file: string, other: string)
    requires OtherCase(dir, file) && Under(OtherDoc(dir, file).path, other)
    ensures other == dir
  {
    var path := OtherDoc(dir, file).path;
    assert path[|dir|] == '/';
    assert forall i :: |dir| < i < |path| ==> path[i] == file[i - |dir| - 1];
    assert Dir(path) == dir;
    assert Upward(dir) == [dir] + Upward(".");
  }

  lemma NoNewOtherLine(dir: string, file: string, m: Mapping)
    requires OtherCase(dir, file)
    ensures !NewLine([OtherDoc(dir, file)], [OtherLine(dir)], m)
  {
    var eff, line := [OtherDoc(dir, file)], OtherLine(dir);
    assert line in [line];
    forall other | Claims(eff, other) ensures DeclaredPattern([line], Pattern(other)) {
      var below := Filter(eff, IsBelow(other));
      FilterMembers(eff, IsBelow(other), below[0]);
      OnlyDirectoryAbove(dir, file, other);
    }
  }

  lemma CountsOfOne(d: Doc, rules: seq<Mapping>)
    requires d.docType == Unknown && TypeDeclared(rules, d.path) == Some(Unknown)
    ensures UnknownIn([d]) == 1 && |Filter([d], Unclaimed(rules))| == 0 && RealUnknown([d], rules) == 1
  {
    assert [] + [d] == [d];
    FilterAppend([], d, IsUnknown());
    FilterAppend([], d, Unclaimed(rules));
    FilterAppend([], d, LeftUnknown(rules));
  }

  /** The document stays unknown after indexing, and the proposal counts none left. */
  lemma OtherLineMiscounts(dir: string, file: string, decode: Decoder, p: Result, lines: seq<Mapping>, tax: Option<seq<Mapping>>)
    requires OtherCase(dir, file)
    requires IsProposal([OtherDoc(dir, file)], [OtherLine(dir)], decode, p, lines, tax) && Faithful(decode, lines)
    ensures tax.Some? && p.unknownAfter == 0 && RealUnknown([OtherDoc(dir, file)], tax.value) == 1
  {
    var d, line := OtherDoc(dir, file), OtherLine(dir);
    OtherLineReadable(dir);
    OtherLineDecides(dir, file);
    CountsOfOne(d, [line]);
    ReadingIsMerged([d], [line], decode, lines, tax);
    OtherLineStays(dir, file, tax.value);
    CountsOfOne(d, tax.value);
  }

  lemma OtherLineStays(dir: string, file: string, rules: seq<Mapping>)
    requires OtherCase(dir, file) && StrictlySorted(Outranks, rules)
    requires forall m :: m in rules <==> m in [OtherLine(dir)] || NewLine([OtherDoc(dir, file)], [OtherLine(dir)], m)
    ensures Decides(rules, OtherDoc(dir, file).path) == Some(OtherLine(dir))
  {
    var path := OtherDoc(dir, file).path;
    forall m | m in rules ensures m == OtherLine(dir) {
      NoNewOtherLine(dir, file, m);
    }
    DirectoryMatches(dir, path);
    FirstMatchIsMostSpecific(rules, path);
    assert OtherLine(dir) in rules;
  }
}
