/** `internal/taxonomy/propose.go`: a candidate taxonomy from the documents a
    repository holds. What a directory claims is defined without the proposer's
    loops, sort order or maps; the methods are the code. */
module Proposal {
  import opened Wrappers
  import opened Text
  import opened Sorting
  import opened Taxonomy

  datatype Doc = Doc(path: string, docType: DocType)

  // ----- counting documents

  function Filter<T>(xs: seq<T>, keep: T -> bool): seq<T> {
    if xs == [] then []
    else
      var n := |xs| - 1;
      Filter(xs[..n], keep) + (if keep(xs[n]) then [xs[n]] else [])
  }

  lemma {:induction false} FilterMembers<T>(xs: seq<T>, keep: T -> bool, y: T)
    ensures y in Filter(xs, keep) <==> y in xs && keep(y)
  {
    if xs == [] {
    } else {
      var n := |xs| - 1;
      assert xs == xs[..n] + [xs[n]];
      FilterMembers(xs[..n], keep, y);
    }
  }

  lemma FilterStep<T>(xs: seq<T>, i: nat, keep: T -> bool)
    requires i < |xs|
    ensures Filter(xs[..i + 1], keep) == Filter(xs[..i], keep) + (if keep(xs[i]) then [xs[i]] else [])
  {
    assert xs[..i + 1][..i] == xs[..i];
  }

  lemma FilterAppend<T>(xs: seq<T>, x: T, keep: T -> bool)
    ensures Filter(xs + [x], keep) == Filter(xs, keep) + (if keep(x) then [x] else [])
  {
    assert (xs + [x])[..|xs|] == xs;
  }

  function IsUnknown(): Doc -> bool { (d: Doc) => d.docType == Unknown }

  function IsTyped(): Doc -> bool { (d: Doc) => d.docType != Unknown }

  function HasType(t: DocType): Doc -> bool { (d: Doc) => d.docType == t }

  function IsBelow(dir: string): Doc -> bool { (d: Doc) => Under(d.path, dir) }

  function IsIn(dir: string): Doc -> bool { (d: Doc) => Dir(d.path) == dir }

  function UnknownIn(docs: seq<Doc>): nat { |Filter(docs, IsUnknown())| }

  function TypedIn(docs: seq<Doc>): nat { |Filter(docs, IsTyped())| }

  function OfType(docs: seq<Doc>, t: DocType): nat { |Filter(docs, HasType(t))| }

  // ----- directories

  /** `path.Dir` on a clean path. */
  function Dir(p: string): (d: string)
    ensures !Stops(p) && !Stops(d) ==> |d| < |p|
  {
    var k := AfterLast(p, '/');
    if k == 0 then "." else p[..k - 1]
  }

  /** `path.Base` on a clean path. */
  function Base(p: string): string {
    p[AfterLast(p, '/')..]
  }

  /** Where every upward walk ends. */
  predicate Stops(dir: string) {
    dir == "." || dir == "/" || dir == ""
  }

  function Rank(dir: string): nat {
    if Stops(dir) then 0 else |dir|
  }

  /** `dir` and the directories above it, nearest first. */
  function Upward(dir: string): (dirs: seq<string>)
    ensures forall d :: d in dirs ==> !Stops(d) && |d| <= |dir|
    decreases Rank(dir)
  {
    if Stops(dir) then [] else [dir] + Upward(Dir(dir))
  }

  predicate Under(path: string, dir: string) {
    dir in Upward(Dir(path))
  }

  /** `ancestors`. */
  method Ancestors(p: string) returns (dirs: seq<string>)
    ensures dirs == Upward(Dir(p))
  {
    dirs := [];
    var dir := Dir(p);
    while !Stops(dir)
      invariant dirs + Upward(dir) == Upward(Dir(p))
      decreases Rank(dir)
    {
      dirs := dirs + [dir];
      dir := Dir(dir);
    }
  }

  function Pattern(dir: string): string { dir + "/**" }

  lemma PatternInjective(a: string, b: string)
    ensures Pattern(a) == Pattern(b) ==> a == b
  {
    assert Pattern(a)[..|Pattern(a)| - 3] == a && Pattern(b)[..|Pattern(b)| - 3] == b;
  }

  // ----- what a directory's own documents say

  /** At least two typed documents, at least two thirds of them of type `t`. */
  predicate Majority(docs: seq<Doc>, t: DocType) {
    t != Unknown && TypedIn(docs) >= 2 && 3 * OfType(docs, t) >= 2 * TypedIn(docs)
  }

  ghost function FrontMatter(docs: seq<Doc>): (r: Option<DocType>)
    ensures r.Some? ==> r.value != RFC && Majority(docs, r.value)
  {
    if exists t :: Majority(docs, t) then
      var t :| Majority(docs, t);
      if t == RFC then None else Some(t)
    else None
  }

  lemma {:induction false} TypesShare(docs: seq<Doc>, t: DocType, u: DocType)
    requires t != u && t != Unknown && u != Unknown
    ensures OfType(docs, t) + OfType(docs, u) <= TypedIn(docs)
  {
    if docs == [] {
    } else {
      TypesShare(docs[..|docs| - 1], t, u);
    }
  }

  lemma MajorityUnique(docs: seq<Doc>, t: DocType, u: DocType)
    requires Majority(docs, t) && Majority(docs, u)
    ensures t == u
  {
    if t != u {
      TypesShare(docs, t, u);
    }
  }

  function CountOf(counts: map<DocType, nat>, t: DocType): nat {
    if t in counts then counts[t] else 0
  }

  predicate Commoner(counts: map<DocType, nat>, t: DocType, u: DocType) {
    if CountOf(counts, t) != CountOf(counts, u) then CountOf(counts, t) > CountOf(counts, u)
    else StrLess(TypeName(t), TypeName(u))
  }

  /** `frontMatterMajority`. */
  method FrontMatterMajority(docs: seq<Doc>) returns (found: Option<DocType>, typed: nat)
    ensures typed == TypedIn(docs)
    ensures found == FrontMatter(docs)
  {
    var counts: map<DocType, nat> := map[];
    typed := 0;
    for i := 0 to |docs|
      invariant typed == TypedIn(docs[..i])
      invariant Unknown !in counts
      invariant forall t :: t != Unknown ==> CountOf(counts, t) == OfType(docs[..i], t)
      invariant typed > 0 ==> counts != map[]
    {
      var t := docs[i].docType;
      FilterStep(docs, i, IsTyped());
      forall u ensures OfType(docs[..i + 1], u) == OfType(docs[..i], u) + (if u == t then 1 else 0) {
        FilterStep(docs, i, HasType(u));
      }
      ghost var before := counts;
      if t != Unknown {
        counts := counts[t := CountOf(counts, t) + 1];
        typed := typed + 1;
        assert t in counts;
      }
      assert forall u :: u != Unknown ==> CountOf(counts, u) == CountOf(before, u) + (if u == t then 1 else 0);
    }
    assert docs[..|docs|] == docs;
    if typed < 2 {
      return None, typed;
    }
    var best := Commonest(counts);
    assert forall t :: CountOf(counts, t) <= CountOf(counts, best);
    forall t | Majority(docs, t) ensures t == best {
      if t != best {
        TypesShare(docs, t, best);
      }
    }
    if 3 * CountOf(counts, best) < 2 * typed {
      return None, typed;
    }
    assert Majority(docs, best);
    var word := CanonicalNameFor(best);
    if word.None? {
      return None, typed;
    }
    return Some(best), typed;
  }

  /** The counted types sorted by count, then by name; the first of them. */
  method Commonest(counts: map<DocType, nat>) returns (best: DocType)
    requires counts != map[]
    ensures best in counts
    ensures forall t :: t in counts ==> counts[t] <= counts[best]
  {
    var types: seq<DocType> := [];
    var todo := counts.Keys;
    while todo != {}
      invariant todo <= counts.Keys
      invariant forall t :: t in types <==> t in counts && t !in todo
    {
      var t :| t in todo;
      types := types + [t];
      todo := todo - {t};
    }
    StrLessIsTotalOrder();
    var less := (t, u) => Commoner(counts, t, u);
    var ordered := SortSlice(types, less);
    PermutationMembers(ordered, types);
    assert ordered != [] by {
      var t :| t in counts;
      assert t in ordered;
    }
    best := ordered[0];
    assert best in types;
    forall t | t in counts ensures counts[t] <= counts[best] {
      assert t in ordered;
      var k :| 0 <= k < |ordered| && ordered[k] == t;
      assert k > 0 ==> !less(ordered[k], ordered[0]);
    }
  }

  // ----- what a directory's name says

  function DirectoryType(base: string): (r: Option<DocType>)
    ensures r.Some? ==> r.value != RFC && r.value != Unknown
  {
    if base in {"decisions", "decision"} then Some(ADR)
    else if base in {"architecture", "arch"} then Some(Standard)
    else if base in {"specs", "spec", "specifications", "specification", "requirements"} then Some(Specification)
    else if base in {"guides", "guide", "handbook", "handbooks", "playbook", "playbooks", "runbook", "runbooks",
                     "tutorials", "tutorial", "howto", "how-to"} then Some(Guide)
    else if base in {"plans", "plan", "planning", "roadmaps", "backlog", "milestones"} then Some(Roadmap)
    else if base in {"reference", "references", "glossary", "api"} then Some(Readme)
    else None
  }

  /** A directory called by a word of the vocabulary holds what the word stands for, if its name says
      anything; six of the eight words do. */
  lemma NamesAgreeWithWords(base: string)
    ensures DirectoryType(base).Some? && CanonicalEntry(base).Some? ==> DirectoryType(base) == CanonicalEntry(base)
    ensures CanonicalEntry(base).Some? && base != "rule" && base != "other" ==> DirectoryType(base).Some?
  {
  }

  /** The evidence sentences, by what they report. */
  datatype Evidence =
    | NamedAndDeclared(base: string, typed: nat, t: DocType)
    | Disagreement(guess: DocType, typed: nat, t: DocType)
    | Declared(typed: nat, t: DocType)
    | Named(base: string)
    | NoSignal

  datatype Identified = Holds(t: DocType, evidence: Evidence) | Unclear(reason: Evidence)

  /** `identify`, on what the name suggests and what the documents declare. */
  function Weigh(base: string, guess: Option<DocType>, found: Option<DocType>, typed: nat): Identified {
    if guess.Some? && found.Some? && guess.value == found.value then Holds(guess.value, NamedAndDeclared(base, typed, found.value))
    else if guess.Some? && found.Some? then Unclear(Disagreement(guess.value, typed, found.value))
    else if found.Some? then Holds(found.value, Declared(typed, found.value))
    else if guess.Some? then Holds(guess.value, Named(base))
    else Unclear(NoSignal)
  }

  ghost function Identify(docs: seq<Doc>, dir: string): (r: Identified)
    ensures r.Holds? ==> r.t != RFC && r.t != Unknown
  {
    var direct := Filter(docs, IsIn(dir));
    Weigh(Base(dir), DirectoryType(ToLower(Base(dir))), FrontMatter(direct), TypedIn(direct))
  }

  predicate Suggests(dir: string, t: DocType) {
    DirectoryType(ToLower(Base(dir))) == Some(t)
  }

  /** The documents directly in a directory declare the type: a majority of it, with a word for it. */
  predicate DeclaredBy(direct: seq<Doc>, t: DocType) {
    Majority(direct, t) && t != RFC
  }

  predicate Signalled(dir: string, direct: seq<Doc>, t: DocType) {
    Suggests(dir, t) || DeclaredBy(direct, t)
  }

  /** A directory holds a type when its name or its documents say so and neither says another; it
      is unclear when they disagree or neither says anything. */
  ghost predicate Identifies(dir: string, direct: seq<Doc>, r: Identified) {
    match r
    case Holds(t, evidence) =>
      && Signalled(dir, direct, t) && (forall u :: Signalled(dir, direct, u) ==> u == t)
      && (evidence.NamedAndDeclared? || evidence.Named? <==> Suggests(dir, t))
      && (evidence.NamedAndDeclared? || evidence.Declared? <==> DeclaredBy(direct, t))
      && (evidence.NamedAndDeclared? || evidence.Declared? ==> evidence.typed == TypedIn(direct) && evidence.t == t)
      && (evidence.NamedAndDeclared? || evidence.Named? ==> evidence.base == Base(dir))
    case Unclear(reason) =>
      if reason.Disagreement? then
        && reason.guess != reason.t && Suggests(dir, reason.guess) && DeclaredBy(direct, reason.t)
        && reason.typed == TypedIn(direct)
      else reason.NoSignal? && forall u :: !Signalled(dir, direct, u)
  }

  lemma FrontMatterDeclares(direct: seq<Doc>, t: DocType)
    ensures FrontMatter(direct) == Some(t) <==> DeclaredBy(direct, t)
  {
    if DeclaredBy(direct, t) {
      var u :| Majority(direct, u) && FrontMatter(direct) == if u == RFC then None else Some(u);
      MajorityUnique(direct, t, u);
    }
  }

  /** `identify`. What it holds always has a word. */
  method IdentifyDirectory(dir: string, direct: seq<Doc>) returns (r: Identified)
    ensures Identifies(dir, direct, r)
    ensures r.Holds? ==> CanonicalType(WordFor(r.t)) == Some(r.t)
  {
    var guess := DirectoryType(ToLower(Base(dir)));
    var found, typed := FrontMatterMajority(direct);
    forall t ensures found == Some(t) <==> DeclaredBy(direct, t) {
      FrontMatterDeclares(direct, t);
    }
    if guess.Some? {
      CanonicalNamesRoundTrip(guess.value);
    }
    if found.Some? {
      CanonicalNamesRoundTrip(found.value);
    }
    if guess.Some? && found.Some? && guess.value == found.value {
      return Holds(guess.value, NamedAndDeclared(Base(dir), typed, found.value));
    }
    if guess.Some? && found.Some? {
      return Unclear(Disagreement(guess.value, typed, found.value));
    }
    if found.Some? {
      return Holds(found.value, Declared(typed, found.value));
    }
    if guess.Some? {
      return Holds(guess.value, Named(Base(dir)));
    }
    return Unclear(NoSignal);
  }

  /** One answer identifies a directory. */
  lemma IdentifiesOnce(dir: string, direct: seq<Doc>, r: Identified, s: Identified)
    requires Identifies(dir, direct, r) && Identifies(dir, direct, s)
    ensures r == s
  {
    if r.Unclear? && s.Unclear? && r.reason.Disagreement? && s.reason.Disagreement? {
      FrontMatterDeclares(direct, r.reason.t);
      FrontMatterDeclares(direct, s.reason.t);
    }
    if r.Unclear? && r.reason.Disagreement? {
      assert Signalled(dir, direct, r.reason.guess) && Signalled(dir, direct, r.reason.t);
    }
    if s.Unclear? && s.reason.Disagreement? {
      assert Signalled(dir, direct, s.reason.guess) && Signalled(dir, direct, s.reason.t);
    }
  }

  /** The definition used by the claims below is that answer. */
  lemma IdentifyIdentifies(docs: seq<Doc>, dir: string)
    ensures Identifies(dir, Filter(docs, IsIn(dir)), Identify(docs, dir))
  {
    var direct := Filter(docs, IsIn(dir));
    forall t ensures FrontMatter(direct) == Some(t) <==> DeclaredBy(direct, t) {
      FrontMatterDeclares(direct, t);
    }
  }

  // ----- what a directory claims

  function UnknownBelow(docs: seq<Doc>, dir: string): nat {
    UnknownIn(Filter(docs, IsBelow(dir)))
  }

  /** The type a directory is proposed for: it has something to gain, it can be
      identified, and its nearest claiming ancestor does not say the same already. */
  ghost function Claim(docs: seq<Doc>, dir: string): Option<DocType>
    decreases Rank(dir), 0
  {
    if Stops(dir) || UnknownBelow(docs, dir) == 0 then None
    else match Identify(docs, dir)
      case Unclear(_) => None
      case Holds(t, _) =>
        var above := Nearest(docs, Dir(dir));
        if above.Some? && Claim(docs, above.value) == Some(t) then None else Some(t)
  }

  /** The first claiming directory on the way up from `dir`, itself included. */
  ghost function Nearest(docs: seq<Doc>, dir: string): (r: Option<string>)
    ensures r.Some? ==> Rank(r.value) <= Rank(dir) && r.value in Upward(dir)
    decreases Rank(dir), 1
  {
    if Stops(dir) then None
    else if Claim(docs, dir).Some? then Some(dir)
    else Nearest(docs, Dir(dir))
  }

  /** The longest path on the way up from `from` that claims something. */
  ghost predicate NearestAbove(docs: seq<Doc>, from: string, a: string) {
    a in Upward(from) && Claims(docs, a) && forall b :: b in Upward(from) && Claims(docs, b) ==> |b| <= |a|
  }

  lemma {:induction false} NearestIsLongest(docs: seq<Doc>, from: string, a: string)
    ensures Nearest(docs, from) == Some(a) <==> NearestAbove(docs, from, a)
    decreases Rank(from)
  {
    if Stops(from) {
    } else {
      var up := Dir(from);
      NearestIsLongest(docs, up, a);
      assert Upward(from) == [from] + Upward(up);
      assert Upward(up) != [] ==> |up| < |from|;
    }
  }

  /** What a claim means: some document below the directory is unknown, the directory is identified
      as holding the type, and the nearest directory above that claims anything claims another. */
  lemma ClaimMeaning(docs: seq<Doc>, dir: string, t: DocType)
    ensures Claim(docs, dir) == Some(t) <==>
            && !Stops(dir) && (exists d :: d in docs && d.docType == Unknown && Under(d.path, dir))
            && (exists e :: Identifies(dir, Filter(docs, IsIn(dir)), Holds(t, e)))
            && forall a :: NearestAbove(docs, Dir(dir), a) ==> Claim(docs, a) != Some(t)
  {
    UnknownDocBelow(docs, dir);
    IdentifiedAs(docs, dir, t);
    forall a ensures Nearest(docs, Dir(dir)) == Some(a) <==> NearestAbove(docs, Dir(dir), a) {
      NearestIsLongest(docs, Dir(dir), a);
    }
  }

  lemma UnknownDocBelow(docs: seq<Doc>, dir: string)
    ensures UnknownBelow(docs, dir) > 0 <==> exists d :: d in docs && d.docType == Unknown && Under(d.path, dir)
  {
    var below := Filter(docs, IsBelow(dir));
    var unknown := Filter(below, IsUnknown());
    forall d ensures d in unknown <==> d in docs && d.docType == Unknown && Under(d.path, dir) {
      FilterMembers(below, IsUnknown(), d);
      FilterMembers(docs, IsBelow(dir), d);
    }
    if unknown != [] {
      assert unknown[0] in unknown;
    }
  }

  lemma IdentifiedAs(docs: seq<Doc>, dir: string, t: DocType)
    ensures (exists e :: Identify(docs, dir) == Holds(t, e)) <==> exists e :: Identifies(dir, Filter(docs, IsIn(dir)), Holds(t, e))
  {
    IdentifyIdentifies(docs, dir);
    if e :| Identifies(dir, Filter(docs, IsIn(dir)), Holds(t, e)) {
      IdentifiesOnce(dir, Filter(docs, IsIn(dir)), Holds(t, e), Identify(docs, dir));
    }
  }

  /** What the proposer proposes or reports for one directory. */
  datatype Reason = Because(evidence: Evidence) | CoveredBy(pattern: string)

  datatype Proposed = Proposed(pattern: string, t: DocType, evidence: Evidence, classifies: nat)

  datatype Skipped = Skipped(pattern: string, reason: Reason, unknown: nat)

  ghost predicate Claims(docs: seq<Doc>, dir: string) {
    Claim(docs, dir).Some?
  }

  ghost predicate PassedOver(docs: seq<Doc>, dir: string) {
    !Stops(dir) && UnknownBelow(docs, dir) > 0 && Claim(docs, dir).None?
  }

  ghost function ProposedFor(docs: seq<Doc>, dir: string, classifies: nat): Proposed
    requires Claims(docs, dir)
  {
    Proposed(Pattern(dir), Claim(docs, dir).value, Identify(docs, dir).evidence, classifies)
  }

  ghost function SkippedFor(docs: seq<Doc>, dir: string): Skipped
    requires PassedOver(docs, dir)
  {
    match Identify(docs, dir)
    case Unclear(e) => Skipped(Pattern(dir), Because(e), UnknownBelow(docs, dir))
    case Holds(_, _) => Skipped(Pattern(dir), CoveredBy(Pattern(Nearest(docs, Dir(dir)).value)), UnknownBelow(docs, dir))
  }

  /** The line a claim writes into the file. */
  function LineFor(pattern: string, t: DocType): Mapping {
    Mapping(pattern, WordFor(t), t)
  }

  lemma ClaimedTypes(docs: seq<Doc>, dir: string)
    requires Claims(docs, dir)
    ensures Claim(docs, dir).value != Unknown && Claim(docs, dir).value != RFC
    ensures CanonicalType(WordFor(Claim(docs, dir).value)) == Some(Claim(docs, dir).value)
  {
    CanonicalNamesRoundTrip(Claim(docs, dir).value);
  }
}
