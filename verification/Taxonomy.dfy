/** `internal/domain/taxonomy.go`: a repository's own statement of what its
    directories hold, which line of it decides a path, and the merging of rule
    lines by `internal/cli/setup_rules.go`. */
module Taxonomy {
  import opened Wrappers
  import opened Text
  import opened Sorting
  import opened Glob

  /** The Knowledge Types of `internal/domain/document.go`. */
  datatype DocType =
    | ADR | Rule | Standard | RFC | Roadmap | Readme | Unknown | Guide | Specification

  function TypeName(t: DocType): string {
    match t
    case ADR => "adr"
    case Rule => "rule"
    case Standard => "standard"
    case RFC => "rfc"
    case Roadmap => "roadmap"
    case Readme => "readme"
    case Unknown => "unknown"
    case Guide => "guide"
    case Specification => "specification"
  }

  // ----- the closed vocabulary

  const CANONICAL_NAMES: seq<string> :=
    ["architecture", "decision", "guide", "other", "planning", "reference", "rule", "specification"]

  /** The table `canonicalTypes`, on a lower-case name. */
  function CanonicalEntry(name: string): Option<DocType> {
    if name == "rule" then Some(Rule)
    else if name == "decision" then Some(ADR)
    else if name == "architecture" then Some(Standard)
    else if name == "specification" then Some(Specification)
    else if name == "guide" then Some(Guide)
    else if name == "planning" then Some(Roadmap)
    else if name == "reference" then Some(Readme)
    else if name == "other" then Some(Unknown)
    else None
  }

  function CanonicalType(name: string): Option<DocType> {
    CanonicalEntry(ToLower(TrimSpace(name)))
  }

  function Capitalized(name: string): string
    requires name != ""
  {
    [UpperChar(name[0])] + name[1..]
  }

  /** The word a repository writes for a type; `RFC` has none. */
  function WordFor(t: DocType): string {
    match t
    case Rule => "Rule"
    case ADR => "Decision"
    case Standard => "Architecture"
    case Specification => "Specification"
    case Guide => "Guide"
    case Roadmap => "Planning"
    case Readme => "Reference"
    case Unknown => "Other"
    case RFC => ""
  }

  /** `CanonicalNameFor`: the first canonical name standing for the type. */
  method CanonicalNameFor(t: DocType) returns (r: Option<string>)
    ensures r == if t == RFC then None else Some(WordFor(t))
  {
    for i := 0 to |CANONICAL_NAMES|
      invariant forall k :: 0 <= k < i ==> CanonicalEntry(CANONICAL_NAMES[k]) != Some(t)
    {
      var name := CANONICAL_NAMES[i];
      if CanonicalEntry(name) == Some(t) {
        CapitalizedNames(i);
        return Some(Capitalized(name));
      }
    }
    assert CanonicalEntry(CANONICAL_NAMES[0]) == Some(Standard) && CanonicalEntry(CANONICAL_NAMES[1]) == Some(ADR);
    assert CanonicalEntry(CANONICAL_NAMES[2]) == Some(Guide) && CanonicalEntry(CANONICAL_NAMES[3]) == Some(Unknown);
    assert CanonicalEntry(CANONICAL_NAMES[4]) == Some(Roadmap) && CanonicalEntry(CANONICAL_NAMES[5]) == Some(Readme);
    assert CanonicalEntry(CANONICAL_NAMES[6]) == Some(Rule) && CanonicalEntry(CANONICAL_NAMES[7]) == Some(Specification);
    return None;
  }

  lemma CapitalizedNames(i: nat)
    requires i < |CANONICAL_NAMES|
    ensures CanonicalEntry(CANONICAL_NAMES[i]).Some? && CANONICAL_NAMES[i] != ""
    ensures Capitalized(CANONICAL_NAMES[i]) == WordFor(CanonicalEntry(CANONICAL_NAMES[i]).value)
  {
    match i
    case 0 => Capital("architecture", "Architecture");
    case 1 => Capital("decision", "Decision");
    case 2 => Capital("guide", "Guide");
    case 3 => Capital("other", "Other");
    case 4 => Capital("planning", "Planning");
    case 5 => Capital("reference", "Reference");
    case 6 => Capital("rule", "Rule");
    case 7 => Capital("specification", "Specification");
  }

  lemma Capital(name: string, word: string)
    requires |name| == |word| > 0 && word[0] == UpperChar(name[0])
    requires forall i :: 1 <= i < |name| ==> name[i] == word[i]
    ensures Capitalized(name) == word
  {
  }

  lemma FirstFourWords(t: DocType)
    ensures t in {Rule, ADR, Standard, Specification} ==> CanonicalType(WordFor(t)) == Some(t)
  {
    match t
    case Rule => WordReads("Rule", "rule");
    case ADR => WordReads("Decision", "decision");
    case Standard => WordReads("Architecture", "architecture");
    case Specification => WordReads("Specification", "specification");
    case _ =>
  }

  lemma OtherFourWords(t: DocType)
    ensures t in {Guide, Roadmap, Readme, Unknown} ==> CanonicalType(WordFor(t)) == Some(t)
  {
    match t
    case Guide => WordReads("Guide", "guide");
    case Roadmap => WordReads("Planning", "planning");
    case Readme => WordReads("Reference", "reference");
    case Unknown => WordReads("Other", "other");
    case _ =>
  }

  /** Every type but RFC has a word, and the parser reads that word back as the type. */
  lemma CanonicalNamesRoundTrip(t: DocType)
    requires t != RFC
    ensures CanonicalType(WordFor(t)) == Some(t)
  {
    FirstFourWords(t);
    OtherFourWords(t);
  }

  lemma WordsAreTrimmed(t: DocType)
    ensures TrimSpace(WordFor(t)) == WordFor(t)
  {
    TrimmedIsFixed(WordFor(t));
  }

  lemma WordReads(word: string, lower: string)
    requires |word| == |lower| > 0
    requires forall i :: 0 <= i < |word| ==> LowerChar(word[i]) == lower[i]
    requires !IsSpace(word[0]) && !IsSpace(word[|word| - 1])
    ensures CanonicalType(word) == CanonicalEntry(lower)
  {
    TrimmedIsFixed(word);
    assert ToLower(word) == lower;
  }

  // ----- lines and files

  datatype Mapping = Mapping(pattern: string, declared: string, docType: DocType)

  datatype ParseError = UnknownType(pattern: string) | EmptyPattern(pattern: string)

  datatype ParseResult = Parsed(rules: seq<Mapping>) | Rejected(error: ParseError)

  /** Longer patterns first, equal lengths by name. */
  predicate MoreSpecific(a: string, b: string) {
    |a| > |b| || (|a| == |b| && StrLess(a, b))
  }

  predicate Outranks(a: Mapping, b: Mapping) {
    MoreSpecific(a.pattern, b.pattern)
  }

  lemma MoreSpecificIsTotalOrder()
    ensures WeakOrder(MoreSpecific)
    ensures forall a, b :: a != b ==> MoreSpecific(a, b) || MoreSpecific(b, a)
  {
    StrLessIsTotalOrder();
  }

  predicate ReadableLine(pattern: string, declared: string) {
    CanonicalType(declared).Some? && TrimSpace(pattern) != ""
  }

  function LineOf(pattern: string, declared: string): Mapping
    requires ReadableLine(pattern, declared)
  {
    Mapping(pattern, TrimSpace(declared), CanonicalType(declared).value)
  }

  /** `rules` are the lines of `file`, most specific first. */
  ghost predicate Declares(file: map<string, string>, rules: seq<Mapping>) {
    && StrictlySorted(Outranks, rules)
    && (forall p :: p in file ==> ReadableLine(p, file[p]) && LineOf(p, file[p]) in rules)
    && (forall m :: m in rules ==> m.pattern in file && ReadableLine(m.pattern, file[m.pattern])
                                   && m == LineOf(m.pattern, file[m.pattern]))
  }

  /** The map is iterated in no particular order. */
  method Keys(file: map<string, string>) returns (patterns: seq<string>)
    ensures Distinct(patterns)
    ensures forall p :: p in patterns <==> p in file
  {
    patterns := [];
    var todo := file.Keys;
    while todo != {}
      invariant Distinct(patterns)
      invariant todo <= file.Keys
      invariant forall p :: p in patterns <==> p in file && p !in todo
    {
      var p :| p in todo;
      patterns := patterns + [p];
      todo := todo - {p};
    }
  }

  /** `ParseTaxonomy` after the YAML decoder: the outcome does not depend on the map's
      iteration order, and a refusal names the most specific offending line. */
  method ParseTaxonomy(file: map<string, string>) returns (r: ParseResult)
    ensures r.Parsed? ==> Declares(file, r.rules)
    ensures r.Rejected? ==>
              var p := r.error.pattern;
              && p in file && !ReadableLine(p, file[p])
              && (r.error.UnknownType? <==> CanonicalType(file[p]).None?)
              && forall q :: q in file && MoreSpecific(q, p) ==> ReadableLine(q, file[q])
  {
    var patterns := Keys(file);
    MoreSpecificIsTotalOrder();
    var ordered := SortSlice(patterns, MoreSpecific);
    PermutationMembers(ordered, patterns);
    DistinctPermutation(patterns, ordered);
    SortedDistinctIsStrict(MoreSpecific, ordered);
    var rules: seq<Mapping> := [];
    for i := 0 to |ordered|
      invariant |rules| == i
      invariant forall k :: 0 <= k < i ==> ReadableLine(ordered[k], file[ordered[k]])
                                           && rules[k] == LineOf(ordered[k], file[ordered[k]])
    {
      var p := ordered[i];
      assert p in patterns;
      if CanonicalType(file[p]).None? || TrimSpace(p) == "" {
        forall q | q in file && MoreSpecific(q, p) ensures ReadableLine(q, file[q]) {
          assert q in ordered;
          var k :| 0 <= k < |ordered| && ordered[k] == q;
        }
        return Rejected(if CanonicalType(file[p]).None? then UnknownType(p) else EmptyPattern(p));
      }
      rules := rules + [LineOf(p, file[p])];
    }
    forall p | p in file ensures ReadableLine(p, file[p]) && LineOf(p, file[p]) in rules {
      assert p in ordered;
      var k :| 0 <= k < |ordered| && ordered[k] == p;
      assert rules[k] == LineOf(p, file[p]);
    }
    return Parsed(rules);
  }

  /** A file has one reading. */
  lemma DeclaredRulesUnique(file: map<string, string>, a: seq<Mapping>, b: seq<Mapping>)
    requires Declares(file, a) && Declares(file, b)
    ensures a == b
  {
    MoreSpecificIsTotalOrder();
    StrictlySortedUnique(Outranks, a, b);
  }

  /** A taxonomy as `Mappings` reports one: its lines, read back, are themselves. */
  ghost predicate WellFormed(rules: seq<Mapping>) {
    && StrictlySorted(Outranks, rules)
    && forall m :: m in rules ==> ReadableLine(m.pattern, m.declared) && m == LineOf(m.pattern, m.declared)
  }

  lemma DeclaredIsWellFormed(file: map<string, string>, rules: seq<Mapping>)
    requires Declares(file, rules)
    ensures WellFormed(rules)
  {
    forall m | m in rules ensures ReadableLine(m.pattern, m.declared) && m == LineOf(m.pattern, m.declared) {
      TrimIdempotent(file[m.pattern]);
    }
  }

  lemma WellFormedPatterns(rules: seq<Mapping>)
    requires WellFormed(rules)
    ensures DistinctPatterns(rules)
  {
    MoreSpecificIsTotalOrder();
    forall i, j | 0 <= i < j < |rules| ensures rules[i].pattern != rules[j].pattern {
      assert Outranks(rules[i], rules[j]);
    }
  }

  // ----- which line decides

  /** The first rule that matches. */
  ghost function Decides(rules: seq<Mapping>, path: string): Option<Mapping> {
    if rules == [] then None
    else if Matches(rules[0].pattern, path) then Some(rules[0])
    else Decides(rules[1..], path)
  }

  /** `MappingFor`. */
  method MappingFor(rules: seq<Mapping>, path: string) returns (r: Option<Mapping>)
    ensures r == Decides(rules, path)
  {
    assert rules[0..] == rules;
    for i := 0 to |rules|
      invariant Decides(rules, path) == Decides(rules[i..], path)
    {
      assert rules[i..][0] == rules[i] && rules[i..][1..] == rules[i + 1..];
      var here := MatchPath(rules[i].pattern, path);
      if here {
        return Some(rules[i]);
      }
    }
    assert rules[|rules|..] == [];
    return None;
  }

  ghost function TypeDeclared(rules: seq<Mapping>, path: string): Option<DocType> {
    match Decides(rules, path)
    case None => None
    case Some(m) => Some(m.docType)
  }

  /** `TypeFor`: no declaration reads as `unknown` with a false flag. */
  method TypeFor(rules: seq<Mapping>, path: string) returns (t: DocType, claims: bool)
    ensures claims <==> TypeDeclared(rules, path).Some?
    ensures t == if claims then TypeDeclared(rules, path).value else Unknown
  {
    var m := MappingFor(rules, path);
    if m.None? {
      return Unknown, false;
    }
    return m.value.docType, true;
  }

  /** What `applyTaxonomy` (`internal/indexer/taxonomy.go`) leaves as a document's type. */
  ghost function Classified(rules: seq<Mapping>, path: string, t: DocType): DocType {
    if t == Unknown && TypeDeclared(rules, path).Some? then TypeDeclared(rules, path).value else t
  }

  method ApplyTaxonomy(rules: seq<Mapping>, path: string, t: DocType) returns (r: DocType)
    ensures r == Classified(rules, path, t)
  {
    r := t;
    if rules == [] || t != Unknown {
      return;
    }
    var declared, claims := TypeFor(rules, path);
    if claims {
      r := declared;
    }
  }

  /** `m` is the one matching rule that every other matching rule is less specific than. */
  ghost predicate MostSpecificMatch(rules: seq<Mapping>, path: string, m: Mapping) {
    && m in rules && Matches(m.pattern, path)
    && forall o :: o in rules && o != m && Matches(o.pattern, path) ==> Outranks(m, o)
  }

  /** Most specific first makes "first match" mean "most specific match". */
  lemma {:induction false} FirstMatchIsMostSpecific(rules: seq<Mapping>, path: string)
    requires StrictlySorted(Outranks, rules)
    ensures Decides(rules, path).None? <==> forall m :: m in rules ==> !Matches(m.pattern, path)
    ensures Decides(rules, path).Some? ==> MostSpecificMatch(rules, path, Decides(rules, path).value)
  {
    if rules == [] {
    } else {
      var rest := rules[1..];
      assert rules == [rules[0]] + rest;
      FirstMatchIsMostSpecific(rest, path);
      if Matches(rules[0].pattern, path) {
        forall o | o in rules && o != rules[0] ensures Outranks(rules[0], o) {
          var k :| 0 <= k < |rules| && rules[k] == o;
        }
      } else {
        assert forall m :: m in rules <==> m == rules[0] || m in rest;
      }
    }
  }

  lemma MostSpecificIsDecisive(rules: seq<Mapping>, path: string, m: Mapping)
    requires StrictlySorted(Outranks, rules) && MostSpecificMatch(rules, path, m)
    ensures Decides(rules, path) == Some(m)
  {
    FirstMatchIsMostSpecific(rules, path);
    MoreSpecificIsTotalOrder();
  }

  /** The deciding line has the longest pattern of all that match, and among those of its length
      the first by name. */
  lemma LongestMatchDecides(rules: seq<Mapping>, path: string, m: Mapping)
    requires StrictlySorted(Outranks, rules) && m in rules && Matches(m.pattern, path)
    ensures Decides(rules, path).Some?
    ensures var w := Decides(rules, path).value;
            && Matches(w.pattern, path) && |w.pattern| >= |m.pattern|
            && (|w.pattern| == |m.pattern| && w != m ==> StrLess(w.pattern, m.pattern))
  {
    FirstMatchIsMostSpecific(rules, path);
  }

  /** The more specific of two optional winners. */
  function Stronger(x: Option<Mapping>, y: Option<Mapping>): Option<Mapping> {
    if x.None? then y
    else if y.None? then x
    else if Outranks(y.value, x.value) then y else x
  }

  /** In a merged file the deciding line is the more specific of the two winners. */
  lemma MergeIsJoin(a: seq<Mapping>, b: seq<Mapping>, merged: seq<Mapping>, path: string)
    requires StrictlySorted(Outranks, a) && StrictlySorted(Outranks, b) && StrictlySorted(Outranks, merged)
    requires forall m :: m in merged <==> m in a || m in b
    ensures Decides(merged, path) == Stronger(Decides(a, path), Decides(b, path))
  {
    MoreSpecificIsTotalOrder();
    FirstMatchIsMostSpecific(a, path);
    FirstMatchIsMostSpecific(b, path);
    FirstMatchIsMostSpecific(merged, path);
    var w := Stronger(Decides(a, path), Decides(b, path));
    if w.Some? {
      forall o | o in merged && o != w.value && Matches(o.pattern, path)
        ensures Outranks(w.value, o)
      {
        JoinOutranks(a, b, merged, path, w.value, o);
      }
      MostSpecificIsDecisive(merged, path, w.value);
    }
  }

  lemma JoinOutranks(a: seq<Mapping>, b: seq<Mapping>, merged: seq<Mapping>, path: string, w: Mapping, o: Mapping)
    requires StrictlySorted(Outranks, a) && StrictlySorted(Outranks, b) && StrictlySorted(Outranks, merged)
    requires forall m :: m in merged <==> m in a || m in b
    requires Some(w) == Stronger(Decides(a, path), Decides(b, path))
    requires o in merged && o != w && Matches(o.pattern, path)
    ensures Outranks(w, o)
  {
    MoreSpecificIsTotalOrder();
    FirstMatchIsMostSpecific(a, path);
    FirstMatchIsMostSpecific(b, path);
    var side := if o in a then Decides(a, path) else Decides(b, path);
    assert side.value in merged && w in merged;
    SamePatternSameRule(merged, w, side.value);
  }

  lemma SamePatternSameRule(rules: seq<Mapping>, x: Mapping, y: Mapping)
    requires StrictlySorted(Outranks, rules) && x in rules && y in rules
    ensures x == y || Outranks(x, y) || Outranks(y, x)
  {
    var i :| 0 <= i < |rules| && rules[i] == x;
    var j :| 0 <= j < |rules| && rules[j] == y;
  }

  // ----- declaring rule directories

  predicate ByPattern(a: Mapping, b: Mapping) {
    StrLess(a.pattern, b.pattern)
  }

  ghost predicate DeclaredPattern(lines: seq<Mapping>, p: string) {
    exists m :: m in lines && m.pattern == p
  }

  ghost predicate DistinctPatterns(lines: seq<Mapping>) {
    forall i, j :: 0 <= i < j < |lines| ==> lines[i].pattern != lines[j].pattern
  }

  function RuleLine(p: string): Mapping {
    Mapping(p, "Rule", Rule)
  }

  /** The patterns not yet declared, each at its first occurrence. */
  ghost function Undeclared(existing: seq<Mapping>, patterns: seq<string>): seq<string> {
    if patterns == [] then []
    else
      var before := patterns[..|patterns| - 1];
      var p := patterns[|patterns| - 1];
      Undeclared(existing, before) + (if DeclaredPattern(existing, p) || p in before then [] else [p])
  }

  /** The outcome of a merge: every existing line as written, one rule line for every
      added pattern, sorted by pattern. */
  ghost predicate IsRuleMerge(existing: seq<Mapping>, patterns: seq<string>, merged: seq<Mapping>, added: seq<string>) {
    && added == Undeclared(existing, patterns)
    && StrictlySorted(ByPattern, merged)
    && forall m :: m in merged <==> m in existing || (m.pattern in added && m == RuleLine(m.pattern))
  }

  lemma {:induction false} UndeclaredMembers(existing: seq<Mapping>, patterns: seq<string>, p: string)
    ensures p in Undeclared(existing, patterns) <==> p in patterns && !DeclaredPattern(existing, p)
  {
    if patterns == [] {
    } else {
      var before := patterns[..|patterns| - 1];
      assert patterns == before + [patterns[|patterns| - 1]];
      UndeclaredMembers(existing, before, p);
    }
  }

  /** `mergeRulePatterns`. */
  method MergeRulePatterns(existing: seq<Mapping>, patterns: seq<string>)
    returns (merged: seq<Mapping>, added: seq<string>)
    requires DistinctPatterns(existing)
    ensures IsRuleMerge(existing, patterns, merged, added)
  {
    var lines := existing;
    var declared := set m | m in existing :: m.pattern;
    added := [];
    for i := 0 to |patterns|
      invariant added == Undeclared(existing, patterns[..i])
      invariant lines == existing + seq(|added|, k requires 0 <= k < |added| => RuleLine(added[k]))
      invariant DistinctPatterns(lines)
      invariant forall p :: p in declared <==> DeclaredPattern(existing, p) || p in patterns[..i]
      invariant forall p :: p in declared <==> DeclaredPattern(lines, p)
    {
      var p := patterns[i];
      assert patterns[..i + 1][..i] == patterns[..i];
      assert patterns[..i + 1] == patterns[..i] + [p];
      if p !in declared {
        AddLine(lines, p);
        declared := declared + {p};
        lines := lines + [RuleLine(p)];
        added := added + [p];
      }
    }
    assert patterns[..|patterns|] == patterns;
    StrLessIsTotalOrder();
    merged := SortSlice(lines, ByPattern);
    MergedSorted(existing, patterns, added, lines, merged);
  }

  lemma MergedSorted(existing: seq<Mapping>, patterns: seq<string>, added: seq<string>, lines: seq<Mapping>, merged: seq<Mapping>)
    requires added == Undeclared(existing, patterns) && DistinctPatterns(lines)
    requires lines == existing + seq(|added|, k requires 0 <= k < |added| => RuleLine(added[k]))
    requires multiset(merged) == multiset(lines) && Sorted(ByPattern, merged)
    ensures IsRuleMerge(existing, patterns, merged, added)
  {
    StrLessIsTotalOrder();
    DistinctPatternsSorted(lines, merged);
    PermutationMembers(merged, lines);
    forall m ensures m in lines <==> m in existing || (m.pattern in added && m == RuleLine(m.pattern)) {
      if m.pattern in added && m == RuleLine(m.pattern) {
        var k :| 0 <= k < |added| && added[k] == m.pattern;
        assert lines[|existing| + k] == m;
      }
    }
  }

  lemma AddLine(lines: seq<Mapping>, p: string)
    requires DistinctPatterns(lines) && !DeclaredPattern(lines, p)
    ensures DistinctPatterns(lines + [RuleLine(p)])
    ensures forall q :: DeclaredPattern(lines + [RuleLine(p)], q) <==> DeclaredPattern(lines, q) || q == p
  {
    var more := lines + [RuleLine(p)];
    assert forall i :: 0 <= i < |lines| ==> lines[i] in lines;
    assert more[|lines|] in more;
    forall q | DeclaredPattern(lines, q) ensures DeclaredPattern(more, q) {
      var m :| m in lines && m.pattern == q;
      assert m in more;
    }
  }

  lemma DistinctPatternsSorted(lines: seq<Mapping>, sorted: seq<Mapping>)
    requires DistinctPatterns(lines) && multiset(sorted) == multiset(lines) && Sorted(ByPattern, sorted)
    ensures StrictlySorted(ByPattern, sorted)
  {
    StrLessIsTotalOrder();
    PermutationMembers(sorted, lines);
    assert Distinct(lines);
    DistinctPermutation(lines, sorted);
    forall i, j | 0 <= i < j < |sorted| ensures ByPattern(sorted[i], sorted[j]) {
      assert sorted[i] in lines && sorted[j] in lines;
      var a :| 0 <= a < |lines| && lines[a] == sorted[i];
      var b :| 0 <= b < |lines| && lines[b] == sorted[j];
    }
  }

  /** Merging keeps every existing line and merging again changes nothing. */
  lemma RuleMergeIdempotent(existing: seq<Mapping>, patterns: seq<string>, merged: seq<Mapping>, added: seq<string>,
                            again: seq<Mapping>, addedAgain: seq<string>)
    requires IsRuleMerge(existing, patterns, merged, added)
    requires IsRuleMerge(merged, patterns, again, addedAgain)
    ensures forall m :: m in existing ==> m in merged
    ensures addedAgain == [] && again == merged
  {
    assert addedAgain != [] ==> addedAgain[0] in addedAgain;
    forall p ensures p !in addedAgain {
      UndeclaredMembers(merged, patterns, p);
      UndeclaredMembers(existing, patterns, p);
      if p in patterns {
        if p in added {
          assert RuleLine(p) in merged;
        } else {
          var m :| m in existing && m.pattern == p;
          assert m in merged;
        }
      }
    }
    StrLessIsTotalOrder();
    StrictlySortedUnique(ByPattern, again, merged);
  }
}
