/** `pkg/memory/evidence.go`: what makes a quote evidence. */
module Memory {
  import opened Wrappers
  import opened Text
  import opened Words

  datatype FileContext = FileContext(path: string, repository: string, snippet: string)

  datatype ContextPackage = ContextPackage(
    rules: seq<FileContext>, adrs: seq<FileContext>, relevantFiles: seq<FileContext>,
    relatedIssues: seq<FileContext>, relatedPRs: seq<FileContext>)
  {
    /** Every file the package shows, across its sections. */
    function Documents(): seq<FileContext> {
      rules + adrs + relevantFiles + relatedIssues + relatedPRs
    }
  }

  datatype Confidence = High | Medium | Low

  datatype Evidence = Evidence(document: string, repository: string, excerpt: string, confidence: Confidence)
  {
    function Qualified(): string {
      QualifiedName(repository, document)
    }
  }

  // ----- cleaning

  function CleanExcerpt(s: string): string {
    Collapse(Unmarked(s))
  }

  function NormalizeForMatch(s: string): string {
    Collapse(Elided(Unmarked(ToLower(s))))
  }

  lemma CleanHasNoMarks(s: string)
    ensures Free(CleanExcerpt(s), "**") && Unmarked(CleanExcerpt(s)) == CleanExcerpt(s)
  {
    UnmarkedHasNone(s);
    assert Word("**") by { assert "**" == ['*', '*']; }
    CollapseFree(Unmarked(s), "**");
    ReplaceNothing(CleanExcerpt(s), "**", "");
  }

  /** An excerpt without markers or needless blanks is left as it is, letter case and all, and no
      other is. */
  lemma CleanKept(s: string)
    ensures CleanExcerpt(s) == s <==> Tidy(s) && Free(s, "**")
  {
    if Tidy(s) && Free(s, "**") {
      ReplaceNothing(s, "**", "");
      CollapseFixed(s);
    } else if CleanExcerpt(s) == s {
      CleanHasNoMarks(s);
      FieldsAreWords(Unmarked(s));
      JoinTidy(Fields(Unmarked(s)));
    }
  }

  /** Of markers nothing is left, of blanks one space. */
  lemma CleanDrops(a: string, blank: string, b: string)
    requires Blank(blank) && blank != ""
    ensures CleanExcerpt(a + "**" + b) == CleanExcerpt(a + b)
    ensures Fields(CleanExcerpt(a + blank + b)) == Fields(CleanExcerpt(a)) + Fields(CleanExcerpt(b))
  {
    MarkIgnored(a, b);
    assert a + blank + b == a + (blank + b);
    UnmarkedSplit(a, blank + b);
    BlankPrefix(blank, b);
    FieldsSplit(Unmarked(a), blank + Unmarked(b));
    BlankFields(blank, Unmarked(b));
    CollapsedFields(Unmarked(a + blank + b));
    CollapsedFields(Unmarked(a));
    CollapsedFields(Unmarked(b));
  }

  lemma CollapseIdempotent(s: string)
    ensures Collapse(Collapse(s)) == Collapse(s)
  {
    CollapsedFields(s);
  }

  /** Cleaning an excerpt twice is cleaning it once. */
  lemma CleanIdempotent(s: string)
    ensures CleanExcerpt(CleanExcerpt(s)) == CleanExcerpt(s)
  {
    CleanHasNoMarks(s);
    CollapseIdempotent(Unmarked(s));
  }

  /** An ellipsis is elided the same before and after the blanks are collapsed. */
  lemma ElideCollapsed(s: string)
    ensures Collapse(Elided(Collapse(s))) == Collapse(Elided(s))
  {
    FieldsOfElided(Collapse(s));
    FieldsOfElided(s);
    CollapsedFields(s);
  }

  /** Cleaning takes away nothing that matching looks at. */
  lemma NormalizeCleaned(s: string)
    ensures NormalizeForMatch(CleanExcerpt(s)) == NormalizeForMatch(s)
  {
    var z := Unmarked(ToLower(s));
    UnmarkedLower(s);
    CollapseLower(Unmarked(s));
    assert ToLower(CleanExcerpt(s)) == Collapse(z);
    CleanHasNoMarks(ToLower(s));
    assert Unmarked(Collapse(z)) == Collapse(z);
    ElideCollapsed(z);
  }

  lemma LowerTwice(s: string)
    ensures ToLower(ToLower(s)) == ToLower(s)
  {
    forall i | 0 <= i < |s| ensures LowerChar(LowerChar(s[i])) == LowerChar(s[i]) {
      LowerKeeps(s[i]);
    }
  }

  /** Eliding does not touch letters. */
  lemma {:induction false} ElidedLower(s: string)
    requires ToLower(s) == s
    ensures ToLower(Elided(s)) == Elided(s)
  {
    if s == "" {
    } else {
      assert s[0] == LowerChar(s[0]);
      assert forall k :: 0 <= k <= |s| ==> ToLower(s[k..]) == ToLower(s)[k..];
      if "..." <= s {
        ElidedLower(s[3..]);
        LowerSum(" ", Elided(s[3..]));
        assert ToLower(" ") == " ";
      } else {
        ElidedLower(s[1..]);
        LowerSum([s[0]], Elided(s[1..]));
        assert ToLower([s[0]]) == [s[0]];
      }
    }
  }

  /** Normalising is idempotent: no case, marker, ellipsis or double blank is left. */
  lemma NormalizeIdempotent(s: string)
    ensures NormalizeForMatch(NormalizeForMatch(s)) == NormalizeForMatch(s)
  {
    NormalIsNormal(s);
    NormalFormIsKept(NormalizeForMatch(s));
  }

  // ----- what a quote may differ in

  /** The words that matching compares. */
  function MatchWords(s: string): seq<string> {
    Fields(Elided(Unmarked(ToLower(s))))
  }

  lemma MatchWordsAreWords(s: string)
    ensures AllWords(MatchWords(s)) && NormalizeForMatch(s) == Join(MatchWords(s), " ")
    ensures NormalizeForMatch(s) == "" <==> MatchWords(s) == []
  {
    FieldsAreWords(Elided(Unmarked(ToLower(s))));
    JoinTidy(MatchWords(s));
  }

  /** Letter case. */
  lemma CaseIgnored(s: string)
    ensures NormalizeForMatch(ToLower(s)) == NormalizeForMatch(s)
  {
    LowerTwice(s);
  }

  /** Highlight markers. */
  lemma MarkersIgnored(a: string, b: string)
    ensures NormalizeForMatch(a + "**" + b) == NormalizeForMatch(a + b)
  {
    LowerSum(a + "**", b);
    LowerSum(a, "**");
    LowerSum(a, b);
    assert ToLower("**") == "**";
    MarkIgnored(ToLower(a), ToLower(b));
  }

  /** Blanks only separate words: matching works on the text before and after them. */
  lemma BlanksSeparate(a: string, blank: string, b: string)
    requires Blank(blank) && blank != ""
    ensures MatchWords(a + blank + b) == MatchWords(a) + MatchWords(b)
  {
    var x, y := Unmarked(ToLower(a)), Unmarked(ToLower(b));
    BlankUnmarked(blank);
    LowerSum(a + blank, b);
    LowerSum(a, blank);
    assert ToLower(a) + blank + ToLower(b) == ToLower(a) + (blank + ToLower(b));
    UnmarkedSplit(ToLower(a), blank + ToLower(b));
    BlankPrefix(blank, ToLower(b));
    ElidedSplit(x, blank + y);
    BlankPrefix(blank, y);
    FieldsSplit(Elided(x), blank + Elided(y));
    BlankFields(blank, Elided(y));
  }

  lemma {:induction false} BlankPrefix(blank: string, s: string)
    requires Blank(blank)
    ensures Unmarked(blank + s) == blank + Unmarked(s) && Elided(blank + s) == blank + Elided(s)
  {
    if blank == "" {
      assert blank + s == s;
    } else {
      var t := blank + s;
      assert t[1..] == blank[1..] + s;
      UnmarkedFirst(t);
      ElidedFirst(t);
      BlankPrefix(blank[1..], s);
    }
  }

  /** How many blanks there are, and which. */
  lemma BlanksIgnored(a: string, blank: string, b: string)
    requires Blank(blank) && blank != ""
    ensures NormalizeForMatch(a + blank + b) == NormalizeForMatch(a + " " + b)
  {
    BlanksSeparate(a, blank, b);
    BlanksSeparate(a, " ", b);
  }

  /** An ellipsis, which counts as a blank, unless it lengthens a run of dots before it. */
  lemma EllipsisIsBlank(a: string, b: string)
    requires Unmarked(a) == "" || Unmarked(a)[|Unmarked(a)| - 1] != '.'
    ensures NormalizeForMatch(a + "..." + b) == NormalizeForMatch(a + " " + b)
  {
    var x, y := ToLower(a), ToLower(b);
    LowerSum(a + "...", b);
    LowerSum(a, "...");
    LowerSum(a + " ", b);
    LowerSum(a, " ");
    assert ToLower("...") == "..." && ToLower(" ") == " ";
    DotsUnmarked(x, y);
    UnmarkedLower(a);
    ElidedAtDots(Unmarked(x), Unmarked(y));
    SpaceKept(x, y);
  }

  lemma DotsUnmarked(x: string, y: string)
    ensures Unmarked(x + "..." + y) == Unmarked(x) + "..." + Unmarked(y)
  {
    var dots := "..." + y;
    assert x + "..." + y == x + dots;
    UnmarkedSplit(x, dots);
    UnmarkedFirst(dots);
    UnmarkedFirst(dots[1..]);
    UnmarkedFirst(dots[2..]);
    assert dots[1..][1..] == dots[2..] && dots[2..][1..] == y;
    assert Unmarked(dots) == "..." + Unmarked(y);
    assert Unmarked(x) + ("..." + Unmarked(y)) == Unmarked(x) + "..." + Unmarked(y);
  }

  lemma SpaceKept(x: string, y: string)
    ensures Elided(Unmarked(x + " " + y)) == Elided(Unmarked(x)) + " " + Elided(Unmarked(y))
  {
    var u, w := Unmarked(x), Unmarked(y);
    assert x + " " + y == x + (" " + y);
    UnmarkedSplit(x, " " + y);
    BlankPrefix(" ", y);
    ElidedSplit(u, " " + w);
    BlankPrefix(" ", w);
    assert Elided(u) + (" " + Elided(w)) == Elided(u) + " " + Elided(w);
  }

  /** And nothing else: text that is in lower case, tidy, and free of markers and ellipses is
      compared as it stands, and no other text is. */
  lemma NormalFormIsKept(s: string)
    ensures NormalizeForMatch(s) == s <==> ToLower(s) == s && Tidy(s) && Free(s, "**") && Free(s, "...")
  {
    if ToLower(s) == s && Tidy(s) && Free(s, "**") && Free(s, "...") {
      ReplaceNothing(s, "**", "");
      ReplaceNothing(s, "...", " ");
      CollapseFixed(s);
    } else if NormalizeForMatch(s) == s {
      NormalIsNormal(s);
    }
  }

  lemma NormalIsNormal(s: string)
    ensures var n := NormalizeForMatch(s);
            ToLower(n) == n && Tidy(n) && Free(n, "**") && Free(n, "...")
  {
    var z := Unmarked(ToLower(s));
    var e := Elided(z);
    LowerTwice(s);
    UnmarkedLower(ToLower(s));
    ElidedLower(z);
    CollapseLower(e);
    UnmarkedHasNone(ToLower(s));
    ElidedUnmarked(z);
    ElidedHasNone(z);
    assert Word("**") by { assert "**" == ['*', '*']; }
    assert Word("...") by { assert "..." == ['.', '.', '.']; }
    CollapseFree(e, "**");
    CollapseFree(e, "...");
    FieldsAreWords(e);
    JoinTidy(Fields(e));
  }

  // ----- naming a document

  function QualifiedName(repository: string, path: string): string {
    if repository == "" then path else repository + ":" + path
  }

  function SplitQualified(document: string): (string, string) {
    var i := IndexOf(document, ':');
    if i == 0 || i == |document| || i == |document| - 1 then ("", document)
    else (document[..i], document[i + 1..])
  }

  /** A qualified name splits back into repository and path exactly when the repository has no
      colon and the path is there; a bare path, when it does not itself read as qualified. */
  lemma SplitRoundTrip(repository: string, path: string)
    ensures SplitQualified(QualifiedName(repository, path)) == (repository, path) <==>
            if repository == "" then SplitQualified(path).0 == "" else ':' !in repository && path != ""
  {
    var name := QualifiedName(repository, path);
    var i := IndexOf(name, ':');
    if repository != "" {
      assert name[|repository|] == ':';
      assert forall j :: 0 <= j < |repository| ==> name[j] == repository[j];
      if ':' !in repository {
        assert i == |repository|;
        assert name[..i] == repository && name[i + 1..] == path;
      } else {
        var j :| 0 <= j < |repository| && repository[j] == ':';
        assert i <= j;
        assert |SplitQualified(name).0| < |repository|;
      }
    }
  }

  predicate Names(f: FileContext, repository: string, path: string) {
    f.path == path && (repository == "" || f.repository == repository)
  }

  predicate Shown(files: seq<FileContext>, repository: string) {
    exists i :: 0 <= i < |files| && files[i].repository == repository
  }

  /** The first named entry of each repository, in order. */
  function Found(files: seq<FileContext>, repository: string, path: string): seq<FileContext> {
    if files == [] then []
    else
      var rest := Found(files[..|files| - 1], repository, path);
      var f := files[|files| - 1];
      if Names(f, repository, path) && !Shown(rest, f.repository) then rest + [f] else rest
  }

  lemma {:induction false} FoundNamed(files: seq<FileContext>, repository: string, path: string, k: nat)
    requires k < |Found(files, repository, path)|
    ensures Found(files, repository, path)[k] in files && Names(Found(files, repository, path)[k], repository, path)
  {
    var init := files[..|files| - 1];
    if k < |Found(init, repository, path)| {
      FoundNamed(init, repository, path, k);
    }
  }

  lemma ShownLonger(files: seq<FileContext>, f: FileContext, repository: string)
    ensures Shown(files + [f], repository) <==> Shown(files, repository) || f.repository == repository
  {
    var more := files + [f];
    if i :| 0 <= i < |files| && files[i].repository == repository {
      assert more[i].repository == repository;
    }
    assert more[|files|] == f;
  }

  lemma {:induction false} FoundShows(files: seq<FileContext>, repository: string, path: string, i: nat)
    requires i < |files| && Names(files[i], repository, path)
    ensures Shown(Found(files, repository, path), files[i].repository)
  {
    var n := |files| - 1;
    var rest := Found(files[..n], repository, path);
    ShownLonger(rest, files[n], files[i].repository);
    if i < n {
      FoundShows(files[..n], repository, path, i);
    }
  }

  /** `lookup`. */
  method Lookup(p: ContextPackage, document: string) returns (out: seq<FileContext>)
    ensures out == Sources(p, document)
  {
    var (wantRepo, wantPath) := SplitQualified(document);
    var files := p.Documents();
    var seen: set<string> := {};
    out := [];
    for i := 0 to |files|
      invariant out == Found(files[..i], wantRepo, wantPath)
      invariant forall r :: r in seen <==> Shown(out, r)
    {
      var f := files[i];
      FoundNext(files, i, wantRepo, wantPath);
      if f.path != wantPath {
        continue;
      }
      if wantRepo != "" && f.repository != wantRepo {
        continue;
      }
      if f.repository in seen {
        continue;
      }
      ShownNext(out, f, seen);
      seen := seen + {f.repository};
      out := out + [f];
    }
    assert files[..|files|] == files;
  }

  lemma FoundNext(files: seq<FileContext>, i: nat, repository: string, path: string)
    requires i < |files|
    ensures var rest := Found(files[..i], repository, path);
            Found(files[..i + 1], repository, path) ==
            if Names(files[i], repository, path) && !Shown(rest, files[i].repository) then rest + [files[i]] else rest
  {
    assert files[..i + 1][..i] == files[..i];
  }

  lemma ShownNext(out: seq<FileContext>, f: FileContext, seen: set<string>)
    requires forall r :: r in seen <==> Shown(out, r)
    ensures forall r :: r in seen + {f.repository} <==> Shown(out + [f], r)
  {
    forall r ensures r in seen + {f.repository} <==> Shown(out + [f], r) {
      ShownLonger(out, f, r);
    }
  }

  /** The entries a reference names. */
  function Sources(p: ContextPackage, document: string): seq<FileContext> {
    Found(p.Documents(), SplitQualified(document).0, SplitQualified(document).1)
  }

  /** `matchExcerpt`. */
  function MatchExcerpt(excerpt: string, snippet: string): Option<Confidence> {
    var e, s := NormalizeForMatch(excerpt), NormalizeForMatch(snippet);
    if e == "" || s == "" then None
    else if Contains(s, e) then Some(High)
    else if Contains(e, s) then Some(Medium)
    else None
  }

  /** The evidence a quote amounts to. */
  function Verified(p: ContextPackage, document: string, excerpt: string): Option<Evidence> {
    if Blank(document) || Blank(excerpt) || |Sources(p, document)| != 1 then None
    else
      var source := Sources(p, document)[0];
      match MatchExcerpt(excerpt, source.snippet)
      case None => None
      case Some(c) => Some(Evidence(source.path, source.repository, CleanExcerpt(excerpt), c))
  }

  /** A quote whose words, in lower case, stand one after the other among those of the snippet of
      the one source named is evidence of high confidence. */
  lemma QuoteVerifies(p: ContextPackage, document: string, excerpt: string, source: FileContext, before: seq<string>, after: seq<string>)
    requires !Blank(document) && Sources(p, document) == [source]
    requires MatchWords(source.snippet) == before + MatchWords(excerpt) + after && MatchWords(excerpt) != []
    ensures Verified(p, document, excerpt) == Some(Evidence(source.path, source.repository, CleanExcerpt(excerpt), High))
  {
    MatchWordsAreWords(excerpt);
    MatchWordsAreWords(source.snippet);
    WordsContained(before, MatchWords(excerpt), after);
    if Blank(excerpt) {
      NormalizedBlank(excerpt);
    }
  }

  /** A quote that says all the snippet says and more is evidence of medium confidence. */
  lemma LongQuoteVerifies(p: ContextPackage, document: string, excerpt: string, source: FileContext, before: seq<string>, after: seq<string>)
    requires !Blank(document) && Sources(p, document) == [source]
    requires MatchWords(excerpt) == before + MatchWords(source.snippet) + after && MatchWords(source.snippet) != []
    requires !Contains(NormalizeForMatch(source.snippet), NormalizeForMatch(excerpt))
    ensures Verified(p, document, excerpt) == Some(Evidence(source.path, source.repository, CleanExcerpt(excerpt), Medium))
  {
    MatchWordsAreWords(excerpt);
    MatchWordsAreWords(source.snippet);
    WordsContained(before, MatchWords(source.snippet), after);
    if Blank(excerpt) {
      NormalizedBlank(excerpt);
    }
  }

  /** Every file of every section may be cited, and nothing else. */
  lemma SectionsAreShown(p: ContextPackage, f: FileContext)
    ensures f in p.Documents() <==>
            f in p.rules || f in p.adrs || f in p.relevantFiles || f in p.relatedIssues || f in p.relatedPRs
  {
  }

  /** Without markers and ellipses the words compared are the plain ones. */
  lemma PlainMatchWords(s: string)
    requires Free(s, "**") && Free(s, "...")
    ensures MatchWords(s) == Fields(ToLower(s)) == LowerWords(Fields(s))
  {
    ReplaceNothing(s, "**", "");
    UnmarkedLower(s);
    LowerFree(s);
    ReplaceNothing(ToLower(s), "...", " ");
    FieldsLower(s);
  }

  /** In particular a quote in other letter case and other spacing. */
  lemma PlainQuoteVerifies(p: ContextPackage, document: string, excerpt: string, source: FileContext, before: seq<string>, after: seq<string>)
    requires !Blank(document) && !Blank(excerpt) && Sources(p, document) == [source]
    requires Free(excerpt, "**") && Free(excerpt, "...") && Free(source.snippet, "**") && Free(source.snippet, "...")
    requires Fields(ToLower(source.snippet)) == before + Fields(ToLower(excerpt)) + after
    ensures Verified(p, document, excerpt) == Some(Evidence(source.path, source.repository, CleanExcerpt(excerpt), High))
  {
    PlainMatchWords(excerpt);
    PlainMatchWords(source.snippet);
    SomeWord(excerpt);
    QuoteVerifies(p, document, excerpt, source, before, after);
  }

  lemma {:induction false} SomeWord(s: string)
    requires !Blank(s)
    ensures Fields(ToLower(s)) != []
  {
    FieldsLower(s);
    if IsSpace(s[0]) {
      SomeWord(s[1..]);
      FieldsLower(s[1..]);
    }
  }

  lemma LowerFree(s: string)
    requires Free(s, "...")
    ensures Free(ToLower(s), "...")
  {
    forall i | 0 <= i <= |s| ensures !At(ToLower(s), i, "...") {
      DotsAhead(s[i..]);
      DotsAhead(ToLower(s)[i..]);
      assert !At(s, i, "...");
    }
  }

  /** `VerifyEvidence`. */
  method VerifyEvidence(p: ContextPackage, document: string, excerpt: string) returns (r: Option<Evidence>)
    ensures r == Verified(p, document, excerpt)
  {
    BlankTrims(document);
    BlankTrims(excerpt);
    if TrimSpace(document) == "" || TrimSpace(excerpt) == "" {
      return None;
    }
    var matches := Lookup(p, document);
    if |matches| != 1 {
      return None;
    }
    var confidence := MatchExcerpt(excerpt, matches[0].snippet);
    if confidence.None? {
      return None;
    }
    return Some(Evidence(matches[0].path, matches[0].repository, CleanExcerpt(excerpt), confidence.value));
  }

  // ----- evidence verifies again

  lemma {:induction false} BlankHasNoFields(s: string)
    requires Blank(s)
    ensures Fields(s) == []
  {
    if s == "" {
    } else {
      BlankHasNoFields(s[1..]);
    }
  }

  lemma {:induction false} BlankUnmarked(s: string)
    requires Blank(s)
    ensures Unmarked(s) == s && Elided(s) == s && ToLower(s) == s
  {
    if s == "" {
    } else {
      PairAhead(s);
      DotsAhead(s);
      BlankUnmarked(s[1..]);
    }
  }

  lemma NormalizedBlank(s: string)
    requires Blank(s)
    ensures NormalizeForMatch(s) == ""
  {
    BlankUnmarked(s);
    BlankHasNoFields(s);
  }

  /** If the entries found are all of one repository, naming that repository finds the same ones. */
  lemma {:induction false} FoundQualified(files: seq<FileContext>, wanted: string, path: string, repository: string)
    requires repository != "" && (wanted == "" || wanted == repository)
    requires forall i :: 0 <= i < |files| && Names(files[i], wanted, path) ==> files[i].repository == repository
    ensures Found(files, repository, path) == Found(files, wanted, path)
  {
    if files == [] {
    } else {
      var init := files[..|files| - 1];
      assert forall i :: 0 <= i < |init| ==> init[i] == files[i];
      FoundQualified(init, wanted, path, repository);
    }
  }

  lemma OneRepository(files: seq<FileContext>, wanted: string, path: string)
    requires |Found(files, wanted, path)| == 1
    ensures forall i :: 0 <= i < |files| && Names(files[i], wanted, path) ==> files[i].repository == Found(files, wanted, path)[0].repository
  {
    forall i | 0 <= i < |files| && Names(files[i], wanted, path)
      ensures files[i].repository == Found(files, wanted, path)[0].repository
    {
      FoundShows(files, wanted, path, i);
    }
  }

  lemma SameSource(p: ContextPackage, document: string, source: FileContext)
    requires !Blank(document) && Sources(p, document) == [source] && ':' !in source.repository
    ensures var name := QualifiedName(source.repository, source.path);
            !Blank(name) && Sources(p, name) == [source]
  {
    var (wanted, path) := SplitQualified(document);
    FoundNamed(p.Documents(), wanted, path, 0);
    assert source.path == path;
    if source.repository == "" {
      assert wanted == "" && path == document;
    } else {
      SplitRoundTrip(source.repository, path);
      OneRepository(p.Documents(), wanted, path);
      FoundQualified(p.Documents(), wanted, path, source.repository);
      assert QualifiedName(source.repository, path)[|source.repository|] == ':';
    }
  }

  /** A clean excerpt that still matches is not blank, and matches as before. */
  lemma MatchCleaned(excerpt: string, snippet: string)
    ensures MatchExcerpt(CleanExcerpt(excerpt), snippet) == MatchExcerpt(excerpt, snippet)
    ensures MatchExcerpt(excerpt, snippet).Some? ==> !Blank(CleanExcerpt(excerpt))
  {
    NormalizeCleaned(excerpt);
    if Blank(CleanExcerpt(excerpt)) {
      NormalizedBlank(CleanExcerpt(excerpt));
    }
  }

  /** Verified evidence verifies again: quoting its own cleaned excerpt from its own qualified
      name gives back the same evidence, when the repository's name has no colon. */
  lemma VerifiedReverifies(p: ContextPackage, document: string, excerpt: string)
    requires Verified(p, document, excerpt).Some?
    requires ':' !in Verified(p, document, excerpt).value.repository
    ensures var e := Verified(p, document, excerpt).value;
            Verified(p, e.Qualified(), e.excerpt) == Some(e)
  {
    var source := Sources(p, document)[0];
    SameSource(p, document, source);
    MatchCleaned(excerpt, source.snippet);
    CleanIdempotent(excerpt);
  }

  /** The colon matters: evidence verifies again from its own qualified name if and only if its
      repository's name has no colon. */
  lemma OnlyColonsHinder(p: ContextPackage, document: string, excerpt: string)
    requires Verified(p, document, excerpt).Some?
    ensures var e := Verified(p, document, excerpt).value;
            Verified(p, e.Qualified(), e.excerpt) == Some(e) <==> ':' !in e.repository
  {
    var e := Verified(p, document, excerpt).value;
    if ':' !in e.repository {
      VerifiedReverifies(p, document, excerpt);
    } else {
      ColonSplitsElsewhere(e.repository, e.document);
      EvidenceIsNamed(p, e.Qualified(), e.excerpt);
    }
  }

  /** The document of evidence is the path its reference splits into. */
  lemma EvidenceIsNamed(p: ContextPackage, document: string, excerpt: string)
    ensures Verified(p, document, excerpt).Some? ==>
              Verified(p, document, excerpt).value.document == SplitQualified(document).1
  {
    if |Sources(p, document)| == 1 {
      FoundNamed(p.Documents(), SplitQualified(document).0, SplitQualified(document).1, 0);
    }
  }

  lemma ColonSplitsElsewhere(repository: string, path: string)
    requires ':' in repository
    ensures SplitQualified(QualifiedName(repository, path)).1 != path
  {
    var name := QualifiedName(repository, path);
    var i := IndexOf(name, ':');
    var j :| 0 <= j < |repository| && repository[j] == ':';
    assert name[j] == ':';
    assert i <= j;
    assert |SplitQualified(name).1| > |path|;
  }

  /** The snippet backs the excerpt, up to case, blanks, markers and ellipses: it holds it, or it
      lies inside it. */
  predicate Backs(snippet: string, excerpt: string, confidence: Confidence) {
    var s, e := NormalizeForMatch(snippet), NormalizeForMatch(excerpt);
    && s != "" && e != ""
    && match confidence
       case High => Contains(s, e)
       case Medium => Contains(e, s) && !Contains(s, e)
       case Low => false
  }

  /** Evidence names a file the package shows whose snippet backs the excerpt shown; under a bare
      path no other repository shows that path. */
  lemma EvidenceIsSupported(p: ContextPackage, document: string, excerpt: string)
    requires Verified(p, document, excerpt).Some?
    ensures var e := Verified(p, document, excerpt).value;
            var f := Sources(p, document)[0];
            && f in p.Documents() && f.path == e.document && f.repository == e.repository
            && Backs(f.snippet, e.excerpt, e.confidence)
    ensures var e := Verified(p, document, excerpt).value;
            SplitQualified(document).0 == "" ==>
              forall i :: 0 <= i < |p.Documents()| && p.Documents()[i].path == e.document ==> p.Documents()[i].repository == e.repository
  {
    var (wanted, path) := SplitQualified(document);
    FoundNamed(p.Documents(), wanted, path, 0);
    NormalizeCleaned(excerpt);
    OneRepository(p.Documents(), wanted, path);
    if wanted == "" {
      assert forall i :: 0 <= i < |p.Documents()| && p.Documents()[i].path == path ==> Names(p.Documents()[i], wanted, path);
    }
  }
}
