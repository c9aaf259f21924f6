/** Whitespace, words and the replacements that `pkg/memory/evidence.go` normalises text with. */
module Words {
  import opened Text

  /** `strings.ReplaceAll`, for a nonempty `old_`: left to right, without overlap. */
  function ReplaceAll(s: string, old_: string, new_: string): string
    requires old_ != ""
  {
    if s == "" then ""
    else if old_ <= s then new_ + ReplaceAll(s[|old_|..], old_, new_)
    else [s[0]] + ReplaceAll(s[1..], old_, new_)
  }

  /** Where the first word ends. */
  function WordEnd(s: string): (k: nat)
    ensures k <= |s| && (k < |s| ==> IsSpace(s[k]))
    ensures forall i :: 0 <= i < k ==> !IsSpace(s[i])
  {
    if s == "" || IsSpace(s[0]) then 0 else 1 + WordEnd(s[1..])
  }

  /** `strings.Fields`. */
  function Fields(s: string): seq<string>
    decreases |s|
  {
    if s == "" then []
    else if IsSpace(s[0]) then Fields(s[1..])
    else [s[..WordEnd(s)]] + Fields(s[WordEnd(s)..])
  }

  /** Runs of blanks become one space; none is left at the ends. */
  function Collapse(s: string): string {
    Join(Fields(s), " ")
  }

  predicate Word(w: string) {
    w != "" && forall i :: 0 <= i < |w| ==> !IsSpace(w[i])
  }

  predicate AllWords(ws: seq<string>) {
    forall i :: 0 <= i < |ws| ==> Word(ws[i])
  }

  lemma {:induction false} FieldsAreWords(s: string)
    ensures AllWords(Fields(s))
    decreases |s|
  {
    if s == "" {
    } else {
      FieldsAreWords(if IsSpace(s[0]) then s[1..] else s[WordEnd(s)..]);
    }
  }

  /** A blank ends a word, so fields split there. */
  lemma {:induction false} FieldsSplit(u: string, v: string)
    requires v == "" || IsSpace(v[0])
    ensures Fields(u + v) == Fields(u) + Fields(v)
    decreases |u|
  {
    if u == "" {
      assert u + v == v;
    } else if IsSpace(u[0]) {
      assert (u + v)[1..] == u[1..] + v;
      FieldsSplit(u[1..], v);
    } else {
      var k := WordEnd(u);
      FieldsSplit(u[k..], v);
      FirstWordSplit(u, v);
    }
  }

  lemma FirstWordSplit(u: string, v: string)
    requires u != "" && !IsSpace(u[0]) && (v == "" || IsSpace(v[0]))
    ensures Fields(u + v) == [u[..WordEnd(u)]] + Fields(u[WordEnd(u)..] + v)
  {
    var k := WordEnd(u);
    WordEndPrefix(u, v);
    assert (u + v)[..k] == u[..k] && (u + v)[k..] == u[k..] + v;
  }

  lemma {:induction false} WordEndPrefix(u: string, v: string)
    requires v == "" || IsSpace(v[0])
    ensures WordEnd(u + v) == WordEnd(u)
  {
    if u == "" {
      assert u + v == v;
    } else {
      assert (u + v)[1..] == u[1..] + v;
      WordEndPrefix(u[1..], v);
    }
  }

  lemma FieldsOfWord(w: string)
    requires Word(w)
    ensures Fields(w) == [w]
  {
    assert WordEnd(w) == |w|;
    assert w[..|w|] == w && w[|w|..] == "";
  }

  /** Fields undoes joining words with spaces. */
  lemma {:induction false} FieldsOfJoin(ws: seq<string>)
    requires AllWords(ws)
    ensures Fields(Join(ws, " ")) == ws
  {
    if |ws| == 1 {
      FieldsOfWord(ws[0]);
    } else if |ws| > 1 {
      var rest := Join(ws[1..], " ");
      FieldsOfJoin(ws[1..]);
      FieldsOfWord(ws[0]);
      FieldsSplit(ws[0], " " + rest);
      assert Join(ws, " ") == ws[0] + (" " + rest);
      assert (" " + rest)[1..] == rest;
    }
  }

  lemma CollapsedFields(s: string)
    ensures Fields(Collapse(s)) == Fields(s)
  {
    FieldsAreWords(s);
    FieldsOfJoin(Fields(s));
  }

  // ----- text that is tidy already

  /** No blank at either end, no blank but the space, and no two of them together. */
  predicate Tidy(s: string) {
    && (s != "" ==> !IsSpace(s[0]) && !IsSpace(s[|s| - 1]))
    && forall i :: 0 <= i < |s| - 1 && IsSpace(s[i]) ==> s[i] == ' ' && !IsSpace(s[i + 1])
  }

  lemma {:induction false} TidyCollapse(s: string)
    requires Tidy(s)
    ensures Collapse(s) == s
    decreases |s|
  {
    var k := WordEnd(s);
    if s == "" {
    } else if k == |s| {
      FieldsOfWord(s);
    } else {
      var rest := s[k + 1..];
      assert s[k..] == [s[k]] + rest;
      TidyRest(s, k);
      TidyCollapse(rest);
      assert s == s[..k] + " " + rest;
    }
  }

  lemma TidyRest(s: string, k: nat)
    requires Tidy(s) && k < |s| && IsSpace(s[k])
    ensures s[k] == ' ' && Tidy(s[k + 1..]) && Fields(s[k..]) == Fields(s[k + 1..]) != []
  {
    var rest := s[k + 1..];
    assert rest[0] == s[k + 1] && rest[|rest| - 1] == s[|s| - 1];
    assert forall i :: 0 <= i < |rest| ==> rest[i] == s[k + 1 + i];
    assert s[k..][1..] == rest;
  }

  lemma {:induction false} JoinTidy(ws: seq<string>)
    requires AllWords(ws)
    ensures Tidy(Join(ws, " ")) && (ws != [] ==> Join(ws, " ") != "" && Join(ws, " ")[0] == ws[0][0])
  {
    if |ws| > 1 {
      JoinTidy(ws[1..]);
      GlueTidy(ws[0], Join(ws[1..], " "));
    }
  }

  lemma GlueTidy(w: string, rest: string)
    requires Word(w) && Tidy(rest) && rest != ""
    ensures Tidy(w + " " + rest)
  {
    var s := w + " " + rest;
    forall i | 0 <= i < |s| - 1 && IsSpace(s[i]) ensures s[i] == ' ' && !IsSpace(s[i + 1]) {
      if i > |w| {
        assert s[i] == rest[i - |w| - 1] && s[i + 1] == rest[i - |w|];
      }
    }
  }

  /** Collapsing leaves a text as it is exactly when it is tidy. */
  lemma CollapseFixed(s: string)
    ensures Collapse(s) == s <==> Tidy(s)
  {
    if Tidy(s) {
      TidyCollapse(s);
    } else {
      FieldsAreWords(s);
      JoinTidy(Fields(s));
    }
  }

  lemma {:induction false} BlankFields(b: string, s: string)
    requires Blank(b)
    ensures Fields(b + s) == Fields(s)
  {
    if b == "" {
      assert b + s == s;
    } else {
      assert (b + s)[1..] == b[1..] + s;
      BlankFields(b[1..], s);
    }
  }

  lemma {:induction false} JoinSum(a: seq<string>, b: seq<string>)
    requires a != [] && b != []
    ensures Join(a + b, " ") == Join(a, " ") + " " + Join(b, " ")
  {
    assert (a + b)[1..] == a[1..] + b;
    if |a| > 1 {
      JoinSum(a[1..], b);
    } else {
      assert a[1..] + b == b;
    }
  }

  /** Consecutive words of a text stand in it. */
  lemma WordsContained(u: seq<string>, ws: seq<string>, v: seq<string>)
    ensures Contains(Join(u + ws + v, " "), Join(ws, " "))
  {
    var inner := ws + v;
    if ws == [] {
      ContainsMeaning(Join(u + ws + v, " "), "", "", Join(u + ws + v, " "));
    } else {
      var after := if v == [] then "" else " " + Join(v, " ");
      var before := if u == [] then "" else Join(u, " ") + " ";
      if v == [] {
        assert inner == ws;
      } else {
        JoinSum(ws, v);
      }
      assert Join(inner, " ") == Join(ws, " ") + after;
      assert u + ws + v == u + inner;
      if u == [] {
        assert u + inner == inner;
      } else {
        JoinSum(u, inner);
      }
      assert Join(u + ws + v, " ") == before + Join(ws, " ") + after;
      ContainsMeaning(Join(u + ws + v, " "), before, Join(ws, " "), after);
    }
  }

  // ----- texts free of a part

  predicate At(s: string, i: nat, part: string)
    requires i <= |s|
  {
    part <= s[i..]
  }

  predicate Free(s: string, part: string) {
    forall i :: 0 <= i <= |s| ==> !At(s, i, part)
  }

  lemma FreeTail(s: string, part: string, k: nat)
    requires Free(s, part) && k <= |s|
    ensures Free(s[k..], part)
  {
    forall i | 0 <= i <= |s| - k ensures !At(s[k..], i, part) {
      assert s[k..][i..] == s[k + i..];
      assert !At(s, k + i, part);
    }
  }

  lemma FreeHead(s: string, part: string, k: nat)
    requires Free(s, part) && k <= |s|
    ensures Free(s[..k], part)
  {
    forall i | 0 <= i <= k ensures !At(s[..k], i, part) {
      assert s[..k][i..] <= s[i..];
      assert !At(s, i, part);
    }
  }

  lemma FreeCons(c: char, s: string, part: string)
    requires Free(s, part) && !(part <= [c] + s)
    ensures Free([c] + s, part)
  {
    forall i | 0 <= i <= |s| + 1 ensures !At([c] + s, i, part) {
      if i > 0 {
        assert ([c] + s)[i..] == s[i - 1..];
        assert !At(s, i - 1, part);
      } else {
        assert ([c] + s)[0..] == [c] + s;
      }
    }
  }

  /** Nothing to replace. */
  lemma {:induction false} ReplaceNothing(s: string, old_: string, new_: string)
    requires old_ != "" && Free(s, old_)
    ensures ReplaceAll(s, old_, new_) == s
  {
    if s == "" {
    } else {
      assert s[0..] == s;
      assert !At(s, 0, old_);
      FreeTail(s, old_, 1);
      ReplaceNothing(s[1..], old_, new_);
    }
  }

  lemma {:induction false} FieldsFree(s: string, part: string)
    requires Free(s, part)
    ensures forall i :: 0 <= i < |Fields(s)| ==> Free(Fields(s)[i], part)
    decreases |s|
  {
    if s == "" {
    } else {
      var k := if IsSpace(s[0]) then 1 else WordEnd(s);
      FreeTail(s, part, k);
      FreeHead(s, part, k);
      FieldsFree(s[k..], part);
    }
  }

  /** A part without blanks lies inside one word. */
  lemma {:induction false} JoinFree(ws: seq<string>, part: string)
    requires Word(part) && forall i :: 0 <= i < |ws| ==> Free(ws[i], part)
    ensures Free(Join(ws, " "), part)
  {
    if |ws| <= 1 {
    } else {
      JoinFree(ws[1..], part);
      TwoFree(ws[0], Join(ws[1..], " "), part);
    }
  }

  lemma TwoFree(a: string, b: string, part: string)
    requires Word(part) && Free(a, part) && Free(b, part)
    ensures Free(a + " " + b, part)
  {
    var s := a + " " + b;
    forall i | 0 <= i <= |s| ensures !At(s, i, part) {
      if i > |a| {
        assert s[i..] == b[i - |a| - 1..];
        assert !At(b, i - |a| - 1, part);
      } else if i + |part| <= |a| {
        assert s[i..i + |part|] == a[i..][..|part|];
        assert !At(a, i, part);
      } else {
        assert s[i..][|a| - i] == ' ';
      }
    }
  }

  lemma CollapseFree(s: string, part: string)
    requires Word(part) && Free(s, part)
    ensures Free(Collapse(s), part)
  {
    FieldsFree(s, part);
    JoinFree(Fields(s), part);
  }

  // ----- the highlight markers

  function Unmarked(s: string): string {
    ReplaceAll(s, "**", "")
  }

  /** The first character of a text, or a blank. */
  function First(s: string): char {
    if s == "" then ' ' else s[0]
  }

  lemma PairAhead(s: string)
    ensures "**" <= s <==> First(s) == '*' && |s| > 1 && s[1] == '*'
  {
    assert "**" == ['*', '*'];
  }

  /** Removing the pairs leaves no pair: runs of asterisks keep at most one. */
  lemma {:induction false} UnmarkedHasNone(s: string)
    ensures Free(Unmarked(s), "**")
    ensures !("**" <= s) ==> First(Unmarked(s)) == First(s)
  {
    if s == "" {
      assert "**" == ['*', '*'];
    } else if "**" <= s {
      UnmarkedHasNone(s[2..]);
      assert Unmarked(s) == Unmarked(s[2..]);
    } else {
      UnmarkedHasNone(s[1..]);
      PairAhead(s);
      PairAhead(s[1..]);
      PairAhead([s[0]] + Unmarked(s[1..]));
      if s[0] != '*' {
        FreeCons(s[0], Unmarked(s[1..]), "**");
      } else {
        assert First(s[1..]) != '*';
        FreeCons(s[0], Unmarked(s[1..]), "**");
      }
    }
  }

  /** Pairs do not reach over a character that is no asterisk. */
  lemma {:induction false} UnmarkedSplit(a: string, b: string)
    requires First(b) != '*'
    ensures Unmarked(a + b) == Unmarked(a) + Unmarked(b)
  {
    var s := a + b;
    if a == "" {
      assert s == b;
    } else {
      PairAhead(a);
      PairAhead(s);
      if "**" <= a {
        assert s[2..] == a[2..] + b;
        UnmarkedSplit(a[2..], b);
      } else {
        assert s[1..] == a[1..] + b;
        UnmarkedSplit(a[1..], b);
      }
    }
  }

  lemma UnmarkedFirst(s: string)
    requires s != "" && s[0] != '*'
    ensures Unmarked(s) == [s[0]] + Unmarked(s[1..])
  {
    PairAhead(s);
  }

  /** A pair of asterisks anywhere makes no difference. */
  lemma {:induction false} MarkIgnored(a: string, b: string)
    ensures Unmarked(a + "**" + b) == Unmarked(a + b)
  {
    var s, t := a + "**" + b, a + b;
    PairAhead(s);
    PairAhead(t);
    if a == "" {
      assert s[2..] == b == t;
    } else if |a| == 1 && a[0] == '*' {
      assert s[2..] == t;
    } else if |a| > 1 && a[0] == a[1] == '*' {
      assert s[2..] == a[2..] + "**" + b && t[2..] == a[2..] + b;
      MarkIgnored(a[2..], b);
    } else {
      assert s[1..] == a[1..] + "**" + b && t[1..] == a[1..] + b;
      MarkIgnored(a[1..], b);
    }
  }

  // ----- the elision dots

  function Elided(s: string): string {
    ReplaceAll(s, "...", " ")
  }

  lemma DotsAhead(s: string)
    ensures "..." <= s <==> |s| > 2 && s[0] == '.' && s[1] == '.' && s[2] == '.'
  {
    assert "..." == ['.', '.', '.'];
  }

  /** Leading dots, at most two of them when no ellipsis is ahead. */
  function LeadingDots(s: string): nat {
    if s == "" || s[0] != '.' then 0 else 1 + LeadingDots(s[1..])
  }

  lemma LeadingTwo(s: string)
    ensures LeadingDots(s) >= 2 <==> |s| > 1 && s[0] == '.' && s[1] == '.'
    ensures s != "" && s[0] == '.' ==> LeadingDots(s) == 1 + LeadingDots(s[1..])
  {
    if |s| > 1 && s[0] == '.' {
      assert LeadingDots(s[1..]) >= 1 <==> s[1] == '.';
    }
  }

  lemma EllipsisAhead(s: string)
    ensures "..." <= s <==> LeadingDots(s) >= 3
  {
    DotsAhead(s);
    LeadingTwo(s);
    if |s| > 1 {
      LeadingTwo(s[1..]);
      assert s[1..][1..] == s[2..];
    }
  }

  lemma {:induction false} ElidedHasNone(s: string)
    ensures Free(Elided(s), "...")
    ensures !("..." <= s) ==> LeadingDots(Elided(s)) == LeadingDots(s)
  {
    if s == "" {
      assert "..." == ['.', '.', '.'];
    } else if "..." <= s {
      ElidedHasNone(s[3..]);
      DotsAhead([' '] + Elided(s[3..]));
      FreeCons(' ', Elided(s[3..]), "...");
    } else {
      var rest := Elided(s[1..]);
      ElidedHasNone(s[1..]);
      EllipsisAhead(s);
      EllipsisAhead(s[1..]);
      EllipsisAhead([s[0]] + rest);
      assert ([s[0]] + rest)[1..] == rest;
      FreeCons(s[0], rest, "...");
    }
  }

  /** Eliding makes no new pair of asterisks. */
  lemma {:induction false} ElidedUnmarked(s: string)
    requires Free(s, "**")
    ensures Free(Elided(s), "**")
    ensures First(Elided(s)) == '*' ==> First(s) == '*'
  {
    if s == "" {
    } else if "..." <= s {
      FreeTail(s, "**", 3);
      ElidedUnmarked(s[3..]);
      PairAhead([' '] + Elided(s[3..]));
      FreeCons(' ', Elided(s[3..]), "**");
    } else {
      FreeTail(s, "**", 1);
      ElidedUnmarked(s[1..]);
      PairAhead([s[0]] + Elided(s[1..]));
      PairAhead(s);
      assert s[0..] == s;
      assert !At(s, 0, "**");
      FreeCons(s[0], Elided(s[1..]), "**");
    }
  }

  /** An ellipsis does not reach over a blank. */
  lemma {:induction false} ElidedSplit(a: string, b: string)
    requires b == "" || IsSpace(b[0])
    ensures Elided(a + b) == Elided(a) + Elided(b)
  {
    var s := a + b;
    if a == "" {
      assert s == b;
    } else {
      DotsAhead(a);
      DotsAhead(s);
      if "..." <= a {
        assert s[3..] == a[3..] + b;
        ElidedSplit(a[3..], b);
      } else {
        assert !("..." <= s);
        assert s[1..] == a[1..] + b;
        ElidedSplit(a[1..], b);
      }
    }
  }

  lemma ElidedFirst(b: string)
    requires b != "" && IsSpace(b[0])
    ensures Elided(b) == [b[0]] + Elided(b[1..])
  {
    DotsAhead(b);
  }

  /** After text that does not end in a dot, an ellipsis is a space. */
  lemma {:induction false} ElidedAtDots(a: string, b: string)
    requires a == "" || a[|a| - 1] != '.'
    ensures Elided(a + "..." + b) == Elided(a) + " " + Elided(b)
  {
    var s := a + "..." + b;
    DotsAhead(a);
    DotsAhead(s);
    if a == "" {
      assert s[3..] == b;
    } else if "..." <= a {
      assert s[3..] == a[3..] + "..." + b;
      ElidedAtDots(a[3..], b);
    } else {
      assert s[1..] == a[1..] + "..." + b;
      assert |a| > 1 ==> s[1] == a[1];
      assert |a| > 2 ==> s[2] == a[2];
      ElidedAtDots(a[1..], b);
    }
  }

  function ElidedWords(ws: seq<string>): seq<string> {
    if ws == [] then [] else Fields(Elided(ws[0])) + ElidedWords(ws[1..])
  }

  /** Eliding works word by word. */
  lemma {:induction false} FieldsOfElided(s: string)
    ensures Fields(Elided(s)) == ElidedWords(Fields(s))
    decreases |s|
  {
    if s == "" {
    } else if IsSpace(s[0]) {
      ElidedFirst(s);
      FieldsOfElided(s[1..]);
      assert Elided(s)[1..] == Elided(s[1..]);
    } else {
      var k := WordEnd(s);
      var rest := s[k..];
      assert s == s[..k] + rest;
      ElidedSplit(s[..k], rest);
      if rest != "" {
        ElidedFirst(rest);
      }
      FieldsSplit(Elided(s[..k]), Elided(rest));
      FieldsOfElided(rest);
      assert Fields(s)[1..] == Fields(rest);
    }
  }

  // ----- letter case

  lemma LowerKeeps(c: char)
    ensures IsSpace(LowerChar(c)) <==> IsSpace(c)
    ensures LowerChar(c) == '*' <==> c == '*'
    ensures LowerChar(LowerChar(c)) == LowerChar(c)
  {
  }

  lemma {:induction false} UnmarkedLower(s: string)
    ensures Unmarked(ToLower(s)) == ToLower(Unmarked(s))
  {
    var t := ToLower(s);
    PairAhead(s);
    PairAhead(t);
    if s == "" {
      assert t == "";
    } else {
      LowerKeeps(s[0]);
      if |s| > 1 {
        LowerKeeps(s[1]);
      }
      if "**" <= s {
        assert t[2..] == ToLower(s[2..]);
        UnmarkedLower(s[2..]);
      } else {
        assert t[1..] == ToLower(s[1..]);
        UnmarkedLower(s[1..]);
        assert ToLower(Unmarked(s)) == [t[0]] + ToLower(Unmarked(s[1..]));
      }
    }
  }

  function LowerWords(ws: seq<string>): (r: seq<string>)
    ensures |r| == |ws|
  {
    if ws == [] then [] else [ToLower(ws[0])] + LowerWords(ws[1..])
  }

  lemma {:induction false} WordEndLower(s: string)
    ensures WordEnd(ToLower(s)) == WordEnd(s)
  {
    if s == "" {
    } else {
      LowerKeeps(s[0]);
      assert ToLower(s)[1..] == ToLower(s[1..]);
      WordEndLower(s[1..]);
    }
  }

  lemma {:induction false} FieldsLower(s: string)
    ensures Fields(ToLower(s)) == LowerWords(Fields(s))
    decreases |s|
  {
    var t := ToLower(s);
    if s == "" {
    } else {
      LowerKeeps(s[0]);
      if IsSpace(s[0]) {
        assert t[1..] == ToLower(s[1..]);
        FieldsLower(s[1..]);
      } else {
        var k := WordEnd(s);
        WordEndLower(s);
        assert t[..k] == ToLower(s[..k]) && t[k..] == ToLower(s[k..]);
        FieldsLower(s[k..]);
        assert Fields(s)[1..] == Fields(s[k..]);
      }
    }
  }

  lemma {:induction false} JoinLower(ws: seq<string>)
    ensures Join(LowerWords(ws), " ") == ToLower(Join(ws, " "))
  {
    if |ws| == 1 {
      assert LowerWords(ws)[0] == ToLower(ws[0]);
    } else if |ws| > 1 {
      JoinLower(ws[1..]);
      assert LowerWords(ws)[1..] == LowerWords(ws[1..]);
      var rest := Join(ws[1..], " ");
      LowerSum(ws[0], " " + rest);
      LowerSum(" ", rest);
      assert ws[0] + " " + rest == ws[0] + (" " + rest);
      assert ToLower(" ") == " ";
    }
  }

  lemma LowerSum(a: string, b: string)
    ensures ToLower(a + b) == ToLower(a) + ToLower(b)
  {
  }

  lemma CollapseLower(s: string)
    ensures Collapse(ToLower(s)) == ToLower(Collapse(s))
  {
    FieldsLower(s);
    JoinLower(Fields(s));
  }
}
