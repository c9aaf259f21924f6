/** `internal/domain/scope.go`: the glob a rule's `applies_to` and a taxonomy line
    are written in. The meaning of a pattern is given without the matcher, by
    cutting the path into one piece per token. */
module Glob {
  import opened Text

  datatype Token =
    | AnyDirs            // `**/`: nothing, or text up to and including a separator
    | AnyText            // `**`
    | AnySegment         // `*`
    | AnyChar            // `?`
    | Literal(c: char)

  function Tokenize(pattern: string): (ts: seq<Token>) {
    if pattern == "" then []
    else if "**/" <= pattern then [AnyDirs] + Tokenize(pattern[3..])
    else if "**" <= pattern then [AnyText] + Tokenize(pattern[2..])
    else if pattern[0] == '*' then [AnySegment] + Tokenize(pattern[1..])
    else if pattern[0] == '?' then [AnyChar] + Tokenize(pattern[1..])
    else [Literal(pattern[0])] + Tokenize(pattern[1..])
  }

  predicate Accepts(t: Token, piece: string) {
    match t
    case AnyDirs => piece == "" || piece[|piece| - 1] == '/'
    case AnyText => true
    case AnySegment => '/' !in piece
    case AnyChar => |piece| == 1 && piece[0] != '/'
    case Literal(c) => piece == [c]
  }

  function Flatten(pieces: seq<string>): string {
    if pieces == [] then "" else pieces[0] + Flatten(pieces[1..])
  }

  ghost predicate Covers(ts: seq<Token>, pieces: seq<string>) {
    |ts| == |pieces| && forall i :: 0 <= i < |ts| ==> Accepts(ts[i], pieces[i])
  }

  ghost predicate Splits(ts: seq<Token>, name: string) {
    exists pieces :: Covers(ts, pieces) && Flatten(pieces) == name
  }

  /** `pattern` describes the whole of `name`. */
  ghost predicate Describes(pattern: string, name: string) {
    Splits(Tokenize(pattern), name)
  }

  /** The first token takes some prefix and the rest describes what remains. */
  ghost predicate TakesPrefix(t: Token, ts: seq<Token>, name: string) {
    exists i :: 0 <= i <= |name| && Accepts(t, name[..i]) && Splits(ts, name[i..])
  }

  lemma SplitsNil(name: string)
    ensures Splits([], name) <==> name == ""
  {
    if name == "" {
      assert Covers([], []) && Flatten([]) == name;
    }
  }

  lemma PieceSplits(t: Token, ts: seq<Token>, piece: string, rest: string)
    requires Accepts(t, piece) && Splits(ts, rest)
    ensures Splits([t] + ts, piece + rest)
  {
    var pieces :| Covers(ts, pieces) && Flatten(pieces) == rest;
    var all := [piece] + pieces;
    assert all[1..] == pieces;
    assert Covers([t] + ts, all) && Flatten(all) == piece + rest;
  }

  lemma SplitsPiece(t: Token, ts: seq<Token>, pieces: seq<string>)
    requires Covers([t] + ts, pieces)
    ensures Accepts(t, pieces[0]) && Splits(ts, Flatten(pieces[1..]))
  {
    assert Covers(ts, pieces[1..]) by {
      assert forall k :: 0 <= k < |ts| ==> ts[k] == ([t] + ts)[k + 1];
    }
    assert Accepts(([t] + ts)[0], pieces[0]);
  }

  lemma SplitsTakes(t: Token, ts: seq<Token>, name: string)
    requires Splits([t] + ts, name)
    ensures TakesPrefix(t, ts, name)
  {
    var pieces :| Covers([t] + ts, pieces) && Flatten(pieces) == name;
    var i := |pieces[0]|;
    assert name[..i] == pieces[0] && name[i..] == Flatten(pieces[1..]);
    SplitsPiece(t, ts, pieces);
  }

  lemma TakesSplits(t: Token, ts: seq<Token>, name: string)
    requires TakesPrefix(t, ts, name)
    ensures Splits([t] + ts, name)
  {
    var i :| 0 <= i <= |name| && Accepts(t, name[..i]) && Splits(ts, name[i..]);
    var piece, rest := name[..i], name[i..];
    assert piece + rest == name;
    PieceSplits(t, ts, piece, rest);
  }

  /** A pattern describes what its first token and then its rest describe. */
  lemma FirstPiece(t: Token, ts: seq<Token>, name: string)
    ensures Splits([t] + ts, name) <==> TakesPrefix(t, ts, name)
  {
    if Splits([t] + ts, name) {
      SplitsTakes(t, ts, name);
    } else if TakesPrefix(t, ts, name) {
      TakesSplits(t, ts, name);
    }
  }

  // ----- each wildcard in terms of the rest of the pattern

  lemma EmptyPattern(name: string)
    ensures Describes("", name) <==> name == ""
  {
    SplitsNil(name);
  }

  /** `?` takes one character that is no separator. */
  lemma QuestionMark(rest: string, name: string)
    ensures Describes("?" + rest, name) <==> name != "" && name[0] != '/' && Describes(rest, name[1..])
  {
    var pattern := "?" + rest;
    assert pattern[1..] == rest && "**"[0] == '*' && "**/"[0] == '*';
    FirstPiece(AnyChar, Tokenize(rest), name);
    if name != "" && name[0] != '/' {
      assert Accepts(AnyChar, name[..1]);
    }
  }

  /** `*` takes characters up to a separator at most. */
  lemma OneStar(rest: string, name: string)
    requires !("*" <= rest)
    ensures Describes("*" + rest, name) <==> exists i :: 0 <= i <= |name| && '/' !in name[..i] && Describes(rest, name[i..])
  {
    var pattern := "*" + rest;
    assert pattern[1..] == rest;
    assert rest != "" ==> pattern[1] == rest[0];
    FirstPiece(AnySegment, Tokenize(rest), name);
    assert forall i :: 0 <= i <= |name| ==> (Accepts(AnySegment, name[..i]) <==> '/' !in name[..i]);
    assert forall i :: 0 <= i <= |name| ==> (Splits(Tokenize(rest), name[i..]) <==> Describes(rest, name[i..]));
  }

  /** `**` takes any characters. */
  lemma TwoStars(rest: string, name: string)
    requires !("/" <= rest)
    ensures Describes("**" + rest, name) <==> exists i :: 0 <= i <= |name| && Describes(rest, name[i..])
  {
    var pattern := "**" + rest;
    assert pattern[2..] == rest;
    assert rest != "" ==> pattern[2] == rest[0];
    FirstPiece(AnyText, Tokenize(rest), name);
    assert forall i :: 0 <= i <= |name| ==> Accepts(AnyText, name[..i]);
    assert forall i :: 0 <= i <= |name| ==> (Splits(Tokenize(rest), name[i..]) <==> Describes(rest, name[i..]));
  }

  /** `**` and a separator take no directory at all, or everything up to some separator. */
  lemma TwoStarsSlash(rest: string, name: string)
    ensures Describes("**/" + rest, name) <==>
            Describes(rest, name) || exists i :: 0 <= i < |name| && name[i] == '/' && Describes(rest, name[i + 1..])
  {
    var pattern := "**/" + rest;
    assert pattern[3..] == rest;
    FirstPiece(AnyDirs, Tokenize(rest), name);
    assert name[0..] == name && Accepts(AnyDirs, name[..0]);
    if i :| 0 <= i < |name| && name[i] == '/' && Describes(rest, name[i + 1..]) {
      assert Accepts(AnyDirs, name[..i + 1]) && Splits(Tokenize(rest), name[i + 1..]);
    }
    if i :| 0 <= i <= |name| && Accepts(AnyDirs, name[..i]) && Splits(Tokenize(rest), name[i..]) {
      assert i > 0 ==> name[i - 1] == '/' && Describes(rest, name[i - 1 + 1..]);
    }
  }

  /** Go's recursive matcher decides exactly the described paths. */
  method GlobMatch(pattern: string, name: string) returns (ok: bool)
    ensures ok <==> Describes(pattern, name)
    decreases |pattern|
  {
    if pattern == "" {
      SplitsNil(name);
      return name == "";
    }
    var ts := Tokenize(pattern);
    FirstPiece(ts[0], ts[1..], name);
    assert ts == [ts[0]] + ts[1..];
    if "**" <= pattern {
      var rest := pattern[2..];
      if rest == "" {
        assert pattern == "**" + rest == "**";
        EverythingDescribed(name);
        return true;
      }
      if rest[0] == '/' {
        ok := MatchAnyDirs(pattern, rest[1..], name);
        return;
      }
      ok := MatchAnyText(pattern, rest, name);
      return;
    }
    if pattern[0] == '*' {
      ok := MatchAnySegment(pattern, pattern[1..], name);
    } else if pattern[0] == '?' {
      if name == "" || name[0] == '/' {
        return false;
      }
      ok := GlobMatch(pattern[1..], name[1..]);
    } else {
      if name == "" || pattern[0] != name[0] {
        return false;
      }
      ok := GlobMatch(pattern[1..], name[1..]);
    }
  }

  // The directory-crossing loop of the matcher: no directory, or any number of them.
  method MatchAnyDirs(ghost pattern: string, tail: string, name: string) returns (ok: bool)
    requires |tail| < |pattern|
    ensures ok <==> TakesPrefix(AnyDirs, Tokenize(tail), name)
    decreases |pattern|, 0
  {
    var root := GlobMatch(tail, name);
    if root {
      assert name[0..] == name;
      return true;
    }
    for i := 0 to |name|
      invariant forall k :: 0 <= k <= i && Accepts(AnyDirs, name[..k]) ==> !Splits(Tokenize(tail), name[k..])
    {
      if name[i] == '/' {
        var below := GlobMatch(tail, name[i + 1..]);
        if below {
          assert Accepts(AnyDirs, name[..i + 1]);
          return true;
        }
      }
    }
    return false;
  }

  method MatchAnyText(ghost pattern: string, rest: string, name: string) returns (ok: bool)
    requires |rest| < |pattern|
    ensures ok <==> TakesPrefix(AnyText, Tokenize(rest), name)
    decreases |pattern|, 0
  {
    for i := 0 to |name| + 1
      invariant forall k :: 0 <= k < i ==> !Splits(Tokenize(rest), name[k..])
    {
      var here := GlobMatch(rest, name[i..]);
      if here {
        assert Accepts(AnyText, name[..i]);
        return true;
      }
    }
    return false;
  }

  method MatchAnySegment(ghost pattern: string, rest: string, name: string) returns (ok: bool)
    requires |rest| < |pattern|
    ensures ok <==> TakesPrefix(AnySegment, Tokenize(rest), name)
    decreases |pattern|, 0
  {
    for i := 0 to |name| + 1
      invariant '/' !in name[..if i <= |name| then i else |name|]
      invariant forall k :: 0 <= k < i ==> !Splits(Tokenize(rest), name[k..])
    {
      var here := GlobMatch(rest, name[i..]);
      if here {
        assert Accepts(AnySegment, name[..i]);
        return true;
      }
      if i < |name| && name[i] == '/' {
        assert forall k :: i < k <= |name| ==> name[..k][i] == '/';
        return false;
      }
    }
    return false;
  }

  /** The prefix `p` of a pattern, when it holds no wildcard, stands for itself. */
  predicate Plain(p: string) {
    '*' !in p && '?' !in p
  }

  lemma PlainToken(c: char, rest: string)
    requires Plain([c])
    ensures Tokenize([c] + rest) == [Literal(c)] + Tokenize(rest)
  {
    var pattern := [c] + rest;
    assert c in [c];
    assert pattern[0] == c && pattern[1..] == rest;
    assert "**/"[0] == '*' && "**"[0] == '*';
  }

  lemma {:induction false} PlainPrefix(p: string, q: string, name: string)
    requires Plain(p)
    ensures Describes(p + q, name) <==> p <= name && Describes(q, name[|p|..])
  {
    if p == "" {
      assert p + q == q && name[0..] == name;
    } else {
      var c, ts := p[0], Tokenize(p[1..] + q);
      assert p + q == [c] + (p[1..] + q);
      PlainToken(c, p[1..] + q);
      FirstPiece(Literal(c), ts, name);
      if name != "" && name[0] == c {
        assert name[..1] == [c] && Accepts(Literal(c), name[..1]);
        PlainPrefix(p[1..], q, name[1..]);
        assert p <= name <==> p[1..] <= name[1..];
        if p <= name {
          assert name[1..][|p[1..]|..] == name[|p|..];
        }
      }
    }
  }

  /** A directory line `dir/` followed by two stars claims exactly what lies below `dir`. */
  lemma DirectoryPattern(dir: string, name: string)
    requires Plain(dir)
    ensures Describes(dir + "/**", name) <==> dir + "/" <= name
  {
    assert dir + "/**" == (dir + "/") + "**";
    PlainPrefix(dir + "/", "**", name);
    if dir + "/" <= name {
      EverythingDescribed(name[|dir| + 1..]);
    }
  }

  lemma EverythingDescribed(name: string)
    ensures Describes("**", name)
  {
    assert Tokenize("**") == [AnyText] + [];
    FirstPiece(AnyText, [], name);
    SplitsNil(name[|name|..]);
    assert Accepts(AnyText, name[..|name|]);
  }

  /** Every pattern describes its own text. */
  lemma {:induction false} SelfDescribed(pattern: string)
    ensures Describes(pattern, pattern)
  {
    if pattern == "" {
      SplitsNil("");
    } else {
      var width := if "**/" <= pattern then 3 else if "**" <= pattern then 2 else 1;
      var ts := Tokenize(pattern);
      assert ts == [ts[0]] + Tokenize(pattern[width..]);
      SelfDescribed(pattern[width..]);
      FirstPiece(ts[0], Tokenize(pattern[width..]), pattern);
      assert Accepts(ts[0], pattern[..width]);
    }
  }

  /** `matchPath`: a pattern naming no directory is tried on the base name too. */
  ghost predicate Matches(pattern: string, path: string) {
    || Describes(pattern, path)
    || ('/' !in pattern && AfterLast(path, '/') > 0 && Describes(pattern, path[AfterLast(path, '/')..]))
  }

  method MatchPath(pattern: string, path: string) returns (ok: bool)
    ensures ok <==> Matches(pattern, path)
  {
    ok := GlobMatch(pattern, path);
    if ok {
      return;
    }
    if '/' !in pattern {
      var k := AfterLast(path, '/');
      if k > 0 {
        ok := GlobMatch(pattern, path[k..]);
      }
    }
  }

  lemma DirectoryMatches(dir: string, path: string)
    requires Plain(dir)
    ensures Matches(dir + "/**", path) <==> dir + "/" <= path
  {
    assert (dir + "/**")[|dir|] == '/';
    DirectoryPattern(dir, path);
  }

  /** The base name is tried for a pattern with `**` as well, where RFC-0005 would not: `word**`
      matches exactly the paths that start with the word and those whose base name does. */
  lemma DoubleStarFallsBack(word: string, path: string)
    requires Plain(word) && '/' !in word
    ensures Describes(word + "**", path) <==> word <= path
    ensures Matches(word + "**", path) <==> word <= path || word <= path[AfterLast(path, '/')..]
  {
    PlainPrefix(word, "**", path);
    if word <= path {
      EverythingDescribed(path[|word|..]);
    }
    var base := path[AfterLast(path, '/')..];
    PlainPrefix(word, "**", base);
    if word <= base {
      EverythingDescribed(base[|word|..]);
    }
    assert AfterLast(path, '/') == 0 ==> base == path;
    assert '/' !in word + "**" by {
      assert "**" == ['*', '*'];
    }
  }

  // ----- applies_to

  /** `expandShorthand`: a bare word means "files with this extension". */
  function ExpandShorthand(token: string): (pattern: string) {
    if '/' in token || '*' in token || '?' in token || '.' in token then token else "**/*." + token
  }

  predicate HasSuffix(s: string, suffix: string) {
    |suffix| <= |s| && s[|s| - |suffix|..] == suffix
  }

  predicate BareWord(token: string) {
    '/' !in token && '*' !in token && '?' !in token && '.' !in token
  }

  /** A bare word governs exactly the files that end in a dot and that word. */
  lemma ShorthandMeansExtension(token: string, path: string)
    requires BareWord(token)
    ensures Matches(ExpandShorthand(token), path) <==> HasSuffix(path, "." + token)
  {
    var pattern := "**/*." + token;
    assert pattern[2] == '/';
    ShorthandTokens(token);
    FirstPiece(AnyDirs, [AnySegment] + Tokenize("." + token), path);
    SuffixSplits("." + token, path);
  }

  lemma SuffixSplits(dot: string, path: string)
    requires Plain(dot) && '/' !in dot
    ensures TakesPrefix(AnyDirs, [AnySegment] + Tokenize(dot), path) <==> HasSuffix(path, dot)
  {
    var ts := [AnySegment] + Tokenize(dot);
    if HasSuffix(path, dot) {
      BaseNameTaken(dot, path);
    }
    if TakesPrefix(AnyDirs, ts, path) {
      var i :| 0 <= i <= |path| && Accepts(AnyDirs, path[..i]) && Splits(ts, path[i..]);
      BelowKeepsSuffix(dot, path, i);
    }
  }

  lemma BelowKeepsSuffix(dot: string, path: string, i: nat)
    requires Plain(dot) && i <= |path| && Splits([AnySegment] + Tokenize(dot), path[i..])
    ensures HasSuffix(path, dot)
  {
    SegmentThen(dot, path[i..]);
    assert path[i..][|path[i..]| - |dot|..] == path[|path| - |dot|..];
  }

  lemma ShorthandTokens(token: string)
    ensures Tokenize("**/*." + token) == [AnyDirs] + ([AnySegment] + Tokenize("." + token))
  {
    var pattern := "**/*." + token;
    assert pattern == "**/" + ("*." + token);
    assert pattern[3..] == "*." + token;
    var rest := "*." + token;
    assert rest == "*" + ("." + token);
    assert rest[1..] == "." + token;
    assert rest[1] == '.';
  }

  lemma BaseNameTaken(dot: string, path: string)
    requires Plain(dot) && HasSuffix(path, dot)
    ensures TakesPrefix(AnyDirs, [AnySegment] + Tokenize(dot), path)
  {
    var stem := path[..|path| - |dot|];
    var k := AfterLast(stem, '/');
    assert path[..k] == stem[..k] && Accepts(AnyDirs, path[..k]);
    BaseNameLeft(dot, path, stem, k);
    SegmentThen(dot, path[k..]);
  }

  lemma BaseNameLeft(dot: string, path: string, stem: string, k: nat)
    requires path == stem + dot && k <= |stem| && '/' !in stem[k..]
    ensures HasSuffix(path[k..], dot) && '/' !in path[k..][..|path[k..]| - |dot|]
  {
    assert path[k..] == stem[k..] + dot;
  }

  lemma SegmentThen(suffix: string, name: string)
    requires Plain(suffix)
    ensures Splits([AnySegment] + Tokenize(suffix), name) <==>
            HasSuffix(name, suffix) && '/' !in name[..|name| - |suffix|]
  {
    FirstPiece(AnySegment, Tokenize(suffix), name);
    forall i | 0 <= i <= |name|
      ensures Splits(Tokenize(suffix), name[i..]) <==> name[i..] == suffix
    {
      assert suffix + "" == suffix;
      PlainPrefix(suffix, "", name[i..]);
      if suffix <= name[i..] {
        SplitsNil(name[i..][|suffix|..]);
      }
    }
    if HasSuffix(name, suffix) && '/' !in name[..|name| - |suffix|] {
      var i := |name| - |suffix|;
      assert Accepts(AnySegment, name[..i]) && Splits(Tokenize(suffix), name[i..]);
    }
    if TakesPrefix(AnySegment, Tokenize(suffix), name) {
      var i :| 0 <= i <= |name| && Accepts(AnySegment, name[..i]) && Splits(Tokenize(suffix), name[i..]);
      assert i == |name| - |suffix|;
    }
  }

  /** The patterns an `applies_to` list means: blanks dropped, bare words expanded. */
  function ListedPatterns(entries: seq<string>): (patterns: seq<string>) {
    if entries == [] then []
    else
      var p := TrimSpace(entries[|entries| - 1]);
      ListedPatterns(entries[..|entries| - 1]) + (if p == "" then [] else [ExpandShorthand(p)])
  }

  /** `ParseScope`. */
  method ParseScope(appliesTo: string) returns (patterns: seq<string>)
    ensures patterns == ListedPatterns(Split(appliesTo, ','))
  {
    patterns := [];
    var entries := Split(appliesTo, ',');
    for i := 0 to |entries|
      invariant patterns == ListedPatterns(entries[..i])
    {
      assert entries[..i + 1][..i] == entries[..i];
      var p := TrimSpace(entries[i]);
      if p != "" {
        patterns := patterns + [ExpandShorthand(p)];
      }
    }
    assert entries[..|entries|] == entries;
  }

  /** Whether a scope governs some of the paths; an empty scope governs everything. */
  ghost predicate Governs(patterns: seq<string>, paths: seq<string>) {
    patterns == [] || exists p, k :: p in paths && k in patterns && Matches(k, p)
  }

  /** `Scope.Matches`. */
  method ScopeMatches(patterns: seq<string>, paths: seq<string>) returns (ok: bool)
    ensures ok <==> Governs(patterns, paths)
  {
    if patterns == [] {
      return true;
    }
    for i := 0 to |paths|
      invariant forall p, k :: p in paths[..i] && k in patterns ==> !Matches(k, p)
    {
      for j := 0 to |patterns|
        invariant forall k :: k in patterns[..j] ==> !Matches(k, paths[i])
      {
        var here := MatchPath(patterns[j], paths[i]);
        if here {
          return true;
        }
      }
    }
    return false;
  }

  /** Front matter may give `applies_to` as a YAML list, which the parser stores joined
      by a comma and a blank: reading it back gives every listed pattern, in order. */
  lemma {:induction false} ListFormIsCommaForm(items: seq<string>)
    requires items != []
    requires forall i :: 0 <= i < |items| ==> ',' !in items[i]
    ensures ListedPatterns(Split(Join(items, ", "), ',')) == ListedPatterns(items)
  {
    var spaced := Spaced(items);
    SpacedJoin(items);
    SplitJoin(spaced, ',');
    forall i | 0 <= i < |items| ensures TrimSpace(spaced[i]) == TrimSpace(items[i]) {
      LeadingBlank(items[i]);
    }
    SameTrims(spaced, items);
  }

  function Spaced(items: seq<string>): (r: seq<string>)
    ensures |r| == |items|
    ensures forall i :: 0 <= i < |items| ==> r[i] == if i == 0 then items[0] else " " + items[i]
  {
    seq(|items|, i requires 0 <= i < |items| => if i == 0 then items[0] else " " + items[i])
  }

  lemma {:induction false} SpacedJoin(items: seq<string>)
    requires items != []
    ensures Join(Spaced(items), ",") == Join(items, ", ")
  {
    if |items| > 1 {
      SpacedTail(items[1..]);
      assert Spaced(items)[1..] == seq(|items| - 1, i requires 0 <= i < |items| - 1 => " " + items[1..][i]);
    }
  }

  lemma {:induction false} SpacedTail(items: seq<string>)
    requires items != []
    ensures Join(seq(|items|, i requires 0 <= i < |items| => " " + items[i]), ",") == " " + Join(items, ", ")
  {
    var all := seq(|items|, i requires 0 <= i < |items| => " " + items[i]);
    if |items| <= 1 {
    } else {
      SpacedTail(items[1..]);
      assert all[1..] == seq(|items| - 1, i requires 0 <= i < |items| - 1 => " " + items[1..][i]);
    }
  }

  lemma {:induction false} SameTrims(xs: seq<string>, ys: seq<string>)
    requires |xs| == |ys|
    requires forall i :: 0 <= i < |xs| ==> TrimSpace(xs[i]) == TrimSpace(ys[i])
    ensures ListedPatterns(xs) == ListedPatterns(ys)
  {
    if xs == [] {
    } else {
      SameTrims(xs[..|xs| - 1], ys[..|ys| - 1]);
    }
  }

  lemma LeadingBlank(s: string)
    ensures TrimSpace(" " + s) == TrimSpace(s)
  {
    assert (" " + s)[1..] == s;
  }
}
