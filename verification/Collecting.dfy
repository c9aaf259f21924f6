/** `internal/collector/filesystem/collector.go`: which files of a working tree a full index
    reads. The tree is given as its files; reading it is not modelled. */
module Collecting {
  import opened Text
  import opened Sorting
  import opened Pipeline
  import Glob

  /** The files of a tree by path. */
  type Snapshot = map<string, string>

  /** `isMarkdown`, whatever the case of the extension. */
  predicate IsMarkdown(path: string) {
    Glob.HasSuffix(ToLower(path), ".md") || Glob.HasSuffix(ToLower(path), ".markdown")
  }

  predicate SkippedName(name: string) {
    name == ".git" || name == "node_modules" || name == "vendor"
  }

  /** Some directory on the way is one the walk does not enter. */
  predicate InSkippedDirectory(path: string) {
    var parts := Split(path, '/');
    exists i :: 0 <= i < |parts| - 1 && SkippedName(parts[i])
  }

  /** The walk reads the path; `ignored` is what git reports as ignored. */
  predicate Walked(ignored: set<string>, path: string) {
    IsMarkdown(path) && !InSkippedDirectory(path) && path !in ignored
  }

  function Walks(ignored: set<string>): string -> bool {
    (path: string) => Walked(ignored, path)
  }

  /** The part of a tree on some of its paths. */
  function Part(files: Snapshot, keep: string -> bool): Snapshot {
    map path | path in files && keep(path) :: files[path]
  }

  predicate DistinctPaths(raws: seq<Raw>) {
    forall i, j :: 0 <= i < j < |raws| ==> raws[i].path != raws[j].path
  }

  predicate CleanFiles(files: Snapshot) {
    forall path :: path in files ==> Clean(path)
  }

  ghost predicate Listed(raws: seq<Raw>, path: string) {
    exists i :: 0 <= i < |raws| && raws[i].path == path
  }

  predicate IsFileOf(files: Snapshot, raw: Raw) {
    raw.path in files && files[raw.path] == raw.bytes
  }

  /** Each file once, with its bytes. */
  ghost predicate Lists(raws: seq<Raw>, files: Snapshot) {
    && DistinctPaths(raws) && AllClean(raws)
    && (forall i :: 0 <= i < |raws| ==> IsFileOf(files, raws[i]))
    && (forall path :: path in files ==> Listed(raws, path))
  }

  /** A set of paths in order. */
  method SortedPaths(keys: set<string>) returns (paths: seq<string>)
    ensures StrictlySorted(StrLess, paths)
    ensures forall p :: p in paths <==> p in keys
  {
    var found: seq<string> := [];
    var todo := keys;
    while todo != {}
      invariant Distinct(found) && todo <= keys
      invariant forall p :: p in found <==> p in keys && p !in todo
    {
      var p :| p in todo;
      found := found + [p];
      todo := todo - {p};
    }
    StrLessIsTotalOrder();
    paths := SortSlice(found, StrLess);
    PermutationMembers(paths, found);
    DistinctPermutation(found, paths);
    SortedDistinctIsStrict(StrLess, paths);
  }

  /** The walk and `dropIgnored`. */
  method WalkFiles(files: Snapshot, ignored: set<string>) returns (paths: set<string>)
    ensures forall p :: p in paths <==> p in files && Walked(ignored, p)
  {
    paths := {};
    var todo := files.Keys;
    while todo != {}
      invariant todo <= files.Keys
      invariant forall p :: p in paths <==> p in files && p !in todo && Walked(ignored, p)
    {
      var p :| p in todo;
      if !InSkippedDirectory(p) && IsMarkdown(p) && p !in ignored {
        paths := paths + {p};
      }
      todo := todo - {p};
    }
  }

  lemma SortedOnce(paths: seq<string>, i: nat)
    requires StrictlySorted(StrLess, paths) && i < |paths|
    ensures paths[i] !in paths[..i]
  {
    StrLessIsTotalOrder();
    forall j | 0 <= j < i ensures paths[..i][j] != paths[i] {
      assert StrLess(paths[j], paths[i]);
    }
  }

  /** `Collect`: every file the walk reads, once, by path. */
  method Collect(files: Snapshot, ignored: set<string>) returns (raws: seq<Raw>)
    requires CleanFiles(files)
    ensures Lists(raws, Part(files, Walks(ignored)))
    ensures forall i, j :: 0 <= i < j < |raws| ==> StrLess(raws[i].path, raws[j].path)
  {
    var walked := WalkFiles(files, ignored);
    var paths := SortedPaths(walked);
    raws := [];
    for i := 0 to |paths|
      invariant |raws| == i && forall j :: 0 <= j < i ==> raws[j].path == paths[j] && IsFileOf(files, raws[j])
    {
      assert paths[i] in paths;
      raws := raws + [Raw(paths[i], files[paths[i]])];
    }
    ReadsLists(files, ignored, paths, raws);
  }

  lemma ReadsLists(files: Snapshot, ignored: set<string>, paths: seq<string>, raws: seq<Raw>)
    requires CleanFiles(files) && StrictlySorted(StrLess, paths)
    requires forall p :: p in paths <==> p in files && Walked(ignored, p)
    requires |raws| == |paths| && forall j :: 0 <= j < |raws| ==> raws[j].path == paths[j] && IsFileOf(files, raws[j])
    ensures Lists(raws, Part(files, Walks(ignored)))
  {
    StrLessIsTotalOrder();
    forall i | 0 <= i < |raws| ensures IsFileOf(Part(files, Walks(ignored)), raws[i]) && Clean(raws[i].path) {
      assert paths[i] in paths;
    }
    forall path | path in Part(files, Walks(ignored)) ensures Listed(raws, path) {
      assert path in paths;
      var i :| 0 <= i < |paths| && paths[i] == path;
      assert raws[i].path == path;
    }
  }

  // ----- what git is asked about

  /** The pathspecs `*.md` and `*.markdown`, at any depth. */
  predicate PathspecMatches(path: string) {
    Glob.HasSuffix(path, ".md") || Glob.HasSuffix(path, ".markdown")
  }

  function GitSees(ignored: set<string>): string -> bool {
    (path: string) => PathspecMatches(path) && path !in ignored
  }

  /** Git is asked about markdown in a directory the walk does not enter. */
  lemma VendoredIsHidden(name: string)
    requires '/' !in name && Glob.HasSuffix(name, ".md")
    ensures var path := "vendor/" + name; GitSees({})(path) && !Walks({})(path)
  {
    var path := "vendor/" + name;
    VendoredParts(name);
    assert path[|path| - 3..] == name[|name| - 3..];
    assert SkippedName(Split(path, '/')[0]);
  }

  lemma VendoredParts(name: string)
    requires '/' !in name
    ensures Split("vendor/" + name, '/') == ["vendor", name]
  {
    var parts := ["vendor", name];
    assert parts[1..] == [name];
    assert "vendor/" == "vendor" + "/";
    assert Join(parts, "/") == "vendor/" + name;
    assert '/' !in "vendor";
    SplitJoin(parts, '/');
  }

  /** Git is not asked about markdown whose extension is in upper case, which the walk reads. */
  lemma UpperCaseIsUnseen(name: string)
    requires '/' !in name
    ensures var path := name + ".MD"; Walks({})(path) && !GitSees({})(path)
  {
    var path := name + ".MD";
    assert path[|path| - 3..] == ".MD";
    assert ToLower(path)[|path| - 3..] == ".md";
    assert path[|path| - 1] == 'D';
    SplitJoin([path], '/');
    assert Split(path, '/') == [path];
    assert Glob.HasSuffix(path, ".markdown") ==> path[|path| - 1] == 'n' by {
      assert ".markdown"[8] == 'n';
    }
  }
}
