// Choosing the files of a workspace that are sent to a node: ignore patterns and the walk that prunes.
module Workspace {
  import opened Text

  /** File name patterns in the sense of the Go library; its own rules are not part of the program. */
  type Glob = (string, string) -> bool

  // ---------------------------------------------------------------- patterns

  predicate HasPrefix(s: string, p: string) { p <= s }

  predicate EndsInSlash(p: string) { p != "" && p[|p| - 1] == '/' }

  function Unslashed(p: string): string { if EndsInSlash(p) then p[..|p| - 1] else p }

  predicate Anchored(p: string) { Unslashed(p) != "" && Unslashed(p)[0] == '/' }

  /** The pattern without a slash at its end and one at its beginning. */
  function Core(p: string): string { if Anchored(p) then Unslashed(p)[1..] else Unslashed(p) }

  predicate IsPathPattern(p: string) { '/' in Core(p) }

  /** A path pattern is matched with the whole path, any other with one segment. */
  ghost predicate PatternHits(p: string, segs: seq<string>, isDir: bool, glob: Glob) {
    && Core(p) != ""
    && if IsPathPattern(p) then glob(Core(p), Join(segs, '/'))
       else exists i | 0 <= i < |segs| :: SegmentHits(p, segs, i, isDir, glob)
  }

  predicate SegmentHits(p: string, segs: seq<string>, i: nat, isDir: bool, glob: Glob)
    requires i < |segs|
  {
    glob(Core(p), segs[i]) && (Anchored(p) ==> i == 0) && (EndsInSlash(p) ==> i < |segs| - 1 || isDir)
  }

  ghost predicate Ignored(patterns: seq<string>, segs: seq<string>, isDir: bool, glob: Glob) {
    exists p <- patterns :: PatternHits(p, segs, isDir, glob)
  }

  /** The lines that are patterns. */
  function Useful(lines: seq<string>): seq<string> {
    if lines == [] then []
    else
      var last := TrimSpace(lines[|lines| - 1]);
      Useful(lines[..|lines| - 1]) + if last == "" || last[0] == '#' then [] else [last]
  }

  class Ignore {
    var patterns: seq<string>

    constructor (lines: seq<string>)
      ensures patterns == [".git", ".git/"] + Useful(lines)
    {
      var ps := [".git", ".git/"];
      for i := 0 to |lines|
        invariant ps == [".git", ".git/"] + Useful(lines[..i])
      {
        assert lines[..i + 1][..i] == lines[..i];
        var l := TrimSpace(lines[i]);
        if l == "" || HasPrefix(l, "#") {
          continue;
        }
        ps := ps + [l];
      }
      assert lines[..|lines|] == lines;
      patterns := ps;
    }

    method Match(rel: string, isDir: bool, glob: Glob) returns (hit: bool)
      ensures hit <==> Ignored(patterns, Split(rel, '/'), isDir, glob)
    {
      var segs := Split(rel, '/');
      JoinSplit(rel, '/');
      for k := 0 to |patterns|
        invariant forall j | 0 <= j < k :: !PatternHits(patterns[j], segs, isDir, glob)
      {
        var p := patterns[k];
        var dirOnly := EndsInSlash(p);
        var pat := if dirOnly then p[..|p| - 1] else p;
        var anchored := HasPrefix(pat, "/");
        pat := if anchored then pat[1..] else pat;
        if pat == "" {
          continue;
        }
        if '/' in pat {
          if glob(pat, rel) {
            assert PatternHits(p, segs, isDir, glob);
            return true;
          }
          continue;
        }
        for i := 0 to |segs|
          invariant forall j | 0 <= j < i :: !SegmentHits(p, segs, j, isDir, glob)
        {
          if anchored && i != 0 {
            break;
          }
          if !glob(pat, segs[i]) {
            continue;
          }
          var segIsDir := i < |segs| - 1 || isDir;
          if dirOnly && !segIsDir {
            continue;
          }
          assert SegmentHits(p, segs, i, isDir, glob);
          assert PatternHits(p, segs, isDir, glob);
          return true;
        }
        assert !PatternHits(p, segs, isDir, glob);
      }
      return false;
    }
  }

  // ---------------------------------------------------------------- trees

  /** What a directory holds, in the order of the walk; `Special` stands for links, sockets and devices. */
  datatype Tree = File(name: string) | Special(name: string) | Dir(name: string, children: seq<Tree>)

  datatype Entry = Entry(path: seq<string>, isDir: bool)

  /** A place in the tree. */
  datatype Place = Place(path: seq<string>, tree: Tree) {
    predicate IsDir() { tree.Dir? }
  }

  predicate NamedTree(t: Tree)
    decreases t
  {
    t.name != "" && Free(t.name, '/') && (t.Dir? ==> Named(t.children))
  }

  predicate Named(ts: seq<Tree>)
    decreases ts
  {
    ts == [] || (NamedTree(ts[0]) && Named(ts[1..]))
  }

  /** A tree and everything in it, each place before what is below. */
  function PlacesIn(t: Tree, path: seq<string>): seq<Place>
    decreases t
  {
    [Place(path, t)] + if t.Dir? then Places(t.children, path) else []
  }

  function Places(ts: seq<Tree>, prefix: seq<string>): seq<Place>
    decreases ts
  {
    if ts == [] then [] else PlacesIn(ts[0], prefix + [ts[0].name]) + Places(ts[1..], prefix)
  }

  /** The entries written for a tree: none for a special file, and none for what is ignored and all it holds. */
  ghost function WrittenFor(t: Tree, path: seq<string>, patterns: seq<string>, glob: Glob): seq<Entry>
    decreases t
  {
    if Ignored(patterns, path, t.Dir?, glob) || t.Special? then []
    else [Entry(path, t.Dir?)] + if t.Dir? then Written(t.children, path, patterns, glob) else []
  }

  ghost function Written(ts: seq<Tree>, prefix: seq<string>, patterns: seq<string>, glob: Glob): seq<Entry>
    decreases ts
  {
    if ts == [] then []
    else WrittenFor(ts[0], prefix + [ts[0].name], patterns, glob) + Written(ts[1..], prefix, patterns, glob)
  }

  function FilesIn(entries: seq<Entry>): nat {
    if entries == [] then 0
    else FilesIn(entries[..|entries| - 1]) + if entries[|entries| - 1].isDir then 0 else 1
  }

  predicate AllFree(path: seq<string>) { forall i | 0 <= i < |path| :: Free(path[i], '/') }

  lemma SplitPath(path: seq<string>)
    requires path != [] && AllFree(path)
    ensures Split(Join(path, '/'), '/') == path
  {
    SplitJoin(path, '/');
  }

  class Archiver {
    const ig: Ignore
    var entries: seq<Entry>
    var files: nat

    constructor (ig: Ignore)
      ensures this.ig == ig && entries == [] && Counted()
    {
      this.ig := ig;
      entries := [];
      files := 0;
    }

    predicate Counted()
      reads this
    {
      files == FilesIn(entries)
    }

    /** Writes one entry and, for a file, counts it. */
    method Add(e: Entry)
      requires Counted()
      modifies this
      ensures entries == old(entries) + [e] && Counted()
    {
      entries := entries + [e];
      assert entries[..|entries| - 1] == old(entries);
      if !e.isDir {
        files := files + 1;
      }
    }

    /** Writes one place and, for a directory that is not ignored, what it holds. */
    method Visit(t: Tree, path: seq<string>, glob: Glob)
      requires NamedTree(t) && path != [] && AllFree(path) && Counted()
      modifies this
      ensures entries == old(entries) + WrittenFor(t, path, ig.patterns, glob) && Counted()
      decreases t
    {
      SplitPath(path);
      var hit := ig.Match(Join(path, '/'), t.Dir?, glob);
      if hit || t.Special? {
        return;
      }
      Add(Entry(path, t.Dir?));
      if t.Dir? {
        Walk(t.children, path, glob);
      }
    }

    /** A directory's contents in order. */
    method Walk(ts: seq<Tree>, prefix: seq<string>, glob: Glob)
      requires Named(ts) && AllFree(prefix) && Counted()
      modifies this
      ensures entries == old(entries) + Written(ts, prefix, ig.patterns, glob) && Counted()
      decreases ts
    {
      if ts != [] {
        Visit(ts[0], prefix + [ts[0].name], glob);
        Walk(ts[1..], prefix, glob);
      }
    }

    /** The archive of a directory: its entries and the number of files among them. */
    method Archive(root: seq<Tree>, glob: Glob)
      requires Named(root) && entries == [] && Counted()
      modifies this
      ensures entries == Written(root, [], ig.patterns, glob) && files == FilesIn(entries)
    {
      Walk(root, [], glob);
    }
  }

  // ---------------------------------------------------------------- the walk is a filter

  /** The place or something it lies in is ignored. */
  ghost predicate Excluded(patterns: seq<string>, path: seq<string>, isDir: bool, glob: Glob) {
    exists k | 0 < k <= |path| :: Ignored(patterns, path[..k], k < |path| || isDir, glob)
  }

  ghost predicate Chosen(p: Place, patterns: seq<string>, glob: Glob) {
    !p.tree.Special? && !Excluded(patterns, p.path, p.IsDir(), glob)
  }

  ghost function Selected(places: seq<Place>, patterns: seq<string>, glob: Glob): seq<Entry> {
    if places == [] then []
    else
      (if Chosen(places[0], patterns, glob) then [Entry(places[0].path, places[0].IsDir())] else [])
      + Selected(places[1..], patterns, glob)
  }

  lemma {:induction false} SelectedBoth(a: seq<Place>, b: seq<Place>, patterns: seq<string>, glob: Glob)
    ensures Selected(a + b, patterns, glob) == Selected(a, patterns, glob) + Selected(b, patterns, glob)
  {
    if a == [] {
      assert a + b == b;
    } else {
      assert (a + b)[1..] == a[1..] + b;
      SelectedBoth(a[1..], b, patterns, glob);
      var first := if Chosen(a[0], patterns, glob) then [Entry(a[0].path, a[0].IsDir())] else [];
    }
  }

  lemma {:induction false} SelectedNone(places: seq<Place>, patterns: seq<string>, glob: Glob)
    requires forall i | 0 <= i < |places| :: !Chosen(places[i], patterns, glob)
    ensures Selected(places, patterns, glob) == []
  {
    if places != [] {
      SelectedNone(places[1..], patterns, glob);
    }
  }

  /** A tree's places lie below it, and only the tree itself is at its path. */
  lemma {:induction false} PlacesBelow(t: Tree, path: seq<string>)
    ensures forall p <- PlacesIn(t, path) :: path <= p.path && (p.path == path ==> p.tree == t)
    decreases t
  {
    if t.Dir? {
      PlacesBelowAll(t.children, path);
    }
  }

  lemma {:induction false} PlacesBelowAll(ts: seq<Tree>, prefix: seq<string>)
    ensures forall p <- Places(ts, prefix) :: prefix < p.path
    decreases ts
  {
    if ts != [] {
      PlacesBelow(ts[0], prefix + [ts[0].name]);
      PlacesBelowAll(ts[1..], prefix);
    }
  }

  /** Nothing in an ignored tree is chosen. */
  lemma IgnoredTree(t: Tree, path: seq<string>, patterns: seq<string>, glob: Glob)
    requires path != [] && Ignored(patterns, path, t.Dir?, glob)
    ensures Selected(PlacesIn(t, path), patterns, glob) == []
  {
    PlacesBelow(t, path);
    var places := PlacesIn(t, path);
    forall i | 0 <= i < |places|
      ensures !Chosen(places[i], patterns, glob)
    {
      var p := places[i];
      assert p in places;
      assert p.path[..|path|] == path;
    }
    SelectedNone(places, patterns, glob);
  }

  lemma ExcludedStep(patterns: seq<string>, prefix: seq<string>, name: string, isDir: bool, glob: Glob)
    requires !Excluded(patterns, prefix, true, glob)
    ensures Excluded(patterns, prefix + [name], isDir, glob) <==> Ignored(patterns, prefix + [name], isDir, glob)
  {
    var path := prefix + [name];
    assert path[..|path|] == path;
    assert forall k | 0 < k <= |prefix| :: path[..k] == prefix[..k];
  }

  lemma {:induction false} TreeIsFilter(t: Tree, prefix: seq<string>, patterns: seq<string>, glob: Glob)
    requires !Excluded(patterns, prefix, true, glob)
    ensures var path := prefix + [t.name];
      WrittenFor(t, path, patterns, glob) == Selected(PlacesIn(t, path), patterns, glob)
    decreases t
  {
    var path := prefix + [t.name];
    ExcludedStep(patterns, prefix, t.name, t.Dir?, glob);
    if Ignored(patterns, path, t.Dir?, glob) {
      IgnoredTree(t, path, patterns, glob);
    } else {
      var inside := if t.Dir? then Places(t.children, path) else [];
      SelectedBoth([Place(path, t)], inside, patterns, glob);
      assert [Place(path, t)][1..] == [];
      if t.Dir? {
        WalkIsFilter(t.children, path, patterns, glob);
      }
    }
  }

  /** The pruning walk writes, in order, exactly the places with nothing ignored on the way to them. */
  lemma {:induction false} WalkIsFilter(ts: seq<Tree>, prefix: seq<string>, patterns: seq<string>, glob: Glob)
    requires !Excluded(patterns, prefix, true, glob)
    ensures Written(ts, prefix, patterns, glob) == Selected(Places(ts, prefix), patterns, glob)
    decreases ts
  {
    if ts != [] {
      TreeIsFilter(ts[0], prefix, patterns, glob);
      WalkIsFilter(ts[1..], prefix, patterns, glob);
      SelectedBoth(PlacesIn(ts[0], prefix + [ts[0].name]), Places(ts[1..], prefix), patterns, glob);
    }
  }

  lemma {:induction false} InSelected(places: seq<Place>, patterns: seq<string>, glob: Glob, e: Entry)
    ensures e in Selected(places, patterns, glob) <==>
      exists i | 0 <= i < |places| :: Chosen(places[i], patterns, glob) && e == Entry(places[i].path, places[i].IsDir())
  {
    if places != [] {
      InSelected(places[1..], patterns, glob, e);
      if Chosen(places[0], patterns, glob) && e == Entry(places[0].path, places[0].IsDir()) {
      } else if exists i | 0 <= i < |places| && Chosen(places[i], patterns, glob) ::
        e == Entry(places[i].path, places[i].IsDir()) {
        var i :| 0 <= i < |places| && Chosen(places[i], patterns, glob)
          && e == Entry(places[i].path, places[i].IsDir());
        assert places[i] == places[1..][i - 1];
      }
    }
  }

  /** More patterns never bring a file in. */
  lemma MorePatternsShrink(root: seq<Tree>, patterns: seq<string>, more: seq<string>, glob: Glob, e: Entry)
    requires e in Written(root, [], patterns + more, glob)
    ensures e in Written(root, [], patterns, glob)
  {
    WalkIsFilter(root, [], patterns, glob);
    WalkIsFilter(root, [], patterns + more, glob);
    InSelected(Places(root, []), patterns, glob, e);
    InSelected(Places(root, []), patterns + more, glob, e);
    forall path: seq<string>, isDir: bool | Ignored(patterns, path, isDir, glob)
      ensures Ignored(patterns + more, path, isDir, glob)
    {
      var p :| p in patterns && PatternHits(p, path, isDir, glob);
      assert p in patterns + more;
    }
  }

  /** Nothing at or below a `.git` is ever written, whatever the lines say. */
  lemma GitStaysOut(root: seq<Tree>, lines: seq<string>, glob: Glob, e: Entry)
    requires glob(".git", ".git") && e in Written(root, [], [".git", ".git/"] + Useful(lines), glob)
    ensures ".git" !in e.path
  {
    var patterns := [".git", ".git/"] + Useful(lines);
    WalkIsFilter(root, [], patterns, glob);
    InSelected(Places(root, []), patterns, glob, e);
    if ".git" in e.path {
      var i :| 0 <= i < |e.path| && e.path[i] == ".git";
      GitExcluded(patterns, e.path, i, e.isDir, glob);
    }
  }

  lemma GitExcluded(patterns: seq<string>, path: seq<string>, i: nat, isDir: bool, glob: Glob)
    requires glob(".git", ".git") && ".git" in patterns && i < |path| && path[i] == ".git"
    ensures Excluded(patterns, path, isDir, glob)
  {
    assert path[..|path|] == path;
    assert SegmentHits(".git", path, i, isDir, glob);
    assert PatternHits(".git", path, isDir, glob);
    assert Ignored(patterns, path[..|path|], |path| < |path| || isDir, glob);
  }

  /** A pattern for names that hits a directory hits everything in it. */
  lemma NamePatternReachesDown(p: string, path: seq<string>, k: nat, isDir: bool, glob: Glob)
    requires !IsPathPattern(p) && 0 < k <= |path| && PatternHits(p, path[..k], k < |path| || isDir, glob)
    ensures PatternHits(p, path, isDir, glob)
  {
    var i :| 0 <= i < k && SegmentHits(p, path[..k], i, k < |path| || isDir, glob);
    assert path[..k][i] == path[i];
    assert SegmentHits(p, path, i, isDir, glob);
  }

  /** So without path patterns the matcher alone decides, and the walk writes what it lets through. */
  lemma MatchAloneDecides(patterns: seq<string>, path: seq<string>, isDir: bool, glob: Glob)
    requires path != [] && forall p <- patterns :: !IsPathPattern(p)
    ensures Excluded(patterns, path, isDir, glob) <==> Ignored(patterns, path, isDir, glob)
  {
    assert path[..|path|] == path;
    if Excluded(patterns, path, isDir, glob) {
      var k :| 0 < k <= |path| && Ignored(patterns, path[..k], k < |path| || isDir, glob);
      var p :| p in patterns && PatternHits(p, path[..k], k < |path| || isDir, glob);
      NamePatternReachesDown(p, path, k, isDir, glob);
    }
  }

  /**
    * A path pattern can hide a file the matcher lets through, by hitting the directory only; and a slash at its end
    * does not keep it to directories.
    */
  lemma PathPatternsDiffer(dir: string, sub: string, file: string, glob: Glob)
    requires dir != "" && Free(dir, '/') && sub != "" && Free(sub, '/') && Free(file, '/')
    requires forall p, s :: glob(p, s) <==> p == s
    ensures var p := dir + "/" + sub;
      && Excluded([p], [dir, sub, file], false, glob) && !Ignored([p], [dir, sub, file], false, glob)
      && Ignored([p + "/"], [dir, sub], false, glob)
  {
    var p := dir + "/" + sub;
    assert [dir, sub, file][..2] == [dir, sub];
    assert Join([dir, sub], '/') == p by {
      assert [dir, sub][1..] == [sub];
    }
    assert Join([dir, sub, file], '/') == dir + "/" + (sub + "/" + file) by {
      assert [dir, sub, file][1..] == [sub, file] && [sub, file][1..] == [file];
      assert Join([sub, file], '/') == sub + "/" + Join([file], '/');
    }
    assert |Join([dir, sub, file], '/')| > |p|;
    assert p[|p| - 1] == sub[|sub| - 1] && sub[|sub| - 1] in sub;
    assert p[0] == dir[0] && dir[0] in dir;
    assert p[|dir|] == '/';
    assert Core(p) == p && IsPathPattern(p);
    assert (p + "/")[..|p|] == p && Core(p + "/") == p;
    assert p in [p] && (p + "/") in [p + "/"];
    assert PatternHits(p, [dir, sub], true, glob) && PatternHits(p + "/", [dir, sub], false, glob);
    assert Ignored([p], [dir, sub, file][..2], 2 < 3 || false, glob);
  }

  // ---------------------------------------------------------------- the slash at the end

  /** Segments as the walk makes them. */
  predicate ProperPath(path: seq<string>) { path != [] && AllFree(path) && "" !in path }

  /** What a slash at the end stands for: any path that is hit is a directory, or is below one that is hit. */
  ghost predicate OnlyDirectories(p: string, glob: Glob) {
    forall path | ProperPath(path) && PatternHits(p, path, false, glob) :: HitAbove(p, path, glob)
  }

  ghost predicate HitAbove(p: string, path: seq<string>, glob: Glob) {
    exists k | 0 < k < |path| :: PatternHits(p, path[..k], true, glob)
  }

  lemma NamePatternHitsDirectories(p: string, path: seq<string>, glob: Glob)
    requires EndsInSlash(p) && !IsPathPattern(p) && PatternHits(p, path, false, glob)
    ensures HitAbove(p, path, glob)
  {
    var i :| 0 <= i < |path| && SegmentHits(p, path, i, false, glob);
    assert SegmentHits(p, path[..i + 1], i, true, glob);
    assert PatternHits(p, path[..i + 1], true, glob);
  }

  /** Under every matcher it stands for that exactly when the pattern is not one for paths. */
  lemma TrailingSlash(p: string)
    requires EndsInSlash(p) && Core(p) != ""
    ensures (forall glob :: OnlyDirectories(p, glob)) <==> !IsPathPattern(p)
  {
    if IsPathPattern(p) {
      var glob := (g: string, s: string) => s == "a/b";
      var path := ["a", "b"];
      assert path[1..] == ["b"] && Join(path, '/') == "a/b";
      assert PatternHits(p, path, false, glob);
      assert path[..1] == ["a"];
      assert !HitAbove(p, path, glob);
      assert ProperPath(path) && !OnlyDirectories(p, glob);
    } else {
      forall glob, path | PatternHits(p, path, false, glob)
        ensures HitAbove(p, path, glob)
      {
        NamePatternHitsDirectories(p, path, glob);
      }
    }
  }

  /** A shortest hit has no hit above it. */
  lemma {:induction false} PathPatternHitsNothing(p: string, path: seq<string>, glob: Glob)
    requires IsPathPattern(p) && OnlyDirectories(p, glob) && ProperPath(path)
    ensures !PatternHits(p, path, false, glob)
    decreases |path|
  {
    if PatternHits(p, path, false, glob) {
      var k :| 0 < k < |path| && PatternHits(p, path[..k], true, glob);
      assert ProperPath(path[..k]);
      PathPatternHitsNothing(p, path[..k], glob);
    }
  }

  /** Under any one matcher a path pattern stands for that only when it hits nothing at all. */
  lemma TrailingSlashUnder(p: string, glob: Glob)
    requires EndsInSlash(p)
    ensures OnlyDirectories(p, glob) <==>
      !IsPathPattern(p) || forall path | ProperPath(path) :: !PatternHits(p, path, false, glob)
  {
    forall path | ProperPath(path) && PatternHits(p, path, false, glob)
      ensures !IsPathPattern(p) ==> HitAbove(p, path, glob)
      ensures IsPathPattern(p) ==> !OnlyDirectories(p, glob)
    {
      if !IsPathPattern(p) {
        NamePatternHitsDirectories(p, path, glob);
      } else if OnlyDirectories(p, glob) {
        PathPatternHitsNothing(p, path, glob);
      }
    }
  }
}
