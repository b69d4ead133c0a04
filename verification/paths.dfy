/** Slash-separated path strings as the file-listing client handles them:
    Go's `path.IsAbs`, `strings.Split(_, "/")`, `strings.Join(_, "/")`,
    `path.Clean` on rooted paths, and the child-path construction of the tree
    walk (`strings.ReplaceAll(parent + "/" + name, "//", "/")`). */
module Paths {

  const Separator: char := '/'

  /** `path.IsAbs`: a path is absolute when it starts with a slash. */
  predicate IsAbs(p: string) {
    |p| > 0 && p[0] == Separator
  }

  predicate HasNoSlash(s: string) {
    forall i :: 0 <= i < |s| ==> s[i] != Separator
  }

  /** No two consecutive slashes. */
  predicate HasNoDoubleSlash(s: string) {
    forall i :: 0 <= i < |s| - 1 ==> !(s[i] == Separator && s[i + 1] == Separator)
  }

  predicate AllSlashFree(parts: seq<string>) {
    forall k :: 0 <= k < |parts| ==> HasNoSlash(parts[k])
  }

  // ---------------------------------------------------------------------------
  // Split and Join
  // ---------------------------------------------------------------------------

  /** `strings.Split(s, "/")`: the pieces between slashes, always at least one. */
  function Split(s: string): (parts: seq<string>)
    ensures |parts| >= 1
    ensures AllSlashFree(parts)
    decreases |s|
  {
    if |s| == 0 then [""]
    else
      var rest := Split(s[1..]);
      if s[0] == Separator then [""] + rest
      else [[s[0]] + rest[0]] + rest[1..]
  }

  /** `strings.Join(parts, "/")`. */
  function Join(parts: seq<string>): string
    decreases |parts|
  {
    if |parts| == 0 then ""
    else if |parts| == 1 then parts[0]
    else parts[0] + [Separator] + Join(parts[1..])
  }

  /** Splitting a slash-free prefix glued to a string extends the first piece. */
  lemma {:induction false} SplitSlashFreePrefix(a: string, x: string)
    requires HasNoSlash(a)
    ensures Split(a + x) == [a + Split(x)[0]] + Split(x)[1..]
    decreases |a|
  {
    if |a| == 0 {
      var h := Split(x)[0];
      assert a + x == x;
      assert a + h == h;
    } else {
      assert (a + x)[1..] == a[1..] + x;
      SplitSlashFreePrefix(a[1..], x);
      assert [a[0]] + (a[1..] + Split(x)[0]) == a + Split(x)[0];
    }
  }

  /** Joining the pieces of a split gives the string back. */
  lemma {:induction false} JoinSplit(s: string)
    ensures Join(Split(s)) == s
    decreases |s|
  {
    if |s| > 0 {
      var rest := Split(s[1..]);
      JoinSplit(s[1..]);
      if s[0] == Separator {
        assert Split(s) == [""] + rest;
        assert ([""] + rest)[1..] == rest;
        assert Join(Split(s)) == "" + [Separator] + Join(rest);
        assert s == [s[0]] + s[1..];
      } else {
        assert Split(s) == [[s[0]] + rest[0]] + rest[1..];
        if |rest| == 1 {
          assert Join(Split(s)) == [s[0]] + rest[0];
        } else {
          assert ([[s[0]] + rest[0]] + rest[1..])[1..] == rest[1..];
          assert Join(rest) == rest[0] + [Separator] + Join(rest[1..]);
        }
        assert s == [s[0]] + s[1..];
      }
    }
  }

  /** Splitting a join of slash-free pieces gives the pieces back. */
  lemma {:induction false} SplitJoin(parts: seq<string>)
    requires |parts| >= 1
    requires AllSlashFree(parts)
    ensures Split(Join(parts)) == parts
    decreases |parts|
  {
    if |parts| == 1 {
      SplitSlashFreePrefix(parts[0], "");
      assert parts[0] + "" == parts[0];
    } else {
      var tail := Join(parts[1..]);
      SplitJoin(parts[1..]);
      SplitSlashFreePrefix(parts[0], [Separator] + tail);
      assert ([Separator] + tail)[1..] == tail;
      assert Split([Separator] + tail) == [""] + Split(tail);
      assert Split([Separator] + tail)[0] == "";
      assert Split([Separator] + tail)[1..] == parts[1..];
      assert parts[0] + "" == parts[0];
      assert Join(parts) == parts[0] + ([Separator] + tail);
      assert parts == [parts[0]] + parts[1..];
    }
  }

  // ---------------------------------------------------------------------------
  // Clean (rooted paths only)
  // ---------------------------------------------------------------------------

  /** A segment that survives cleaning: not empty, not "." and not "..". */
  predicate IsNameSegment(s: string) {
    s != "" && s != "." && s != ".." && HasNoSlash(s)
  }

  predicate AllNames(parts: seq<string>) {
    forall k :: 0 <= k < |parts| ==> IsNameSegment(parts[k])
  }

  /** Lexical processing of the segments of a rooted path, as `path.Clean`
      does it: empty and "." segments vanish, ".." drops the previous name
      (and is ignored at the root), every other segment is kept. */
  function CleanSegments(parts: seq<string>, kept: seq<string>): (r: seq<string>)
    requires AllSlashFree(parts)
    requires AllNames(kept)
    ensures AllNames(r)
    decreases |parts|
  {
    if |parts| == 0 then kept
    else if parts[0] == "" || parts[0] == "." then CleanSegments(parts[1..], kept)
    else if parts[0] == ".." then
      CleanSegments(parts[1..], if |kept| == 0 then kept else kept[..|kept| - 1])
    else CleanSegments(parts[1..], kept + [parts[0]])
  }

  /** Segments made only of names are kept as they are. */
  lemma {:induction false} CleanSegmentsOfNames(parts: seq<string>, kept: seq<string>)
    requires AllNames(parts)
    requires AllNames(kept)
    ensures CleanSegments(parts, kept) == kept + parts
    decreases |parts|
  {
    if |parts| > 0 {
      CleanSegmentsOfNames(parts[1..], kept + [parts[0]]);
      assert kept + [parts[0]] + parts[1..] == kept + parts;
    }
  }

  /** The name segments of a rooted path after cleaning. */
  function CleanedNames(p: string): (names: seq<string>)
    ensures AllNames(names)
  {
    CleanSegments(Split(p), [])
  }

  /** `path.Clean` applied to a rooted path: the slash followed by the cleaned
      names joined by slashes. */
  function Clean(p: string): (r: string)
    requires IsAbs(p)
    ensures IsAbs(r)
    ensures r == "/" <==> CleanedNames(p) == []
  {
    [Separator] + Join(CleanedNames(p))
  }

  /** Splitting a cleaned path other than "/" gives the root's empty piece
      followed by exactly the cleaned names. */
  lemma SplitClean(p: string)
    requires IsAbs(p) && CleanedNames(p) != []
    ensures Split(Clean(p)) == [""] + CleanedNames(p)
  {
    var names := CleanedNames(p);
    SplitJoin(names);
    assert Clean(p)[1..] == Join(names);
  }

  /** Cleaning a cleaned path changes nothing. */
  lemma CleanIdempotent(p: string)
    requires IsAbs(p)
    ensures Clean(Clean(p)) == Clean(p)
  {
    var names := CleanedNames(p);
    if names == [] {
      assert Clean(p) == "/";
      assert Split("/") == ["", ""];
      assert CleanedNames("/") == [];
    } else {
      SplitClean(p);
      CleanSegmentsOfNames(names, []);
      assert CleanSegments([""] + names, []) == CleanSegments(names, []);
      assert CleanedNames(Clean(p)) == names;
    }
  }

  // ---------------------------------------------------------------------------
  // Child paths of the tree walk
  // ---------------------------------------------------------------------------

  /** `strings.ReplaceAll(s, "//", "/")`: scans left to right and replaces
      non-overlapping occurrences, so "///" becomes "//". */
  function CollapseDoubleSlash(s: string): (r: string)
    ensures |r| <= |s|
    decreases |s|
  {
    if |s| < 2 then s
    else if s[0] == Separator && s[1] == Separator then [Separator] + CollapseDoubleSlash(s[2..])
    else [s[0]] + CollapseDoubleSlash(s[1..])
  }

  /** A string without "//" is left alone. */
  lemma {:induction false} CollapseWithoutDoubleSlash(s: string)
    requires HasNoDoubleSlash(s)
    ensures CollapseDoubleSlash(s) == s
    decreases |s|
  {
    if |s| >= 2 {
      CollapseWithoutDoubleSlash(s[1..]);
      assert s == [s[0]] + s[1..];
    }
  }

  /** The path the walk gives a child named `name` of a folder at `parent`. */
  function ChildPath(parent: string, name: string): string {
    CollapseDoubleSlash(parent + [Separator] + name)
  }

  /** A folder path as cleaning leaves it: rooted, no "//", and no trailing
      slash unless it is the root. */
  predicate IsCleanDir(p: string) {
    IsAbs(p) && HasNoDoubleSlash(p) && (p == "/" || p[|p| - 1] != Separator)
  }

  /** Gluing two strings without "//" gives none unless the seam makes one. */
  lemma NoDoubleSlashConcat(a: string, b: string)
    requires HasNoDoubleSlash(a) && HasNoDoubleSlash(b)
    requires |a| == 0 || |b| == 0 || a[|a| - 1] != Separator || b[0] != Separator
    ensures HasNoDoubleSlash(a + b)
  {
    var s := a + b;
    forall i | 0 <= i < |s| - 1
      ensures !(s[i] == Separator && s[i + 1] == Separator)
    {
      if i < |a| - 1 {
        assert s[i] == a[i] && s[i + 1] == a[i + 1];
      } else if i == |a| - 1 {
        assert s[i] == a[|a| - 1] && s[i + 1] == b[0];
      } else {
        assert s[i] == b[i - |a|] && s[i + 1] == b[i - |a| + 1];
      }
    }
  }

  /** A slash followed by a plain name is a clean folder path. */
  lemma RootedNameIsCleanDir(name: string)
    requires IsNameSegment(name)
    ensures IsCleanDir([Separator] + name)
  {
    var s := [Separator] + name;
    NoDoubleSlashConcat([Separator], name);
    assert s[|s| - 1] == name[|name| - 1];
  }

  /** The root's slash followed by names joined by slashes, which is what
      `Clean` builds, is a clean folder path. */
  lemma {:induction false} RootedJoinIsCleanDir(names: seq<string>)
    requires AllNames(names)
    ensures IsCleanDir([Separator] + Join(names))
    decreases |names|
  {
    if |names| == 1 {
      RootedNameIsCleanDir(names[0]);
    } else if |names| > 1 {
      var n := names[0];
      var t := [Separator] + Join(names[1..]);
      RootedJoinIsCleanDir(names[1..]);
      RootedNameIsCleanDir(n);
      assert names[1..][0] == names[1];
      assert |Join(names[1..])| >= |names[1]| > 0;
      NoDoubleSlashConcat([Separator] + n, t);
      assert [Separator] + Join(names) == ([Separator] + n) + t;
      assert (([Separator] + n) + t)[|n| + |t|] == t[|t| - 1];
    }
  }

  /** For a clean parent path and a plain name the child path is the parent,
      one slash and the name; below the root the root's own slash is shared.
      The child path is itself a clean folder path. */
  lemma ChildPathOfCleanParent(parent: string, name: string)
    requires IsCleanDir(parent)
    requires IsNameSegment(name)
    ensures parent == "/" ==> ChildPath(parent, name) == "/" + name
    ensures parent != "/" ==> ChildPath(parent, name) == parent + "/" + name
    ensures IsCleanDir(ChildPath(parent, name))
  {
    if parent == "/" {
      var s := "//" + name;
      assert parent + [Separator] + name == s;
      assert s[2..] == name;
      CollapseWithoutDoubleSlash(name);
      RootedNameIsCleanDir(name);
    } else {
      var s := parent + [Separator] + name;
      assert HasNoDoubleSlash(s) by {
        forall i | 0 <= i < |s| - 1
          ensures !(s[i] == Separator && s[i + 1] == Separator)
        {
          if i < |parent| - 1 {
            assert s[i] == parent[i] && s[i + 1] == parent[i + 1];
          } else if i == |parent| - 1 {
            assert s[i] == parent[|parent| - 1];
          } else if i == |parent| {
            assert s[i] == Separator && s[i + 1] == name[0];
          } else {
            assert s[i] == name[i - |parent| - 1];
          }
        }
      }
      CollapseWithoutDoubleSlash(s);
      assert s[|s| - 1] == name[|name| - 1];
    }
  }
}
