/** The path resolver: `FileInfoByPath` checks and cleans an absolute path,
    splits it, and `getFileInfoByPath` descends from the root one segment at a
    time, taking at each level the first listed child with that name. */
module Resolver {
  import opened Wrappers
  import opened Entities
  import opened Paths
  import opened Listing

  /** The errors the resolver can report. A failed listing never surfaces as
      an error of its own: it reads as an empty folder, hence `FileNotFound`. */
  datatype ApiError = PathNotAbsolute | FileNotFound

  /** Index of the first child from `i` on named `name`, or `|children|`. */
  function FirstNamed(children: seq<Entity>, name: string, i: nat): (j: nat)
    requires i <= |children|
    ensures i <= j <= |children|
    ensures forall k :: i <= k < j ==> children[k].fileName != name
    ensures j < |children| ==> children[j].fileName == name
    decreases |children| - i
  {
    if i == |children| then i
    else if children[i].fileName == name then i
    else FirstNamed(children, name, i + 1)
  }

  /** `getFileInfoByPath`: `slice` is the split path (its first piece is the
      root's empty name), `index` the piece to resolve next, `parent` the
      entity resolved so far (nil before the root is synthesised). */
  function GetFileInfoByPath(d: Drive, driveId: string, index: nat, slice: seq<string>, parent: Option<Entity>)
    : (r: Result<Entity, ApiError>)
    requires Paginates(d)
    ensures r.Err? ==> r.error == FileNotFound
    ensures parent.Some? && index >= |slice| ==> r == Ok(parent.value)
    decreases if parent.None? then 1 else 0, if index <= |slice| then |slice| - index else 0
  {
    if parent.None? then
      var root := RootEntity();
      if index == 0 && |slice| == 1 then Ok(root)
      else GetFileInfoByPath(d, driveId, index + 1, slice, Some(root))
    else if index >= |slice| then Ok(parent.value)
    else
      var children := Children(d, driveId, parent.value);
      if |children| == 0 then Err(FileNotFound)
      else
        var j := FirstNamed(children, slice[index], 0);
        if j < |children| then GetFileInfoByPath(d, driveId, index + 1, slice, Some(children[j]))
        else Err(FileNotFound)
  }

  /** The path an absolute path is resolved under: cleaned unless it is a
      single character. */
  function CleanPath(p: string): (r: string)
    requires IsAbs(p)
    ensures IsAbs(r)
    ensures r == "/" <==> CleanedNames(p) == []
  {
    if |p| > 1 then Clean(p)
    else
      assert p == "/";
      assert Split(p) == ["", ""];
      assert CleanedNames(p) == CleanSegments(["", ""], []);
      p
  }

  /** `FileInfoByPath`: "" means "/", a relative path is refused, "/" is the
      root sentinel without any listing, anything else is resolved segment by
      segment and the entity found gets the cleaned path. */
  function FileInfoByPath(d: Drive, driveId: string, pathStr: string): (r: Result<Entity, ApiError>)
    requires Paginates(d)
    ensures pathStr != "" && !IsAbs(pathStr) ==> r == Err(PathNotAbsolute)
    ensures (pathStr == "" || IsAbs(pathStr)) ==> (r.Err? ==> r.error == FileNotFound)
    ensures pathStr == "" || pathStr == "/" ==> r == Ok(RootEntity())
    ensures r.Ok? ==> r.value.path == CleanPath(if pathStr == "" then "/" else pathStr)
  {
    var p0 := if pathStr == "" then "/" else pathStr;
    if !IsAbs(p0) then Err(PathNotAbsolute)
    else
      var p := CleanPath(p0);
      var slice := if p == "/" then [""] else Split(p);
      if slice[0] != "" then Err(PathNotAbsolute)
      else
        match GetFileInfoByPath(d, driveId, 0, slice, None)
        case Ok(e) => Ok(e.(path := p))
        case Err(err) => Err(err)
  }

  // ---------------------------------------------------------------------------
  // Resolution as a chain of first matches
  // ---------------------------------------------------------------------------

  /** `e` is the first of `children` named `name`. */
  ghost predicate FirstWithName(children: seq<Entity>, name: string, e: Entity) {
    exists j :: 0 <= j < |children| && children[j] == e && e.fileName == name
                && forall i :: 0 <= i < j ==> children[i].fileName != name
  }

  lemma FirstNamedFinds(children: seq<Entity>, name: string, e: Entity)
    ensures FirstWithName(children, name, e) <==>
              FirstNamed(children, name, 0) < |children| && children[FirstNamed(children, name, 0)] == e
  {
    var f := FirstNamed(children, name, 0);
    if FirstWithName(children, name, e) {
      var j :| 0 <= j < |children| && children[j] == e && e.fileName == name
               && forall i :: 0 <= i < j ==> children[i].fileName != name;
      assert !(j < f);
      assert !(f < j);
    }
  }

  /** `chain` walks from `chain[0]` down `segs`: each next entity is the first
      child of the previous one named by the next segment. */
  ghost predicate IsDescent(d: Drive, driveId: string, chain: seq<Entity>, segs: seq<string>)
    requires Paginates(d)
  {
    |chain| == |segs| + 1
    && forall k :: 0 <= k < |segs| ==> FirstWithName(Children(d, driveId, chain[k]), segs[k], chain[k + 1])
  }

  /** Some chain of first matches leads from `e` down `segs` to `r`. */
  ghost predicate DescendsTo(d: Drive, driveId: string, segs: seq<string>, e: Entity, r: Entity)
    requires Paginates(d)
  {
    exists chain: seq<Entity> :: IsDescent(d, driveId, chain, segs) && chain[0] == e && chain[|chain| - 1] == r
  }

  lemma DescentCons(d: Drive, driveId: string, e: Entity, chain: seq<Entity>, seg: string, segs: seq<string>)
    requires Paginates(d)
    requires |chain| >= 1 && FirstWithName(Children(d, driveId, e), seg, chain[0])
    ensures IsDescent(d, driveId, [e] + chain, [seg] + segs) <==> IsDescent(d, driveId, chain, segs)
  {
    if IsDescent(d, driveId, chain, segs) {
      DescentExtend(d, driveId, e, chain, seg, segs);
    }
    if IsDescent(d, driveId, [e] + chain, [seg] + segs) {
      DescentTail(d, driveId, e, chain, seg, segs);
    }
  }

  lemma DescentExtend(d: Drive, driveId: string, e: Entity, chain: seq<Entity>, seg: string, segs: seq<string>)
    requires Paginates(d)
    requires |chain| >= 1 && FirstWithName(Children(d, driveId, e), seg, chain[0])
    requires IsDescent(d, driveId, chain, segs)
    ensures IsDescent(d, driveId, [e] + chain, [seg] + segs)
  {
    var full, allSegs := [e] + chain, [seg] + segs;
    forall k | 0 <= k < |allSegs|
      ensures FirstWithName(Children(d, driveId, full[k]), allSegs[k], full[k + 1])
    {
      if k > 0 {
        assert full[k] == chain[k - 1] && full[k + 1] == chain[k] && allSegs[k] == segs[k - 1];
      }
    }
  }

  lemma DescentTail(d: Drive, driveId: string, e: Entity, chain: seq<Entity>, seg: string, segs: seq<string>)
    requires Paginates(d)
    requires |chain| >= 1
    requires IsDescent(d, driveId, [e] + chain, [seg] + segs)
    ensures IsDescent(d, driveId, chain, segs)
  {
    var full, allSegs := [e] + chain, [seg] + segs;
    forall k | 0 <= k < |segs|
      ensures FirstWithName(Children(d, driveId, chain[k]), segs[k], chain[k + 1])
    {
      assert full[k + 1] == chain[k] && full[k + 2] == chain[k + 1] && allSegs[k + 1] == segs[k];
    }
  }

  /** One step of resolution: when the first child of `e` named by the next
      segment is `c`, resolving from `e` is resolving from `c`. */
  lemma ResolveStep(d: Drive, driveId: string, index: nat, slice: seq<string>, e: Entity)
    requires Paginates(d) && index < |slice|
    ensures var children := Children(d, driveId, e);
            var j := FirstNamed(children, slice[index], 0);
            GetFileInfoByPath(d, driveId, index, slice, Some(e))
            == if j < |children| then GetFileInfoByPath(d, driveId, index + 1, slice, Some(children[j]))
               else Err(FileNotFound)
  {
  }

  /** Resolution from `e` that succeeds with `r` went down a chain of first
      matches from `e` to `r` (the converse is `DescentIsResolved`). */
  lemma {:induction false} ResolvedHasDescent(d: Drive, driveId: string, index: nat, slice: seq<string>, e: Entity, r: Entity)
    requires Paginates(d) && index <= |slice|
    requires GetFileInfoByPath(d, driveId, index, slice, Some(e)) == Ok(r)
    ensures DescendsTo(d, driveId, slice[index..], e, r)
    decreases |slice| - index
  {
    if index == |slice| {
      assert IsDescent(d, driveId, [e], slice[index..]);
    } else {
      var children := Children(d, driveId, e);
      var j := FirstNamed(children, slice[index], 0);
      ResolveStep(d, driveId, index, slice, e);
      assert j < |children|;
      ResolvedHasDescent(d, driveId, index + 1, slice, children[j], r);
      DescendsToCons(d, driveId, index, slice, e, r);
    }
  }

  /** A chain from the first child named by the next segment extends to a
      chain from its parent. */
  lemma DescendsToCons(d: Drive, driveId: string, index: nat, slice: seq<string>, e: Entity, r: Entity)
    requires Paginates(d) && index < |slice|
    requires FirstNamed(Children(d, driveId, e), slice[index], 0) < |Children(d, driveId, e)|
    requires DescendsTo(d, driveId, slice[index + 1..], FirstChildOrSelf(d, driveId, e, slice[index]), r)
    ensures DescendsTo(d, driveId, slice[index..], e, r)
  {
    var c := FirstChildOrSelf(d, driveId, e, slice[index]);
    var chain: seq<Entity> :| IsDescent(d, driveId, chain, slice[index + 1..]) && chain[0] == c && chain[|chain| - 1] == r;
    ConsDescent(d, driveId, index, slice, e, chain);
    var full := [e] + chain;
    assert full[0] == e && full[|full| - 1] == r;
  }

  /** Resolution follows any chain of first matches to its last entity. */
  lemma {:induction false} DescentIsResolved(d: Drive, driveId: string, index: nat, slice: seq<string>, chain: seq<Entity>)
    requires Paginates(d) && index <= |slice|
    requires IsDescent(d, driveId, chain, slice[index..])
    ensures GetFileInfoByPath(d, driveId, index, slice, Some(chain[0])) == Ok(chain[|chain| - 1])
    decreases |slice| - index
  {
    if index < |slice| {
      DescentResolves(d, driveId, index, slice, chain);
      DescentIsResolved(d, driveId, index + 1, slice, chain[1..]);
    }
  }

  /** The first child of `e` named `name`, or `e` itself when there is none. */
  function FirstChildOrSelf(d: Drive, driveId: string, e: Entity, name: string): Entity
    requires Paginates(d)
  {
    var children := Children(d, driveId, e);
    var j := FirstNamed(children, name, 0);
    if j < |children| then children[j] else e
  }

  lemma ConsDescent(d: Drive, driveId: string, index: nat, slice: seq<string>, e: Entity, chain: seq<Entity>)
    requires Paginates(d) && index < |slice|
    requires FirstNamed(Children(d, driveId, e), slice[index], 0) < |Children(d, driveId, e)|
    requires IsDescent(d, driveId, chain, slice[index + 1..])
    requires chain[0] == FirstChildOrSelf(d, driveId, e, slice[index])
    ensures IsDescent(d, driveId, [e] + chain, slice[index..])
  {
    var children := Children(d, driveId, e);
    var name := slice[index];
    FirstNamedFinds(children, name, chain[0]);
    DescentCons(d, driveId, e, chain, name, slice[index + 1..]);
    assert slice[index..] == [name] + slice[index + 1..];
  }

  lemma DescentResolves(d: Drive, driveId: string, index: nat, slice: seq<string>, chain: seq<Entity>)
    requires Paginates(d) && index < |slice|
    requires IsDescent(d, driveId, chain, slice[index..])
    ensures FirstChildOrSelf(d, driveId, chain[0], slice[index]) == chain[1]
    ensures IsDescent(d, driveId, chain[1..], slice[index + 1..])
    ensures GetFileInfoByPath(d, driveId, index, slice, Some(chain[0]))
            == GetFileInfoByPath(d, driveId, index + 1, slice, Some(chain[1]))
  {
    var e := chain[0];
    var children := Children(d, driveId, e);
    var name := slice[index];
    assert slice[index..][0] == name;
    assert FirstWithName(children, name, chain[1]);
    FirstNamedFinds(children, name, chain[1]);
    ResolveStep(d, driveId, index, slice, e);
    assert slice[index..] == [name] + slice[index + 1..];
    assert chain == [e] + chain[1..];
    DescentCons(d, driveId, e, chain[1..], name, slice[index + 1..]);
  }

  /** A path other than the root is resolved from the root sentinel down its
      cleaned names, and a found entity gets the cleaned path. */
  lemma FileInfoByPathFromRoot(d: Drive, driveId: string, pathStr: string)
    requires Paginates(d) && IsAbs(pathStr) && CleanedNames(pathStr) != []
    ensures var res := GetFileInfoByPath(d, driveId, 1, [""] + CleanedNames(pathStr), Some(RootEntity()));
            FileInfoByPath(d, driveId, pathStr) == if res.Ok? then Ok(res.value.(path := Clean(pathStr))) else res
  {
    var names := CleanedNames(pathStr);
    SplitClean(pathStr);
    var slice := Split(Clean(pathStr));
    assert slice == [""] + names;
    assert CleanPath(pathStr) == Clean(pathStr);
    assert GetFileInfoByPath(d, driveId, 0, slice, None)
           == GetFileInfoByPath(d, driveId, 1, slice, Some(RootEntity()));
  }

  /** Some chain of first matches leads from the root sentinel down the
      cleaned names of `pathStr` to an entity that, given the cleaned path,
      is `e`. */
  ghost predicate RootDescendsTo(d: Drive, driveId: string, pathStr: string, e: Entity)
    requires Paginates(d) && IsAbs(pathStr)
  {
    exists chain: seq<Entity> :: IsDescent(d, driveId, chain, CleanedNames(pathStr))
                                 && chain[0] == RootEntity()
                                 && e == chain[|chain| - 1].(path := Clean(pathStr))
  }

  /** A path other than the root resolves to `e` exactly when a chain of first
      matches leads from the root sentinel down the cleaned names, and `e` is
      its last entity carrying the cleaned path. */
  lemma FileInfoByPathIffDescent(d: Drive, driveId: string, pathStr: string, e: Entity)
    requires Paginates(d) && IsAbs(pathStr) && CleanedNames(pathStr) != []
    ensures FileInfoByPath(d, driveId, pathStr) == Ok(e) <==> RootDescendsTo(d, driveId, pathStr, e)
  {
    var names := CleanedNames(pathStr);
    var p := Clean(pathStr);
    var slice := [""] + names;
    assert slice[1..] == names;
    FileInfoByPathFromRoot(d, driveId, pathStr);
    var res := GetFileInfoByPath(d, driveId, 1, slice, Some(RootEntity()));
    if res.Ok? {
      ResolvedHasDescent(d, driveId, 1, slice, RootEntity(), res.value);
    }
    if RootDescendsTo(d, driveId, pathStr, e) {
      var chain: seq<Entity> :| IsDescent(d, driveId, chain, names) && chain[0] == RootEntity()
                   && e == chain[|chain| - 1].(path := p);
      DescentIsResolved(d, driveId, 1, slice, chain);
    }
  }

  /** The path an absolute path is resolved under is a clean folder path. */
  lemma CleanPathIsCleanDir(p: string)
    requires IsAbs(p)
    ensures IsCleanDir(CleanPath(p))
  {
    if |p| > 1 {
      RootedJoinIsCleanDir(CleanedNames(p));
    } else {
      assert p == "/";
    }
  }

  /** An entity found by path carries a clean folder path, so the walk starts
      from one. */
  lemma ResolvedPathIsClean(d: Drive, driveId: string, pathStr: string)
    requires Paginates(d)
    ensures FileInfoByPath(d, driveId, pathStr).Ok? ==> IsCleanDir(FileInfoByPath(d, driveId, pathStr).value.path)
  {
    if FileInfoByPath(d, driveId, pathStr).Ok? {
      CleanPathIsCleanDir(if pathStr == "" then "/" else pathStr);
    }
  }

  /** Resolving a path and resolving its cleaned form give the same answer. */
  lemma FileInfoByPathCleanInvariant(d: Drive, driveId: string, pathStr: string)
    requires Paginates(d) && IsAbs(pathStr)
    ensures FileInfoByPath(d, driveId, CleanPath(pathStr)) == FileInfoByPath(d, driveId, pathStr)
  {
    if |pathStr| > 1 {
      CleanIdempotent(pathStr);
    }
  }

  /** A segment with no listed child of that name, after a chain of first
      matches, makes the whole resolution fail with `FileNotFound`. */
  lemma MissingSegmentNotFound(d: Drive, driveId: string, index: nat, slice: seq<string>, e: Entity)
    requires Paginates(d) && index < |slice|
    requires forall k :: 0 <= k < |Children(d, driveId, e)| ==> Children(d, driveId, e)[k].fileName != slice[index]
    ensures GetFileInfoByPath(d, driveId, index, slice, Some(e)) == Err(FileNotFound)
  {
  }
}
