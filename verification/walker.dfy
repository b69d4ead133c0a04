/** The tree walk: `FilesDirectoriesRecurseList` resolves a path and, for a
    folder, `recurseList` lists it depth first, pre-order, giving every child
    its full path, appending it to one shared accumulator and calling the
    visitor, whose `false` for a file stops everything. */
module Walker {
  import opened Wrappers
  import opened Entities
  import opened Paths
  import opened Listing
  import opened Resolver

  /** One call of the visitor: depth, path, entity (or nil), error (or nil). */
  datatype Visit = Visit(depth: nat, path: string, entity: Option<Entity>, error: Option<ApiError>)

  /** A visitor answers a call knowing the calls made before it, which is all
      a deterministic stateful callback can depend on. */
  type Visitor = (seq<Visit>, Visit) -> bool

  /** The state the walk threads through: whether to go on, the accumulator,
      and the calls made to the visitor so far. */
  datatype Walk = Walk(ok: bool, found: seq<Entity>, calls: seq<Visit>)

  /** The visitor's answer; a nil visitor is not called and stops nothing. */
  function Answer(visitor: Option<Visitor>, calls: seq<Visit>, v: Visit): bool {
    visitor.None? || visitor.value(calls, v)
  }

  /** The calls after calling the visitor with `v`, if there is one. */
  function Logged(visitor: Option<Visitor>, calls: seq<Visit>, v: Visit): seq<Visit> {
    if visitor.Some? then calls + [v] else calls
  }

  /** A listed child with the path the walk gives it. Only the path changes;
      below a clean folder path a plain name gets the folder's path, one slash
      and the name ("/" and the name below the root), itself a clean folder
      path. */
  function WithChildPath(folder: Entity, c: Entity): (r: Entity)
    ensures r == c.(path := r.path)
    ensures IsCleanDir(folder.path) && IsNameSegment(c.fileName) ==>
              && r.path == (if folder.path == "/" then "/" + c.fileName else folder.path + "/" + c.fileName)
              && IsCleanDir(r.path)
  {
    var p := ChildPath(folder.path, c.fileName);
    if IsCleanDir(folder.path) && IsNameSegment(c.fileName) then
      ChildPathOfCleanParent(folder.path, c.fileName);
      c.(path := p)
    else
      c.(path := p)
  }

  predicate IsFolderVisit(v: Visit) {
    v.entity.Some? && IsFolder(v.entity.value)
  }

  // ---------------------------------------------------------------------------
  // The walk as the client performs it
  // ---------------------------------------------------------------------------

  /** `recurseList`: lists `folder` and walks its children at `depth`. The
      listing never fails (a failed page reads as an empty one), so the
      client's error branch for it is not reachable and not modelled. */
  function RecurseList(d: Drive, driveId: string, folder: Entity, depth: nat, visitor: Option<Visitor>,
                       found: seq<Entity>, calls: seq<Visit>): (w: Walk)
    requires WellFormed(d)
    ensures found <= w.found && calls <= w.calls
    ensures visitor.None? ==> w.ok && w.calls == calls
    decreases Level(d, KeyFor(driveId, folder)), 1, 0
  {
    WalkChildren(d, driveId, folder, Children(d, driveId, folder), 0, depth, visitor, found, calls)
  }

  /** The loop of `recurseList` over the children from index `i` on. A
      folder's own answer from the visitor is overwritten by the result of
      walking into it. */
  function WalkChildren(d: Drive, driveId: string, folder: Entity, children: seq<Entity>, i: nat, depth: nat,
                        visitor: Option<Visitor>, found: seq<Entity>, calls: seq<Visit>): (w: Walk)
    requires WellFormed(d) && children == Children(d, driveId, folder) && i <= |children|
    ensures found <= w.found && calls <= w.calls
    ensures visitor.None? ==> w.ok && w.calls == calls
    decreases Level(d, KeyFor(driveId, folder)), 0, |children| - i
  {
    if i == |children| then Walk(true, found, calls)
    else
      var fi := WithChildPath(folder, children[i]);
      var v := Visit(depth, fi.path, Some(fi), None);
      var found' := found + [fi];
      var calls' := Logged(visitor, calls, v);
      if IsFolder(fi) then
        ChildrenRankLower(d, driveId, folder);
        assert children[i] in children;
        var w := RecurseList(d, driveId, fi, depth + 1, visitor, found', calls');
        if !w.ok then w
        else WalkChildren(d, driveId, folder, children, i + 1, depth, visitor, w.found, w.calls)
      else if !Answer(visitor, calls, v) then Walk(false, found', calls')
      else WalkChildren(d, driveId, folder, children, i + 1, depth, visitor, found', calls')
  }

  /** What `FilesDirectoriesRecurseList` returns (nil or a list) together with
      the calls it made to the visitor. */
  datatype Outcome = Outcome(result: Option<seq<Entity>>, calls: seq<Visit>)

  /** The drives a walk from `path` is modelled on: listings paginate and,
      when the path names a folder, folders are ranked. A failed resolution
      or a file starts no walk, so cycles among folders do not matter then. */
  ghost predicate WalkCovered(d: Drive, driveId: string, path: string) {
    Paginates(d)
    && (FileInfoByPath(d, driveId, path).Ok? && IsFolder(FileInfoByPath(d, driveId, path).value) ==> Acyclic(d))
  }

  /** `FilesDirectoriesRecurseList`. */
  function FilesDirectoriesRecurseList(d: Drive, driveId: string, path: string, visitor: Option<Visitor>)
    : (o: Outcome)
    requires WalkCovered(d, driveId, path)
    ensures FileInfoByPath(d, driveId, path).Err? ==> o.result.None?
    ensures FileInfoByPath(d, driveId, path).Ok? && !IsFolder(FileInfoByPath(d, driveId, path).value) ==>
              o.result == Some([FileInfoByPath(d, driveId, path).value])
  {
    match FileInfoByPath(d, driveId, path)
    case Err(e) => Outcome(None, Logged(visitor, [], Visit(0, path, None, Some(e))))
    case Ok(target) =>
      var v0 := Visit(0, path, Some(target), None);
      var calls := Logged(visitor, [], v0);
      if IsFolder(target) then
        // The visitor's answer for the starting folder is not looked at.
        var w := RecurseList(d, driveId, target, 1, visitor, [], calls);
        Outcome(if w.ok then Some(w.found) else None, w.calls)
      else Outcome(Some([target]), calls)
  }

  // ---------------------------------------------------------------------------
  // Reference: the complete pre-order sequence of visits
  // ---------------------------------------------------------------------------

  /** Every node below `folder`, depth first, pre-order, siblings in listing
      order, each as the visit the walk makes for it. */
  function SubtreeVisits(d: Drive, driveId: string, folder: Entity, depth: nat): seq<Visit>
    requires WellFormed(d)
    decreases Level(d, KeyFor(driveId, folder)), 1, 0
  {
    ChildVisits(d, driveId, folder, Children(d, driveId, folder), 0, depth)
  }

  /** The visits for the children from index `i` on and their subtrees. */
  function ChildVisits(d: Drive, driveId: string, folder: Entity, children: seq<Entity>, i: nat, depth: nat)
    : seq<Visit>
    requires WellFormed(d) && children == Children(d, driveId, folder) && i <= |children|
    decreases Level(d, KeyFor(driveId, folder)), 0, |children| - i
  {
    if i == |children| then []
    else
      var fi := WithChildPath(folder, children[i]);
      var below := if IsFolder(fi) then
                     ChildrenRankLower(d, driveId, folder);
                     assert children[i] in children;
                     SubtreeVisits(d, driveId, fi, depth + 1)
                   else [];
      [Visit(depth, fi.path, Some(fi), None)] + below + ChildVisits(d, driveId, folder, children, i + 1, depth)
  }

  /** A visit the walk makes for a listed entity at `depth` or deeper. */
  predicate IsEntityVisit(v: Visit, depth: nat) {
    v.entity.Some? && v.error.None? && v.depth >= depth
  }

  predicate AllEntityVisits(vs: seq<Visit>, depth: nat) {
    forall k :: 0 <= k < |vs| ==> IsEntityVisit(vs[k], depth)
  }

  lemma AllEntityVisitsAppend(a: seq<Visit>, b: seq<Visit>, depth: nat)
    requires AllEntityVisits(a, depth) && AllEntityVisits(b, depth)
    ensures AllEntityVisits(a + b, depth)
  {
    forall k | 0 <= k < |a + b|
      ensures IsEntityVisit((a + b)[k], depth)
    {
      if k >= |a| {
        assert (a + b)[k] == b[k - |a|];
      }
    }
  }

  /** The visits of the children from `i` on: each carries an entity and no
      error, none is shallower than `depth`, and the first is child `i` at
      `depth` under its child path. */
  lemma {:induction false} ChildVisitsShape(d: Drive, driveId: string, folder: Entity, children: seq<Entity>,
                                            i: nat, depth: nat)
    requires WellFormed(d) && children == Children(d, driveId, folder) && i <= |children|
    ensures AllEntityVisits(ChildVisits(d, driveId, folder, children, i, depth), depth)
    ensures i < |children| ==>
              var vs := ChildVisits(d, driveId, folder, children, i, depth);
              vs != [] && vs[0] == Visit(depth, ChildPath(folder.path, children[i].fileName),
                                         Some(WithChildPath(folder, children[i])), None)
    decreases Level(d, KeyFor(driveId, folder)), 0, |children| - i
  {
    if i < |children| {
      var fi := WithChildPath(folder, children[i]);
      var v := Visit(depth, fi.path, Some(fi), None);
      var rest := ChildVisits(d, driveId, folder, children, i + 1, depth);
      ChildVisitsShape(d, driveId, folder, children, i + 1, depth);
      var below: seq<Visit> := [];
      if IsFolder(fi) {
        ChildrenRankLower(d, driveId, folder);
        assert children[i] in children;
        below := SubtreeVisits(d, driveId, fi, depth + 1);
        SubtreeVisitsShape(d, driveId, fi, depth + 1);
        AllEntityVisitsDeeper(below, depth + 1, depth);
      }
      assert ChildVisits(d, driveId, folder, children, i, depth) == [v] + below + rest;
      assert AllEntityVisits([v], depth);
      AllEntityVisitsAppend([v], below, depth);
      AllEntityVisitsAppend([v] + below, rest, depth);
    }
  }

  /** Every visit below a folder carries an entity and no error, at `depth`
      or deeper. */
  lemma {:induction false} SubtreeVisitsShape(d: Drive, driveId: string, folder: Entity, depth: nat)
    requires WellFormed(d)
    ensures AllEntityVisits(SubtreeVisits(d, driveId, folder, depth), depth)
    decreases Level(d, KeyFor(driveId, folder)), 1, 0
  {
    ChildVisitsShape(d, driveId, folder, Children(d, driveId, folder), 0, depth);
  }

  lemma AllEntityVisitsDeeper(vs: seq<Visit>, deeper: nat, depth: nat)
    requires depth <= deeper && AllEntityVisits(vs, deeper)
    ensures AllEntityVisits(vs, depth)
  {
    assert forall k :: 0 <= k < |vs| ==> IsEntityVisit(vs[k], deeper);
  }

  /** The entities of a sequence of visits. */
  function Found(vs: seq<Visit>): seq<Entity>
    decreases |vs|
  {
    if |vs| == 0 then []
    else (if vs[0].entity.Some? then [vs[0].entity.value] else []) + Found(vs[1..])
  }

  lemma {:induction false} FoundAppend(a: seq<Visit>, b: seq<Visit>)
    ensures Found(a + b) == Found(a) + Found(b)
    decreases |a|
  {
    if |a| == 0 {
      assert a + b == b;
    } else {
      var h := if a[0].entity.Some? then [a[0].entity.value] else [];
      assert (a + b)[0] == a[0];
      assert (a + b)[1..] == a[1..] + b;
      assert Found(a + b) == h + Found(a[1..] + b);
      FoundAppend(a[1..], b);
      assert h + (Found(a[1..]) + Found(b)) == (h + Found(a[1..])) + Found(b);
    }
  }

  // ---------------------------------------------------------------------------
  // Reference: stopping at the first file the visitor rejects
  // ---------------------------------------------------------------------------

  datatype Scan = Scan(ok: bool, seen: seq<Visit>)

  /** Going through `vs` in order, asking the visitor about every non-folder
      and stopping right after the first one it rejects. */
  function ScanVisits(f: Visitor, history: seq<Visit>, vs: seq<Visit>): (s: Scan)
    ensures |s.seen| <= |vs|
    decreases |vs|
  {
    if |vs| == 0 then Scan(true, [])
    else if !IsFolderVisit(vs[0]) && !f(history, vs[0]) then Scan(false, [vs[0]])
    else
      var rest := ScanVisits(f, history + [vs[0]], vs[1..]);
      Scan(rest.ok, [vs[0]] + rest.seen)
  }

  /** What the scan sees is a prefix; it sees everything when it goes
      through, and otherwise ends on a non-folder the visitor rejected, every
      earlier non-folder having been accepted. */
  lemma ScanStopsAtFirstRejection(f: Visitor, history: seq<Visit>, vs: seq<Visit>)
    ensures var s := ScanVisits(f, history, vs);
            && s.seen == vs[..|s.seen|]
            && (s.ok ==> s.seen == vs)
            && (!s.ok ==> |s.seen| > 0
                          && !IsFolderVisit(s.seen[|s.seen| - 1])
                          && !f(history + s.seen[..|s.seen| - 1], s.seen[|s.seen| - 1]))
            && (forall k :: 0 <= k < |s.seen| && (s.ok || k < |s.seen| - 1) && !IsFolderVisit(s.seen[k]) ==>
                  f(history + s.seen[..k], s.seen[k]))
  {
    ScanSeesPrefix(f, history, vs);
    ScanAcceptsBeforeStop(f, history, vs);
  }

  lemma {:induction false} ScanSeesPrefix(f: Visitor, history: seq<Visit>, vs: seq<Visit>)
    ensures var s := ScanVisits(f, history, vs);
            && s.seen == vs[..|s.seen|]
            && (s.ok ==> s.seen == vs)
            && (!s.ok ==> |s.seen| > 0
                          && !IsFolderVisit(s.seen[|s.seen| - 1])
                          && !f(history + s.seen[..|s.seen| - 1], s.seen[|s.seen| - 1]))
  {
    ScanIsPrefix(f, history, vs);
    ScanEndsOnRejection(f, history, vs);
  }

  lemma {:induction false} ScanIsPrefix(f: Visitor, history: seq<Visit>, vs: seq<Visit>)
    ensures var s := ScanVisits(f, history, vs);
            s.seen == vs[..|s.seen|] && (s.ok ==> s.seen == vs)
    decreases |vs|
  {
    if |vs| > 0 && !(!IsFolderVisit(vs[0]) && !f(history, vs[0])) {
      var h' := history + [vs[0]];
      ScanIsPrefix(f, h', vs[1..]);
      var rest := ScanVisits(f, h', vs[1..]);
      assert ScanVisits(f, history, vs).seen == [vs[0]] + rest.seen;
      assert rest.seen == vs[1..][..|rest.seen|];
    }
  }

  lemma {:induction false} ScanEndsOnRejection(f: Visitor, history: seq<Visit>, vs: seq<Visit>)
    ensures var s := ScanVisits(f, history, vs);
            !s.ok ==> |s.seen| > 0
                      && !IsFolderVisit(s.seen[|s.seen| - 1])
                      && !f(history + s.seen[..|s.seen| - 1], s.seen[|s.seen| - 1])
    decreases |vs|
  {
    var s := ScanVisits(f, history, vs);
    if |vs| > 0 {
      if !IsFolderVisit(vs[0]) && !f(history, vs[0]) {
        assert s == Scan(false, [vs[0]]);
        assert s.seen[..0] == [] && history + [] == history;
      } else {
        var h' := history + [vs[0]];
        ScanEndsOnRejection(f, h', vs[1..]);
        var rest := ScanVisits(f, h', vs[1..]);
        assert s == Scan(rest.ok, [vs[0]] + rest.seen);
        if !s.ok {
          var n := |rest.seen|;
          assert s.seen[n] == rest.seen[n - 1];
          assert s.seen[..n] == [vs[0]] + rest.seen[..n - 1];
          assert history + s.seen[..n] == h' + rest.seen[..n - 1];
        }
      }
    }
  }

  /** Every non-folder seen, except a last one that stopped the scan, was
      accepted by the visitor given the calls before it. */
  predicate AcceptedBeforeStop(f: Visitor, history: seq<Visit>, s: Scan) {
    forall k :: 0 <= k < |s.seen| && (s.ok || k < |s.seen| - 1) && !IsFolderVisit(s.seen[k]) ==>
      f(history + s.seen[..k], s.seen[k])
  }

  lemma {:induction false} ScanAcceptsBeforeStop(f: Visitor, history: seq<Visit>, vs: seq<Visit>)
    ensures AcceptedBeforeStop(f, history, ScanVisits(f, history, vs))
    decreases |vs|
  {
    var s := ScanVisits(f, history, vs);
    if |vs| > 0 && !(!IsFolderVisit(vs[0]) && !f(history, vs[0])) {
      var h' := history + [vs[0]];
      ScanAcceptsBeforeStop(f, h', vs[1..]);
      var rest := ScanVisits(f, h', vs[1..]);
      assert AcceptedBeforeStop(f, h', rest);
      assert s == Scan(rest.ok, [vs[0]] + rest.seen);
      forall k | 0 <= k < |s.seen| && (s.ok || k < |s.seen| - 1) && !IsFolderVisit(s.seen[k])
        ensures f(history + s.seen[..k], s.seen[k])
      {
        if k == 0 {
          assert s.seen[0] == vs[0];
          assert s.seen[..0] == [] && history + [] == history;
        } else {
          assert s.seen[k] == rest.seen[k - 1];
          assert s.seen[..k] == [vs[0]] + rest.seen[..k - 1];
          assert history + s.seen[..k] == h' + rest.seen[..k - 1];
          assert rest.ok || k - 1 < |rest.seen| - 1;
        }
      }
    }
  }

  /** A scan that goes through has seen everything. */
  lemma ScanThroughSeesAll(f: Visitor, history: seq<Visit>, vs: seq<Visit>)
    ensures ScanVisits(f, history, vs).ok ==> ScanVisits(f, history, vs).seen == vs
  {
    ScanStopsAtFirstRejection(f, history, vs);
  }

  /** Scanning a concatenation: the second part is scanned only when the
      first part went through, with the first part added to the history. */
  lemma {:induction false} ScanAppend(f: Visitor, h: seq<Visit>, a: seq<Visit>, b: seq<Visit>)
    ensures ScanVisits(f, h, a + b)
            == var s := ScanVisits(f, h, a);
               if !s.ok then s
               else var t := ScanVisits(f, h + a, b); Scan(t.ok, a + t.seen)
    decreases |a|
  {
    if |a| == 0 {
      assert a + b == b && h + a == h;
      assert a + ScanVisits(f, h, b).seen == ScanVisits(f, h, b).seen;
    } else if !IsFolderVisit(a[0]) && !f(h, a[0]) {
      assert (a + b)[0] == a[0];
    } else {
      var h' := h + [a[0]];
      assert (a + b)[0] == a[0] && (a + b)[1..] == a[1..] + b;
      ScanAppend(f, h', a[1..], b);
      var s' := ScanVisits(f, h', a[1..]);
      assert ScanVisits(f, h, a) == Scan(s'.ok, [a[0]] + s'.seen);
      assert ScanVisits(f, h, a + b) == var r := ScanVisits(f, h', a[1..] + b); Scan(r.ok, [a[0]] + r.seen);
      if s'.ok {
        assert h' + a[1..] == h + a;
        var t := ScanVisits(f, h + a, b);
        assert [a[0]] + (a[1..] + t.seen) == a + t.seen;
      }
    }
  }

  // ---------------------------------------------------------------------------
  // The walk is the scan of the pre-order sequence
  // ---------------------------------------------------------------------------

  /** A folder visit followed by its subtree and the remaining siblings: the
      walk into the folder, then the walk over the siblings when it went
      through, is the scan of the three parts together. */
  lemma FolderVisitsCompose(f: Visitor, calls: seq<Visit>, found: seq<Entity>, v: Visit, fi: Entity,
                            sub: seq<Visit>, rest: seq<Visit>, w: Walk, w2: Walk)
    requires v.entity == Some(fi) && IsFolderVisit(v)
    requires var s1 := ScanVisits(f, calls + [v], sub);
             w == Walk(s1.ok, found + [fi] + Found(s1.seen), calls + [v] + s1.seen)
    requires w.ok ==> var t := ScanVisits(f, w.calls, rest);
                      w2 == Walk(t.ok, w.found + Found(t.seen), w.calls + t.seen)
    ensures var s := ScanVisits(f, calls, [v] + (sub + rest));
            (if !w.ok then w else w2) == Walk(s.ok, found + Found(s.seen), calls + s.seen)
  {
    FoundOne(v, fi);
    var vs := [v] + (sub + rest);
    assert vs[0] == v && vs[1..] == sub + rest;
    var r := ScanVisits(f, calls + [v], sub + rest);
    assert ScanVisits(f, calls, vs) == Scan(r.ok, [v] + r.seen);
    var s1 := ScanVisits(f, calls + [v], sub);
    ScanAppend(f, calls + [v], sub, rest);
    if s1.ok {
      ScanThroughSeesAll(f, calls + [v], sub);
      var t := ScanVisits(f, calls + [v] + sub, rest);
      assert r == Scan(t.ok, sub + t.seen);
      FoundAppend([v], sub + t.seen);
      FoundAppend(sub, t.seen);
      SeqAssoc(found, [fi], Found(sub) + Found(t.seen));
      SeqAssoc(found + [fi], Found(sub), Found(t.seen));
      SeqAssoc(calls, [v], sub + t.seen);
      SeqAssoc(calls + [v], sub, t.seen);
    } else {
      assert r == s1;
      FoundAppend([v], s1.seen);
      SeqAssoc(found, [fi], Found(s1.seen));
      SeqAssoc(calls, [v], s1.seen);
    }
  }

  /** A file visit followed by the remaining siblings: a rejection stops with
      the file recorded, an acceptance goes on with the siblings. */
  lemma FileVisitCompose(f: Visitor, calls: seq<Visit>, found: seq<Entity>, v: Visit, fi: Entity,
                         rest: seq<Visit>, w2: Walk)
    requires v.entity == Some(fi) && !IsFolderVisit(v)
    requires f(calls, v) ==> var t := ScanVisits(f, calls + [v], rest);
                             w2 == Walk(t.ok, found + [fi] + Found(t.seen), calls + [v] + t.seen)
    ensures var s := ScanVisits(f, calls, [v] + rest);
            (if !f(calls, v) then Walk(false, found + [fi], calls + [v]) else w2)
            == Walk(s.ok, found + Found(s.seen), calls + s.seen)
  {
    FoundOne(v, fi);
    var vs := [v] + rest;
    assert vs[0] == v && vs[1..] == rest;
    if f(calls, v) {
      var t := ScanVisits(f, calls + [v], rest);
      assert ScanVisits(f, calls, vs) == Scan(t.ok, [v] + t.seen);
      FoundAppend([v], t.seen);
      SeqAssoc(calls, [v], t.seen);
      SeqAssoc(found, [fi], Found(t.seen));
    } else {
      assert ScanVisits(f, calls, vs) == Scan(false, [v]);
    }
  }

  lemma FoundOne(v: Visit, fi: Entity)
    requires v.entity == Some(fi)
    ensures Found([v]) == [fi]
  {
    assert [v][1..] == [];
  }

  lemma SeqAssoc<T>(a: seq<T>, b: seq<T>, c: seq<T>)
    ensures a + b + c == a + (b + c)
  {
  }

  /** The loop of `recurseList`, from child `i` on, calls the visitor on
      exactly the scanned prefix of the pre-order visits and collects their
      entities; it goes through exactly when the scan does. */
  lemma {:induction false} WalkChildrenIsScan(d: Drive, driveId: string, folder: Entity, children: seq<Entity>, i: nat,
                                              depth: nat, f: Visitor, found: seq<Entity>, calls: seq<Visit>)
    requires WellFormed(d) && children == Children(d, driveId, folder) && i <= |children|
    ensures var s := ScanVisits(f, calls, ChildVisits(d, driveId, folder, children, i, depth));
            WalkChildren(d, driveId, folder, children, i, depth, Some(f), found, calls)
            == Walk(s.ok, found + Found(s.seen), calls + s.seen)
    decreases Level(d, KeyFor(driveId, folder)), 0, |children| - i, 1
  {
    if i < |children| {
      if IsFolder(children[i]) {
        FolderChildIsScan(d, driveId, folder, children, i, depth, f, found, calls);
      } else {
        FileChildIsScan(d, driveId, folder, children, i, depth, f, found, calls);
      }
    }
  }

  /** `WalkChildrenIsScan` when child `i` is a folder. */
  lemma {:induction false} FolderChildIsScan(d: Drive, driveId: string, folder: Entity, children: seq<Entity>, i: nat,
                                             depth: nat, f: Visitor, found: seq<Entity>, calls: seq<Visit>)
    requires WellFormed(d) && children == Children(d, driveId, folder) && i < |children|
    requires IsFolder(children[i])
    ensures var s := ScanVisits(f, calls, ChildVisits(d, driveId, folder, children, i, depth));
            WalkChildren(d, driveId, folder, children, i, depth, Some(f), found, calls)
            == Walk(s.ok, found + Found(s.seen), calls + s.seen)
    decreases Level(d, KeyFor(driveId, folder)), 0, |children| - i, 0
  {
    var fi := WithChildPath(folder, children[i]);
    var v := Visit(depth, fi.path, Some(fi), None);
    var rest := ChildVisits(d, driveId, folder, children, i + 1, depth);
    ChildrenRankLower(d, driveId, folder);
    assert children[i] in children;
    var sub := SubtreeVisits(d, driveId, fi, depth + 1);
    FolderChildUnfolds(d, driveId, folder, children, i, depth, Some(f), found, calls);
    var w := RecurseList(d, driveId, fi, depth + 1, Some(f), found + [fi], calls + [v]);
    RecurseListIsScan(d, driveId, fi, depth + 1, f, found + [fi], calls + [v]);
    if w.ok {
      WalkChildrenIsScan(d, driveId, folder, children, i + 1, depth, f, w.found, w.calls);
      var w2 := WalkChildren(d, driveId, folder, children, i + 1, depth, Some(f), w.found, w.calls);
      FolderVisitsCompose(f, calls, found, v, fi, sub, rest, w, w2);
    } else {
      FolderVisitsCompose(f, calls, found, v, fi, sub, rest, w, w);
    }
  }

  /** One folder child: its visits are its own, its subtree's and then the
      rest; the walk goes into it and, when that goes through, on to the next
      child. */
  lemma FolderChildUnfolds(d: Drive, driveId: string, folder: Entity, children: seq<Entity>, i: nat, depth: nat,
                           visitor: Option<Visitor>, found: seq<Entity>, calls: seq<Visit>)
    requires WellFormed(d) && children == Children(d, driveId, folder) && i < |children|
    requires IsFolder(children[i])
    ensures var fi := WithChildPath(folder, children[i]);
            var v := Visit(depth, fi.path, Some(fi), None);
            var w := RecurseList(d, driveId, fi, depth + 1, visitor, found + [fi], Logged(visitor, calls, v));
            && ChildVisits(d, driveId, folder, children, i, depth)
               == [v] + (SubtreeVisits(d, driveId, fi, depth + 1) + ChildVisits(d, driveId, folder, children, i + 1, depth))
            && WalkChildren(d, driveId, folder, children, i, depth, visitor, found, calls)
               == if w.ok then WalkChildren(d, driveId, folder, children, i + 1, depth, visitor, w.found, w.calls) else w
  {
    var fi := WithChildPath(folder, children[i]);
    assert IsFolder(fi);
    ChildrenRankLower(d, driveId, folder);
    assert children[i] in children;
    var v := Visit(depth, fi.path, Some(fi), None);
    var sub := SubtreeVisits(d, driveId, fi, depth + 1);
    var rest := ChildVisits(d, driveId, folder, children, i + 1, depth);
    assert ChildVisits(d, driveId, folder, children, i, depth) == [v] + sub + rest;
    assert [v] + sub + rest == [v] + (sub + rest);
  }

  /** One file child: its visit comes first, and the walk stops after it when
      the visitor rejects it. */
  lemma FileChildUnfolds(d: Drive, driveId: string, folder: Entity, children: seq<Entity>, i: nat, depth: nat,
                         visitor: Option<Visitor>, found: seq<Entity>, calls: seq<Visit>)
    requires WellFormed(d) && children == Children(d, driveId, folder) && i < |children|
    requires !IsFolder(children[i])
    ensures var fi := WithChildPath(folder, children[i]);
            var v := Visit(depth, fi.path, Some(fi), None);
            && ChildVisits(d, driveId, folder, children, i, depth)
               == [v] + ChildVisits(d, driveId, folder, children, i + 1, depth)
            && WalkChildren(d, driveId, folder, children, i, depth, visitor, found, calls)
               == if !Answer(visitor, calls, v) then Walk(false, found + [fi], Logged(visitor, calls, v))
                  else WalkChildren(d, driveId, folder, children, i + 1, depth, visitor, found + [fi], Logged(visitor, calls, v))
  {
  }

  /** `WalkChildrenIsScan` when child `i` is not a folder. */
  lemma {:induction false} FileChildIsScan(d: Drive, driveId: string, folder: Entity, children: seq<Entity>, i: nat,
                                           depth: nat, f: Visitor, found: seq<Entity>, calls: seq<Visit>)
    requires WellFormed(d) && children == Children(d, driveId, folder) && i < |children|
    requires !IsFolder(children[i])
    ensures var s := ScanVisits(f, calls, ChildVisits(d, driveId, folder, children, i, depth));
            WalkChildren(d, driveId, folder, children, i, depth, Some(f), found, calls)
            == Walk(s.ok, found + Found(s.seen), calls + s.seen)
    decreases Level(d, KeyFor(driveId, folder)), 0, |children| - i, 0
  {
    var fi := WithChildPath(folder, children[i]);
    var v := Visit(depth, fi.path, Some(fi), None);
    var rest := ChildVisits(d, driveId, folder, children, i + 1, depth);
    FileChildUnfolds(d, driveId, folder, children, i, depth, Some(f), found, calls);
    WalkChildrenIsScan(d, driveId, folder, children, i + 1, depth, f, found + [fi], calls + [v]);
    var w2 := WalkChildren(d, driveId, folder, children, i + 1, depth, Some(f), found + [fi], calls + [v]);
    FileVisitCompose(f, calls, found, v, fi, rest, w2);
  }

  lemma {:induction false} RecurseListIsScan(d: Drive, driveId: string, folder: Entity, depth: nat, f: Visitor,
                                             found: seq<Entity>, calls: seq<Visit>)
    requires WellFormed(d)
    ensures var s := ScanVisits(f, calls, SubtreeVisits(d, driveId, folder, depth));
            RecurseList(d, driveId, folder, depth, Some(f), found, calls)
            == Walk(s.ok, found + Found(s.seen), calls + s.seen)
    decreases Level(d, KeyFor(driveId, folder)), 1, 0
  {
    WalkChildrenIsScan(d, driveId, folder, Children(d, driveId, folder), 0, depth, f, found, calls);
  }

  // ---------------------------------------------------------------------------
  // Without a visitor
  // ---------------------------------------------------------------------------

  /** With a nil visitor nothing stops the loop: it collects every entity of
      the pre-order visits and calls nothing. */
  lemma {:induction false} WalkChildrenWithoutVisitor(d: Drive, driveId: string, folder: Entity, children: seq<Entity>,
                                                      i: nat, depth: nat, found: seq<Entity>, calls: seq<Visit>)
    requires WellFormed(d) && children == Children(d, driveId, folder) && i <= |children|
    ensures WalkChildren(d, driveId, folder, children, i, depth, None, found, calls)
            == Walk(true, found + Found(ChildVisits(d, driveId, folder, children, i, depth)), calls)
    decreases Level(d, KeyFor(driveId, folder)), 0, |children| - i, 1
  {
    if i < |children| {
      if IsFolder(children[i]) {
        FolderChildWithoutVisitor(d, driveId, folder, children, i, depth, found, calls);
      } else {
        FileChildWithoutVisitor(d, driveId, folder, children, i, depth, found, calls);
      }
    }
  }

  /** `WalkChildrenWithoutVisitor` when child `i` is a folder. */
  lemma {:induction false} FolderChildWithoutVisitor(d: Drive, driveId: string, folder: Entity, children: seq<Entity>,
                                                     i: nat, depth: nat, found: seq<Entity>, calls: seq<Visit>)
    requires WellFormed(d) && children == Children(d, driveId, folder) && i < |children|
    requires IsFolder(children[i])
    ensures WalkChildren(d, driveId, folder, children, i, depth, None, found, calls)
            == Walk(true, found + Found(ChildVisits(d, driveId, folder, children, i, depth)), calls)
    decreases Level(d, KeyFor(driveId, folder)), 0, |children| - i, 0
  {
    var fi := WithChildPath(folder, children[i]);
    var v := Visit(depth, fi.path, Some(fi), None);
    var rest := ChildVisits(d, driveId, folder, children, i + 1, depth);
    ChildrenRankLower(d, driveId, folder);
    assert children[i] in children;
    var sub := SubtreeVisits(d, driveId, fi, depth + 1);
    FolderChildUnfolds(d, driveId, folder, children, i, depth, None, found, calls);
    RecurseListWithoutVisitor(d, driveId, fi, depth + 1, found + [fi], calls);
    WalkChildrenWithoutVisitor(d, driveId, folder, children, i + 1, depth, found + [fi] + Found(sub), calls);
    FoundOfThree(found, v, fi, sub, rest);
  }

  /** `WalkChildrenWithoutVisitor` when child `i` is not a folder. */
  lemma {:induction false} FileChildWithoutVisitor(d: Drive, driveId: string, folder: Entity, children: seq<Entity>,
                                                   i: nat, depth: nat, found: seq<Entity>, calls: seq<Visit>)
    requires WellFormed(d) && children == Children(d, driveId, folder) && i < |children|
    requires !IsFolder(children[i])
    ensures WalkChildren(d, driveId, folder, children, i, depth, None, found, calls)
            == Walk(true, found + Found(ChildVisits(d, driveId, folder, children, i, depth)), calls)
    decreases Level(d, KeyFor(driveId, folder)), 0, |children| - i, 0
  {
    var fi := WithChildPath(folder, children[i]);
    var v := Visit(depth, fi.path, Some(fi), None);
    var rest := ChildVisits(d, driveId, folder, children, i + 1, depth);
    FileChildUnfolds(d, driveId, folder, children, i, depth, None, found, calls);
    WalkChildrenWithoutVisitor(d, driveId, folder, children, i + 1, depth, found + [fi], calls);
    FoundOfTwo(found, v, fi, rest);
  }

  /** The entities of a visit and a stretch, appended to `found`. */
  lemma FoundOfTwo(found: seq<Entity>, v: Visit, fi: Entity, rest: seq<Visit>)
    requires v.entity == Some(fi)
    ensures found + [fi] + Found(rest) == found + Found([v] + rest)
  {
    FoundOne(v, fi);
    FoundAppend([v], rest);
  }

  /** The entities of a visit, a stretch and another stretch, appended to `found`. */
  lemma FoundOfThree(found: seq<Entity>, v: Visit, fi: Entity, sub: seq<Visit>, rest: seq<Visit>)
    requires v.entity == Some(fi)
    ensures found + [fi] + Found(sub) + Found(rest) == found + Found([v] + (sub + rest))
  {
    FoundOne(v, fi);
    FoundAppend([v], sub + rest);
    FoundAppend(sub, rest);
    assert Found([]) == [];
  }

  lemma {:induction false} RecurseListWithoutVisitor(d: Drive, driveId: string, folder: Entity, depth: nat,
                                                     found: seq<Entity>, calls: seq<Visit>)
    requires WellFormed(d)
    ensures RecurseList(d, driveId, folder, depth, None, found, calls)
            == Walk(true, found + Found(SubtreeVisits(d, driveId, folder, depth)), calls)
    decreases Level(d, KeyFor(driveId, folder)), 1, 0
  {
    WalkChildrenWithoutVisitor(d, driveId, folder, Children(d, driveId, folder), 0, depth, found, calls);
  }

  // ---------------------------------------------------------------------------
  // The whole operation
  // ---------------------------------------------------------------------------

  /** The entities of the whole subtree below a folder, pre-order. */
  function Subtree(d: Drive, driveId: string, folder: Entity): seq<Entity>
    requires WellFormed(d)
  {
    Found(SubtreeVisits(d, driveId, folder, 1))
  }

  /** `FilesDirectoriesRecurseList` with a visitor: a resolution error is
      reported once and yields nil; a file is reported and returned alone;
      a folder is reported, then its subtree is reported in pre-order up to
      and including the first file the visitor rejects. The result is the
      whole subtree when no file is rejected, and nil otherwise. */
  lemma RecurseListOutcome(d: Drive, driveId: string, path: string, f: Visitor)
    requires WalkCovered(d, driveId, path)
    ensures var o := FilesDirectoriesRecurseList(d, driveId, path, Some(f));
            var r := FileInfoByPath(d, driveId, path);
            && (r.Err? ==> o == Outcome(None, [Visit(0, path, None, Some(r.error))]))
            && (r.Ok? && !IsFolder(r.value) ==> o == Outcome(Some([r.value]), [Visit(0, path, Some(r.value), None)]))
            && (r.Ok? && IsFolder(r.value) ==>
                  var v0 := Visit(0, path, Some(r.value), None);
                  var s := ScanVisits(f, [v0], SubtreeVisits(d, driveId, r.value, 1));
                  && o.calls == [v0] + s.seen
                  && o.result == (if s.ok then Some(Subtree(d, driveId, r.value)) else None))
  {
    var r := FileInfoByPath(d, driveId, path);
    if r.Ok? && IsFolder(r.value) {
      var t := r.value;
      var v0 := Visit(0, path, Some(t), None);
      assert Logged(Some(f), [], v0) == [v0];
      RecurseListIsScan(d, driveId, t, 1, f, [], [v0]);
      var s := ScanVisits(f, [v0], SubtreeVisits(d, driveId, t, 1));
      ScanThroughSeesAll(f, [v0], SubtreeVisits(d, driveId, t, 1));
      assert [] + Found(s.seen) == Found(s.seen);
    }
  }

  /** `FilesDirectoriesRecurseList` without a visitor lists the whole subtree
      of a folder, or the file itself, and fails only when the path does
      not resolve. */
  lemma RecurseListWithoutVisitorOutcome(d: Drive, driveId: string, path: string)
    requires WalkCovered(d, driveId, path)
    ensures var o := FilesDirectoriesRecurseList(d, driveId, path, None);
            var r := FileInfoByPath(d, driveId, path);
            && o.calls == []
            && (r.Err? ==> o.result.None?)
            && (r.Ok? ==> o.result == Some(if IsFolder(r.value) then Subtree(d, driveId, r.value) else [r.value]))
  {
    var r := FileInfoByPath(d, driveId, path);
    if r.Ok? && IsFolder(r.value) {
      RecurseListWithoutVisitor(d, driveId, r.value, 1, [], []);
      assert [] + Subtree(d, driveId, r.value) == Subtree(d, driveId, r.value);
    }
  }

  /** Two visitors that answer alike for every non-folder visit scan
      error-free visits alike. */
  lemma {:induction false} ScanIgnoresFolderAnswers(f: Visitor, g: Visitor, history: seq<Visit>, vs: seq<Visit>, depth: nat)
    requires AllEntityVisits(vs, depth)
    requires forall h, v :: !IsFolderVisit(v) && v.error.None? ==> f(h, v) == g(h, v)
    ensures ScanVisits(f, history, vs) == ScanVisits(g, history, vs)
    decreases |vs|
  {
    if |vs| > 0 {
      assert IsEntityVisit(vs[0], depth);
      assert AllEntityVisits(vs[1..], depth) by {
        assert forall k :: 0 <= k < |vs[1..]| ==> vs[1..][k] == vs[k + 1];
      }
      ScanIgnoresFolderAnswers(f, g, history + [vs[0]], vs[1..], depth);
    }
  }

  /** What the visitor answers for a folder, including the starting one,
      and for a resolution error changes nothing: only its answers for
      files decide the outcome. */
  lemma FolderAnswersIgnored(d: Drive, driveId: string, path: string, f: Visitor, g: Visitor)
    requires WalkCovered(d, driveId, path)
    requires forall h, v :: !IsFolderVisit(v) && v.error.None? ==> f(h, v) == g(h, v)
    ensures FilesDirectoriesRecurseList(d, driveId, path, Some(f))
            == FilesDirectoriesRecurseList(d, driveId, path, Some(g))
  {
    var r := FileInfoByPath(d, driveId, path);
    if r.Ok? && IsFolder(r.value) {
      var v0 := Visit(0, path, Some(r.value), None);
      RecurseListOutcome(d, driveId, path, f);
      RecurseListOutcome(d, driveId, path, g);
      SubtreeVisitsShape(d, driveId, r.value, 1);
      ScanIgnoresFolderAnswers(f, g, [v0], SubtreeVisits(d, driveId, r.value, 1), 1);
    }
  }
}
