/**
 * The loop-safe breadth-first directory walker: a FIFO queue of directories,
 * a visited set keyed by resolved path and by (device, inode), the link
 * policy, and a per-directory callback whose failure is swallowed.
 *
 * The file system is an oracle `DirTree`; the callback is represented by its
 * outcome only (`fails(dir)` says whether it raised for that directory).
 * `Run` is the reference definition of the loop; the methods of
 * `FIFODirectoryWalker` and `CountDirsAndFiles` are proved to follow it.
 */
module Walker {
  import opened Wrappers
  import opened Paths
  import opened IncludeFilter

  datatype Kind = RegularFile | Directory | OtherKind

  /** One item of `iterdir()`: its path and what `is_file()`/`is_dir()` say about it. */
  datatype Entry = Entry(path: Path, kind: Kind)

  /** (st_dev, st_ino). */
  datatype InodeKey = InodeKey(dev: int, ino: int)

  /**
   * What the walker observes of the file system.
   *  - listing: the entries of each directory whose iterdir() succeeds; a
   *    directory absent from the map is one whose listing raises;
   *  - resolve: Path.resolve(), None where it raises;
   *  - inode: stat(), None where it raises;
   *  - isLink: whether the path is a symbolic link or junction;
   *  - present: whether a resolved link target exists.
   */
  datatype DirTree = DirTree(
    listing: map<Path, seq<Entry>>,
    resolve: Path -> Option<Path>,
    inode: Path -> Option<InodeKey>,
    isLink: Path -> bool,
    present: Path -> bool)

  /** The key recorded in visited_paths: the resolved path, or the path itself when resolving fails. */
  function Key(t: DirTree, p: Path): Path
  {
    t.resolve(p).GetOr(p)
  }

  /** is_visited against the two visited sets. */
  predicate Visited(t: DirTree, paths: set<Path>, inodes: set<InodeKey>, p: Path)
  {
    Key(t, p) in paths || (t.inode(p).Some? && t.inode(p).value in inodes)
  }

  /** The inode set after mark_visited(p). */
  function MarkInode(t: DirTree, inodes: set<InodeKey>, p: Path): set<InodeKey>
  {
    match t.inode(p)
    case Some(k) => inodes + {k}
    case None => inodes
  }

  lemma VisitedMonotone(t: DirTree, paths: set<Path>, inodes: set<InodeKey>,
                        paths': set<Path>, inodes': set<InodeKey>, p: Path)
    requires paths <= paths' && inodes <= inodes'
    requires Visited(t, paths, inodes, p)
    ensures Visited(t, paths', inodes', p)
  {
  }

  /**
   * should_follow_link with _is_parent_loop: ordinary directories are always
   * entered; a link only when links are followed, its target resolves and
   * exists, and the link does not lie inside its own target.
   */
  predicate ShouldFollowLink(t: DirTree, p: Path, follow: bool)
  {
    if !t.isLink(p) then true
    else if !follow then false
    else match t.resolve(p)
      case None => false
      case Some(target) => t.present(target) && !(target <= p)
  }

  /** A followed link never leads back to an ancestor of itself, and is only followed on request. */
  lemma FollowedLinkIsSafe(t: DirTree, p: Path, follow: bool)
    requires ShouldFollowLink(t, p, follow) && t.isLink(p)
    ensures follow && t.resolve(p).Some?
    ensures t.present(t.resolve(p).value) && RelativeTo(p, t.resolve(p).value).None?
  {
  }

  /** The sub-directories of a listing that are not yet visited, in listing order. */
  function FilterSubdirs(t: DirTree, es: seq<Entry>, paths: set<Path>, inodes: set<InodeKey>): (r: seq<Path>)
    ensures forall i :: 0 <= i < |r| ==> Entry(r[i], Directory) in es && !Visited(t, paths, inodes, r[i])
    ensures forall e :: e in es && e.kind == Directory && !Visited(t, paths, inodes, e.path) ==> e.path in r
  {
    if es == [] then []
    else
      var init := es[..|es| - 1];
      var e := es[|es| - 1];
      assert es == init + [e];
      FilterSubdirs(t, init, paths, inodes)
        + (if e.kind == Directory && !Visited(t, paths, inodes, e.path) then [e.path] else [])
  }

  /**
   * Listing order is kept: the sub-directories queued from two listings one
   * after the other are those of the first, then those of the second.
   */
  lemma {:induction false} FilterSubdirsAppend(t: DirTree, a: seq<Entry>, b: seq<Entry>, paths: set<Path>, inodes: set<InodeKey>)
    ensures FilterSubdirs(t, a + b, paths, inodes) == FilterSubdirs(t, a, paths, inodes) + FilterSubdirs(t, b, paths, inodes)
    decreases |b|
  {
    if b == [] {
      assert a + b == a;
    } else {
      var init := b[..|b| - 1];
      var e := b[|b| - 1];
      assert (a + b)[..|a + b| - 1] == a + init;
      assert (a + b)[|a + b| - 1] == e;
      FilterSubdirsAppend(t, a, init, paths, inodes);
    }
  }

  /** One entry is queued exactly when it is a directory not yet visited. */
  lemma FilterSubdirsOne(t: DirTree, e: Entry, paths: set<Path>, inodes: set<InodeKey>)
    ensures FilterSubdirs(t, [e], paths, inodes) ==
      if e.kind == Directory && !Visited(t, paths, inodes, e.path) then [e.path] else []
  {
    assert [e][..0] == [];
  }

  /** One invocation of the callback: the directory, whether it returned, and the sub-directories then queued. */
  datatype Call = Call(dir: Path, ok: bool, children: seq<Path>)

  datatype WalkState = WalkState(
    queue: seq<Path>,
    paths: set<Path>,
    inodes: set<InodeKey>,
    calls: seq<Call>,
    dequeued: seq<Path>)

  /** One turn of the while-loop of walk_and_process. */
  function Step(t: DirTree, fails: Path -> bool, recursive: bool, follow: bool, w: WalkState): (r: WalkState)
    requires w.queue != []
    ensures r.dequeued == w.dequeued + [w.queue[0]]
  {
    var d := w.queue[0];
    var rest := w.queue[1..];
    var dq := w.dequeued + [d];
    if Visited(t, w.paths, w.inodes, d) then
      w.(queue := rest, dequeued := dq)
    else
      var paths := w.paths + {Key(t, d)};
      var inodes := MarkInode(t, w.inodes, d);
      if !ShouldFollowLink(t, d, follow) then
        WalkState(rest, paths, inodes, w.calls, dq)
      else if fails(d) then
        WalkState(rest, paths, inodes, w.calls + [Call(d, false, [])], dq)
      else
        var kids := if recursive && d in t.listing then FilterSubdirs(t, t.listing[d], paths, inodes) else [];
        WalkState(rest + kids, paths, inodes, w.calls + [Call(d, true, kids)], dq)
  }

  /** Step on a directory that is entered and whose callback returns. */
  lemma StepProcessed(t: DirTree, fails: Path -> bool, recursive: bool, follow: bool, w: WalkState)
    requires w.queue != []
    requires !Visited(t, w.paths, w.inodes, w.queue[0]) && ShouldFollowLink(t, w.queue[0], follow) && !fails(w.queue[0])
    ensures var d := w.queue[0];
      var paths := w.paths + {Key(t, d)};
      var inodes := MarkInode(t, w.inodes, d);
      var kids := if recursive && d in t.listing then FilterSubdirs(t, t.listing[d], paths, inodes) else [];
      Step(t, fails, recursive, follow, w)
        == WalkState(w.queue[1..] + kids, paths, inodes, w.calls + [Call(d, true, kids)], w.dequeued + [d])
  {
  }

  /** Every path the walk can meet: the initial queue and every listed entry. */
  ghost function Universe(t: DirTree, q0: seq<Path>): set<Path>
  {
    (set p | p in q0) + (set d, e | d in t.listing && e in t.listing[d] :: e.path)
  }

  ghost function KeySpace(t: DirTree, q0: seq<Path>): set<Path>
  {
    set p | p in Universe(t, q0) :: Key(t, p)
  }

  ghost predicate InUniverse(t: DirTree, q0: seq<Path>, q: seq<Path>)
  {
    forall i :: 0 <= i < |q| ==> q[i] in Universe(t, q0)
  }

  lemma StepInUniverse(t: DirTree, fails: Path -> bool, recursive: bool, follow: bool, q0: seq<Path>, w: WalkState)
    requires w.queue != [] && InUniverse(t, q0, w.queue)
    ensures InUniverse(t, q0, Step(t, fails, recursive, follow, w).queue)
    ensures var w' := Step(t, fails, recursive, follow, w);
      (KeySpace(t, q0) - w'.paths < KeySpace(t, q0) - w.paths)
      || (KeySpace(t, q0) - w'.paths == KeySpace(t, q0) - w.paths && |w'.queue| < |w.queue|)
  {
    var d := w.queue[0];
    var w' := Step(t, fails, recursive, follow, w);
    forall i | 0 <= i < |w'.queue| ensures w'.queue[i] in Universe(t, q0) {
      if i >= |w.queue| - 1 {
        var kids := w'.queue[|w.queue| - 1..];
        assert w'.queue[i] == kids[i - (|w.queue| - 1)];
        assert d in t.listing;
        var paths := w.paths + {Key(t, d)};
        assert kids == FilterSubdirs(t, t.listing[d], paths, MarkInode(t, w.inodes, d));
        assert Entry(w'.queue[i], Directory) in t.listing[d];
      } else {
        assert w'.queue[i] == w.queue[i + 1];
      }
    }
    if !Visited(t, w.paths, w.inodes, d) {
      assert d in Universe(t, q0);
      assert Key(t, d) in KeySpace(t, q0);
      assert Key(t, d) !in w.paths;
      assert Key(t, d) !in KeySpace(t, q0) - w'.paths;
    }
  }

  /** The loop run to the end: the queue is drained. Termination holds on every tree, links included. */
  function Run(t: DirTree, fails: Path -> bool, recursive: bool, follow: bool, q0: seq<Path>, w: WalkState): (r: WalkState)
    requires InUniverse(t, q0, w.queue)
    ensures r.queue == []
    decreases KeySpace(t, q0) - w.paths, |w.queue|
  {
    if w.queue == [] then w
    else
      StepInUniverse(t, fails, recursive, follow, q0, w);
      Run(t, fails, recursive, follow, q0, Step(t, fails, recursive, follow, w))
  }

  lemma InitialInUniverse(t: DirTree, q0: seq<Path>)
    ensures InUniverse(t, q0, q0)
  {
  }

  /** walk_and_process started with queue q0 and the given visited sets. */
  function Walk(t: DirTree, fails: Path -> bool, recursive: bool, follow: bool,
                q0: seq<Path>, paths0: set<Path>, inodes0: set<InodeKey>): (r: WalkState)
    ensures r.queue == []
  {
    InitialInUniverse(t, q0);
    Run(t, fails, recursive, follow, q0, WalkState(q0, paths0, inodes0, [], []))
  }

  /** All sub-directories the calls queued, in the order they were appended. */
  function AllChildren(calls: seq<Call>): seq<Path>
  {
    if calls == [] then [] else AllChildren(calls[..|calls| - 1]) + calls[|calls| - 1].children
  }

  function OkCount(calls: seq<Call>): nat
  {
    if calls == [] then 0 else OkCount(calls[..|calls| - 1]) + (if calls[|calls| - 1].ok then 1 else 0)
  }

  /** No two callback invocations share a resolved path or an inode. */
  predicate DistinctIdentities(t: DirTree, calls: seq<Call>)
  {
    forall i, j :: 0 <= i < j < |calls| ==>
      Key(t, calls[i].dir) != Key(t, calls[j].dir)
      && (t.inode(calls[i].dir).Some? && t.inode(calls[j].dir).Some? ==>
            t.inode(calls[i].dir).value != t.inode(calls[j].dir).value)
  }

  /** Each call's directory is marked in the visited sets. */
  predicate Marked(t: DirTree, w: WalkState)
  {
    forall i :: 0 <= i < |w.calls| ==>
      Key(t, w.calls[i].dir) in w.paths
      && (t.inode(w.calls[i].dir).Some? ==> t.inode(w.calls[i].dir).value in w.inodes)
  }

  /** What one call queued: nothing after a failure or without recursion, otherwise listed, unvisited sub-directories. */
  predicate CallShape(t: DirTree, recursive: bool, follow: bool, c: Call)
  {
    && ShouldFollowLink(t, c.dir, follow)
    && (!c.ok || !recursive || c.dir !in t.listing ==> c.children == [])
    && (c.children != [] ==>
          && c.dir in t.listing
          && forall k :: 0 <= k < |c.children| ==> Entry(c.children[k], Directory) in t.listing[c.dir])
  }

  /** Every sub-directory of a successfully processed directory is by now visited or was queued by that call. */
  predicate Covered(t: DirTree, recursive: bool, w: WalkState)
  {
    forall i :: 0 <= i < |w.calls| && w.calls[i].ok && recursive && w.calls[i].dir in t.listing ==>
      forall e :: e in t.listing[w.calls[i].dir] && e.kind == Directory ==>
        Visited(t, w.paths, w.inodes, e.path) || e.path in w.calls[i].children
  }

  predicate DequeuedVisited(t: DirTree, w: WalkState)
  {
    forall i :: 0 <= i < |w.dequeued| ==> Visited(t, w.paths, w.inodes, w.dequeued[i])
  }

  /** The invariant of the walk loop. */
  predicate Inv(t: DirTree, recursive: bool, follow: bool, q0: seq<Path>, w: WalkState)
  {
    && q0 + AllChildren(w.calls) == w.dequeued + w.queue
    && DequeuedVisited(t, w)
    && Marked(t, w)
    && DistinctIdentities(t, w.calls)
    && (forall i :: 0 <= i < |w.calls| ==> CallShape(t, recursive, follow, w.calls[i]))
    && Covered(t, recursive, w)
  }

  lemma StepMonotone(t: DirTree, fails: Path -> bool, recursive: bool, follow: bool, w: WalkState)
    requires w.queue != []
    ensures var w' := Step(t, fails, recursive, follow, w);
      && w.paths <= w'.paths && w.inodes <= w'.inodes
      && ((w'.calls == w.calls && w'.queue == w.queue[1..])
          || (&& |w'.calls| == |w.calls| + 1
              && w'.calls[..|w.calls|] == w.calls
              && w'.queue == w.queue[1..] + w'.calls[|w.calls|].children))
  {
  }

  lemma FifoAppend(q0: seq<Path>, all: seq<Path>, dq: seq<Path>, d: Path, rest: seq<Path>, kids: seq<Path>)
    requires q0 + all == dq + ([d] + rest)
    ensures q0 + (all + kids) == (dq + [d]) + (rest + kids)
  {
    calc {
      q0 + (all + kids);
      (q0 + all) + kids;
      (dq + ([d] + rest)) + kids;
      (dq + [d]) + (rest + kids);
    }
  }

  lemma StepFifo(t: DirTree, fails: Path -> bool, recursive: bool, follow: bool, q0: seq<Path>, w: WalkState)
    requires w.queue != []
    requires q0 + AllChildren(w.calls) == w.dequeued + w.queue
    ensures var w' := Step(t, fails, recursive, follow, w);
      q0 + AllChildren(w'.calls) == w'.dequeued + w'.queue
  {
    var w' := Step(t, fails, recursive, follow, w);
    var d := w.queue[0];
    StepMonotone(t, fails, recursive, follow, w);
    assert w.queue == [d] + w.queue[1..];
    if w'.calls == w.calls && w'.queue == w.queue[1..] {
      FifoAppend(q0, AllChildren(w.calls), w.dequeued, d, w.queue[1..], []);
    } else {
      var c := w'.calls[|w.calls|];
      assert w'.calls[..|w'.calls| - 1] == w.calls;
      assert AllChildren(w'.calls) == AllChildren(w.calls) + c.children;
      FifoAppend(q0, AllChildren(w.calls), w.dequeued, d, w.queue[1..], c.children);
    }
  }

  lemma StepMarks(t: DirTree, fails: Path -> bool, recursive: bool, follow: bool, w: WalkState)
    requires w.queue != []
    requires DequeuedVisited(t, w) && Marked(t, w) && DistinctIdentities(t, w.calls)
    ensures var w' := Step(t, fails, recursive, follow, w);
      DequeuedVisited(t, w') && Marked(t, w') && DistinctIdentities(t, w'.calls)
  {
    var w' := Step(t, fails, recursive, follow, w);
    StepMonotone(t, fails, recursive, follow, w);
    forall i | 0 <= i < |w'.dequeued| ensures Visited(t, w'.paths, w'.inodes, w'.dequeued[i]) {
      if i < |w.dequeued| {
        VisitedMonotone(t, w.paths, w.inodes, w'.paths, w'.inodes, w.dequeued[i]);
      }
    }
    StepKeepsDistinct(t, fails, recursive, follow, w);
  }

  lemma StepShape(t: DirTree, fails: Path -> bool, recursive: bool, follow: bool, w: WalkState)
    requires w.queue != []
    requires forall i :: 0 <= i < |w.calls| ==> CallShape(t, recursive, follow, w.calls[i])
    requires Covered(t, recursive, w)
    ensures var w' := Step(t, fails, recursive, follow, w);
      (forall i :: 0 <= i < |w'.calls| ==> CallShape(t, recursive, follow, w'.calls[i]))
      && Covered(t, recursive, w')
  {
    var w' := Step(t, fails, recursive, follow, w);
    StepMonotone(t, fails, recursive, follow, w);
    forall i | 0 <= i < |w'.calls| && w'.calls[i].ok && recursive && w'.calls[i].dir in t.listing
      ensures forall e :: e in t.listing[w'.calls[i].dir] && e.kind == Directory ==>
        Visited(t, w'.paths, w'.inodes, e.path) || e.path in w'.calls[i].children
    {
      forall e | e in t.listing[w'.calls[i].dir] && e.kind == Directory
        ensures Visited(t, w'.paths, w'.inodes, e.path) || e.path in w'.calls[i].children
      {
        if i < |w.calls| {
          assert w'.calls[i] == w.calls[i];
          if Visited(t, w.paths, w.inodes, e.path) {
            VisitedMonotone(t, w.paths, w.inodes, w'.paths, w'.inodes, e.path);
          }
        }
      }
    }
  }

  lemma StepInv(t: DirTree, fails: Path -> bool, recursive: bool, follow: bool, q0: seq<Path>, w: WalkState)
    requires w.queue != [] && Inv(t, recursive, follow, q0, w)
    ensures Inv(t, recursive, follow, q0, Step(t, fails, recursive, follow, w))
  {
    StepFifo(t, fails, recursive, follow, q0, w);
    StepMarks(t, fails, recursive, follow, w);
    StepShape(t, fails, recursive, follow, w);
  }

  lemma {:induction false} RunInv(t: DirTree, fails: Path -> bool, recursive: bool, follow: bool, q0: seq<Path>, w: WalkState)
    requires InUniverse(t, q0, w.queue) && Inv(t, recursive, follow, q0, w)
    ensures Inv(t, recursive, follow, q0, Run(t, fails, recursive, follow, q0, w))
    decreases KeySpace(t, q0) - w.paths, |w.queue|
  {
    if w.queue != [] {
      StepInUniverse(t, fails, recursive, follow, q0, w);
      StepInv(t, fails, recursive, follow, q0, w);
      RunInv(t, fails, recursive, follow, q0, Step(t, fails, recursive, follow, w));
    }
  }

  lemma WalkInv(t: DirTree, fails: Path -> bool, recursive: bool, follow: bool,
                q0: seq<Path>, paths0: set<Path>, inodes0: set<InodeKey>)
    ensures Inv(t, recursive, follow, q0, Walk(t, fails, recursive, follow, q0, paths0, inodes0))
  {
    var w0 := WalkState(q0, paths0, inodes0, [], []);
    assert q0 + AllChildren([]) == w0.dequeued + w0.queue;
    InitialInUniverse(t, q0);
    RunInv(t, fails, recursive, follow, q0, w0);
  }

  /** The callback runs at most once per directory identity (resolved path, and inode where stat works). */
  lemma WalkCallsOncePerIdentity(t: DirTree, fails: Path -> bool, recursive: bool, follow: bool,
                                 q0: seq<Path>, paths0: set<Path>, inodes0: set<InodeKey>)
    ensures DistinctIdentities(t, Walk(t, fails, recursive, follow, q0, paths0, inodes0).calls)
  {
    WalkInv(t, fails, recursive, follow, q0, paths0, inodes0);
  }

  /**
   * A raising callback queues nothing, and the walk goes on: every directory
   * queued is taken out, in the order it was queued (the initial queue, then
   * each call's sub-directories in call order).
   */
  lemma WalkFifoAndFailureIsolation(t: DirTree, fails: Path -> bool, recursive: bool, follow: bool,
                                    q0: seq<Path>, paths0: set<Path>, inodes0: set<InodeKey>)
    ensures var w := Walk(t, fails, recursive, follow, q0, paths0, inodes0);
      && w.dequeued == q0 + AllChildren(w.calls)
      && (forall i :: 0 <= i < |w.calls| && !w.calls[i].ok ==> w.calls[i].children == [])
      && (forall i :: 0 <= i < |w.calls| ==> ShouldFollowLink(t, w.calls[i].dir, follow))
  {
    WalkInv(t, fails, recursive, follow, q0, paths0, inodes0);
    var w := Walk(t, fails, recursive, follow, q0, paths0, inodes0);
    assert w.dequeued + [] == w.dequeued;
  }

  /**
   * In a recursive walk every sub-directory of a directory whose callback
   * returned ends up visited: it was either already visited or queued and
   * later taken out.
   */
  lemma WalkComplete(t: DirTree, fails: Path -> bool, follow: bool,
                     q0: seq<Path>, paths0: set<Path>, inodes0: set<InodeKey>)
    ensures var w := Walk(t, fails, true, follow, q0, paths0, inodes0);
      forall i, e :: 0 <= i < |w.calls| && w.calls[i].ok && w.calls[i].dir in t.listing
                     && e in t.listing[w.calls[i].dir] && e.kind == Directory ==>
        Visited(t, w.paths, w.inodes, e.path)
  {
    WalkInv(t, fails, true, follow, q0, paths0, inodes0);
    var w := Walk(t, fails, true, follow, q0, paths0, inodes0);
    forall i, e | 0 <= i < |w.calls| && w.calls[i].ok && w.calls[i].dir in t.listing
                  && e in t.listing[w.calls[i].dir] && e.kind == Directory
      ensures Visited(t, w.paths, w.inodes, e.path)
    {
      if e.path in w.calls[i].children {
        ChildInAll(w.calls, i, e.path);
        assert w.dequeued == q0 + AllChildren(w.calls);
        assert e.path in w.dequeued;
      }
    }
  }

  /** A call is recorded as returned exactly when the callback did not raise on its directory. */
  predicate OkReflects(fails: Path -> bool, calls: seq<Call>)
  {
    forall i :: 0 <= i < |calls| ==> calls[i].ok == !fails(calls[i].dir)
  }

  lemma StepOk(t: DirTree, fails: Path -> bool, recursive: bool, follow: bool, w: WalkState)
    requires w.queue != [] && OkReflects(fails, w.calls)
    ensures OkReflects(fails, Step(t, fails, recursive, follow, w).calls)
  {
  }

  lemma {:induction false} RunOk(t: DirTree, fails: Path -> bool, recursive: bool, follow: bool, q0: seq<Path>, w: WalkState)
    requires InUniverse(t, q0, w.queue) && OkReflects(fails, w.calls)
    ensures OkReflects(fails, Run(t, fails, recursive, follow, q0, w).calls)
    decreases KeySpace(t, q0) - w.paths, |w.queue|
  {
    if w.queue != [] {
      StepInUniverse(t, fails, recursive, follow, q0, w);
      StepOk(t, fails, recursive, follow, w);
      RunOk(t, fails, recursive, follow, q0, Step(t, fails, recursive, follow, w));
    }
  }

  /** The walk records each callback's outcome faithfully. */
  lemma WalkOkMatchesCallback(t: DirTree, fails: Path -> bool, recursive: bool, follow: bool,
                              q0: seq<Path>, paths0: set<Path>, inodes0: set<InodeKey>)
    ensures OkReflects(fails, Walk(t, fails, recursive, follow, q0, paths0, inodes0).calls)
  {
    InitialInUniverse(t, q0);
    RunOk(t, fails, recursive, follow, q0, WalkState(q0, paths0, inodes0, [], []));
  }

  lemma {:induction false} ChildInAll(calls: seq<Call>, i: int, p: Path)
    requires 0 <= i < |calls| && p in calls[i].children
    ensures p in AllChildren(calls)
    decreases |calls|
  {
    if i < |calls| - 1 {
      assert calls[..|calls| - 1][i] == calls[i];
      ChildInAll(calls[..|calls| - 1], i, p);
    }
  }

  /** Two paths name the same directory: the same resolved path, or the same inode where stat works on both. */
  predicate SameIdentity(t: DirTree, a: Path, b: Path)
  {
    Key(t, a) == Key(t, b)
    || (t.inode(a).Some? && t.inode(b).Some? && t.inode(a).value == t.inode(b).value)
  }

  /** Some callback invocation was for a directory with the identity of `p`. */
  predicate CalledIdentity(t: DirTree, calls: seq<Call>, p: Path)
  {
    exists j :: 0 <= j < |calls| && SameIdentity(t, calls[j].dir, p)
  }

  /**
   * A directory `root` lists a link `a`, then a real directory `z` that the
   * link resolves to (same resolved path, same inode), and `root` itself is
   * a different directory.
   */
  predicate LinkBeforeTarget(t: DirTree, root: Path, a: Path, z: Path)
  {
    && root in t.listing && t.listing[root] == [Entry(a, Directory), Entry(z, Directory)]
    && !t.isLink(root) && t.isLink(a) && !t.isLink(z)
    && Key(t, a) == Key(t, z) && t.inode(a) == t.inode(z)
    && !SameIdentity(t, root, z)
  }

  /** Such a tree: below `root`, `a` is a link resolving to its sibling `z`; stat gives no inodes. */
  function HiddenTargetTree(root: Path): DirTree
  {
    var a := root + ["a"];
    var z := root + ["z"];
    DirTree(map[root := [Entry(a, Directory), Entry(z, Directory)]],
            p => Some(if p == a then z else p), p => None, p => p == a, p => true)
  }

  lemma HiddenTargetTreeFits(root: Path)
    ensures LinkBeforeTarget(HiddenTargetTree(root), root, root + ["a"], root + ["z"])
  {
    var a := root + ["a"];
    var z := root + ["z"];
    assert |root| < |a| && |a| == |z| && a[|root|] != z[|root|];
  }

  /**
   * The walk as written marks a directory before asking the link policy, so
   * a link that is not followed still records its target. The real directory
   * `z` listed after such a link is then taken for a loop: it is an ordinary
   * sub-directory of a directory whose callback returned, nothing had visited
   * it before the walk, and yet no callback is ever made for it.
   */
  lemma LinkMarkHidesTarget(t: DirTree, root: Path, a: Path, z: Path)
    requires LinkBeforeTarget(t, root, a, z)
    ensures var w := Walk(t, NeverFails, true, false, [root], {}, {});
      && w.calls == [Call(root, true, [a, z])]
      && Entry(z, Directory) in t.listing[root] && ShouldFollowLink(t, z, false)
      && !Visited(t, {}, {}, z) && !CalledIdentity(t, w.calls, z)
  {
    var q0 := [root];
    var calls := [Call(root, true, [a, z])];
    var w0 := WalkState(q0, {}, {}, [], []);
    var w1 := WalkState([a, z], {Key(t, root)}, MarkInode(t, {}, root), calls, [root]);
    var w2 := WalkState([z], {Key(t, root), Key(t, z)}, MarkInode(t, MarkInode(t, {}, root), z), calls, [root, a]);
    var w3 := WalkState([], w2.paths, w2.inodes, calls, [root, a, z]);
    LinkTargetFirstStep(t, root, a, z);
    LinkTargetLaterSteps(t, root, a, z);
    InitialInUniverse(t, q0);
    StepInUniverse(t, NeverFails, true, false, q0, w0);
    StepInUniverse(t, NeverFails, true, false, q0, w1);
    StepInUniverse(t, NeverFails, true, false, q0, w2);
    assert Run(t, NeverFails, true, false, q0, w2) == w3;
    assert Run(t, NeverFails, true, false, q0, w0) == w3;
  }

  /** The link is marked (recording its target) but not entered; the target then counts as visited. */
  lemma LinkTargetLaterSteps(t: DirTree, root: Path, a: Path, z: Path)
    requires LinkBeforeTarget(t, root, a, z)
    ensures var calls := [Call(root, true, [a, z])];
      var w2 := WalkState([z], {Key(t, root), Key(t, z)}, MarkInode(t, MarkInode(t, {}, root), z), calls, [root, a]);
      && Step(t, NeverFails, true, false, WalkState([a, z], {Key(t, root)}, MarkInode(t, {}, root), calls, [root])) == w2
      && Step(t, NeverFails, true, false, w2) == WalkState([], w2.paths, w2.inodes, calls, [root, a, z])
  {
  }

  /** The root's callback returns and queues the link, then its target. */
  lemma LinkTargetFirstStep(t: DirTree, root: Path, a: Path, z: Path)
    requires LinkBeforeTarget(t, root, a, z)
    ensures Step(t, NeverFails, true, false, WalkState([root], {}, {}, [], []))
         == WalkState([a, z], {Key(t, root)}, MarkInode(t, {}, root), [Call(root, true, [a, z])], [root])
  {
    LinkTargetQueued(t, root, a, z);
    assert {} + {Key(t, root)} == {Key(t, root)} && [root][1..] + [a, z] == [a, z] && [] + [root] == [root];
    StepProcessed(t, NeverFails, true, false, WalkState([root], {}, {}, [], []));
  }

  /** Once the root is marked, neither the link nor its target counts as visited, so both are queued. */
  lemma LinkTargetQueued(t: DirTree, root: Path, a: Path, z: Path)
    requires LinkBeforeTarget(t, root, a, z)
    ensures FilterSubdirs(t, t.listing[root], {Key(t, root)}, MarkInode(t, {}, root)) == [a, z]
  {
    var paths := {Key(t, root)};
    var inodes := MarkInode(t, {}, root);
    assert t.listing[root] == [Entry(a, Directory)] + [Entry(z, Directory)];
    FilterSubdirsAppend(t, [Entry(a, Directory)], [Entry(z, Directory)], paths, inodes);
    FilterSubdirsOne(t, Entry(a, Directory), paths, inodes);
    FilterSubdirsOne(t, Entry(z, Directory), paths, inodes);
  }

  /**
   * One turn of the loop in the intended order: the link policy is asked
   * before the directory is marked, so a link that is not followed leaves no
   * trace in the visited sets. Otherwise the turn is `Step`.
   */
  function StepPolicyFirst(t: DirTree, fails: Path -> bool, recursive: bool, follow: bool, w: WalkState): WalkState
    requires w.queue != []
  {
    var d := w.queue[0];
    if !Visited(t, w.paths, w.inodes, d) && !ShouldFollowLink(t, d, follow) then
      w.(queue := w.queue[1..], dequeued := w.dequeued + [d])
    else
      Step(t, fails, recursive, follow, w)
  }

  lemma StepPolicyFirstInUniverse(t: DirTree, fails: Path -> bool, recursive: bool, follow: bool, q0: seq<Path>, w: WalkState)
    requires w.queue != [] && InUniverse(t, q0, w.queue)
    ensures InUniverse(t, q0, StepPolicyFirst(t, fails, recursive, follow, w).queue)
    ensures var w' := StepPolicyFirst(t, fails, recursive, follow, w);
      (KeySpace(t, q0) - w'.paths < KeySpace(t, q0) - w.paths)
      || (KeySpace(t, q0) - w'.paths == KeySpace(t, q0) - w.paths && |w'.queue| < |w.queue|)
  {
    var d := w.queue[0];
    if !Visited(t, w.paths, w.inodes, d) && !ShouldFollowLink(t, d, follow) {
      assert forall i :: 0 <= i < |w.queue| - 1 ==> w.queue[1..][i] == w.queue[i + 1];
    } else {
      StepInUniverse(t, fails, recursive, follow, q0, w);
    }
  }

  /** The loop in the intended order, run to the end. */
  function RunPolicyFirst(t: DirTree, fails: Path -> bool, recursive: bool, follow: bool, q0: seq<Path>, w: WalkState): (r: WalkState)
    requires InUniverse(t, q0, w.queue)
    ensures r.queue == []
    decreases KeySpace(t, q0) - w.paths, |w.queue|
  {
    if w.queue == [] then w
    else
      StepPolicyFirstInUniverse(t, fails, recursive, follow, q0, w);
      RunPolicyFirst(t, fails, recursive, follow, q0, StepPolicyFirst(t, fails, recursive, follow, w))
  }

  /** The walk in the intended order, started with queue q0 and the given visited sets. */
  function WalkPolicyFirst(t: DirTree, fails: Path -> bool, recursive: bool, follow: bool,
                           q0: seq<Path>, paths0: set<Path>, inodes0: set<InodeKey>): (r: WalkState)
    ensures r.queue == []
  {
    InitialInUniverse(t, q0);
    RunPolicyFirst(t, fails, recursive, follow, q0, WalkState(q0, paths0, inodes0, [], []))
  }

  /** Every marked resolved path and inode was there at the start or belongs to a call's directory. */
  predicate MarksFromCalls(t: DirTree, paths0: set<Path>, inodes0: set<InodeKey>, w: WalkState)
  {
    && (forall p :: p in w.paths ==> p in paths0 || exists j :: 0 <= j < |w.calls| && Key(t, w.calls[j].dir) == p)
    && (forall k :: k in w.inodes ==> k in inodes0 || exists j :: 0 <= j < |w.calls| && t.inode(w.calls[j].dir) == Some(k))
  }

  /** Each dequeued directory is visited by now, unless the link policy refused it. */
  predicate DequeuedVisitedOrRefused(t: DirTree, follow: bool, w: WalkState)
  {
    forall i :: 0 <= i < |w.dequeued| ==>
      Visited(t, w.paths, w.inodes, w.dequeued[i]) || !ShouldFollowLink(t, w.dequeued[i], follow)
  }

  /** The invariant of the walk in the intended order. */
  predicate PolicyFirstInv(t: DirTree, recursive: bool, follow: bool, q0: seq<Path>,
                           paths0: set<Path>, inodes0: set<InodeKey>, w: WalkState)
  {
    && q0 + AllChildren(w.calls) == w.dequeued + w.queue
    && DequeuedVisitedOrRefused(t, follow, w)
    && Marked(t, w)
    && DistinctIdentities(t, w.calls)
    && (forall i :: 0 <= i < |w.calls| ==> CallShape(t, recursive, follow, w.calls[i]))
    && Covered(t, recursive, w)
    && MarksFromCalls(t, paths0, inodes0, w)
  }

  /** `Step` keeps every call's directory marked and the calls' identities distinct. */
  lemma StepKeepsDistinct(t: DirTree, fails: Path -> bool, recursive: bool, follow: bool, w: WalkState)
    requires w.queue != []
    requires Marked(t, w) && DistinctIdentities(t, w.calls)
    ensures var w' := Step(t, fails, recursive, follow, w);
      Marked(t, w') && DistinctIdentities(t, w'.calls)
  {
    var w' := Step(t, fails, recursive, follow, w);
    StepMonotone(t, fails, recursive, follow, w);
    if w'.calls != w.calls {
      assert !Visited(t, w.paths, w.inodes, w.queue[0]);
      assert w'.calls[|w.calls|].dir == w.queue[0];
    }
  }

  /** `Step` on a directory the link policy allows, or one already visited, marks only call directories. */
  lemma StepMarksFromCalls(t: DirTree, fails: Path -> bool, recursive: bool, follow: bool,
                           paths0: set<Path>, inodes0: set<InodeKey>, w: WalkState)
    requires w.queue != [] && MarksFromCalls(t, paths0, inodes0, w)
    requires Visited(t, w.paths, w.inodes, w.queue[0]) || ShouldFollowLink(t, w.queue[0], follow)
    ensures MarksFromCalls(t, paths0, inodes0, Step(t, fails, recursive, follow, w))
  {
    var w' := Step(t, fails, recursive, follow, w);
    var d := w.queue[0];
    if !Visited(t, w.paths, w.inodes, d) {
      var n := |w.calls|;
      assert w'.calls[..n] == w.calls && |w'.calls| == n + 1 && w'.calls[n].dir == d;
      forall p | p in w'.paths
        ensures p in paths0 || exists j :: 0 <= j < |w'.calls| && Key(t, w'.calls[j].dir) == p
      {
        if p in w.paths && p !in paths0 {
          var j :| 0 <= j < |w.calls| && Key(t, w.calls[j].dir) == p;
          assert w'.calls[j] == w.calls[j];
        } else if p !in w.paths {
          assert Key(t, w'.calls[n].dir) == p;
        }
      }
      forall k | k in w'.inodes
        ensures k in inodes0 || exists j :: 0 <= j < |w'.calls| && t.inode(w'.calls[j].dir) == Some(k)
      {
        if k in w.inodes && k !in inodes0 {
          var j :| 0 <= j < |w.calls| && t.inode(w.calls[j].dir) == Some(k);
          assert w'.calls[j] == w.calls[j];
        } else if k !in w.inodes {
          assert t.inode(w'.calls[n].dir) == Some(k);
        }
      }
    }
  }

  lemma StepPolicyFirstDequeued(t: DirTree, fails: Path -> bool, recursive: bool, follow: bool, w: WalkState)
    requires w.queue != [] && DequeuedVisitedOrRefused(t, follow, w)
    ensures DequeuedVisitedOrRefused(t, follow, StepPolicyFirst(t, fails, recursive, follow, w))
  {
    var w' := StepPolicyFirst(t, fails, recursive, follow, w);
    var d := w.queue[0];
    if Visited(t, w.paths, w.inodes, d) || ShouldFollowLink(t, d, follow) {
      StepMonotone(t, fails, recursive, follow, w);
      forall i | 0 <= i < |w'.dequeued|
        ensures Visited(t, w'.paths, w'.inodes, w'.dequeued[i]) || !ShouldFollowLink(t, w'.dequeued[i], follow)
      {
        if i < |w.dequeued| {
          if Visited(t, w.paths, w.inodes, w.dequeued[i]) {
            VisitedMonotone(t, w.paths, w.inodes, w'.paths, w'.inodes, w.dequeued[i]);
          }
        } else if Visited(t, w.paths, w.inodes, d) {
          VisitedMonotone(t, w.paths, w.inodes, w'.paths, w'.inodes, d);
        } else {
          assert Key(t, d) in w'.paths;
        }
      }
    }
  }

  lemma StepPolicyFirstInv(t: DirTree, fails: Path -> bool, recursive: bool, follow: bool, q0: seq<Path>,
                           paths0: set<Path>, inodes0: set<InodeKey>, w: WalkState)
    requires w.queue != [] && PolicyFirstInv(t, recursive, follow, q0, paths0, inodes0, w)
    ensures PolicyFirstInv(t, recursive, follow, q0, paths0, inodes0, StepPolicyFirst(t, fails, recursive, follow, w))
  {
    var d := w.queue[0];
    StepPolicyFirstDequeued(t, fails, recursive, follow, w);
    if !Visited(t, w.paths, w.inodes, d) && !ShouldFollowLink(t, d, follow) {
      assert w.queue == [d] + w.queue[1..];
      FifoAppend(q0, AllChildren(w.calls), w.dequeued, d, w.queue[1..], []);
      assert AllChildren(w.calls) + [] == AllChildren(w.calls) && w.queue[1..] + [] == w.queue[1..];
    } else {
      StepFifo(t, fails, recursive, follow, q0, w);
      StepKeepsDistinct(t, fails, recursive, follow, w);
      StepShape(t, fails, recursive, follow, w);
      StepMarksFromCalls(t, fails, recursive, follow, paths0, inodes0, w);
    }
  }

  lemma {:induction false} RunPolicyFirstInv(t: DirTree, fails: Path -> bool, recursive: bool, follow: bool, q0: seq<Path>,
                                             paths0: set<Path>, inodes0: set<InodeKey>, w: WalkState)
    requires InUniverse(t, q0, w.queue) && PolicyFirstInv(t, recursive, follow, q0, paths0, inodes0, w)
    ensures PolicyFirstInv(t, recursive, follow, q0, paths0, inodes0, RunPolicyFirst(t, fails, recursive, follow, q0, w))
    decreases KeySpace(t, q0) - w.paths, |w.queue|
  {
    if w.queue != [] {
      StepPolicyFirstInUniverse(t, fails, recursive, follow, q0, w);
      StepPolicyFirstInv(t, fails, recursive, follow, q0, paths0, inodes0, w);
      RunPolicyFirstInv(t, fails, recursive, follow, q0, paths0, inodes0, StepPolicyFirst(t, fails, recursive, follow, w));
    }
  }

  /**
   * With the link policy asked before marking, the walk reaches every real
   * directory exactly once: no two callbacks share an identity, and every
   * sub-directory the policy allows, listed by a directory whose callback
   * returned, was visited before the walk or shares its identity with a
   * directory the callback was invoked for.
   */
  lemma PolicyFirstWalkComplete(t: DirTree, fails: Path -> bool, follow: bool,
                                q0: seq<Path>, paths0: set<Path>, inodes0: set<InodeKey>)
    ensures var w := WalkPolicyFirst(t, fails, true, follow, q0, paths0, inodes0);
      && DistinctIdentities(t, w.calls)
      && forall i, e :: 0 <= i < |w.calls| && w.calls[i].ok && w.calls[i].dir in t.listing
                        && e in t.listing[w.calls[i].dir] && e.kind == Directory && ShouldFollowLink(t, e.path, follow) ==>
           Visited(t, paths0, inodes0, e.path) || CalledIdentity(t, w.calls, e.path)
  {
    var w0 := WalkState(q0, paths0, inodes0, [], []);
    assert q0 + AllChildren([]) == w0.dequeued + w0.queue;
    InitialInUniverse(t, q0);
    RunPolicyFirstInv(t, fails, true, follow, q0, paths0, inodes0, w0);
    var w := WalkPolicyFirst(t, fails, true, follow, q0, paths0, inodes0);
    forall i, e | 0 <= i < |w.calls| && w.calls[i].ok && w.calls[i].dir in t.listing
                  && e in t.listing[w.calls[i].dir] && e.kind == Directory && ShouldFollowLink(t, e.path, follow)
      ensures Visited(t, paths0, inodes0, e.path) || CalledIdentity(t, w.calls, e.path)
    {
      if e.path in w.calls[i].children {
        ChildInAll(w.calls, i, e.path);
        assert w.dequeued + [] == q0 + AllChildren(w.calls);
        assert e.path in q0 + AllChildren(w.calls);
        assert e.path in w.dequeued;
      }
      assert Visited(t, w.paths, w.inodes, e.path);
      VisitedFromCalls(t, paths0, inodes0, w, e.path);
    }
  }

  /** A path visited at the end of such a walk was visited at the start or shares a call's identity. */
  lemma VisitedFromCalls(t: DirTree, paths0: set<Path>, inodes0: set<InodeKey>, w: WalkState, p: Path)
    requires MarksFromCalls(t, paths0, inodes0, w) && Visited(t, w.paths, w.inodes, p)
    ensures Visited(t, paths0, inodes0, p) || CalledIdentity(t, w.calls, p)
  {
    if Key(t, p) in w.paths && Key(t, p) !in paths0 {
      var j :| 0 <= j < |w.calls| && Key(t, w.calls[j].dir) == Key(t, p);
      assert SameIdentity(t, w.calls[j].dir, p);
    } else if Key(t, p) !in w.paths && t.inode(p).value !in inodes0 {
      var j :| 0 <= j < |w.calls| && t.inode(w.calls[j].dir) == Some(t.inode(p).value);
      assert SameIdentity(t, w.calls[j].dir, p);
    }
  }

  /** The callback that never raises, as in count_dirs_and_files. */
  function NeverFails(p: Path): bool
  {
    false
  }

  class SymlinkHandler {
    var visitedPaths: set<Path>
    var visitedInodes: set<InodeKey>

    constructor()
      ensures visitedPaths == {} && visitedInodes == {}
    {
      visitedPaths := {};
      visitedInodes := {};
    }

    predicate IsVisited(t: DirTree, p: Path)
      reads this
    {
      Visited(t, visitedPaths, visitedInodes, p)
    }

    /** mark_visited: records the resolved path and, where stat works, the inode. */
    method MarkVisited(t: DirTree, p: Path)
      modifies this
      ensures visitedPaths == old(visitedPaths) + {Key(t, p)}
      ensures visitedInodes == MarkInode(t, old(visitedInodes), p)
      ensures IsVisited(t, p)
    {
      visitedPaths := visitedPaths + {Key(t, p)};
      match t.inode(p) {
        case Some(k) => visitedInodes := visitedInodes + {k};
        case None =>
      }
    }
  }

  class FIFODirectoryWalker {
    var processingQueue: seq<Path>
    const symlinkHandler: SymlinkHandler
    const followSymlinks: bool
    var processedCount: nat

    constructor(followSymlinks: bool)
      ensures processingQueue == [] && processedCount == 0 && this.followSymlinks == followSymlinks
      ensures fresh(symlinkHandler) && symlinkHandler.visitedPaths == {} && symlinkHandler.visitedInodes == {}
    {
      processingQueue := [];
      symlinkHandler := new SymlinkHandler();
      this.followSymlinks := followSymlinks;
      processedCount := 0;
    }

    function Current(calls: seq<Call>, dequeued: seq<Path>): WalkState
      reads this, symlinkHandler
    {
      WalkState(processingQueue, symlinkHandler.visitedPaths, symlinkHandler.visitedInodes, calls, dequeued)
    }

    /**
     * walk_and_process: returns the callback invocations in order. The queue
     * ends empty, the visited sets and the invocations are those of `Walk`, and
     * processed_count grows by the number of invocations that returned.
     */
    method WalkAndProcess(t: DirTree, root: Path, fails: Path -> bool, recursive: bool) returns (calls: seq<Call>)
      modifies this, symlinkHandler
      ensures var w := Walk(t, fails, recursive, followSymlinks, old(processingQueue) + [root],
                            old(symlinkHandler.visitedPaths), old(symlinkHandler.visitedInodes));
        && calls == w.calls
        && processingQueue == []
        && symlinkHandler.visitedPaths == w.paths
        && symlinkHandler.visitedInodes == w.inodes
        && processedCount == old(processedCount) + OkCount(w.calls)
    {
      processingQueue := processingQueue + [root];
      ghost var q0 := processingQueue;
      ghost var dequeued: seq<Path> := [];
      ghost var w0 := Current([], []);
      calls := [];
      InitialInUniverse(t, q0);
      while processingQueue != []
        invariant InUniverse(t, q0, processingQueue)
        invariant Run(t, fails, recursive, followSymlinks, q0, Current(calls, dequeued))
               == Run(t, fails, recursive, followSymlinks, q0, w0)
        invariant processedCount == old(processedCount) + OkCount(calls)
        decreases KeySpace(t, q0) - symlinkHandler.visitedPaths, |processingQueue|
      {
        ghost var before := Current(calls, dequeued);
        StepInUniverse(t, fails, recursive, followSymlinks, q0, before);
        calls, dequeued := ProcessHead(t, fails, recursive, calls, dequeued);
      }
    }

    /** One turn of the loop: take the head of the queue and handle it as `Step` does. */
    method ProcessHead(t: DirTree, fails: Path -> bool, recursive: bool, calls: seq<Call>, ghost dequeued: seq<Path>)
      returns (calls': seq<Call>, ghost dequeued': seq<Path>)
      requires processingQueue != []
      modifies this, symlinkHandler
      ensures Current(calls', dequeued') == Step(t, fails, recursive, followSymlinks, old(Current(calls, dequeued)))
      ensures processedCount + OkCount(calls) == old(processedCount) + OkCount(calls')
    {
      ghost var before := Current(calls, dequeued);
      calls' := calls;
      var currentDir := processingQueue[0];
      processingQueue := processingQueue[1..];
      dequeued' := dequeued + [currentDir];
      if !symlinkHandler.IsVisited(t, currentDir) {
        symlinkHandler.MarkVisited(t, currentDir);
        if ShouldFollowLink(t, currentDir, followSymlinks) {
          if fails(currentDir) {
            calls' := calls + [Call(currentDir, false, [])];
            assert calls'[..|calls'| - 1] == calls;
          } else {
            processedCount := processedCount + 1;
            var subdirs: seq<Path> := [];
            if recursive && currentDir in t.listing {
              subdirs := FilterSubdirs(t, t.listing[currentDir],
                                       symlinkHandler.visitedPaths, symlinkHandler.visitedInodes);
            }
            processingQueue := processingQueue + subdirs;
            calls' := calls + [Call(currentDir, true, subdirs)];
            assert calls'[..|calls'| - 1] == calls;
          }
        }
      }
    }
  }

  /** The files of a listing that are counted: regular files the filter includes. */
  function IncludedFiles(es: seq<Entry>, includes: seq<string>, excludes: seq<string>,
                         matches: (Path, string) -> bool): nat
  {
    if es == [] then 0
    else
      var e := es[|es| - 1];
      IncludedFiles(es[..|es| - 1], includes, excludes, matches)
        + (if e.kind == RegularFile && ShouldIncludeFile(e.path, includes, excludes, matches) then 1 else 0)
  }

  /** The files counted over the directories of a walk whose listing succeeds. */
  function FilesOfCalls(t: DirTree, calls: seq<Call>, includes: seq<string>, excludes: seq<string>,
                        matches: (Path, string) -> bool): nat
  {
    if calls == [] then 0
    else
      var d := calls[|calls| - 1].dir;
      FilesOfCalls(t, calls[..|calls| - 1], includes, excludes, matches)
        + (if d in t.listing then IncludedFiles(t.listing[d], includes, excludes, matches) else 0)
  }

  /** The inner loop of count_dirs_and_files over one listing: included files counted, unvisited sub-directories collected. */
  method ScanListing(t: DirTree, items: seq<Entry>, handler: SymlinkHandler, includes: seq<string>,
                     excludes: seq<string>, matches: (Path, string) -> bool, recursive: bool)
    returns (files: nat, subdirs: seq<Path>)
    ensures files == IncludedFiles(items, includes, excludes, matches)
    ensures subdirs == if recursive then FilterSubdirs(t, items, handler.visitedPaths, handler.visitedInodes) else []
  {
    files, subdirs := 0, [];
    for i := 0 to |items|
      invariant files == IncludedFiles(items[..i], includes, excludes, matches)
      invariant subdirs == if recursive then FilterSubdirs(t, items[..i], handler.visitedPaths, handler.visitedInodes) else []
    {
      var item := items[i];
      assert items[..i + 1] == items[..i] + [item];
      if item.kind == RegularFile {
        if ShouldIncludeFile(item.path, includes, excludes, matches) {
          files := files + 1;
        }
      } else if item.kind == Directory && !handler.IsVisited(t, item.path) {
        if recursive {
          subdirs := subdirs + [item.path];
        }
      }
    }
    assert items[..|items|] == items;
  }

  /**
   * count_dirs_and_files: the same queue discipline with no callback. It
   * counts exactly the directories a walk whose callback never raises would
   * process, and the included regular files directly inside them.
   */
  method CountDirsAndFiles(t: DirTree, root: Path, includes: seq<string>, excludes: seq<string>,
                           matches: (Path, string) -> bool, follow: bool, recursive: bool)
    returns (totalDirs: nat, totalFiles: nat)
    ensures var w := Walk(t, NeverFails, recursive, follow, [root], {}, {});
      totalDirs == |w.calls| && totalFiles == FilesOfCalls(t, w.calls, includes, excludes, matches)
  {
    var handler := new SymlinkHandler();
    var queue := [root];
    ghost var q0 := queue;
    ghost var calls: seq<Call> := [];
    ghost var dequeued: seq<Path> := [];
    ghost var w0 := WalkState(queue, {}, {}, [], []);
    totalDirs, totalFiles := 0, 0;
    InitialInUniverse(t, q0);
    while queue != []
      invariant InUniverse(t, q0, queue)
      invariant Run(t, NeverFails, recursive, follow, q0, WalkState(queue, handler.visitedPaths, handler.visitedInodes, calls, dequeued))
             == Run(t, NeverFails, recursive, follow, q0, w0)
      invariant totalDirs == |calls| && totalFiles == FilesOfCalls(t, calls, includes, excludes, matches)
      decreases KeySpace(t, q0) - handler.visitedPaths, |queue|
    {
      ghost var before := WalkState(queue, handler.visitedPaths, handler.visitedInodes, calls, dequeued);
      StepInUniverse(t, NeverFails, recursive, follow, q0, before);
      queue, calls, dequeued, totalDirs, totalFiles :=
        CountHead(t, handler, queue, calls, dequeued, totalDirs, totalFiles, includes, excludes, matches, follow, recursive);
    }
  }

  /** One turn of the counting loop: take the head of the queue and handle it as `Step` does with no callback. */
  method CountHead(t: DirTree, handler: SymlinkHandler, queue: seq<Path>, ghost calls: seq<Call>, ghost dequeued: seq<Path>,
                   totalDirs: nat, totalFiles: nat, includes: seq<string>, excludes: seq<string>,
                   matches: (Path, string) -> bool, follow: bool, recursive: bool)
    returns (queue': seq<Path>, ghost calls': seq<Call>, ghost dequeued': seq<Path>, totalDirs': nat, totalFiles': nat)
    requires queue != []
    requires totalDirs == |calls| && totalFiles == FilesOfCalls(t, calls, includes, excludes, matches)
    modifies handler
    ensures WalkState(queue', handler.visitedPaths, handler.visitedInodes, calls', dequeued')
         == Step(t, NeverFails, recursive, follow, WalkState(queue, old(handler.visitedPaths), old(handler.visitedInodes), calls, dequeued))
    ensures totalDirs' == |calls'| && totalFiles' == FilesOfCalls(t, calls', includes, excludes, matches)
  {
    ghost var before := WalkState(queue, handler.visitedPaths, handler.visitedInodes, calls, dequeued);
    queue', calls', totalDirs', totalFiles' := queue, calls, totalDirs, totalFiles;
    var currentDir := queue'[0];
    queue' := queue'[1..];
    dequeued' := dequeued + [currentDir];
    if !handler.IsVisited(t, currentDir) {
      handler.MarkVisited(t, currentDir);
      if ShouldFollowLink(t, currentDir, follow) {
        assert !NeverFails(currentDir);
        StepProcessed(t, NeverFails, recursive, follow, before);
        totalDirs' := totalDirs' + 1;
        var kids: seq<Path> := [];
        if currentDir in t.listing {
          var files;
          files, kids := ScanListing(t, t.listing[currentDir], handler, includes, excludes, matches, recursive);
          totalFiles' := totalFiles' + files;
          queue' := queue' + kids;
        }
        calls' := calls + [Call(currentDir, true, kids)];
        assert calls'[..|calls'| - 1] == calls;
        assert FilesOfCalls(t, calls', includes, excludes, matches)
            == totalFiles + (if currentDir in t.listing then IncludedFiles(t.listing[currentDir], includes, excludes, matches) else 0);
      }
    }
  }
}
