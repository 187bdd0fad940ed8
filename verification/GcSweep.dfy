/**
 * src/kernel.ts, `collectTenant`: the commit sweep. Each batch is one DELETE
 * statement that takes the doomed commits with the shallowest tree of doomed
 * descendants first, so no batch may leave a commit without its parent.
 */
module GcSweep {
  import opened CommitGraph

  /** What one sweep reads besides the commits: ref tips, ref bases and the grace cutoff. */
  datatype Roots = Roots(tips: set<Id>, bases: set<Id>, cutoff: int)

  /** A ref tip, or a commit still inside the grace period. */
  ghost predicate IsRoot(commits: Commits, roots: Roots, r: Id) {
    r in roots.tips || (r in commits && commits[r].createdAt > roots.cutoff)
  }

  ghost predicate Protected(commits: Commits, roots: Roots, c: Id) {
    exists r | IsRoot(commits, roots, r) :: Reaches(commits, r, c)
  }

  ghost function Doomed(commits: Commits, roots: Roots): set<Id> {
    set c | c in commits
         && commits[c].createdAt <= roots.cutoff
         && !Protected(commits, roots, c)
         && c !in roots.tips && c !in roots.bases
  }

  /** What `fork` and `merge` maintain: a base commit is an ancestor of some ref tip. */
  ghost predicate BasesReached(commits: Commits, roots: Roots) {
    && roots.tips <= commits.Keys
    && forall b | b in roots.bases :: exists t | t in roots.tips :: Reaches(commits, t, b)
  }

  /** A row of the recursive descendant query: each commit is a parent of the next. */
  predicate Chain(commits: Commits, doomed: set<Id>, s: seq<Id>) {
    && s != []
    && (forall i | 0 <= i < |s| :: s[i] in doomed)
    && (forall i | 0 <= i < |s| - 1 :: IsParent(commits, s[i], s[i + 1]))
  }

  ghost predicate IsMaxDepth(commits: Commits, doomed: set<Id>, c: Id, n: nat) {
    && (exists s :: Chain(commits, doomed, s) && s[0] == c && |s| == n + 1)
    && (forall s | Chain(commits, doomed, s) && s[0] == c :: |s| <= n + 1)
  }

  lemma {:induction false} ChainAscends(commits: Commits, doomed: set<Id>, s: seq<Id>, top: Id)
    requires Chain(commits, doomed, s)
    requires forall d | d in doomed :: d <= top
    ensures |s| <= top + 1 - s[0]
    decreases |s|
  {
    if |s| > 1 {
      assert IsParent(commits, s[0], s[1]);
      assert Chain(commits, doomed, s[1..]) by {
        forall i | 0 <= i < |s[1..]| - 1
          ensures IsParent(commits, s[1..][i], s[1..][i + 1])
        {
          assert IsParent(commits, s[i + 1], s[i + 1 + 1]);
        }
      }
      ChainAscends(commits, doomed, s[1..], top);
    }
  }

  lemma {:induction false} UpperBound(ids: set<Id>) returns (top: Id)
    ensures forall d | d in ids :: d <= top
    decreases |ids|
  {
    if ids == {} {
      top := 0;
    } else {
      var x :| x in ids;
      var rest := UpperBound(ids - {x});
      top := if x > rest then x else rest;
      forall d | d in ids
        ensures d <= top
      {
        if d != x { assert d in ids - {x}; }
      }
    }
  }

  lemma {:induction false} LongestChain(commits: Commits, doomed: set<Id>, c: Id, bound: nat) returns (n: nat)
    requires c in doomed
    requires forall s | Chain(commits, doomed, s) && s[0] == c :: |s| <= bound
    ensures IsMaxDepth(commits, doomed, c, n)
    decreases bound
  {
    assert Chain(commits, doomed, [c]);
    if exists s :: Chain(commits, doomed, s) && s[0] == c && |s| == bound {
      n := bound - 1;
    } else {
      n := LongestChain(commits, doomed, c, bound - 1);
    }
  }

  lemma MaxDepthExists(commits: Commits, doomed: set<Id>, c: Id)
    requires c in doomed
    ensures exists n: nat :: IsMaxDepth(commits, doomed, c, n)
  {
    var top := UpperBound(doomed);
    forall s | Chain(commits, doomed, s) && s[0] == c
      ensures |s| <= top + 1
    {
      ChainAscends(commits, doomed, s, top);
    }
    var n := LongestChain(commits, doomed, c, top + 1);
  }

  /** `max(depth)` of a doomed commit's group. */
  ghost function Depth(commits: Commits, doomed: set<Id>, c: Id): (n: nat)
    requires c in doomed
    ensures IsMaxDepth(commits, doomed, c, n)
  {
    MaxDepthExists(commits, doomed, c);
    var n: nat :| IsMaxDepth(commits, doomed, c, n);
    n
  }

  /** A doomed child sorts strictly before its parent. */
  lemma ChildIsShallower(commits: Commits, doomed: set<Id>, p: Id, c: Id)
    requires p in doomed && c in doomed && IsParent(commits, p, c)
    ensures Depth(commits, doomed, c) < Depth(commits, doomed, p)
  {
    var n := Depth(commits, doomed, c);
    assert IsMaxDepth(commits, doomed, c, n);
    var s :| Chain(commits, doomed, s) && s[0] == c && |s| == n + 1;
    var longer := [p] + s;
    assert Chain(commits, doomed, longer) by {
      forall i | 0 <= i < |longer| - 1
        ensures IsParent(commits, longer[i], longer[i + 1])
      {
        if i > 0 { assert IsParent(commits, s[i - 1], s[i - 1 + 1]); }
      }
    }
    assert longer[0] == p;
  }

  /** ORDER BY max(depth) ASC, ancestor_id. */
  ghost predicate Before(commits: Commits, doomed: set<Id>, x: Id, y: Id)
    requires x in doomed && y in doomed
  {
    Depth(commits, doomed, x) < Depth(commits, doomed, y)
    || (Depth(commits, doomed, x) == Depth(commits, doomed, y) && x < y)
  }

  /** The rows one statement deletes: the first `limit` of the doomed, in that order. */
  ghost predicate IsBatch(commits: Commits, doomed: set<Id>, limit: nat, batch: set<Id>) {
    && batch <= doomed
    && |batch| == (if limit < |doomed| then limit else |doomed|)
    && forall x, y | x in batch && y in doomed - batch :: Before(commits, doomed, x, y)
  }

  function Without(commits: Commits, batch: set<Id>): Commits {
    commits - batch
  }

  /** Everything built on a doomed commit is doomed too. */
  lemma ChildrenOfDoomedAreDoomed(commits: Commits, roots: Roots, d: Id, c: Id)
    requires BasesReached(commits, roots)
    requires d in Doomed(commits, roots) && IsParent(commits, d, c)
    ensures c in Doomed(commits, roots)
  {
    assert Reaches(commits, c, d) by { assert Reaches(commits, d, d); }
    if c in roots.bases {
      var t :| t in roots.tips && Reaches(commits, t, c);
      assert IsRoot(commits, roots, t);
      ReachesTransitive(commits, t, c, d);
      assert false;
    }
    forall r | IsRoot(commits, roots, r)
      ensures !Reaches(commits, r, c)
    {
      if Reaches(commits, r, c) { ReachesTransitive(commits, r, c, d); }
    }
    assert Reaches(commits, c, c);
    assert !IsRoot(commits, roots, c);
  }

  /** No batch, of any size, leaves a commit whose parent is gone. */
  lemma BatchKeepsClosed(commits: Commits, roots: Roots, limit: nat, batch: set<Id>)
    requires Closed(commits) && BasesReached(commits, roots)
    requires IsBatch(commits, Doomed(commits, roots), limit, batch)
    ensures Closed(Without(commits, batch))
  {
    var doomed := Doomed(commits, roots);
    var left := Without(commits, batch);
    forall id, i | id in left && 0 <= i < |left[id].parents|
      ensures left[id].parents[i] in left && left[id].parents[i] < id
    {
      var p := commits[id].parents[i];
      assert IsParent(commits, p, id);
      if p in batch {
        ChildrenOfDoomedAreDoomed(commits, roots, p, id);
        assert id in doomed - batch;
        ChildIsShallower(commits, doomed, p, id);
        assert false;
      }
    }
  }

  /** Deleting doomed rows changes no surviving commit's ancestry, so nothing else becomes doomed or is spared. */
  lemma BatchKeepsRest(commits: Commits, roots: Roots, batch: set<Id>)
    requires Closed(commits) && BasesReached(commits, roots)
    requires batch <= Doomed(commits, roots)
    ensures BasesReached(Without(commits, batch), roots)
    ensures forall c :: Protected(Without(commits, batch), roots, c) <==> Protected(commits, roots, c)
    ensures Doomed(Without(commits, batch), roots) == Doomed(commits, roots) - batch
  {
    var left := Without(commits, batch);
    forall r, c | IsRoot(commits, roots, r)
      ensures r in commits && r in left
      ensures Reaches(commits, r, c) <==> Reaches(left, r, c)
    {
      RootKeepsAncestry(commits, roots, batch, r, c);
    }
    forall r
      ensures IsRoot(left, roots, r) <==> IsRoot(commits, roots, r)
    {
    }
  }

  lemma RootKeepsAncestry(commits: Commits, roots: Roots, batch: set<Id>, r: Id, c: Id)
    requires Closed(commits) && BasesReached(commits, roots)
    requires batch <= Doomed(commits, roots) && IsRoot(commits, roots, r)
    ensures r in commits && r in Without(commits, batch)
    ensures Reaches(commits, r, c) <==> Reaches(Without(commits, batch), r, c)
  {
    assert Reaches(commits, r, r);
    assert Protected(commits, roots, r);
    ReachesSame(commits, Without(commits, batch), r, c);
  }

  lemma {:induction false} FirstOf(commits: Commits, doomed: set<Id>, among: set<Id>) returns (x: Id)
    requires among != {} && among <= doomed
    ensures x in among && forall y | y in among && y != x :: Before(commits, doomed, x, y)
    decreases |among|
  {
    x :| x in among;
    if among != {x} {
      var rest := among - {x};
      var z := FirstOf(commits, doomed, rest);
      if !Before(commits, doomed, x, z) { x := z; }
      forall y | y in among && y != x
        ensures Before(commits, doomed, x, y)
      {
        if y != z { assert y in rest || Before(commits, doomed, z, y); }
      }
    }
  }

  /** The batch the statement takes, whatever the limit. */
  ghost method SelectBatch(commits: Commits, doomed: set<Id>, limit: nat) returns (batch: set<Id>)
    ensures IsBatch(commits, doomed, limit, batch)
  {
    batch := {};
    while |batch| < limit && batch != doomed
      invariant batch <= doomed && |batch| <= limit && |batch| <= |doomed|
      invariant forall x, y | x in batch && y in doomed - batch :: Before(commits, doomed, x, y)
      decreases |doomed| - |batch|
    {
      var x := FirstOf(commits, doomed, doomed - batch);
      assert |doomed - batch| == |doomed| - |batch|;
      batch := batch + {x};
      assert |doomed - batch| == |doomed| - |batch|;
    }
    assert |doomed - batch| == |doomed| - |batch|;
  }

  /** What every committed batch boundary of a sweep that began at `before` satisfies. */
  ghost predicate AtBoundary(before: Commits, roots: Roots, commits: Commits) {
    && Closed(commits) && BasesReached(commits, roots)
    && commits.Keys <= before.Keys
    && (forall c | c in commits :: commits[c] == before[c])
    && (forall c :: Protected(commits, roots, c) <==> Protected(before, roots, c))
    && (forall c | c in before && Protected(before, roots, c) :: c in commits)
  }

  lemma BatchReachesBoundary(before: Commits, roots: Roots, commits: Commits, limit: nat, batch: set<Id>)
    requires AtBoundary(before, roots, commits)
    requires IsBatch(commits, Doomed(commits, roots), limit, batch)
    ensures AtBoundary(before, roots, Without(commits, batch))
    ensures |Without(commits, batch)| == |commits| - |batch|
  {
    BatchKeepsClosed(commits, roots, limit, batch);
    BatchKeepsRest(commits, roots, batch);
    assert Without(commits, batch).Keys == commits.Keys - batch;
  }

  /** At a boundary with nothing doomed, what is left is exactly what the roots protect. */
  lemma NothingDoomedIsDone(before: Commits, roots: Roots, commits: Commits)
    requires AtBoundary(before, roots, commits) && Doomed(commits, roots) == {}
    ensures commits == map c | c in before && Protected(before, roots, c) :: before[c]
  {
    forall c | c in commits
      ensures Protected(before, roots, c)
    {
      assert Reaches(commits, c, c);
      if c in roots.bases {
        var t :| t in roots.tips && Reaches(commits, t, c);
        assert IsRoot(commits, roots, t);
      } else if c in roots.tips {
        assert IsRoot(commits, roots, c);
      } else {
        assert c !in Doomed(commits, roots);
      }
    }
  }

  /** One transaction of the sweep: the first `limit` doomed rows go. */
  ghost predicate TakesBatch(one: Commits, next: Commits, roots: Roots, limit: nat) {
    exists batch :: IsBatch(one, Doomed(one, roots), limit, batch) && next == Without(one, batch)
  }

  /** The stores a sweep commits, from `before` on, one transaction after another. */
  ghost predicate IsSweep(before: Commits, roots: Roots, limit: nat, boundaries: seq<Commits>) {
    && boundaries != [] && boundaries[0] == before
    && forall i | 0 < i < |boundaries| :: TakesBatch(boundaries[i - 1], boundaries[i], roots, limit)
  }

  lemma {:induction false} BoundariesAreClosed(before: Commits, roots: Roots, limit: nat, boundaries: seq<Commits>, i: nat)
    requires Closed(before) && BasesReached(before, roots) && IsSweep(before, roots, limit, boundaries)
    requires i < |boundaries|
    ensures AtBoundary(before, roots, boundaries[i])
  {
    if i > 0 {
      BoundariesAreClosed(before, roots, limit, boundaries, i - 1);
      var one := boundaries[i - 1];
      assert TakesBatch(one, boundaries[i], roots, limit);
      var batch :| IsBatch(one, Doomed(one, roots), limit, batch) && boundaries[i] == Without(one, batch);
      BatchReachesBoundary(before, roots, one, limit, batch);
    }
  }

  lemma OneBoundaryMore(before: Commits, roots: Roots, limit: nat, boundaries: seq<Commits>, next: Commits)
    requires IsSweep(before, roots, limit, boundaries)
    requires TakesBatch(boundaries[|boundaries| - 1], next, roots, limit)
    ensures IsSweep(before, roots, limit, boundaries + [next])
  {
    hide TakesBatch;
  }

  /**
   * The sweep loop and the stores it commits on the way: each is closed and keeps
   * all the roots protect, the loop ends, and what is left in the last is exactly
   * the ancestors-or-self of the roots.
   */
  ghost method SweepCommits(before: Commits, roots: Roots, limit: nat)
    returns (commits: Commits, deletedCommits: nat, boundaries: seq<Commits>)
    requires Closed(before) && BasesReached(before, roots) && limit > 0
    ensures IsSweep(before, roots, limit, boundaries) && boundaries[|boundaries| - 1] == commits
    ensures forall i | 0 <= i < |boundaries| :: Closed(boundaries[i])
    ensures forall i, c | 0 <= i < |boundaries| && c in before && Protected(before, roots, c) :: c in boundaries[i]
    ensures commits == map c | c in before && Protected(before, roots, c) :: before[c]
    ensures deletedCommits == |before| - |commits|
  {
    commits, deletedCommits, boundaries := before, 0, [before];
    while true
      invariant AtBoundary(before, roots, commits)
      invariant IsSweep(before, roots, limit, boundaries) && boundaries[|boundaries| - 1] == commits
      invariant deletedCommits == |before| - |commits|
      decreases |commits|
    {
      var batch := SelectBatch(commits, Doomed(commits, roots), limit);
      BatchReachesBoundary(before, roots, commits, limit, batch);
      OneBoundaryMore(before, roots, limit, boundaries, Without(commits, batch));
      commits := Without(commits, batch);
      boundaries := boundaries + [commits];
      deletedCommits := deletedCommits + |batch|;
      if batch == {} { break; }
    }
    NothingDoomedIsDone(before, roots, commits);
    forall i | 0 <= i < |boundaries|
      ensures Closed(boundaries[i])
      ensures forall c | c in before && Protected(before, roots, c) :: c in boundaries[i]
    {
      BoundariesAreClosed(before, roots, limit, boundaries, i);
    }
  }
}
