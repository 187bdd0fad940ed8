/** src/session.ts, `mergeRef`: the three-way merge of a branch into its mount. */
module Merge {
  import opened Prelude
  import opened Coherence
  import opened Trees

  datatype Conflict = Conflict(path: Path, baseSha: Option<Sha>, oursSha: Option<Sha>, theirsSha: Option<Sha>)

  datatype MergeOutcome = Merged(tree: Tree) | Conflicts(conflicts: seq<Conflict>)

  function ShaAt(tree: Tree, path: Path): Option<Sha> {
    if path in tree then Some(tree[path].sha) else None
  }

  function ConflictAt(base: Tree, ours: Tree, theirs: Tree, path: Path): Conflict {
    Conflict(path, ShaAt(base, path), ShaAt(ours, path), ShaAt(theirs, path))
  }

  /** Both sides changed the path and they disagree. */
  predicate Clashes(base: Tree, ours: Tree, theirs: Tree, p: Path) {
    Get(ours, p) != Get(base, p) && Get(theirs, p) != Get(base, p) && Get(ours, p) != Get(theirs, p)
  }

  /** Per path: ours if ours changed it, else theirs. */
  function Chosen(base: Tree, ours: Tree, theirs: Tree, p: Path): Option<Entry> {
    if Get(ours, p) != Get(base, p) then Get(ours, p) else Get(theirs, p)
  }

  function MergedTree(base: Tree, ours: Tree, theirs: Tree): Tree {
    map p | p in ours.Keys + theirs.Keys && Chosen(base, ours, theirs, p).Some? :: Chosen(base, ours, theirs, p).value
  }

  ghost predicate Clean(base: Tree, ours: Tree, theirs: Tree) {
    forall p: Path :: !Clashes(base, ours, theirs, p)
  }

  /** The merge goes through: no path clashes and the merged tree is coherent. */
  ghost predicate Mergeable(base: Tree, ours: Tree, theirs: Tree) {
    Clean(base, ours, theirs) && Coherent(MergedTree(base, ours, theirs).Keys)
  }

  /** The paths a refused merge names. */
  ghost predicate InConflict(base: Tree, ours: Tree, theirs: Tree, p: Path) {
    if !Clean(base, ours, theirs) then Clashes(base, ours, theirs, p)
    else
      var merged := MergedTree(base, ours, theirs);
      p in merged && exists q | q in merged :: Collide(p, q)
  }

  /** What became of a path is the one side's change, or both sides' same one, or what was there before. */
  predicate Settles(base: Option<Entry>, ours: Option<Entry>, theirs: Option<Entry>, merged: Option<Entry>) {
    && (ours == base ==> merged == theirs) && (theirs == base ==> merged == ours) && (ours == theirs ==> merged == ours)
    && (ours == base || theirs == base || ours == theirs)
  }

  /** A path clashes exactly when nothing settles it; otherwise the rule chooses the one thing that does. */
  lemma ChosenSettles(base: Tree, ours: Tree, theirs: Tree, p: Path, merged: Option<Entry>)
    ensures Settles(Get(base, p), Get(ours, p), Get(theirs, p), merged) <==>
              !Clashes(base, ours, theirs, p) && merged == Chosen(base, ours, theirs, p)
  {
  }

  /** One path of the merge loop: settle it in the merged tree, or report a clash. */
  method MergePath(base: Tree, ours: Tree, theirs: Tree, merged: Tree, path: Path)
    returns (settled: Tree, clash: bool)
    requires Get(merged, path) == Get(theirs, path)
    ensures clash <==> Clashes(base, ours, theirs, path)
    ensures Get(settled, path) == if clash then Get(theirs, path) else Chosen(base, ours, theirs, path)
    ensures forall p | p != path :: Get(settled, p) == Get(merged, p)
  {
    settled, clash := merged, false;
    var b, o, t := Get(base, path), Get(ours, path), Get(theirs, path);
    if o == b { return; }
    if t == b {
      if o.Some? { settled := merged[path := o.value]; } else { settled := merged - {path}; }
      return;
    }
    if o == t { return; }
    clash := true;
  }

  /** What the merge loop has made of its two results once every path outside `rest` is settled. */
  ghost predicate SettledExcept(base: Tree, ours: Tree, theirs: Tree, rest: set<Path>, merged: Tree, clashing: set<Path>) {
    && (forall p: Path {:trigger Get(merged, p)} ::
          Get(merged, p) == if p in rest || Clashes(base, ours, theirs, p) then Get(theirs, p)
                            else Chosen(base, ours, theirs, p))
    && (forall p: Path {:trigger p in clashing} :: p in clashing <==> p !in rest && Clashes(base, ours, theirs, p))
  }

  lemma InitiallySettled(base: Tree, ours: Tree, theirs: Tree, all: set<Path>)
    requires all == base.Keys + ours.Keys + theirs.Keys
    ensures SettledExcept(base, ours, theirs, all, theirs, {})
  {
  }

  lemma SettleOne(base: Tree, ours: Tree, theirs: Tree, rest: set<Path>, path: Path,
                  merged: Tree, clashing: set<Path>, settled: Tree, clash: bool)
    requires path in rest && SettledExcept(base, ours, theirs, rest, merged, clashing)
    requires clash <==> Clashes(base, ours, theirs, path)
    requires Get(settled, path) == if clash then Get(theirs, path) else Chosen(base, ours, theirs, path)
    requires forall p | p != path :: Get(settled, p) == Get(merged, p)
    ensures SettledExcept(base, ours, theirs, rest - {path}, settled, clashing + if clash then {path} else {})
    ensures |rest - {path}| < |rest|
  {
    forall p: Path
      ensures Get(settled, p) == if p in rest - {path} || Clashes(base, ours, theirs, p) then Get(theirs, p)
                                 else Chosen(base, ours, theirs, p)
    {
      if p != path { assert Get(merged, p) == Get(settled, p); }
    }
  }

  /** The merge loop over every path of the three trees. */
  method MergePaths(base: Tree, ours: Tree, theirs: Tree, all: set<Path>) returns (merged: Tree, clashing: set<Path>)
    requires all == base.Keys + ours.Keys + theirs.Keys
    ensures SettledExcept(base, ours, theirs, {}, merged, clashing)
  {
    clashing := {};
    merged := theirs;
    InitiallySettled(base, ours, theirs, all);
    var rest := all;
    while rest != {}
      invariant SettledExcept(base, ours, theirs, rest, merged, clashing)
      decreases |rest|
    {
      var path :| path in rest;
      assert Get(merged, path) == Get(theirs, path);
      var settled, clash := MergePath(base, ours, theirs, merged, path);
      SettleOne(base, ours, theirs, rest, path, merged, clashing, settled, clash);
      merged, clashing := settled, clashing + if clash then {path} else {};
      rest := rest - {path};
    }
  }

  lemma SettledIsMerged(base: Tree, ours: Tree, theirs: Tree, merged: Tree, clashing: set<Path>)
    requires SettledExcept(base, ours, theirs, {}, merged, clashing)
    ensures forall p :: p in clashing <==> Clashes(base, ours, theirs, p)
    ensures clashing == {} ==> merged == MergedTree(base, ours, theirs)
  {
    if clashing == {} {
      forall p: Path
        ensures Get(merged, p) == Get(MergedTree(base, ours, theirs), p)
      {
        assert p !in clashing;
        assert Chosen(base, ours, theirs, p).Some? ==> p in ours.Keys + theirs.Keys;
      }
      SameLookups(merged, MergedTree(base, ours, theirs));
    }
  }

  /** Both ends of every prefix collision of the merged tree. */
  method CollidingPaths(merged: set<Path>) returns (colliding: set<Path>)
    ensures colliding == {} <==> Coherent(merged)
    ensures forall p :: p in colliding <==> p in merged && exists q | q in merged :: Collide(p, q)
  {
    var collisions := FindTreeCoherenceCollisions(merged);
    colliding := {};
    for i := 0 to |collisions|
      invariant forall p :: p in colliding <==> exists k | 0 <= k < i :: p == collisions[k].0 || p == collisions[k].1
    {
      colliding := colliding + {collisions[i].0, collisions[i].1};
    }
    forall p
      ensures p in colliding <==> p in merged && exists q | q in merged :: Collide(p, q)
    {
      if p in colliding {
        var k :| 0 <= k < |collisions| && (p == collisions[k].0 || p == collisions[k].1);
        assert collisions[k] in collisions;
      }
      if q :| p in merged && q in merged && Collide(p, q) {
        var pair := if Under(p, q) then (p, q) else (q, p);
        assert pair in collisions;
      }
    }
    if p, q :| p in merged && q in merged && Under(p, q) {
      assert Collide(p, q);
      assert p in colliding;
    }
  }

  /** The conflict records of a set of paths. */
  method Describe(base: Tree, ours: Tree, theirs: Tree, paths: set<Path>) returns (conflicts: seq<Conflict>)
    ensures forall c :: c in conflicts <==> c.path in paths && c == ConflictAt(base, ours, theirs, c.path)
    ensures conflicts == [] <==> paths == {}
  {
    conflicts := [];
    var rest := paths;
    while rest != {}
      invariant rest <= paths
      invariant forall c :: c in conflicts <==> c.path in paths - rest && c == ConflictAt(base, ours, theirs, c.path)
      invariant conflicts == [] <==> paths == rest
      decreases |rest|
    {
      var path :| path in rest;
      rest := rest - {path};
      conflicts := conflicts + [ConflictAt(base, ours, theirs, path)];
    }
  }

  method MergeTrees(base: Tree, ours: Tree, theirs: Tree) returns (outcome: MergeOutcome)
    ensures outcome.Merged? <==> Mergeable(base, ours, theirs)
    ensures outcome.Merged? ==> outcome.tree == MergedTree(base, ours, theirs)
    ensures outcome.Conflicts? ==> forall c :: c in outcome.conflicts <==>
              InConflict(base, ours, theirs, c.path) && c == ConflictAt(base, ours, theirs, c.path)
    ensures outcome.Merged? ==> forall p: Path ::
              Settles(Get(base, p), Get(ours, p), Get(theirs, p), Get(outcome.tree, p))
    ensures outcome.Conflicts? ==> outcome.conflicts != [] && forall c | c in outcome.conflicts ::
              && c.baseSha == (if c.path in base then Some(base[c.path].sha) else None)
              && c.oursSha == (if c.path in ours then Some(ours[c.path].sha) else None)
              && c.theirsSha == (if c.path in theirs then Some(theirs[c.path].sha) else None)
  {
    var merged, conflicting := MergePaths(base, ours, theirs, base.Keys + ours.Keys + theirs.Keys);
    SettledIsMerged(base, ours, theirs, merged, conflicting);
    if conflicting == {} {
      conflicting := CollidingPaths(merged.Keys);
      if conflicting == {} { return Merged(merged); }
    } else {
      var p :| p in conflicting;
      assert Clashes(base, ours, theirs, p);
    }
    var conflicts := Describe(base, ours, theirs, conflicting);
    assert forall p :: p in conflicting <==> InConflict(base, ours, theirs, p);
    return Conflicts(conflicts);
  }

  lemma SameLookups(s: Tree, t: Tree)
    requires forall p: Path :: Get(s, p) == Get(t, p)
    ensures s == t
  {
    forall p: Path
      ensures p in s <==> p in t
      ensures p in s ==> s[p] == t[p]
    {
      assert Get(s, p) == Get(t, p);
    }
  }

  /** Ours and theirs may be exchanged. */
  lemma MergeIsSymmetric(base: Tree, ours: Tree, theirs: Tree)
    ensures Mergeable(base, ours, theirs) <==> Mergeable(base, theirs, ours)
    ensures Clean(base, ours, theirs) ==> MergedTree(base, ours, theirs) == MergedTree(base, theirs, ours)
    ensures forall p :: InConflict(base, ours, theirs, p) <==> InConflict(base, theirs, ours, p)
  {
    assert forall p :: Clashes(base, ours, theirs, p) <==> Clashes(base, theirs, ours, p);
    if Clean(base, ours, theirs) {
      forall p: Path
        ensures Get(MergedTree(base, ours, theirs), p) == Get(MergedTree(base, theirs, ours), p)
      {
        assert !Clashes(base, ours, theirs, p);
      }
      SameLookups(MergedTree(base, ours, theirs), MergedTree(base, theirs, ours));
    }
  }

  /** `p` is new in `one` and absent from the other side. */
  predicate AddedOnlyBy(base: Tree, one: Tree, other: Tree, p: Path) {
    p !in base && p in one && p !in other
  }

  /** A clean merge of coherent trees collides only between one side's addition and the other's. */
  lemma CollisionsJoinTwoAdditions(base: Tree, ours: Tree, theirs: Tree, p: Path, q: Path)
    requires Coherent(base.Keys) && Coherent(ours.Keys) && Coherent(theirs.Keys)
    requires Clean(base, ours, theirs)
    requires p in MergedTree(base, ours, theirs) && q in MergedTree(base, ours, theirs) && Collide(p, q)
    ensures (AddedOnlyBy(base, ours, theirs, p) && AddedOnlyBy(base, theirs, ours, q))
         || (AddedOnlyBy(base, theirs, ours, p) && AddedOnlyBy(base, ours, theirs, q))
  {
    assert !Clashes(base, ours, theirs, p) && !Clashes(base, ours, theirs, q);
  }

  // ---------------------------------------------------------------------
  // Merging many branches of one base, in any order.

  /** Merge the branches one after another; None as soon as one is refused. */
  ghost function MergeAll(base: Tree, mount: Tree, branches: seq<Tree>): Option<Tree>
    decreases |branches|
  {
    if branches == [] then Some(mount)
    else if Mergeable(base, branches[0], mount) then
      MergeAll(base, MergedTree(base, branches[0], mount), branches[1..])
    else None
  }

  /** No two branches changed one path differently. */
  ghost predicate Agree(base: Tree, branches: set<Tree>) {
    forall a, b, p: Path | a in branches && b in branches && Get(a, p) != Get(base, p) && Get(b, p) != Get(base, p) ::
      Get(a, p) == Get(b, p)
  }

  ghost predicate Changed(base: Tree, branches: set<Tree>, p: Path) {
    exists o | o in branches :: Get(o, p) != Get(base, p)
  }

  ghost function JointValue(base: Tree, branches: set<Tree>, p: Path): Option<Entry> {
    if Changed(base, branches, p) then
      var o :| o in branches && Get(o, p) != Get(base, p);
      Get(o, p)
    else Get(base, p)
  }

  /** `t` holds every branch's changes over the base and nothing else. */
  ghost predicate IsJoint(base: Tree, branches: set<Tree>, t: Tree) {
    forall p: Path :: Get(t, p) == JointValue(base, branches, p)
  }

  lemma JointStep(base: Tree, done: set<Tree>, mount: Tree, o: Tree)
    requires Agree(base, done) && IsJoint(base, done, mount)
    ensures Clean(base, o, mount) <==> Agree(base, done + {o})
    ensures Clean(base, o, mount) ==> IsJoint(base, done + {o}, MergedTree(base, o, mount))
  {
    var all := done + {o};
    if Clean(base, o, mount) {
      forall a, b, p: Path | a in all && b in all && Get(a, p) != Get(base, p) && Get(b, p) != Get(base, p)
        ensures Get(a, p) == Get(b, p)
      {
        assert !Clashes(base, o, mount, p);
        assert Get(mount, p) == JointValue(base, done, p);
      }
      forall p: Path
        ensures Get(MergedTree(base, o, mount), p) == JointValue(base, all, p)
      {
        assert !Clashes(base, o, mount, p);
        assert Get(mount, p) == JointValue(base, done, p);
        assert o in all;
        assert Get(MergedTree(base, o, mount), p) == Chosen(base, o, mount, p);
        if Get(o, p) != Get(base, p) {
          assert Changed(base, all, p);
        } else if Changed(base, done, p) {
          var d :| d in done && Get(d, p) != Get(base, p);
          assert d in all;
        }
      }
    } else {
      var p: Path :| Clashes(base, o, mount, p);
      assert Get(mount, p) == JointValue(base, done, p);
      var d :| d in done && Get(d, p) != Get(base, p) && Get(d, p) == Get(mount, p);
      assert d in all && o in all;
    }
  }

  /** If everything merged together is coherent, so is every partial merge. */
  lemma PartialJointIsCoherent(base: Tree, done: set<Tree>, all: set<Tree>, part: Tree, whole: Tree)
    requires done <= all && Agree(base, all)
    requires Coherent(base.Keys) && forall o | o in all :: Coherent(o.Keys)
    requires IsJoint(base, done, part) && IsJoint(base, all, whole) && Coherent(whole.Keys)
    ensures Coherent(part.Keys)
  {
    forall p, q | p in part && q in part
      ensures !Under(p, q)
    {
      assert Get(part, p) == JointValue(base, done, p) && Get(part, q) == JointValue(base, done, q);
      assert Get(whole, p) == JointValue(base, all, p) && Get(whole, q) == JointValue(base, all, q);
      if Changed(base, done, p) {
        var d :| d in done && Get(d, p) != Get(base, p) && Get(d, p) == Get(part, p);
        assert d in all;
        assert Get(d, q) == Get(base, q) || Changed(base, done, q);
      }
      if Changed(base, done, q) {
        var d :| d in done && Get(d, q) != Get(base, q) && Get(d, q) == Get(part, q);
        assert d in all;
        assert Get(d, p) == Get(base, p) || Changed(base, done, p);
      }
    }
  }

  ghost function Members(branches: seq<Tree>): set<Tree> {
    set o | o in branches
  }

  ghost predicate AllMerge(base: Tree, branches: set<Tree>) {
    Agree(base, branches) && exists t :: IsJoint(base, branches, t) && Coherent(t.Keys)
  }

  lemma JointIsUnique(base: Tree, branches: set<Tree>, s: Tree, t: Tree)
    requires IsJoint(base, branches, s) && IsJoint(base, branches, t)
    ensures s == t
  {
    forall p: Path
      ensures Get(s, p) == Get(t, p)
    {
      assert Get(s, p) == JointValue(base, branches, p);
    }
    SameLookups(s, t);
  }

  lemma {:induction false} MergeAllFrom(base: Tree, done: set<Tree>, mount: Tree, branches: seq<Tree>)
    requires Coherent(base.Keys) && forall o | o in done + Members(branches) :: Coherent(o.Keys)
    requires Agree(base, done) && IsJoint(base, done, mount) && Coherent(mount.Keys)
    ensures MergeAll(base, mount, branches).Some? <==> AllMerge(base, done + Members(branches))
    ensures MergeAll(base, mount, branches).Some? ==>
              IsJoint(base, done + Members(branches), MergeAll(base, mount, branches).value)
    decreases |branches|
  {
    var all := done + Members(branches);
    if branches == [] {
      assert all == done;
    } else {
      var o := branches[0];
      var next := done + {o};
      assert next + Members(branches[1..]) == all by {
        assert branches == [o] + branches[1..];
      }
      JointStep(base, done, mount, o);
      if Mergeable(base, o, mount) {
        MergeAllFrom(base, next, MergedTree(base, o, mount), branches[1..]);
      } else if AllMerge(base, all) {
        var whole :| IsJoint(base, all, whole) && Coherent(whole.Keys);
        assert Agree(base, next);
        PartialJointIsCoherent(base, next, all, MergedTree(base, o, mount), whole);
        assert false;
      }
    }
  }

  /**
   * Branches forked from one tip merge back in every order or in none, and leave
   * the same tree. They merge exactly when they agree path by path and the tree
   * of all their changes is coherent.
   */
  lemma MergeOrderIsIrrelevant(base: Tree, one: seq<Tree>, other: seq<Tree>)
    requires Coherent(base.Keys) && forall o | o in one :: Coherent(o.Keys)
    requires Members(one) == Members(other)
    ensures MergeAll(base, base, one) == MergeAll(base, base, other)
    ensures MergeAll(base, base, one).Some? <==> AllMerge(base, Members(one))
    ensures MergeAll(base, base, one).Some? ==> IsJoint(base, Members(one), MergeAll(base, base, one).value)
  {
    assert IsJoint(base, {}, base);
    assert {} + Members(one) == Members(one);
    assert forall o | o in other :: o in Members(one);
    MergeAllFrom(base, {}, base, one);
    MergeAllFrom(base, {}, base, other);
    if AllMerge(base, Members(one)) {
      JointIsUnique(base, Members(one), MergeAll(base, base, one).value, MergeAll(base, base, other).value);
    }
  }
}
