/**
 * src/session.ts: branches forked from one tip of a mount, merged back by any
 * run of merge steps. The order of the steps is of no consequence.
 */
module MergeOrder {
  import opened Prelude
  import opened Coherence
  import opened Trees
  import opened CommitGraph
  import opened Store
  import opened StoreInvariants
  import opened Serializability
  import opened Caches

  type Files = map<Name, Branch>

  // ---------------------------------------------------------------------
  // On the named trees.

  ghost predicate CanJoin(files: Files, branch: Name, mount: Name) {
    && branch in files && mount in files && branch != mount
    && files[branch].state == Open && files[branch].base.Some?
    && Merge.Mergeable(files[branch].base.value, files[branch].tree, files[mount].tree)
  }

  function JoinOne(files: Files, branch: Name, mount: Name): Files
    requires branch in files && mount in files && files[branch].base.Some?
  {
    files[branch := files[branch].(state := Merged)][mount := files[mount].(tree := Joined(files, branch, mount))]
  }

  ghost predicate CanJoinAll(files: Files, mount: Name, branches: seq<Name>)
    decreases |branches|
  {
    branches == []
    || (CanJoin(files, branches[0], mount) && CanJoinAll(JoinOne(files, branches[0], mount), mount, branches[1..]))
  }

  ghost function JoinAll(files: Files, mount: Name, branches: seq<Name>): Files
    requires CanJoinAll(files, mount, branches)
    decreases |branches|
  {
    if branches == [] then files else JoinAll(JoinOne(files, branches[0], mount), mount, branches[1..])
  }

  /** Different open branches, all forked where the mount's tree was `base`. */
  ghost predicate Siblings(files: Files, mount: Name, branches: seq<Name>, base: Tree) {
    && mount in files
    && (forall i | 0 <= i < |branches| ::
          && branches[i] in files && branches[i] != mount
          && files[branches[i]].state == Open && files[branches[i]].base == Some(base))
    && forall i, j | 0 <= i < j < |branches| :: branches[i] != branches[j]
  }

  function TreesOf(files: Files, branches: seq<Name>): (trees: seq<Tree>)
    requires forall i | 0 <= i < |branches| :: branches[i] in files
    ensures |trees| == |branches| && forall i | 0 <= i < |branches| :: trees[i] == files[branches[i]].tree
  {
    seq(|branches|, i requires 0 <= i < |branches| => files[branches[i]].tree)
  }

  /** All of them settled, and the mount at one tree. */
  function Settled(files: Files, mount: Name, branches: seq<Name>, tree: Tree): Files {
    map n | n in files ::
      if n == mount then files[n].(tree := tree)
      else if n in branches then files[n].(state := Merged) else files[n]
  }

  lemma {:induction false} JoinAllMerges(files: Files, mount: Name, branches: seq<Name>, base: Tree)
    requires Siblings(files, mount, branches, base)
    ensures var merged := Merge.MergeAll(base, files[mount].tree, TreesOf(files, branches));
            && (CanJoinAll(files, mount, branches) <==> merged.Some?)
            && (CanJoinAll(files, mount, branches) ==>
                  JoinAll(files, mount, branches) == Settled(files, mount, branches, merged.value))
    decreases |branches|
  {
    if branches == [] {
      assert Settled(files, mount, branches, files[mount].tree) == files;
    } else {
      var b, rest := branches[0], branches[1..];
      var trees := TreesOf(files, branches);
      assert trees[0] == files[b].tree;
      if CanJoin(files, b, mount) {
        var next := JoinOne(files, b, mount);
        assert Siblings(next, mount, rest, base);
        assert TreesOf(next, rest) == trees[1..];
        JoinAllMerges(next, mount, rest, base);
        if CanJoinAll(files, mount, branches) {
          var tree := Merge.MergeAll(base, next[mount].tree, trees[1..]).value;
          SettledOneMore(files, mount, branches, tree, next);
        }
      }
    }
  }

  lemma SettledOneMore(files: Files, mount: Name, branches: seq<Name>, tree: Tree, next: Files)
    requires branches != [] && branches[0] in files && mount in files && branches[0] != mount && mount in next
    requires next == files[branches[0] := files[branches[0]].(state := Merged)][mount := next[mount]]
    requires next[mount] == files[mount].(tree := next[mount].tree)
    ensures Settled(next, mount, branches[1..], tree) == Settled(files, mount, branches, tree)
  {
    assert forall n :: n in branches <==> n == branches[0] || n in branches[1..];
  }

  // ---------------------------------------------------------------------
  // On runs of the store.

  predicate AreMerges(steps: seq<Step>, mount: Name, branches: seq<Name>) {
    && |steps| == |branches|
    && forall i | 0 <= i < |steps| :: steps[i].MergeBranch? && steps[i].branch == branches[i] && steps[i].mount == mount
  }

  lemma StepJoins(s: System, step: Step)
    requires FreeInv(s) && Enabled(s, step) && step.MergeBranch?
    ensures var files := FilesOf(s.db);
            CanJoin(files, step.branch, step.mount)
            && FilesOf(Apply(s, step).db) == JoinOne(files, step.branch, step.mount)
  {
    var MergeBranch(branch, mount, id, stamp) := step;
    MergeMeaning(s.db, branch, mount, id, stamp);
    JoinedIsTheResult(s.db, branch, mount);
    hide Rooted, MergedDb, HistoryOf, Joined, MergeResult;
  }

  lemma {:induction false} RunJoins(s: System, steps: seq<Step>, mount: Name, branches: seq<Name>)
    requires FreeInv(s) && IsRun(s, steps) && AreMerges(steps, mount, branches)
    ensures CanJoinAll(FilesOf(s.db), mount, branches)
    ensures FilesOf(After(s, steps).db) == JoinAll(FilesOf(s.db), mount, branches)
    decreases |steps|
  {
    if steps != [] {
      StepJoins(s, steps[0]);
      StepKeepsLinks(s, steps[0]);
      assert AreMerges(steps[1..], mount, branches[1..]);
      hide FreeInv, Enabled, Apply, FilesOf, CanJoin, JoinOne;
      RunJoins(Apply(s, steps[0]), steps[1..], mount, branches[1..]);
    }
  }

  /** A row number and a time no row has yet. */
  lemma {:induction false} UnusedRow(rows: Commits) returns (id: Id, at: int)
    ensures forall k | k in rows :: k < id && rows[k].createdAt < at
    decreases rows
  {
    if rows == map[] {
      id, at := 0, 0;
    } else {
      var k :| k in rows;
      var rest := rows - {k};
      assert rest.Keys < rows.Keys;
      id, at := UnusedRow(rest);
      id := if k < id then id else k + 1;
      at := if rows[k].createdAt < at then at else rows[k].createdAt + 1;
      forall j | j in rows
        ensures j < id && rows[j].createdAt < at
      {
        if j != k { assert j in rest && rest[j] == rows[j]; }
      }
    }
  }

  lemma JoinIsAStep(s: System, branch: Name, mount: Name) returns (step: Step)
    requires FreeInv(s) && CanJoin(FilesOf(s.db), branch, mount)
    ensures Enabled(s, step) && step.MergeBranch? && step.branch == branch && step.mount == mount
  {
    var id, at := UnusedRow(s.db.inserted);
    var stamp := Stamp("", at);
    step := MergeBranch(branch, mount, id, stamp);
    assert RefRooted(s.db, branch) && RefRooted(s.db, mount);
    UnusedRowInserts(s.db, id, MergeCommit(s.db, branch, mount, stamp));
    hide Rooted, CanInsert, MergeResult;
  }

  lemma UnusedRowInserts(db: Db, id: Id, c: Commit)
    requires RowsOk(db) && forall k | k in db.inserted :: k < id && db.inserted[k].createdAt < c.createdAt
    requires forall i | 0 <= i < |c.parents| :: c.parents[i] in db.commits
    ensures id !in db.commits && CanInsert(db, id, c)
  {
  }

  lemma {:induction false} JoinsAreARun(s: System, mount: Name, branches: seq<Name>) returns (steps: seq<Step>)
    requires FreeInv(s) && CanJoinAll(FilesOf(s.db), mount, branches)
    ensures IsRun(s, steps) && AreMerges(steps, mount, branches)
    decreases |branches|
  {
    steps := [];
    if branches != [] {
      var step := JoinIsAStep(s, branches[0], mount);
      StepJoins(s, step);
      StepKeepsLinks(s, step);
      hide FreeInv, Enabled, Apply, FilesOf, CanJoin, JoinOne;
      var rest := JoinsAreARun(Apply(s, step), mount, branches[1..]);
      steps := [step] + rest;
      assert steps[1..] == rest;
    }
  }

  /** Whether branches of the mount's tip can all be joined, and what that leaves, is the same in every order. */
  lemma JoinOrderIsIrrelevant(files: Files, mount: Name, one: seq<Name>, two: seq<Name>)
    requires mount in files && Siblings(files, mount, one, files[mount].tree)
    requires Siblings(files, mount, two, files[mount].tree)
    requires Coherent(files[mount].tree.Keys) && forall i | 0 <= i < |one| :: Coherent(files[one[i]].tree.Keys)
    requires forall n :: n in one <==> n in two
    ensures CanJoinAll(files, mount, one) <==> CanJoinAll(files, mount, two)
    ensures CanJoinAll(files, mount, one) ==> JoinAll(files, mount, one) == JoinAll(files, mount, two)
  {
    var base := files[mount].tree;
    var a, b := TreesOf(files, one), TreesOf(files, two);
    JoinAllMerges(files, mount, one, base);
    JoinAllMerges(files, mount, two, base);
    SameMembers(files, one, two);
    Merge.MergeOrderIsIrrelevant(base, a, b);
    hide CanJoinAll, JoinAll, Siblings;
    assert forall tree :: Settled(files, mount, one, tree) == Settled(files, mount, two, tree);
  }

  lemma SameMembers(files: Files, one: seq<Name>, two: seq<Name>)
    requires forall i | 0 <= i < |one| :: one[i] in files
    requires forall i | 0 <= i < |two| :: two[i] in files
    requires forall n :: n in one <==> n in two
    ensures Merge.Members(TreesOf(files, one)) == Merge.Members(TreesOf(files, two))
  {
    forall o
      ensures o in TreesOf(files, one) <==> o in TreesOf(files, two)
    {
      if o in TreesOf(files, one) {
        var i :| 0 <= i < |one| && TreesOf(files, one)[i] == o;
        assert one[i] in two;
        var j :| 0 <= j < |two| && two[j] == one[i];
        assert TreesOf(files, two)[j] == o;
      }
      if o in TreesOf(files, two) {
        var i :| 0 <= i < |two| && TreesOf(files, two)[i] == o;
        assert two[i] in one;
        var j :| 0 <= j < |one| && one[j] == two[i];
        assert TreesOf(files, one)[j] == o;
      }
    }
  }

  lemma FilesAreCoherent(db: Db, name: Name)
    requires Rooted(db) && TreesOk(db) && name in db.refs
    ensures Coherent(FilesOf(db)[name].tree.Keys)
  {
    StoredIsCoherent(db, db.refs[name].tip);
  }

  /**
   * Branches forked from a mount's tip: if one run of merge steps merges them all, so
   * does a run in any other order, and any two such runs leave the same trees, bases
   * and states under every name.
   */
  lemma MergeRunsCommute(s: System, mount: Name, one: seq<Name>, two: seq<Name>, steps: seq<Step>)
    returns (others: seq<Step>)
    requires FreeInv(s) && TreesOk(s.db) && mount in s.db.refs
    requires Siblings(FilesOf(s.db), mount, one, FilesOf(s.db)[mount].tree)
    requires Siblings(FilesOf(s.db), mount, two, FilesOf(s.db)[mount].tree)
    requires forall n :: n in one <==> n in two
    requires IsRun(s, steps) && AreMerges(steps, mount, one)
    ensures IsRun(s, others) && AreMerges(others, mount, two)
    ensures forall more | IsRun(s, more) && AreMerges(more, mount, two) ::
              FilesOf(After(s, more).db) == FilesOf(After(s, steps).db)
  {
    var files := FilesOf(s.db);
    FreeIsRooted(s);
    FilesAreCoherent(s.db, mount);
    forall i | 0 <= i < |one|
      ensures Coherent(files[one[i]].tree.Keys)
    {
      FilesAreCoherent(s.db, one[i]);
    }
    RunJoins(s, steps, mount, one);
    JoinOrderIsIrrelevant(files, mount, one, two);
    hide FreeInv, TreesOk, Siblings, IsRun, After, FilesOf, CanJoinAll, JoinAll, AreMerges, Coherent;
    others := JoinsAreARun(s, mount, two);
    forall more | IsRun(s, more) && AreMerges(more, mount, two)
      ensures FilesOf(After(s, more).db) == FilesOf(After(s, steps).db)
    {
      RunJoins(s, more, mount, two);
    }
  }
}
