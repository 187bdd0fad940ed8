/**
 * What every interleaving of the store's steps keeps, names collected and made
 * again included: the commit graph, the refs' place in it, and the link between
 * a restore and the commit it names.
 */
module StoreInvariants {
  import opened Prelude
  import opened Coherence
  import opened Trees
  import opened CommitGraph
  import opened Stale
  import opened Store

  // ---------------------------------------------------------------------
  // What every step keeps.

  lemma InsertKeepsReach(db: Db, id: Id, c: Commit)
    requires Rooted(db) && CanInsert(db, id, c)
    requires forall i | 0 <= i < |c.parents| :: c.parents[i] in db.commits
    ensures Closed(Inserted(db, id, c).commits)
    ensures forall d | d in db.commits :: Inserted(db, id, c).commits[d] == db.commits[d]
    ensures forall i | 0 <= i < |c.parents| ::
              c.parents[i] < id && Reaches(Inserted(db, id, c).commits, id, c.parents[i])
    ensures forall d, a | d in db.commits && Reaches(db.commits, d, a) :: Reaches(Inserted(db, id, c).commits, d, a)
  {
    var grown := Inserted(db, id, c).commits;
    assert id in db.commits ==> grown == db.commits;
    forall i | 0 <= i < |c.parents|
      ensures c.parents[i] < id && Reaches(grown, id, c.parents[i])
    {
      assert grown[id].parents[i] < id;
      assert IsParent(grown, c.parents[i], id);
      assert Reaches(grown, c.parents[i], c.parents[i]);
    }
    forall d, a | d in db.commits && Reaches(db.commits, d, a)
      ensures Reaches(grown, d, a)
    {
      ReachesSame(db.commits, grown, d, a);
    }
  }

  ghost predicate CanAdvance(db: Db, name: Name, id: Id, c: Commit) {
    && Rooted(db) && name in db.refs && CanInsert(db, id, c)
    && c.parents != [] && c.parents[0] == db.refs[name].tip
    && (forall i | 0 <= i < |c.parents| :: c.parents[i] in db.commits)
  }

  lemma AdvanceKeepsRef(db: Db, name: Name, id: Id, c: Commit, heads: map<Path, Sha>, n: Name)
    requires CanAdvance(db, name, id, c) && n in db.refs
    ensures RefRooted(Advanced(db, name, id, c, heads), n)
  {
    InsertKeepsReach(db, id, c);
    assert RefRooted(db, n);
    if n == name && db.refs[n].base.Some? {
      assert Reaches(Inserted(db, id, c).commits, id, c.parents[0]);
      ReachesTransitive(Inserted(db, id, c).commits, id, db.refs[n].tip, db.refs[n].base.value);
    }
  }

  /** No row ever inserted is lost or changed. */
  ghost predicate Grows(db: Db, db': Db) {
    forall id | id in db.inserted :: id in db'.inserted && db'.inserted[id] == db.inserted[id]
  }

  lemma InsertKeepsRows(db: Db, id: Id, c: Commit)
    requires Rooted(db) && CanInsert(db, id, c) && (c.parents == [] ==> c.tree == map[])
    requires forall i | 0 <= i < |c.parents| :: c.parents[i] in db.commits
    ensures RowsOk(Inserted(db, id, c)) && Grows(db, Inserted(db, id, c))
  {
    InsertKeepsReach(db, id, c);
    hide Closed, Reaches;
  }

  lemma TipIsOlder(db: Db, name: Name, id: Id, c: Commit)
    requires CanAdvance(db, name, id, c)
    ensures db.refs[name].tip < id
  {
  }

  lemma SameRows(db: Db, db': Db)
    requires RowsOk(db) && db'.commits == db.commits && db'.inserted == db.inserted
    ensures RowsOk(db')
  {
  }

  lemma AdvanceKeepsRooted(db: Db, name: Name, id: Id, c: Commit, heads: map<Path, Sha>)
    requires CanAdvance(db, name, id, c)
    ensures Rooted(Advanced(db, name, id, c, heads)) && db.refs[name].tip < id
    ensures Grows(db, Advanced(db, name, id, c, heads))
  {
    InsertKeepsRows(db, id, c);
    TipIsOlder(db, name, id, c);
    SameRows(Inserted(db, id, c), Advanced(db, name, id, c, heads));
    hide RowsOk, RefRooted, CanInsert;
    forall n | n in db.refs
      ensures RefRooted(Advanced(db, name, id, c, heads), n)
    {
      AdvanceKeepsRef(db, name, id, c, heads, n);
    }
  }

  lemma SettlingKeepsRooted(db: Db, name: Name, state: RefState)
    requires Rooted(db) && name in db.refs
    ensures Rooted(Settling(db, name, state)) && Grows(db, Settling(db, name, state))
  {
    forall n | n in db.refs
      ensures RefRooted(Settling(db, name, state), n)
    {
      assert RefRooted(db, n);
    }
  }

  /** `fork` and `merge` keep every base below its branch's tip, as the sweep needs. */
  lemma BasesAreReached(db: Db, cutoff: int)
    requires Rooted(db)
    ensures GcSweep.BasesReached(db.commits, RootsOf(db, cutoff))
  {
    forall t | t in Tips(db)
      ensures t in db.commits
    {
      var n :| n in db.refs && db.refs[n].tip == t;
      assert RefRooted(db, n);
    }
    forall b | b in Bases(db)
      ensures exists t | t in Tips(db) :: Reaches(db.commits, t, b)
    {
      var n :| n in db.refs && db.refs[n].base.Some? && db.refs[n].base.value == b;
      assert RefRooted(db, n) && db.refs[n].tip in Tips(db);
    }
  }

  /** A collected commit is below no ref, so no ref, base or cache can notice. */
  lemma SweepKeepsRefs(db: Db, cutoff: int, batch: set<Id>, n: Name)
    requires Rooted(db) && n in db.refs
    requires batch <= GcSweep.Doomed(db.commits, RootsOf(db, cutoff))
    ensures db.refs[n].tip in db.commits && db.refs[n].tip !in batch
    ensures var left := GcSweep.Without(db.commits, batch);
            forall a :: Reaches(left, db.refs[n].tip, a) <==> Reaches(db.commits, db.refs[n].tip, a)
    ensures forall a | Reaches(db.commits, db.refs[n].tip, a) :: a in db.commits && a !in batch
  {
    var roots := RootsOf(db, cutoff);
    BasesAreReached(db, cutoff);
    assert RefRooted(db, n);
    var tip := db.refs[n].tip;
    assert tip in roots.tips;
    assert GcSweep.IsRoot(db.commits, roots, tip);
    forall a
      ensures Reaches(GcSweep.Without(db.commits, batch), tip, a) <==> Reaches(db.commits, tip, a)
    {
      GcSweep.RootKeepsAncestry(db.commits, roots, batch, tip, a);
    }
    forall a | Reaches(db.commits, tip, a)
      ensures a in db.commits && a !in batch
    {
      AncestorsAreStored(db.commits, tip, a);
      assert GcSweep.Protected(db.commits, roots, a);
    }
    assert Reaches(db.commits, tip, tip);
  }

  function Swept(db: Db, batch: set<Id>): Db {
    db.(commits := GcSweep.Without(db.commits, batch))
  }

  lemma SweepKeepsRooted(db: Db, cutoff: int, limit: nat, batch: set<Id>)
    requires Rooted(db)
    requires GcSweep.IsBatch(db.commits, GcSweep.Doomed(db.commits, RootsOf(db, cutoff)), limit, batch)
    ensures Rooted(Swept(db, batch)) && Grows(db, Swept(db, batch))
    ensures forall n | n in db.refs ::
              && TreeOf(Swept(db, batch), db.refs[n].tip) == TreeOf(db, db.refs[n].tip)
              && BranchOf(Swept(db, batch), n) == BranchOf(db, n)
  {
    BasesAreReached(db, cutoff);
    GcSweep.BatchKeepsClosed(db.commits, RootsOf(db, cutoff), limit, batch);
    forall n | n in db.refs
      ensures RefRooted(Swept(db, batch), n) && BranchOf(Swept(db, batch), n) == BranchOf(db, n)
      ensures TreeOf(Swept(db, batch), db.refs[n].tip) == TreeOf(db, db.refs[n].tip)
    {
      assert RefRooted(db, n);
      SweepKeepsRefs(db, cutoff, batch, n);
    }
  }

  lemma MountKeepsRooted(db: Db, mount: Name, genesis: Id, stamp: Stamp)
    requires Rooted(db) && (mount in db.refs || CanInsert(db, genesis, Genesis(stamp)))
    ensures Rooted(WithMount(db, mount, genesis, stamp)) && Grows(db, WithMount(db, mount, genesis, stamp))
    ensures forall n | n in db.refs :: BranchOf(WithMount(db, mount, genesis, stamp), n) == BranchOf(db, n)
  {
    if mount !in db.refs {
      var db' := WithMount(db, mount, genesis, stamp);
      InsertKeepsRows(db, genesis, Genesis(stamp));
      InsertKeepsReach(db, genesis, Genesis(stamp));
      forall n | n in db.refs
        ensures RefRooted(db', n) && BranchOf(db', n) == BranchOf(db, n)
      {
        assert RefRooted(db, n);
      }
      assert RefRooted(db', mount);
    }
  }

  lemma BranchKeepsRooted(db: Db, mount: Name, branch: Name)
    requires Rooted(db) && mount in db.refs && branch !in db.refs
    ensures Rooted(Branched(db, mount, branch)) && Grows(db, Branched(db, mount, branch))
  {
    var db' := Branched(db, mount, branch);
    assert RefRooted(db, mount);
    assert Reaches(db.commits, db.refs[mount].tip, db.refs[mount].tip);
    forall n | n in db'.refs
      ensures RefRooted(db', n)
    {
      if n != branch { assert RefRooted(db, n); }
    }
  }

  lemma MergerCanAdvance(db: Db, branch: Name, mount: Name, id: Id, stamp: Stamp)
    requires Rooted(db) && CanMerge(db, branch, mount, id, stamp)
    requires MergeResult(db, branch, mount) != TreeOf(db, db.refs[mount].tip)
    ensures CanAdvance(Settling(db, branch, Merged), mount, id, MergeCommit(db, branch, mount, stamp))
  {
    assert RefRooted(db, branch) && RefRooted(db, mount);
    SettlingKeepsRooted(db, branch, Merged);
  }

  lemma MergeKeepsRooted(db: Db, branch: Name, mount: Name, id: Id, stamp: Stamp)
    requires Rooted(db) && CanMerge(db, branch, mount, id, stamp)
    ensures Rooted(MergedDb(db, branch, mount, id, stamp)) && Grows(db, MergedDb(db, branch, mount, id, stamp))
  {
    SettlingKeepsRooted(db, branch, Merged);
    if MergeResult(db, branch, mount) != TreeOf(db, db.refs[mount].tip) {
      var c := MergeCommit(db, branch, mount, stamp);
      MergerCanAdvance(db, branch, mount, id, stamp);
      hide Rooted;
      AdvanceKeepsRooted(Settling(db, branch, Merged), mount, id, c, Shas(c.tree));
    }
  }

  /** The one commit a publication makes. */
  ghost function PublishedBy(s: System, step: Step): Commit
    requires step.Publish? && Enabled(s, step)
  {
    PlannedCommit(s.writers[step.w], step.stamp)
  }

  /** The operation a commit is signed with tells which request made it. */
  predicate Signs(op: string, request: Request) {
    && (op == "write" <==> request.Write?) && (op == "delete" <==> request.Delete?)
    && (op == "capture" <==> request.Capture?) && (op == "restore" <==> request.Restore?)
  }

  lemma PublisherCanAdvance(s: System, step: Step)
    requires Rooted(s.db) && step.Publish? && Enabled(s, step)
    ensures var writer := s.writers[step.w];
            var c := PublishedBy(s, step);
            && CanAdvance(s.db, writer.name, step.id, c)
            && Apply(s, step).db == Advanced(s.db, writer.name, step.id, c,
                                             UpdatedHeads(writer.request, HeadsOf(s.db, writer.name), c.tree))
  {
    assert RefRooted(s.db, s.writers[step.w].name);
  }

  /** Whatever the writers saw: no commit is missing a parent, no tip or base is missing, no row is lost. */
  lemma StepKeepsRooted(s: System, step: Step)
    requires Rooted(s.db) && Enabled(s, step)
    ensures Rooted(Apply(s, step).db) && Grows(s.db, Apply(s, step).db)
  {
    var db := s.db;
    match step
    case LoadRef(_, _, _) =>
    case LoadHeads(_) =>
    case FindSource(_) =>
    case ReadSource(_) =>
    case Publish(w, id, _) =>
      PublisherCanAdvance(s, step);
      var writer, c := s.writers[w], PublishedBy(s, step);
      AdvanceKeepsRooted(db, writer.name, id, c, UpdatedHeads(writer.request, HeadsOf(db, writer.name), c.tree));
    case Withdraw(_) =>
    case Fork(mount, branch, genesis, stamp) =>
      MountKeepsRooted(db, mount, genesis, stamp);
      BranchKeepsRooted(WithMount(db, mount, genesis, stamp), mount, branch);
    case MergeBranch(branch, mount, id, stamp) => MergeKeepsRooted(db, branch, mount, id, stamp);
    case Settle(name, state) => SettlingKeepsRooted(db, name, state);
    case CollectHeads(_) =>
    case CollectAborts =>
    case CollectRefs =>
      forall n | n in Apply(s, step).db.refs
        ensures RefRooted(Apply(s, step).db, n)
      {
        assert RefRooted(db, n);
      }
    case CollectCommits(cutoff, limit, batch) => SweepKeepsRooted(db, cutoff, limit, batch);
  }

  lemma StepKeepsLinks(s: System, step: Step)
    requires FreeInv(s) && Enabled(s, step)
    ensures FreeInv(Apply(s, step))
  {
    StepKeepsRooted(s, step);
    StepKeepsCollector(s, step);
    hide Rooted, RefRooted, CollectorOk;
    forall w | w in Apply(s, step).writers
      ensures WriterLinked(Apply(s, step).db, Apply(s, step).writers[w])
    {
      NewWriterIsLinked(s, step, w);
    }
  }

  /** A settled branch stays settled, and only its collector deletes it. */
  lemma StepKeepsCollector(s: System, step: Step)
    requires CollectorOk(s) && Enabled(s, step)
    ensures CollectorOk(Apply(s, step))
  {
    hide Rooted, Plan, CanInsert, UpdatedHeads, HeadsOf, GcSweep.IsBatch;
  }

  lemma NewWriterIsLinked(s: System, step: Step, w: nat)
    requires FreeInv(s) && Enabled(s, step) && w in Apply(s, step).writers && Grows(s.db, Apply(s, step).db)
    ensures WriterLinked(Apply(s, step).db, Apply(s, step).writers[w])
  {
    if w in s.writers { assert WriterLinked(s.db, s.writers[w]); }
  }

  // ---------------------------------------------------------------------
  // A restore between finding its source and reading it.

  /** What a restore has once its source is read is the named commit's tree exactly when it was there, or empty. */
  lemma ReadIsIntact(s: System, step: Step)
    requires FreeInv(s) && Enabled(s, step) && step.ReadSource?
    ensures var id, writer := s.writers[step.w].request.source, Apply(s, step).writers[step.w];
            && id in s.db.inserted && writer.HeadsLoaded? && writer.source.Some?
            && (Intact(Apply(s, step).db, writer) <==> id in s.db.commits || s.db.inserted[id].tree == map[])
            && (writer.source == Some(s.db.inserted[id].tree) <==> Intact(Apply(s, step).db, writer))
  {
    assert WriterLinked(s.db, s.writers[step.w]);
  }

  /** And that does not change afterwards. */
  lemma StepKeepsIntact(s: System, step: Step, w: nat)
    requires FreeInv(s) && Enabled(s, step) && w in s.writers && s.writers[w].HeadsLoaded?
    requires w in Apply(s, step).writers
    ensures Apply(s, step).writers[w] == s.writers[w]
    ensures Intact(Apply(s, step).db, s.writers[w]) <==> Intact(s.db, s.writers[w])
  {
    assert WriterLinked(s.db, s.writers[w]);
    StepKeepsRooted(s, step);
    hide Rooted;
  }

  /** A commit no sweep may touch stays: every sweep has it inside its grace period or below a ref. */
  lemma ProtectedStays(s: System, step: Step, id: Id)
    requires Rooted(s.db) && Enabled(s, step) && id in s.db.commits
    requires step.CollectCommits? ==> GcSweep.Protected(s.db.commits, RootsOf(s.db, step.cutoff), id)
    ensures id in Apply(s, step).db.commits
  {
    hide Rooted, Plan, CanMerge, CanInsert;
  }
}
