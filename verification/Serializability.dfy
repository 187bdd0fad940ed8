/**
 * Exactly when a step, and a run, is what the store's meaning says: whole
 * requests carried out one after another on named trees.
 */
module Serializability {
  import opened Prelude
  import opened Coherence
  import opened Trees
  import opened CommitGraph
  import opened Stale
  import opened Store
  import opened StoreInvariants

  /** The step performs the one action it is labelled with. */
  ghost predicate Refines(s: System, step: Step)
    requires Enabled(s, step)
  {
    && Permitted(Meaning(s.db), Label(s, step))
    && Meaning(Apply(s, step).db) == Act(Meaning(s.db), Label(s, step))
  }

  lemma SameFiles(db: Db, files: map<Name, Branch>)
    requires db.refs.Keys == files.Keys
    requires forall n | n in db.refs :: BranchOf(db, n) == files[n]
    ensures FilesOf(db) == files
  {
  }

  lemma InsertedHistory(db: Db, id: Id, c: Commit)
    requires RowsOk(db) && CanInsert(db, id, c)
    ensures HistoryOf(Inserted(db, id, c)) == HistoryOf(db)[id := c.tree]
    ensures CanName(HistoryOf(db), id, c.tree)
  {
  }

  lemma AdvanceBranch(db: Db, name: Name, id: Id, c: Commit, heads: map<Path, Sha>, n: Name)
    requires CanAdvance(db, name, id, c) && n in db.refs
    ensures BranchOf(Advanced(db, name, id, c, heads), n) ==
              if n == name then BranchOf(db, n).(tree := c.tree) else BranchOf(db, n)
  {
    assert RefRooted(db, n);
  }

  /** Only the moved ref's tree and the new row change meaning. */
  lemma AdvanceMeaning(db: Db, name: Name, id: Id, c: Commit, heads: map<Path, Sha>)
    requires CanAdvance(db, name, id, c)
    ensures Meaning(Advanced(db, name, id, c, heads))
            == World(FilesOf(db)[name := FilesOf(db)[name].(tree := c.tree)], HistoryOf(db)[id := c.tree])
    ensures CanName(HistoryOf(db), id, c.tree)
  {
    var db' := Advanced(db, name, id, c, heads);
    InsertedHistory(db, id, c);
    assert HistoryOf(db') == HistoryOf(Inserted(db, id, c));
    forall n | n in db.refs
      ensures BranchOf(db', n) == FilesOf(db)[name := FilesOf(db)[name].(tree := c.tree)][n]
    {
      AdvanceBranch(db, name, id, c, heads, n);
    }
    SameFiles(db', FilesOf(db)[name := FilesOf(db)[name].(tree := c.tree)]);
  }

  /** A writer whose source is intact plans with the tree the meaning's history has; no other restore does. */
  lemma SourceIsTheCommits(db: Db, writer: Writer, tree: Tree)
    requires WriterLinked(db, writer) && writer.HeadsLoaded?
    requires Plan(writer.request, writer.heads, writer.source).NewTree?
    ensures Intact(db, writer) ==>
              Plan(writer.request, tree, writer.source)
              == Plan(writer.request, tree, SourceOf(Meaning(db), writer.request))
    ensures !Intact(db, writer) ==>
              && Plan(writer.request, writer.heads, writer.source) == NewTree(map[])
              && Plan(writer.request, tree, SourceOf(Meaning(db), writer.request)) != NewTree(map[])
  {
  }

  ghost predicate Stands(s: System, step: Step) {
    TreeStands(s, step) && SourceStands(s, step)
  }

  /**
   * A publication performs its request exactly when its stale plan still stands on
   * the tip it replaces and, for a restore, its source had not gone.
   */
  lemma PublishRefines(s: System, step: Step)
    requires FreeInv(s) && Enabled(s, step) && step.Publish?
    ensures Refines(s, step) <==> Stands(s, step)
  {
    var writer, c := s.writers[step.w], PublishedBy(s, step);
    var heads := UpdatedHeads(writer.request, HeadsOf(s.db, writer.name), c.tree);
    var tip := TreeOf(s.db, writer.seen);
    PublisherCanAdvance(s, step);
    AdvanceMeaning(s.db, writer.name, step.id, c, heads);
    StalePlanStands(writer.request, writer.heads, tip, writer.source);
    assert WriterLinked(s.db, writer);
    SourceIsTheCommits(s.db, writer, tip);
    var files := FilesOf(s.db);
    assert files[writer.name].tree == tip;
    assert FilesOf(Apply(s, step).db)[writer.name].tree == c.tree;
    hide Plan, Unaffected, Advanced, Rooted, UpdatedHeads, FilesOf, HistoryOf, WriterLinked, Intact, CollectorOk;
  }

  lemma ForkRefines(s: System, step: Step)
    requires FreeInv(s) && Enabled(s, step) && step.Fork?
    ensures Refines(s, step)
  {
    hide Rooted, WithMount, Branched, FilesOf, HistoryOf, CanInsert;
    var Fork(mount, branch, genesis, stamp) := step;
    MountMeaning(s.db, mount, genesis, stamp);
    MountKeepsRooted(s.db, mount, genesis, stamp);
    BranchMeaning(WithMount(s.db, mount, genesis, stamp), mount, branch);
    FilesAreRefs(s.db);
  }

  lemma FilesAreRefs(db: Db)
    ensures FilesOf(db).Keys == db.refs.Keys
  {
  }

  lemma MountMeaning(db: Db, mount: Name, genesis: Id, stamp: Stamp)
    requires Rooted(db) && (mount in db.refs || CanInsert(db, genesis, Genesis(stamp)))
    ensures WithMount(db, mount, genesis, stamp).refs.Keys == db.refs.Keys + {mount}
    ensures var db' := WithMount(db, mount, genesis, stamp);
            if mount in db.refs then Meaning(db') == Meaning(db)
            else && Meaning(db') == World(FilesOf(db)[mount := Branch(map[], None, Open)],
                                          HistoryOf(db)[genesis := map[]])
                 && CanName(HistoryOf(db), genesis, map[])
  {
    if mount !in db.refs {
      var db' := WithMount(db, mount, genesis, stamp);
      MountKeepsRooted(db, mount, genesis, stamp);
      InsertedHistory(db, genesis, Genesis(stamp));
      assert HistoryOf(db') == HistoryOf(Inserted(db, genesis, Genesis(stamp)));
      SameFiles(db', FilesOf(db)[mount := Branch(map[], None, Open)]);
    }
  }

  lemma BranchMeaning(db: Db, mount: Name, branch: Name)
    requires Rooted(db) && mount in db.refs && branch !in db.refs
    ensures var tree := FilesOf(db)[mount].tree;
            Meaning(Branched(db, mount, branch))
            == World(FilesOf(db)[branch := Branch(tree, Some(tree), Open)], HistoryOf(db))
  {
    var tree := FilesOf(db)[mount].tree;
    SameFiles(Branched(db, mount, branch), FilesOf(db)[branch := Branch(tree, Some(tree), Open)]);
  }

  lemma SettlingMeaning(db: Db, name: Name, state: RefState)
    requires name in db.refs
    ensures Meaning(Settling(db, name, state))
            == World(FilesOf(db)[name := FilesOf(db)[name].(state := state)], HistoryOf(db))
  {
    SameFiles(Settling(db, name, state), FilesOf(db)[name := FilesOf(db)[name].(state := state)]);
  }

  lemma JoinedIsTheResult(db: Db, branch: Name, mount: Name)
    requires branch in db.refs && mount in db.refs && db.refs[branch].base.Some?
    ensures Joined(FilesOf(db), branch, mount) == MergeResult(db, branch, mount)
    ensures FilesOf(db)[mount].tree == TreeOf(db, db.refs[mount].tip)
  {
  }

  lemma MergeMeaning(db: Db, branch: Name, mount: Name, id: Id, stamp: Stamp)
    requires Rooted(db) && CanMerge(db, branch, mount, id, stamp)
    ensures var merged := MergeResult(db, branch, mount);
            var settled := FilesOf(db)[branch := FilesOf(db)[branch].(state := Merged)];
            if merged == TreeOf(db, db.refs[mount].tip) then
              Meaning(MergedDb(db, branch, mount, id, stamp)) == World(settled, HistoryOf(db))
            else
              && CanName(HistoryOf(db), id, merged)
              && Meaning(MergedDb(db, branch, mount, id, stamp))
                 == World(settled[mount := FilesOf(db)[mount].(tree := merged)], HistoryOf(db)[id := merged])
  {
    SettlingMeaning(db, branch, Merged);
    if MergeResult(db, branch, mount) != TreeOf(db, db.refs[mount].tip) {
      var c := MergeCommit(db, branch, mount, stamp);
      MergerCanAdvance(db, branch, mount, id, stamp);
      hide Rooted, Settling, Advanced, HistoryOf, MergeResult, CanMerge;
      AdvanceMeaning(Settling(db, branch, Merged), mount, id, c, Shas(c.tree));
    }
  }

  lemma MergeIsPermitted(db: Db, branch: Name, mount: Name, id: Id, stamp: Stamp)
    requires Rooted(db) && CanMerge(db, branch, mount, id, stamp)
    ensures Permitted(Meaning(db), Join(branch, mount, id))
  {
    MergeMeaning(db, branch, mount, id, stamp);
    JoinedIsTheResult(db, branch, mount);
    hide Rooted, MergedDb, HistoryOf, Joined, MergeResult, CanInsert, MergeCommit;
  }

  lemma MergeRefines(s: System, step: Step)
    requires FreeInv(s) && Enabled(s, step) && step.MergeBranch?
    ensures Refines(s, step)
  {
    var MergeBranch(branch, mount, id, stamp) := step;
    MergeIsPermitted(s.db, branch, mount, id, stamp);
    MergeMeaning(s.db, branch, mount, id, stamp);
    JoinedIsTheResult(s.db, branch, mount);
    hide Rooted, MergedDb, HistoryOf, Joined, MergeResult, CanMerge, FilesOf, CollectorOk;
  }

  lemma CollectMeaning(db: Db, rows: Collection)
    ensures Meaning(Collected(db, rows)) == World(FilesOf(db) - rows.Keys, HistoryOf(db))
  {
    SameFiles(Collected(db, rows), FilesOf(db) - rows.Keys);
  }

  lemma SweepRefines(s: System, step: Step)
    requires FreeInv(s) && Enabled(s, step) && step.CollectCommits?
    ensures Refines(s, step)
  {
    SweepKeepsRooted(s.db, step.cutoff, step.limit, step.batch);
    SameFiles(Apply(s, step).db, FilesOf(s.db));
  }

  lemma CollectRefines(s: System, step: Step)
    requires FreeInv(s) && Enabled(s, step) && step.CollectRefs?
    ensures Refines(s, step)
  {
    CollectMeaning(s.db, s.collector.value);
    hide Rooted, HistoryOf, Collected;
  }

  lemma SettleRefines(s: System, step: Step)
    requires Enabled(s, step) && step.Settle?
    ensures Refines(s, step)
  {
    SettlingMeaning(s.db, step.name, step.state);
    hide HistoryOf, Settling;
  }

  /** The rest leave the tables as they are. */
  lemma QuietStepRefines(s: System, step: Step)
    requires Enabled(s, step)
    requires step.LoadRef? || step.LoadHeads? || step.FindSource? || step.ReadSource? || step.Withdraw?
             || step.CollectHeads? || step.CollectAborts?
    ensures Refines(s, step)
  {
    hide Meaning;
  }

  /** Every other step always is what the meaning says; a publication is exactly when it stands. */
  lemma EveryStepRefines(s: System, step: Step)
    requires FreeInv(s) && Enabled(s, step)
    ensures Refines(s, step) <==> Stands(s, step)
  {
    hide FreeInv, Enabled, Apply, Refines, Unaffected, Intact;
    match step
    case Publish(_, _, _) => PublishRefines(s, step);
    case Fork(_, _, _, _) => ForkRefines(s, step);
    case MergeBranch(_, _, _, _) => MergeRefines(s, step);
    case Settle(_, _) => SettleRefines(s, step);
    case CollectRefs => CollectRefines(s, step);
    case CollectCommits(_, _, _) => SweepRefines(s, step);
    case _ => QuietStepRefines(s, step);
  }

  // ---------------------------------------------------------------------
  // Whole runs.

  ghost predicate IsRun(s: System, steps: seq<Step>)
    decreases |steps|
  {
    steps == [] || (Enabled(s, steps[0]) && IsRun(Apply(s, steps[0]), steps[1..]))
  }

  ghost function After(s: System, steps: seq<Step>): System
    requires IsRun(s, steps)
    decreases |steps|
  {
    if steps == [] then s else After(Apply(s, steps[0]), steps[1..])
  }

  ghost function Labels(s: System, steps: seq<Step>): seq<Action>
    requires IsRun(s, steps)
    decreases |steps|
  {
    if steps == [] then [] else [Label(s, steps[0])] + Labels(Apply(s, steps[0]), steps[1..])
  }

  ghost predicate CanReplay(world: World, actions: seq<Action>)
    decreases |actions|
  {
    actions == [] || (Permitted(world, actions[0]) && CanReplay(Act(world, actions[0]), actions[1..]))
  }

  /** The actions performed one after another on the trees themselves. */
  ghost function Replay(world: World, actions: seq<Action>): World
    requires CanReplay(world, actions)
    decreases |actions|
  {
    if actions == [] then world else Replay(Act(world, actions[0]), actions[1..])
  }

  /** At every point of the run the store means what its actions so far, performed serially, have made. */
  ghost predicate IsSerial(s: System, steps: seq<Step>)
    requires IsRun(s, steps)
    decreases |steps|
  {
    steps == [] || (Refines(s, steps[0]) && IsSerial(Apply(s, steps[0]), steps[1..]))
  }

  ghost predicate AllStand(s: System, steps: seq<Step>)
    requires IsRun(s, steps)
    decreases |steps|
  {
    steps == [] || (Stands(s, steps[0]) && AllStand(Apply(s, steps[0]), steps[1..]))
  }

  /** In every run no commit is missing a parent and no tip or base is missing. */
  lemma {:induction false} RunsKeepRooted(s: System, steps: seq<Step>)
    requires FreeInv(s) && IsRun(s, steps)
    ensures FreeInv(After(s, steps)) && Grows(s.db, After(s, steps).db)
    decreases |steps|
  {
    if steps != [] {
      StepKeepsLinks(s, steps[0]);
      StepKeepsRooted(s, steps[0]);
      RunsKeepRooted(Apply(s, steps[0]), steps[1..]);
    }
  }

  /**
   * Any interleaving of writers, forks, merges and collection is a serial run of
   * its published actions exactly when every publication stands on the tip it
   * replaces.
   */
  lemma {:induction false} RunsAreSerial(s: System, steps: seq<Step>)
    requires FreeInv(s) && IsRun(s, steps)
    ensures IsSerial(s, steps) <==> AllStand(s, steps)
    ensures AllStand(s, steps) ==>
              && CanReplay(Meaning(s.db), Labels(s, steps))
              && Meaning(After(s, steps).db) == Replay(Meaning(s.db), Labels(s, steps))
    decreases |steps|
  {
    if steps != [] {
      var next := Apply(s, steps[0]);
      EveryStepRefines(s, steps[0]);
      StepKeepsLinks(s, steps[0]);
      RunsAreSerial(next, steps[1..]);
      hide FreeInv, Stands, Meaning, Act, Enabled;
      assert Labels(s, steps)[1..] == Labels(next, steps[1..]) && Labels(s, steps)[0] == Label(s, steps[0]);
    }
  }

  /**
   * A published commit sits on exactly the tip it replaced. For a restore its tree
   * is the tree of the commit the request names exactly when that had not gone
   * before it was read; for any request it is the request applied to the replaced
   * tip's tree exactly when the publication stands.
   */
  lemma PublishReplacesItsParent(s: System, step: Step)
    requires FreeInv(s) && step.Publish? && Enabled(s, step)
    ensures var writer := s.writers[step.w];
            var name := writer.name;
            && name in s.db.refs && name in Apply(s, step).db.refs
            && var parent, tip := s.db.refs[name].tip, Apply(s, step).db.refs[name].tip;
            && parent in s.db.commits && tip in Apply(s, step).db.commits && parent < tip
            && var before, c := s.db.commits[parent].tree, Apply(s, step).db.commits[tip];
            && c.parents == [parent]
            && (writer.request.Restore? ==>
                  && writer.request.source in s.db.inserted
                  && (c.tree == s.db.inserted[writer.request.source].tree <==> SourceStands(s, step)))
            && (Plan(writer.request, before, SourceOf(Meaning(s.db), writer.request)) == NewTree(c.tree)
                <==> Stands(s, step))
            && (TreeStands(s, step) && (writer.request.Write? || writer.request.Delete?) ==>
                  Matches(writer.request.ifSha, Get(before, writer.request.path)))
  {
    var writer, c := s.writers[step.w], PublishedBy(s, step);
    PublisherCanAdvance(s, step);
    assert WriterLinked(s.db, writer) && RefRooted(s.db, writer.name);
    var before := s.db.commits[writer.seen].tree;
    TipIsOlder(s.db, writer.name, step.id, c);
    StalePlanStands(writer.request, writer.heads, before, writer.source);
    SourceIsTheCommits(s.db, writer, before);
    RestoresItsSource(writer);
    hide Rooted, CanInsert, Unaffected, UpdatedHeads;
  }

  lemma RestoresItsSource(writer: Writer)
    requires writer.HeadsLoaded? && Plan(writer.request, writer.heads, writer.source).NewTree?
    ensures writer.request.Restore? ==>
              writer.source.Some? && Plan(writer.request, writer.heads, writer.source).tree == writer.source.value
  {
  }
}
