/**
 * src/kernel.ts, `restore`: the source commit is looked up in one statement and its
 * tree read in the next. What keeps it there in between, and what happens if nothing does.
 */
module RestoreSource {
  import opened Prelude
  import opened Coherence
  import opened Trees
  import opened CommitGraph
  import opened Stale
  import opened Store
  import opened StoreInvariants
  import opened Serializability
  import opened Caches
  import opened Races

  /** The commit is the ref's tip or below it. */
  ghost predicate Below(db: Db, name: Name, id: Id) {
    name in db.refs && Reaches(db.commits, db.refs[name].tip, id)
  }

  lemma BelowIsStored(db: Db, name: Name, id: Id)
    requires Rooted(db) && Below(db, name, id)
    ensures id in db.commits
  {
    assert RefRooted(db, name);
    AncestorsAreStored(db.commits, db.refs[name].tip, id);
  }

  lemma AdvanceKeepsBelow(db: Db, moved: Name, id: Id, c: Commit, heads: map<Path, Sha>, name: Name, below: Id)
    requires CanAdvance(db, moved, id, c) && Below(db, name, below)
    ensures Below(Advanced(db, moved, id, c, heads), name, below)
  {
    InsertKeepsReach(db, id, c);
    assert RefRooted(db, name);
    var grown := Inserted(db, id, c).commits;
    if name == moved {
      assert Reaches(grown, id, c.parents[0]);
      ReachesTransitive(grown, id, db.refs[name].tip, below);
    }
  }

  lemma MergeKeepsBelow(db: Db, branch: Name, mount: Name, id: Id, stamp: Stamp, name: Name, below: Id)
    requires Rooted(db) && CanMerge(db, branch, mount, id, stamp) && Below(db, name, below)
    ensures Below(MergedDb(db, branch, mount, id, stamp), name, below)
  {
    hide CanMerge, MergeResult;
    CanMergeHas(db, branch, mount, id, stamp);
    if MergeResult(db, branch, mount) != TreeOf(db, db.refs[mount].tip) {
      MergerCanAdvance(db, branch, mount, id, stamp);
      var c := MergeCommit(db, branch, mount, stamp);
      AdvanceKeepsBelow(Settling(db, branch, Merged), mount, id, c, Shas(c.tree), name, below);
    }
  }

  lemma CanMergeHas(db: Db, branch: Name, mount: Name, id: Id, stamp: Stamp)
    requires CanMerge(db, branch, mount, id, stamp)
    ensures branch in db.refs && mount in db.refs && db.refs[branch].base.Some?
  {
  }

  lemma ForkKeepsBelow(db: Db, mount: Name, branch: Name, genesis: Id, stamp: Stamp, name: Name, below: Id)
    requires Rooted(db) && branch !in db.refs && (mount in db.refs || CanInsert(db, genesis, Genesis(stamp)))
    requires Below(db, name, below)
    ensures Below(Branched(WithMount(db, mount, genesis, stamp), mount, branch), name, below)
  {
    if mount !in db.refs { InsertKeepsReach(db, genesis, Genesis(stamp)); }
    assert RefRooted(db, name);
  }

  /** Tips move up only, and no sweep reaches below a ref. */
  lemma StepKeepsBelow(s: System, step: Step, name: Name, below: Id)
    requires Rooted(s.db) && Enabled(s, step) && Below(s.db, name, below) && name in Apply(s, step).db.refs
    ensures Below(Apply(s, step).db, name, below)
  {
    hide Plan, UpdatedHeads, MergedDb, CanInsert, CanMerge, Reaches, Branched, WithMount;
    match step
    case Publish(w, id, _) =>
      PublisherCanAdvance(s, step);
      var writer, c := s.writers[w], PublishedBy(s, step);
      var heads := UpdatedHeads(writer.request, HeadsOf(s.db, writer.name), c.tree);
      AdvanceKeepsBelow(s.db, writer.name, id, c, heads, name, below);
    case MergeBranch(branch, mount, id, stamp) => MergeKeepsBelow(s.db, branch, mount, id, stamp, name, below);
    case Fork(mount, branch, genesis, stamp) => ForkKeepsBelow(s.db, mount, branch, genesis, stamp, name, below);
    case CollectCommits(cutoff, limit, batch) => SweepKeepsRefs(s.db, cutoff, batch, name);
    case _ =>
  }

  lemma {:induction false} RunKeepsBelow(s: System, steps: seq<Step>, name: Name, below: Id)
    requires FreeInv(s) && IsRun(s, steps) && Lives(s, steps, name) && Below(s.db, name, below)
    ensures Below(After(s, steps).db, name, below) && below in After(s, steps).db.commits
    decreases |steps|
  {
    FreeIsRooted(s);
    if steps == [] {
      BelowIsStored(s.db, name, below);
    } else {
      StepKeepsBelow(s, steps[0], name, below);
      StepKeepsLinks(s, steps[0]);
      hide Below, Enabled, FreeInv;
      RunKeepsBelow(Apply(s, steps[0]), steps[1..], name, below);
    }
  }

  /** No sweep of the run has a cutoff at or past the commit's own time. */
  predicate InGrace(steps: seq<Step>, at: int) {
    forall i | 0 <= i < |steps| && steps[i].CollectCommits? :: steps[i].cutoff < at
  }

  lemma StepKeepsYoung(s: System, step: Step, id: Id)
    requires Rooted(s.db) && Enabled(s, step) && id in s.db.commits
    requires step.CollectCommits? ==> step.cutoff < s.db.commits[id].createdAt
    ensures id in Apply(s, step).db.commits && Apply(s, step).db.commits[id] == s.db.commits[id]
  {
    if step.CollectCommits? {
      assert GcSweep.IsRoot(s.db.commits, RootsOf(s.db, step.cutoff), id) && Reaches(s.db.commits, id, id);
    }
    ProtectedStays(s, step, id);
    StepKeepsRooted(s, step);
    SameRow(s.db, Apply(s, step).db, id);
    hide Rooted, Enabled, Apply;
  }

  lemma SameRow(db: Db, db': Db, id: Id)
    requires Rooted(db) && Rooted(db') && Grows(db, db') && id in db.commits && id in db'.commits
    ensures db'.commits[id] == db.commits[id]
  {
  }

  lemma {:induction false} RunKeepsYoung(s: System, steps: seq<Step>, id: Id)
    requires FreeInv(s) && IsRun(s, steps) && id in s.db.commits && InGrace(steps, s.db.commits[id].createdAt)
    ensures id in After(s, steps).db.commits
    decreases |steps|
  {
    if steps != [] {
      FreeIsRooted(s);
      StepKeepsYoung(s, steps[0], id);
      StepKeepsLinks(s, steps[0]);
      hide Enabled, FreeInv;
      RunKeepsYoung(Apply(s, steps[0]), steps[1..], id);
    }
  }

  /** What a caller can see to: the commit is below a ref that lives on, or younger than every sweep's cutoff. */
  ghost predicate Kept(s: System, steps: seq<Step>, id: Id)
    requires IsRun(s, steps)
  {
    || (exists name :: Lives(s, steps, name) && Below(s.db, name, id))
    || (id in s.db.commits && InGrace(steps, s.db.commits[id].createdAt))
  }

  lemma KeptIsStored(s: System, steps: seq<Step>, id: Id)
    requires FreeInv(s) && IsRun(s, steps) && Kept(s, steps, id)
    ensures id in After(s, steps).db.commits
  {
    if name :| Lives(s, steps, name) && Below(s.db, name, id) {
      RunKeepsBelow(s, steps, name, id);
    } else {
      RunKeepsYoung(s, steps, id);
    }
  }

  /** Then the restore reads its source's own tree, whatever ran between its two statements. */
  lemma KeptSourceIsIntact(s: System, steps: seq<Step>, read: Step)
    requires FreeInv(s) && IsRun(s, steps) && read.ReadSource? && Enabled(After(s, steps), read)
    requires Kept(s, steps, After(s, steps).writers[read.w].request.source)
    ensures var t := After(s, steps);
            var id, writer := t.writers[read.w].request.source, Apply(t, read).writers[read.w];
            && writer.HeadsLoaded? && id in t.db.inserted && writer.source == Some(t.db.inserted[id].tree)
            && Intact(Apply(t, read).db, writer)
  {
    var t := After(s, steps);
    RunsKeepRooted(s, steps);
    KeptIsStored(s, steps, t.writers[read.w].request.source);
    ReadIsIntact(t, read);
    hide FreeInv, IsRun, After, Kept, Enabled;
  }

  // ---------------------------------------------------------------------
  // A source collected between the two statements.

  const ONLY_X: Tree := map["/x" := Entry(9, 420)]

  const THREE: Commits := BOTH[3 := Commit(ONLY_X, [1], "write", "u", 0)]

  /** `c` stands on a commit with `/x`; the commit with `/a` is below no ref any more. */
  const WITH_X := Db(THREE, map["m" := Ref(1, None, Open), "c" := Ref(3, Some(1), Open)],
                     map["b" := map[], "c" := map["/x" := 9]], THREE)

  const SWEPT := WITH_X.(commits := map[1 := Genesis(STAMP), 3 := Commit(ONLY_X, [1], "write", "u", 0)])

  const WITH_C := Db(BOTH, map["m" := Ref(1, None, Open), "c" := Ref(1, Some(1), Open)],
                     map["b" := map[], "c" := map[]], BOTH)

  const X_LOADED := HeadsLoaded("c", WRITE_X, 1, map[], None, true)

  const FOUND := Restoring("c", Restore(2), 3, ONLY_X, true)

  const NOTHING_READ := HeadsLoaded("c", Restore(2), 3, ONLY_X, Some(map[]), false)

  function CollectedRun(): seq<Step> {
    Loading() + [Publish(0, 2, STAMP)] + [Settle("b", Abandoned)] + [CollectHeads({"b"})] + [CollectRefs]
  }

  lemma AIsCollected()
    ensures IsRun(EMPTY, CollectedRun()) && After(EMPTY, CollectedRun()) == System(GONE, map[], None)
  {
    WriterOnOpenBranch();
    var none: map<nat, Writer> := map[];
    assert none[0 := A_LOADED] == map[0 := A_LOADED];
    assert FORKED.refs["b" := Ref(1, Some(1), Open)] == FORKED.refs;
    PublishesA(System(FORKED, none[0 := A_LOADED], None), Open, none);
    SettlesGrown(none);
    FindsWhole(none);
    TakesWhole(none);
    hide IsRun, After, Enabled, Apply, Loading;
    var s := System(Grown(Abandoned), none, Some(map["b" := {"/a"}]));
    Then(EMPTY, Loading(), System(FORKED, none[0 := A_LOADED], None), Publish(0, 2, STAMP),
         System(Grown(Open), none, None));
    var r1 := Loading() + [Publish(0, 2, STAMP)];
    Then(EMPTY, r1, System(Grown(Open), none, None), Settle("b", Abandoned), System(Grown(Abandoned), none, None));
    Then(EMPTY, r1 + [Settle("b", Abandoned)], System(Grown(Abandoned), none, None), CollectHeads({"b"}), s);
    Then(EMPTY, r1 + [Settle("b", Abandoned)] + [CollectHeads({"b"})], s, CollectRefs, System(GONE, none, None));
  }

  function OtherBranchRun(): seq<Step> {
    CollectedRun() + [Fork("m", "c", 0, STAMP)] + [LoadRef(1, "c", WRITE_X)] + [LoadHeads(1)] + [Publish(1, 3, STAMP)]
  }

  lemma ForksC()
    ensures Leads(System(GONE, map[], None), Fork("m", "c", 0, STAMP), System(WITH_C, map[], None))
  {
    var nothing: Tree := map[];
    assert Shas(nothing).Keys == {};
    assert WithMount(GONE, "m", 0, STAMP) == GONE && TreeOf(GONE, 1) == nothing;
    assert Branched(GONE, "m", "c") == WITH_C;
  }

  lemma LoadsX()
    ensures var loading := System(WITH_C, map[1 := RefLoaded("c", WRITE_X, 1)], None);
            && Leads(System(WITH_C, map[], None), LoadRef(1, "c", WRITE_X), loading)
            && Leads(loading, LoadHeads(1), System(WITH_C, map[1 := X_LOADED], None))
  {
    assert LoadedHeads(WITH_C, "c", 1) == map[];
    var waiting: map<nat, Writer> := map[1 := RefLoaded("c", WRITE_X, 1)];
    assert waiting[1 := X_LOADED] == map[1 := X_LOADED];
  }

  lemma AdvancesX()
    ensures var c := Commit(ONLY_X, [1], "write", "u", 0);
            CanInsert(WITH_C, 3, c) && Advanced(WITH_C, "c", 3, c, map["/x" := 9]) == WITH_X
  {
    var c := Commit(ONLY_X, [1], "write", "u", 0);
    assert ONLY_X["/x"].sha == 9 && "/x" !in ONLY_A;
    assert BOTH[1] != c && BOTH[2] != c;
    assert WITH_C.heads["c" := map["/x" := 9]] == WITH_X.heads;
    assert WITH_C.refs["c" := Ref(3, Some(1), Open)] == WITH_X.refs;
  }

  lemma PublishesX()
    ensures Leads(System(WITH_C, map[1 := X_LOADED], None), Publish(1, 3, STAMP), System(WITH_X, map[], None))
  {
    var s, none: map<nat, Writer> := System(WITH_C, map[1 := X_LOADED], None), map[];
    assert Plan(WRITE_X, map[], None) == NewTree(ONLY_X);
    assert PlannedCommit(X_LOADED, STAMP) == Commit(ONLY_X, [1], "write", "u", 0);
    AdvancesX();
    assert UpdatedHeads(WRITE_X, HeadsOf(s.db, "c"), ONLY_X) == map["/x" := 9];
    assert s.writers - {1} == none;
    hide Plan, PlannedCommit, OpName, UpdatedHeads, Advanced, CanInsert, HeadsOf;
  }

  lemma OtherBranchHasX()
    ensures IsRun(EMPTY, OtherBranchRun()) && After(EMPTY, OtherBranchRun()) == System(WITH_X, map[], None)
  {
    AIsCollected();
    ForksC();
    LoadsX();
    PublishesX();
    hide IsRun, After, Enabled, Apply, CollectedRun;
    var waiting: map<nat, Writer> := map[1 := RefLoaded("c", WRITE_X, 1)];
    var r := CollectedRun() + [Fork("m", "c", 0, STAMP)];
    Then(EMPTY, CollectedRun(), System(GONE, map[], None), Fork("m", "c", 0, STAMP), System(WITH_C, map[], None));
    Then(EMPTY, r, System(WITH_C, map[], None), LoadRef(1, "c", WRITE_X), System(WITH_C, waiting, None));
    var loaded := System(WITH_C, map[1 := X_LOADED], None);
    Then(EMPTY, r + [LoadRef(1, "c", WRITE_X)], System(WITH_C, waiting, None), LoadHeads(1), loaded);
    Then(EMPTY, r + [LoadRef(1, "c", WRITE_X)] + [LoadHeads(1)], loaded, Publish(1, 3, STAMP), System(WITH_X, map[], None));
  }

  function RestoringRun(): seq<Step> {
    OtherBranchRun() + [LoadRef(2, "c", Restore(2))] + [LoadHeads(2)] + [FindSource(2)] + [CollectCommits(0, 1, {2})]
    + [ReadSource(2)]
  }

  lemma FindsA()
    ensures var loaded := System(WITH_X, map[2 := RefLoaded("c", Restore(2), 3)], None);
            var seeking := System(WITH_X, map[2 := Restoring("c", Restore(2), 3, ONLY_X, false)], None);
            && Leads(System(WITH_X, map[], None), LoadRef(2, "c", Restore(2)), loaded)
            && Leads(loaded, LoadHeads(2), seeking)
            && Leads(seeking, FindSource(2), System(WITH_X, map[2 := FOUND], None))
  {
    var loaded: map<nat, Writer> := map[2 := RefLoaded("c", Restore(2), 3)];
    var seeking := Restoring("c", Restore(2), 3, ONLY_X, false);
    assert LoadedHeads(WITH_X, "c", 3) == ONLY_X;
    assert loaded[2 := seeking] == map[2 := seeking] && map[2 := seeking][2 := FOUND] == map[2 := FOUND];
  }

  lemma AIsDoomed()
    ensures GcSweep.Doomed(THREE, RootsOf(WITH_X, 0)) == {2}
  {
    var roots := RootsOf(WITH_X, 0);
    assert WITH_X.refs["m"].tip == 1 && WITH_X.refs["c"].tip == 3 && WITH_X.refs["c"].base == Some(1);
    assert Tips(WITH_X) == {1, 3} && Bases(WITH_X) == {1};
    assert Reaches(THREE, 1, 1) && Reaches(THREE, 3, 3);
    assert GcSweep.IsRoot(THREE, roots, 1) && GcSweep.IsRoot(THREE, roots, 3);
    NewerIsNotReached(THREE, 1, 2);
    forall r | GcSweep.IsRoot(THREE, roots, r)
      ensures !Reaches(THREE, r, 2)
    {
      assert r in roots.tips ==> r == 1 || r == 3;
      assert forall p | IsParent(THREE, p, 3) :: p == 1;
    }
  }

  lemma NewerIsNotReached(commits: Commits, d: Id, a: Id)
    requires d < a
    ensures !Reaches(commits, d, a)
  {
    if Reaches(commits, d, a) { ReachesOlder(commits, d, a); }
  }

  lemma SweepsA(writers: map<nat, Writer>)
    ensures Leads(System(WITH_X, writers, None), CollectCommits(0, 1, {2}), System(SWEPT, writers, None))
  {
    AIsDoomed();
    hide GcSweep.Doomed, GcSweep.Before;
    assert |{2}| == 1;
    assert GcSweep.Without(THREE, {2}) == SWEPT.commits;
  }

  lemma ReadsNothing()
    ensures Leads(System(SWEPT, map[2 := FOUND], None), ReadSource(2), System(SWEPT, map[2 := NOTHING_READ], None))
  {
    var found: map<nat, Writer> := map[2 := FOUND];
    assert WithSource(SWEPT, FOUND) == NOTHING_READ;
    assert found[2 := NOTHING_READ] == map[2 := NOTHING_READ];
  }

  lemma SourceIsSweptAway()
    ensures IsRun(EMPTY, RestoringRun()) && After(EMPTY, RestoringRun()) == System(SWEPT, map[2 := NOTHING_READ], None)
  {
    OtherBranchHasX();
    FindsA();
    SweepsA(map[2 := FOUND]);
    ReadsNothing();
    hide IsRun, After, Enabled, Apply, OtherBranchRun;
    var loaded := System(WITH_X, map[2 := RefLoaded("c", Restore(2), 3)], None);
    var seeking := System(WITH_X, map[2 := Restoring("c", Restore(2), 3, ONLY_X, false)], None);
    var r1 := OtherBranchRun() + [LoadRef(2, "c", Restore(2))];
    Then(EMPTY, OtherBranchRun(), System(WITH_X, map[], None), LoadRef(2, "c", Restore(2)), loaded);
    Then(EMPTY, r1, loaded, LoadHeads(2), seeking);
    var r2 := r1 + [LoadHeads(2)];
    Then(EMPTY, r2, seeking, FindSource(2), System(WITH_X, map[2 := FOUND], None));
    var r3 := r2 + [FindSource(2)];
    Then(EMPTY, r3, System(WITH_X, map[2 := FOUND], None), CollectCommits(0, 1, {2}),
         System(SWEPT, map[2 := FOUND], None));
    Then(EMPTY, r3 + [CollectCommits(0, 1, {2})], System(SWEPT, map[2 := FOUND], None), ReadSource(2),
         System(SWEPT, map[2 := NOTHING_READ], None));
  }

  lemma PublishesNothing(s: System)
    requires s == System(SWEPT, map[2 := NOTHING_READ], None)
    ensures Enabled(s, Publish(2, 4, STAMP)) && !SourceStands(s, Publish(2, 4, STAMP))
    ensures var db := Apply(s, Publish(2, 4, STAMP)).db; "c" in db.refs && TreeOf(db, db.refs["c"].tip) == map[]
  {
    var c := Commit(map[], [3], "restore", "u", 0);
    assert "/x" in ONLY_X;
    assert PlannedCommit(NOTHING_READ, STAMP) == c;
    assert s.db.commits[1] != c && s.db.commits[3] != c;
    assert "/a" in ONLY_A && s.db.inserted[2].tree == ONLY_A;
  }

  /** From the empty store: a restore of a commit with one file, swept after it was found, commits no file at all. */
  lemma RestoreCanLoseItsSource()
    ensures IsRun(EMPTY, RestoringRun())
    ensures var s, publish := After(EMPTY, RestoringRun()), Publish(2, 4, STAMP);
            && Enabled(s, publish) && !SourceStands(s, publish)
            && s.writers[2].request == Restore(2) && 2 in s.db.inserted && s.db.inserted[2].tree == ONLY_A
            && var db := Apply(s, publish).db;
               "c" in db.refs && TreeOf(db, db.refs["c"].tip) == map[]
  {
    SourceIsSweptAway();
    PublishesNothing(System(SWEPT, map[2 := NOTHING_READ], None));
  }
}
