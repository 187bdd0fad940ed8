/** Where the protocol's guarantees end: what no run can do, and what some run does. */
module Races {
  import opened Prelude
  import opened Coherence
  import opened Trees
  import opened CommitGraph
  import opened Stale
  import opened Store
  import opened StoreInvariants
  import opened Serializability
  import opened Caches
  import opened Retry

  /** The steps that settle a branch. */
  predicate Closes(step: Step, name: Name) {
    (step.Settle? && step.name == name) || (step.MergeBranch? && step.branch == name)
  }

  lemma StepKeepsRef(s: System, step: Step, name: Name)
    requires FreeInv(s) && Enabled(s, step) && name in s.db.refs && name in Apply(s, step).db.refs
    ensures s.db.refs[name].tip <= Apply(s, step).db.refs[name].tip
    ensures (Apply(s, step).db.refs[name].state == Open) <==> s.db.refs[name].state == Open && !Closes(step, name)
  {
    StepOnlyRaisesTips(s, step, name);
    StepKeepsStates(s, step, name);
  }

  lemma StepKeepsStates(s: System, step: Step, name: Name)
    requires Enabled(s, step) && name in s.db.refs && name in Apply(s, step).db.refs
    ensures (Apply(s, step).db.refs[name].state == Open) <==> s.db.refs[name].state == Open && !Closes(step, name)
  {
    hide Plan, UpdatedHeads, MergeResult, MergeCommit, CanInsert;
  }

  /** No collector has an open branch in hand. */
  lemma OpenIsKept(s: System, step: Step, name: Name)
    requires FreeInv(s) && Enabled(s, step) && name in s.db.refs && s.db.refs[name].state == Open
    ensures name in Apply(s, step).db.refs
  {
    hide Plan, UpdatedHeads, MergeResult, MergeCommit, CanInsert, Rooted;
  }

  /** The ref is there at every point of the run. */
  ghost predicate Lives(s: System, steps: seq<Step>, name: Name)
    requires IsRun(s, steps)
    decreases |steps|
  {
    name in s.db.refs && (steps != [] ==> Lives(Apply(s, steps[0]), steps[1..], name))
  }

  lemma {:induction false} TipOnlyGrows(s: System, steps: seq<Step>, name: Name)
    requires FreeInv(s) && IsRun(s, steps) && Lives(s, steps, name)
    ensures name in After(s, steps).db.refs && s.db.refs[name].tip <= After(s, steps).db.refs[name].tip
    decreases |steps|
  {
    if steps != [] {
      StepKeepsRef(s, steps[0], name);
      StepKeepsLinks(s, steps[0]);
      TipOnlyGrows(Apply(s, steps[0]), steps[1..], name);
    }
  }

  /** Once a ref has left a tip it never stands there again, so an equal tip means an unmoved ref. */
  lemma TipNeverRecurs(s: System, left: seq<Step>, later: seq<Step>, name: Name)
    requires FreeInv(s) && IsRun(s, left) && IsRun(After(s, left), later)
    requires Lives(s, left, name) && Lives(After(s, left), later, name)
    ensures name in After(s, left).db.refs && name in After(After(s, left), later).db.refs
    ensures After(s, left).db.refs[name].tip != s.db.refs[name].tip ==>
              After(After(s, left), later).db.refs[name].tip != s.db.refs[name].tip
  {
    TipOnlyGrows(s, left, name);
    RunsKeepRooted(s, left);
    TipOnlyGrows(After(s, left), later, name);
  }

  predicate NoneCloses(steps: seq<Step>, name: Name) {
    steps == [] || (!Closes(steps[0], name) && NoneCloses(steps[1..], name))
  }

  /** A branch a writer saw open is there and open throughout, up to its publication, exactly if nothing settled it. */
  lemma {:induction false} OpenUntilSettled(s: System, steps: seq<Step>, name: Name)
    requires FreeInv(s) && IsRun(s, steps) && name in s.db.refs && s.db.refs[name].state == Open
    ensures NoneCloses(steps, name) <==>
            Lives(s, steps, name) && name in After(s, steps).db.refs && After(s, steps).db.refs[name].state == Open
    decreases |steps|
  {
    if steps != [] {
      var next := Apply(s, steps[0]);
      OpenIsKept(s, steps[0], name);
      StepKeepsRef(s, steps[0], name);
      StepKeepsLinks(s, steps[0]);
      if Closes(steps[0], name) {
        if Lives(next, steps[1..], name) { StaysSettled(next, steps[1..], name); }
      } else {
        OpenUntilSettled(next, steps[1..], name);
      }
    }
  }

  lemma {:induction false} StaysSettled(s: System, steps: seq<Step>, name: Name)
    requires FreeInv(s) && IsRun(s, steps) && Lives(s, steps, name) && s.db.refs[name].state != Open
    ensures name in After(s, steps).db.refs && After(s, steps).db.refs[name].state != Open
    decreases |steps|
  {
    if steps != [] {
      StepKeepsRef(s, steps[0], name);
      StepKeepsLinks(s, steps[0]);
      StaysSettled(Apply(s, steps[0]), steps[1..], name);
    }
  }

  // ---------------------------------------------------------------------
  // Runs, one step after another.

  lemma {:induction false} Then(s: System, steps: seq<Step>, mid: System, step: Step, end: System)
    requires IsRun(s, steps) && After(s, steps) == mid
    requires Enabled(mid, step) && Apply(mid, step) == end
    ensures IsRun(s, steps + [step]) && After(s, steps + [step]) == end
    decreases |steps|
  {
    if steps == [] {
      assert (steps + [step])[1..] == [];
      assert IsRun(end, []) && After(end, []) == end;
    } else {
      Then(Apply(s, steps[0]), steps[1..], mid, step, end);
      assert (steps + [step])[1..] == steps[1..] + [step];
    }
  }

  ghost predicate Leads(s: System, step: Step, next: System) {
    Enabled(s, step) && Apply(s, step) == next
  }

  lemma Starts(s: System)
    ensures IsRun(s, []) && After(s, []) == s
  {
  }

  const STAMP := Stamp("u", 0)

  const WRITE_A := Write("/a", 7, Any)

  const ONLY_A: Tree := map["/a" := Entry(7, 420)]

  /** A mount and a branch forked from its empty tip. */
  const FORKED := Db(map[1 := Genesis(STAMP)], map["m" := Ref(1, None, Open), "b" := Ref(1, Some(1), Open)],
                     map["b" := map[]], map[1 := Genesis(STAMP)])

  const BOTH: Commits := map[1 := Genesis(STAMP), 2 := Commit(ONLY_A, [1], "write", "u", 0)]

  /** The branch after a writer put `/a` there. */
  function Grown(state: RefState): Db {
    Db(BOTH, map["m" := Ref(1, None, Open), "b" := Ref(2, Some(1), state)], map["b" := map["/a" := 7]], BOTH)
  }

  const A_LOADED := HeadsLoaded("b", WRITE_A, 1, map[], None, true)

  lemma ForkedFromEmpty()
    ensures Enabled(EMPTY, Fork("m", "b", 1, STAMP))
    ensures Apply(EMPTY, Fork("m", "b", 1, STAMP)) == System(FORKED, map[], None)
  {
  }

  lemma PlansA()
    ensures Plan(WRITE_A, map[], None) == NewTree(ONLY_A)
    ensures PlannedCommit(A_LOADED, STAMP) == Commit(ONLY_A, [1], "write", "u", 0)
  {
  }

  /** What a writer that has loaded `/a` makes of the branch, whatever the branch's state. */
  lemma PublishesA(s: System, state: RefState, writers: map<nat, Writer>)
    requires s.db == FORKED.(refs := FORKED.refs["b" := Ref(1, Some(1), state)])
    requires s.writers == writers[0 := A_LOADED]
    requires 0 !in writers && Unblocked(s.collector, "b", WRITE_A)
    ensures Leads(s, Publish(0, 2, STAMP), System(Grown(state), writers, s.collector))
  {
    PlansA();
    AdvancesA(s.db, state);
    assert UpdatedHeads(WRITE_A, HeadsOf(s.db, "b"), ONLY_A) == map["/a" := 7];
    assert writers[0 := A_LOADED] - {0} == writers;
    hide Plan, PlannedCommit, Unblocked, OpName, UpdatedHeads, Advanced, CanInsert, HeadsOf;
  }

  lemma AdvancesA(db: Db, state: RefState)
    requires db == FORKED.(refs := FORKED.refs["b" := Ref(1, Some(1), state)])
    ensures var c := Commit(ONLY_A, [1], "write", "u", 0);
            CanInsert(db, 2, c) && Advanced(db, "b", 2, c, map["/a" := 7]) == Grown(state)
  {
    var c := Commit(ONLY_A, [1], "write", "u", 0);
    assert db.commits[1] != c;
    assert db.commits[2 := c] == BOTH && db.heads["b" := map["/a" := 7]] == Grown(state).heads;
    assert db.refs["b" := Ref(2, Some(1), state)] == Grown(state).refs;
  }

  /** And its plan is stale in no way. */
  lemma PublicationOfAStands(s: System)
    requires s.writers == map[0 := A_LOADED] && HeadsOf(s.db, "b") == map[] && TreeOf(s.db, 1) == map[]
    ensures CacheStands(s, Publish(0, 2, STAMP)) && Stands(s, Publish(0, 2, STAMP))
  {
    PlansA();
    var none: Tree := map[];
    StalePlanStands(WRITE_A, none, none, None);
  }

  lemma LoadsA(s: System, writers: map<nat, Writer>)
    requires s == System(FORKED, writers, None) && 0 !in writers
    ensures var s1 := System(FORKED, writers[0 := RefLoaded("b", WRITE_A, 1)], None);
            && Enabled(s, LoadRef(0, "b", WRITE_A)) && Apply(s, LoadRef(0, "b", WRITE_A)) == s1
            && Enabled(s1, LoadHeads(0)) && Apply(s1, LoadHeads(0)) == System(FORKED, writers[0 := A_LOADED], None)
  {
    var s1 := System(FORKED, writers[0 := RefLoaded("b", WRITE_A, 1)], None);
    assert LoadedHeads(FORKED, "b", 1) == map[];
    assert s1.writers[0 := A_LOADED] == writers[0 := A_LOADED];
  }

  function Loading(): seq<Step> {
    [] + [Fork("m", "b", 1, STAMP)] + [LoadRef(0, "b", WRITE_A)] + [LoadHeads(0)]
  }

  lemma WriterOnOpenBranch()
    ensures IsRun(EMPTY, Loading()) && After(EMPTY, Loading()) == System(FORKED, map[0 := A_LOADED], None)
  {
    Starts(EMPTY);
    hide IsRun, After, Apply, Enabled;
    ForkedFromEmpty();
    var none: map<nat, Writer> := map[];
    LoadsA(System(FORKED, none, None), none);
    var s1 := System(FORKED, none[0 := RefLoaded("b", WRITE_A, 1)], None);
    Then(EMPTY, [], EMPTY, Fork("m", "b", 1, STAMP), System(FORKED, none, None));
    Then(EMPTY, [] + [Fork("m", "b", 1, STAMP)], System(FORKED, none, None), LoadRef(0, "b", WRITE_A), s1);
    Then(EMPTY, [] + [Fork("m", "b", 1, STAMP)] + [LoadRef(0, "b", WRITE_A)], s1, LoadHeads(0),
         System(FORKED, none[0 := A_LOADED], None));
    assert none[0 := A_LOADED] == map[0 := A_LOADED];
  }

  // ---------------------------------------------------------------------
  // A branch settled under a writer.

  const SETTLED := FORKED.(refs := FORKED.refs["b" := Ref(1, Some(1), Abandoned)])

  function SettlingRun(): seq<Step> {
    Loading() + [Settle("b", Abandoned)]
  }

  lemma SettlesUnderWriter()
    ensures IsRun(EMPTY, SettlingRun()) && After(EMPTY, SettlingRun()) == System(SETTLED, map[0 := A_LOADED], None)
  {
    WriterOnOpenBranch();
    var s := System(FORKED, map[0 := A_LOADED], None);
    assert Apply(s, Settle("b", Abandoned)) == System(SETTLED, map[0 := A_LOADED], None);
    hide IsRun, After, Loading;
    Then(EMPTY, Loading(), s, Settle("b", Abandoned), System(SETTLED, map[0 := A_LOADED], None));
  }

  /** The compare-and-swap tests the tip alone, so a branch settled after it was loaded still moves. */
  lemma SettledBranchCanMove()
    ensures var steps := SettlingRun() + [Publish(0, 2, STAMP)];
            && IsRun(EMPTY, steps)
            && var db := After(EMPTY, steps).db;
               "b" in db.refs && db.refs["b"] == Ref(2, Some(1), Abandoned) && TreeOf(db, 2) == ONLY_A
  {
    SettlesUnderWriter();
    var none: map<nat, Writer> := map[];
    var s := System(SETTLED, none[0 := A_LOADED], None);
    PublishesA(s, Abandoned, none);
    assert none[0 := A_LOADED] == map[0 := A_LOADED];
    hide IsRun, After, SettlingRun, Enabled, Apply;
    Then(EMPTY, SettlingRun(), s, Publish(0, 2, STAMP), System(Grown(Abandoned), none, None));
  }

  // ---------------------------------------------------------------------
  // A publication between the two deletions of a collector.

  function CollectingRun(): seq<Step> {
    SettlingRun() + [CollectHeads({"b"})] + [Publish(0, 2, STAMP)] + [CollectRefs]
  }

  /** The row the writer inserted has outlived its ref. */
  const LEFT := Db(BOTH, map["m" := Ref(1, None, Open)], map["b" := map["/a" := 7]], BOTH)

  lemma CollectsAroundWriter()
    ensures IsRun(EMPTY, CollectingRun()) && After(EMPTY, CollectingRun()) == System(LEFT, map[], None)
  {
    SettlesUnderWriter();
    var none: map<nat, Writer> := map[];
    var rows: Collection := map["b" := {}];
    var s := System(SETTLED, none[0 := A_LOADED], None);
    assert none[0 := A_LOADED] == map[0 := A_LOADED];
    var s1 := System(SETTLED, none[0 := A_LOADED], Some(rows));
    var s2 := System(Grown(Abandoned), none, Some(rows));
    CollectorStarts(s, s1);
    PublishesA(s1, Abandoned, none);
    CollectorEnds(s2);
    hide IsRun, After, SettlingRun, Enabled, Apply;
    Then(EMPTY, SettlingRun(), s, CollectHeads({"b"}), s1);
    Then(EMPTY, SettlingRun() + [CollectHeads({"b"})], s1, Publish(0, 2, STAMP), s2);
    Then(EMPTY, SettlingRun() + [CollectHeads({"b"})] + [Publish(0, 2, STAMP)], s2, CollectRefs,
         System(LEFT, none, None));
  }

  lemma CollectorStarts(s: System, s1: System)
    requires s == System(SETTLED, s.writers, None) && s1 == s.(collector := Some(map["b" := {}]))
    ensures Enabled(s, CollectHeads({"b"})) && Apply(s, CollectHeads({"b"})) == s1
  {
    assert HeadsOf(SETTLED, "b").Keys == {};
    assert RowsFound(s.db, {"b"}) == map["b" := {}];
  }

  lemma CollectorEnds(s: System)
    requires s == System(Grown(Abandoned), s.writers, Some(map["b" := {}]))
    ensures Enabled(s, CollectRefs) && Apply(s, CollectRefs) == System(LEFT, s.writers, None)
  {
    var none: set<Path> := {};
    var rows: Collection := map["b" := none];
    var was: map<Path, Sha> := map["/a" := 7];
    assert was - none == was;
    assert Collected(Grown(Abandoned), rows).heads == map["b" := was];
    assert Collected(Grown(Abandoned), rows).refs == map["m" := Ref(1, None, Open)];
  }

  lemma ForkOverLeftovers(s: System, fork: Step)
    requires s == System(LEFT, map[], None) && fork == Fork("m", "b", 0, STAMP)
    ensures Enabled(s, fork) && Unloaded(s, fork) && !FreshNames(s, fork) && !CacheStands(s, fork)
    ensures var db := Apply(s, fork).db;
            "b" in db.refs && HeadsOf(db, "b") == map["/a" := 7] && TreeOf(db, db.refs["b"].tip) == map[]
  {
    var seeded: map<Path, Sha> := map[];
    assert HeadsOf(LEFT, "b") == map["/a" := 7];
    var nothing: Tree := map[];
    assert Shas(nothing).Keys == {};
    assert ForkedTree(LEFT, "m") == nothing && Shas(nothing) == seeded;
    assert seeded + HeadsOf(LEFT, "b") == map["/a" := 7];
    assert "/a" in seeded + HeadsOf(LEFT, "b") && "/a" !in seeded;
    assert WithMount(LEFT, "m", 0, STAMP) == LEFT;
    assert Branched(LEFT, "m", "b").heads["b"] == map["/a" := 7];
  }

  /**
   * The publication of the run stands, and no writer is in flight. The branch is
   * forked again all the same over a row of its former life, which becomes part of
   * its cache and is in no tree of its own.
   */
  lemma LeftoverRowsCanDrift()
    ensures var s := System(SETTLED, map[0 := A_LOADED], Some(map["b" := {}]));
            CacheStands(s, Publish(0, 2, STAMP)) && Stands(s, Publish(0, 2, STAMP))
    ensures IsRun(EMPTY, CollectingRun()) && After(EMPTY, CollectingRun()) == System(LEFT, map[], None)
    ensures var s, fork := After(EMPTY, CollectingRun()), Fork("m", "b", 0, STAMP);
            && Enabled(s, fork) && Unloaded(s, fork) && !FreshNames(s, fork) && !CacheStands(s, fork)
            && var db := Apply(s, fork).db;
               "b" in db.refs && HeadsOf(db, "b") == map["/a" := 7] && TreeOf(db, db.refs["b"].tip) == map[]
  {
    CollectsAroundWriter();
    PublicationOfAStands(System(SETTLED, map[0 := A_LOADED], Some(map["b" := {}])));
    hide IsRun, After, CollectingRun, Enabled, Apply;
    ForkOverLeftovers(System(LEFT, map[], None), Fork("m", "b", 0, STAMP));
  }

  // ---------------------------------------------------------------------
  // Such a row in the way of a file of the new life.

  const WRITE_AX := Write("/a/x", 9, Any)

  const WRITE_Q := Write("/q", 5, Any)

  const ONLY_AX: Tree := map["/a/x" := Entry(9, 420)]

  const AX_LOADED := HeadsLoaded("m", WRITE_AX, 1, map[], None, true)

  const THREE_ROWS: Commits := BOTH[3 := Commit(ONLY_AX, [1], "write", "u", 0)]

  /** The mount has `/a/x`; the row `/a` is still there under the branch's name. */
  const MOUNTED := Db(THREE_ROWS, map["m" := Ref(3, None, Open)], map["b" := map["/a" := 7], "m" := map["/a/x" := 9]],
                      THREE_ROWS)

  const MIXED := Db(THREE_ROWS, map["m" := Ref(3, None, Open), "b" := Ref(3, Some(3), Open)],
                    map["b" := map["/a" := 7, "/a/x" := 9], "m" := map["/a/x" := 9]], THREE_ROWS)

  const MIXED_HEADS: Tree := map["/a" := Entry(7, 420), "/a/x" := Entry(9, 420)]

  function MixingRun(): seq<Step> {
    CollectingRun() + [LoadRef(1, "m", WRITE_AX)] + [LoadHeads(1)] + [Publish(1, 3, STAMP)] + [Fork("m", "b", 0, STAMP)]
    + [LoadRef(2, "b", WRITE_Q)] + [LoadHeads(2)]
  }

  lemma LoadsAX()
    ensures var loading := System(LEFT, map[1 := RefLoaded("m", WRITE_AX, 1)], None);
            && Leads(System(LEFT, map[], None), LoadRef(1, "m", WRITE_AX), loading)
            && Leads(loading, LoadHeads(1), System(LEFT, map[1 := AX_LOADED], None))
  {
    assert LoadedHeads(LEFT, "m", 1) == map[];
    var waiting: map<nat, Writer> := map[1 := RefLoaded("m", WRITE_AX, 1)];
    assert waiting[1 := AX_LOADED] == map[1 := AX_LOADED];
  }

  lemma AdvancesAX()
    ensures var c := Commit(ONLY_AX, [1], "write", "u", 0);
            CanInsert(LEFT, 3, c) && Advanced(LEFT, "m", 3, c, map["/a/x" := 9]) == MOUNTED
  {
    var c := Commit(ONLY_AX, [1], "write", "u", 0);
    assert "/a/x" in ONLY_AX && "/a/x" !in ONLY_A;
    assert BOTH[1] != c && BOTH[2] != c;
    assert LEFT.heads["m" := map["/a/x" := 9]] == MOUNTED.heads;
    assert LEFT.refs["m" := Ref(3, None, Open)] == MOUNTED.refs;
  }

  lemma PublishesAX()
    ensures Leads(System(LEFT, map[1 := AX_LOADED], None), Publish(1, 3, STAMP), System(MOUNTED, map[], None))
  {
    var s, none: map<nat, Writer> := System(LEFT, map[1 := AX_LOADED], None), map[];
    assert Plan(WRITE_AX, map[], None) == NewTree(ONLY_AX);
    assert PlannedCommit(AX_LOADED, STAMP) == Commit(ONLY_AX, [1], "write", "u", 0);
    AdvancesAX();
    assert UpdatedHeads(WRITE_AX, HeadsOf(s.db, "m"), ONLY_AX) == map["/a/x" := 9];
    assert s.writers - {1} == none;
    hide Plan, PlannedCommit, OpName, UpdatedHeads, Advanced, CanInsert, HeadsOf;
  }

  lemma SeedsMixed()
    ensures Shas(TreeOf(MOUNTED, 3)) + HeadsOf(MOUNTED, "b") == map["/a" := 7, "/a/x" := 9]
    ensures WithMount(MOUNTED, "m", 0, STAMP) == MOUNTED
  {
    assert TreeOf(MOUNTED, 3) == ONLY_AX && HeadsOf(MOUNTED, "b") == map["/a" := 7];
    assert Shas(ONLY_AX) == map["/a/x" := 9];
  }

  lemma BranchesMixed()
    ensures Branched(MOUNTED, "m", "b") == MIXED
  {
    SeedsMixed();
    hide Shas, TreeOf, HeadsOf;
    var db := Branched(MOUNTED, "m", "b");
    assert MOUNTED.heads["b" := map["/a" := 7, "/a/x" := 9]] == MIXED.heads;
    assert MOUNTED.refs["b" := Ref(3, Some(3), Open)] == MIXED.refs;
  }

  /** Forking from a mount that is there. */
  lemma ForksFrom(s: System, mount: Name, branch: Name)
    requires mount in s.db.refs && branch !in s.db.refs
    ensures Leads(s, Fork(mount, branch, 0, STAMP), s.(db := Branched(s.db, mount, branch)))
  {
  }

  lemma ForksMixed()
    ensures Leads(System(MOUNTED, map[], None), Fork("m", "b", 0, STAMP), System(MIXED, map[], None))
  {
    BranchesMixed();
    hide Branched, Leads;
    ForksFrom(System(MOUNTED, map[], None), "m", "b");
  }

  lemma LoadsMixed(mixed: Writer)
    requires mixed == HeadsLoaded("b", WRITE_Q, 3, MIXED_HEADS, None, true)
    ensures var loading := System(MIXED, map[2 := RefLoaded("b", WRITE_Q, 3)], None);
            && Leads(System(MIXED, map[], None), LoadRef(2, "b", WRITE_Q), loading)
            && Leads(loading, LoadHeads(2), System(MIXED, map[2 := mixed], None))
  {
    assert LoadedHeads(MIXED, "b", 3) == MIXED_HEADS;
    var waiting: map<nat, Writer> := map[2 := RefLoaded("b", WRITE_Q, 3)];
    assert waiting[2 := mixed] == map[2 := mixed];
  }

  lemma MixedHeadsLoad(mixed: Writer)
    requires mixed == HeadsLoaded("b", WRITE_Q, 3, MIXED_HEADS, None, true)
    ensures IsRun(EMPTY, MixingRun()) && After(EMPTY, MixingRun()) == System(MIXED, map[2 := mixed], None)
  {
    CollectsAroundWriter();
    LoadsAX();
    PublishesAX();
    ForksMixed();
    LoadsMixed(mixed);
    hide IsRun, After, Enabled, Apply, CollectingRun;
    var left, waiting := System(LEFT, map[], None), System(LEFT, map[1 := RefLoaded("m", WRITE_AX, 1)], None);
    var r1 := CollectingRun() + [LoadRef(1, "m", WRITE_AX)];
    Then(EMPTY, CollectingRun(), left, LoadRef(1, "m", WRITE_AX), waiting);
    var r2 := r1 + [LoadHeads(1)];
    Then(EMPTY, r1, waiting, LoadHeads(1), System(LEFT, map[1 := AX_LOADED], None));
    var r3 := r2 + [Publish(1, 3, STAMP)];
    Then(EMPTY, r2, System(LEFT, map[1 := AX_LOADED], None), Publish(1, 3, STAMP), System(MOUNTED, map[], None));
    var r4 := r3 + [Fork("m", "b", 0, STAMP)];
    Then(EMPTY, r3, System(MOUNTED, map[], None), Fork("m", "b", 0, STAMP), System(MIXED, map[], None));
    var loading := System(MIXED, map[2 := RefLoaded("b", WRITE_Q, 3)], None);
    Then(EMPTY, r4, System(MIXED, map[], None), LoadRef(2, "b", WRITE_Q), loading);
    Then(EMPTY, r4 + [LoadRef(2, "b", WRITE_Q)], loading, LoadHeads(2), System(MIXED, map[2 := mixed], None));
  }

  lemma PlansMixed()
    ensures Plan(WRITE_Q, MIXED_HEADS, None) == NewTree(MIXED_HEADS["/q" := Entry(5, 420)])
  {
    assert "/a/x"[..2][1] == 'a' && "/q"[1] == 'q';
    assert !Under("/q", "/a/x") && !Under("/a/x", "/q");
    assert !Under("/q", "/a") && !Under("/a", "/q");
  }

  lemma MixedIsNew(c: Commit)
    requires "/q" in c.tree
    ensures c != THREE_ROWS[1] && c != THREE_ROWS[2] && c != THREE_ROWS[3]
  {
    assert "/q" !in ONLY_A && "/q" !in ONLY_AX;
  }

  lemma PublishesMixed(s: System)
    requires s == System(MIXED, map[2 := HeadsLoaded("b", WRITE_Q, 3, MIXED_HEADS, None, true)], None)
    ensures Enabled(s, Publish(2, 4, STAMP)) && !Coheres(s, Publish(2, 4, STAMP))
    ensures var tree := Plan(WRITE_Q, MIXED_HEADS, None); tree.NewTree? && {"/a", "/a/x"} <= tree.tree.Keys
  {
    PlansMixed();
    hide Plan;
    var c := PlannedCommit(s.writers[2], STAMP);
    MixedIsNew(c);
    assert c.parents == [3] && MIXED.commits == MIXED.inserted == THREE_ROWS;
    hide PlannedCommit;
    assert Under("/a", "/a/x") && "/a" in MIXED_HEADS && "/a/x" in MIXED_HEADS;
  }

  /** From the empty store: a tree is committed that holds a file and a file inside it. */
  lemma LeftoverRowsCanBreakCoherence()
    ensures IsRun(EMPTY, MixingRun())
    ensures var s, publish := After(EMPTY, MixingRun()), Publish(2, 4, STAMP);
            && s.writers.Keys == {2} && s.writers[2].HeadsLoaded?
            && Enabled(s, publish) && !Coheres(s, publish)
            && var tree := Plan(s.writers[2].request, s.writers[2].heads, None);
               tree.NewTree? && {"/a", "/a/x"} <= tree.tree.Keys
  {
    var mixed := HeadsLoaded("b", WRITE_Q, 3, MIXED_HEADS, None, true);
    MixedHeadsLoad(mixed);
    PublishesMixed(System(MIXED, map[2 := mixed], None));
    hide IsRun, After, MixingRun, Enabled, Coheres, Plan;
  }

  // ---------------------------------------------------------------------
  // A collected ref forked again under a writer that had already loaded it.

  const WRITE_X := Write("/x", 9, Any)

  const STALE := HeadsLoaded("b", WRITE_X, 1, ONLY_A, None, true)

  /** The branch is collected whole: its one row was there to be found. */
  const GONE := Db(BOTH, map["m" := Ref(1, None, Open)], map["b" := map[]], BOTH)

  function StaleRun(): seq<Step> {
    [] + [Fork("m", "b", 1, STAMP)] + [LoadRef(1, "b", WRITE_X)] + [LoadRef(0, "b", WRITE_A)] + [LoadHeads(0)]
    + [Publish(0, 2, STAMP)] + [LoadHeads(1)] + [Settle("b", Abandoned)] + [CollectHeads({"b"})] + [CollectRefs]
  }

  lemma LoadsStaleHeads(waiting: map<nat, Writer>)
    requires waiting == map[1 := RefLoaded("b", WRITE_X, 1)]
    ensures var s := System(Grown(Open), waiting, None);
            Enabled(s, LoadHeads(1)) && Apply(s, LoadHeads(1)) == System(Grown(Open), map[1 := STALE], None)
    ensures var s := System(FORKED, map[], None);
            Leads(s, LoadRef(1, "b", WRITE_X), System(FORKED, waiting, None))
  {
    assert LoadedHeads(Grown(Open), "b", 1) == ONLY_A;
    assert waiting[1 := STALE] == map[1 := STALE];
  }

  lemma FindsWhole(stale: map<nat, Writer>)
    ensures var s1 := System(Grown(Abandoned), stale, None);
            Leads(s1, CollectHeads({"b"}), System(Grown(Abandoned), stale, Some(map["b" := {"/a"}])))
  {
    var s1 := System(Grown(Abandoned), stale, None);
    assert HeadsOf(Grown(Abandoned), "b").Keys == {"/a"};
    assert RowsFound(s1.db, {"b"}) == map["b" := {"/a"}];
  }

  lemma TakesWhole(stale: map<nat, Writer>)
    ensures var s2 := System(Grown(Abandoned), stale, Some(map["b" := {"/a"}]));
            Leads(s2, CollectRefs, System(GONE, stale, None))
  {
    var was: map<Path, Sha> := map["/a" := 7];
    var rows: Collection := map["b" := {"/a"}];
    assert was - {"/a"} == map[];
    assert Collected(Grown(Abandoned), rows).heads == map["b" := map[]];
    assert Collected(Grown(Abandoned), rows).refs == map["m" := Ref(1, None, Open)];
    assert Collected(Grown(Abandoned), rows) == GONE;
  }

  lemma SettlesGrown(stale: map<nat, Writer>)
    ensures Leads(System(Grown(Open), stale, None), Settle("b", Abandoned), System(Grown(Abandoned), stale, None))
  {
    assert Settling(Grown(Open), "b", Abandoned).refs == Grown(Abandoned).refs;
  }

  lemma StaleWriterRemains()
    ensures IsRun(EMPTY, StaleRun()) && After(EMPTY, StaleRun()) == System(GONE, map[1 := STALE], None)
  {
    Starts(EMPTY);
    var waiting: map<nat, Writer> := map[1 := RefLoaded("b", WRITE_X, 1)];
    ForkedFromEmpty();
    LoadsStaleHeads(waiting);
    LoadsA(System(FORKED, waiting, None), waiting);
    PublishesA(System(FORKED, waiting[0 := A_LOADED], None), Open, waiting);
    SettlesGrown(map[1 := STALE]);
    FindsWhole(map[1 := STALE]);
    TakesWhole(map[1 := STALE]);
    hide Enabled, Apply;
    StaleRunGoes(waiting, waiting[0 := RefLoaded("b", WRITE_A, 1)], waiting[0 := A_LOADED], map[1 := STALE]);
  }

  lemma StaleRunGoes(
      waiting: map<nat, Writer>, beginning: map<nat, Writer>, loaded: map<nat, Writer>, stale: map<nat, Writer>)
    requires IsRun(EMPTY, []) && After(EMPTY, []) == EMPTY
    requires Leads(EMPTY, Fork("m", "b", 1, STAMP), System(FORKED, map[], None))
    requires Leads(System(FORKED, map[], None), LoadRef(1, "b", WRITE_X), System(FORKED, waiting, None))
    requires Leads(System(FORKED, waiting, None), LoadRef(0, "b", WRITE_A), System(FORKED, beginning, None))
    requires Leads(System(FORKED, beginning, None), LoadHeads(0), System(FORKED, loaded, None))
    requires Leads(System(FORKED, loaded, None), Publish(0, 2, STAMP), System(Grown(Open), waiting, None))
    requires Leads(System(Grown(Open), waiting, None), LoadHeads(1), System(Grown(Open), stale, None))
    requires Leads(System(Grown(Open), stale, None), Settle("b", Abandoned), System(Grown(Abandoned), stale, None))
    requires Leads(System(Grown(Abandoned), stale, None), CollectHeads({"b"}),
                   System(Grown(Abandoned), stale, Some(map["b" := {"/a"}])))
    requires Leads(System(Grown(Abandoned), stale, Some(map["b" := {"/a"}])), CollectRefs, System(GONE, stale, None))
    ensures IsRun(EMPTY, StaleRun()) && After(EMPTY, StaleRun()) == System(GONE, stale, None)
  {
    hide IsRun, After, Enabled, Apply;
    var r0: seq<Step> := [] + [Fork("m", "b", 1, STAMP)];
    Then(EMPTY, [], EMPTY, Fork("m", "b", 1, STAMP), System(FORKED, map[], None));
    var r1 := r0 + [LoadRef(1, "b", WRITE_X)];
    Then(EMPTY, r0, System(FORKED, map[], None), LoadRef(1, "b", WRITE_X), System(FORKED, waiting, None));
    var r2 := r1 + [LoadRef(0, "b", WRITE_A)];
    Then(EMPTY, r1, System(FORKED, waiting, None), LoadRef(0, "b", WRITE_A), System(FORKED, beginning, None));
    var r3 := r2 + [LoadHeads(0)];
    Then(EMPTY, r2, System(FORKED, beginning, None), LoadHeads(0), System(FORKED, loaded, None));
    var r4 := r3 + [Publish(0, 2, STAMP)];
    Then(EMPTY, r3, System(FORKED, loaded, None), Publish(0, 2, STAMP), System(Grown(Open), waiting, None));
    var r5 := r4 + [LoadHeads(1)];
    Then(EMPTY, r4, System(Grown(Open), waiting, None), LoadHeads(1), System(Grown(Open), stale, None));
    var r6 := r5 + [Settle("b", Abandoned)];
    Then(EMPTY, r5, System(Grown(Open), stale, None), Settle("b", Abandoned), System(Grown(Abandoned), stale, None));
    var s := System(Grown(Abandoned), stale, Some(map["b" := {"/a"}]));
    var r7 := r6 + [CollectHeads({"b"})];
    Then(EMPTY, r6, System(Grown(Abandoned), stale, None), CollectHeads({"b"}), s);
    Then(EMPTY, r7, s, CollectRefs, System(GONE, stale, None));
  }

  /**
   * The condition on a publication can fail: a retained branch is collected and
   * forked again at the tip a writer saw, and the writer's compare-and-swap passes
   * with heads of another life of the ref.
   */
  lemma RecreatedRefCanDrift()
    ensures IsRun(EMPTY, StaleRun())
    ensures var s, fork, publish := After(EMPTY, StaleRun()), Fork("m", "b", 0, STAMP), Publish(1, 3, STAMP);
            && Enabled(s, fork) && CacheStands(s, fork) && !Unloaded(s, fork)
            && Enabled(Apply(s, fork), publish) && !CacheStands(Apply(s, fork), publish)
            && var db := Apply(Apply(s, fork), publish).db;
               && "b" in db.refs && HeadsOf(db, "b") == map["/x" := 9]
               && TreeOf(db, db.refs["b"].tip) == ONLY_A["/x" := Entry(9, 420)]
  {
    StaleWriterRemains();
    ForkAgainAndPublish(After(EMPTY, StaleRun()), Fork("m", "b", 0, STAMP), Publish(1, 3, STAMP));
  }

  const AGAIN := Db(BOTH, map["m" := Ref(1, None, Open), "b" := Ref(1, Some(1), Open)], map["b" := map[]], BOTH)

  lemma ForksAgain(stale: map<nat, Writer>)
    ensures Leads(System(GONE, stale, None), Fork("m", "b", 0, STAMP), System(AGAIN, stale, None))
    ensures CacheStands(System(GONE, stale, None), Fork("m", "b", 0, STAMP))
  {
    var nothing: Tree := map[];
    var none: map<Path, Sha> := map[];
    assert Shas(nothing).Keys == {} && HeadsOf(GONE, "b") == none;
    assert WithMount(GONE, "m", 0, STAMP) == GONE && ForkedTree(GONE, "m") == TreeOf(GONE, 1) == nothing;
    var db := Branched(GONE, "m", "b");
    assert db.refs == AGAIN.refs;
    assert db.heads == AGAIN.heads;
    hide Branched, WithMount, Shas, ForkedTree, TreeOf;
  }

  lemma PublishesStale(s: System, publish: Step)
    requires s == System(AGAIN, map[1 := STALE], None) && publish == Publish(1, 3, STAMP)
    ensures Enabled(s, publish) && !CacheStands(s, publish)
    ensures var db := Apply(s, publish).db;
            && "b" in db.refs && HeadsOf(db, "b") == map["/x" := 9]
            && TreeOf(db, db.refs["b"].tip) == ONLY_A["/x" := Entry(9, 420)]
  {
    PlansStale();
    hide Plan;
    assert "/a" in Shas(ONLY_A) - {"/x"};
    var c := PlannedCommit(STALE, STAMP);
    assert "/x" in c.tree && "/x" !in ONLY_A;
    assert BOTH[1] != c && BOTH[2] != c;
    assert Apply(s, publish).db.refs["b"].tip == 3;
  }

  lemma PlansStale()
    ensures Plan(WRITE_X, ONLY_A, None) == NewTree(ONLY_A["/x" := Entry(9, 420)])
  {
    assert !Collide("/x", "/a");
  }

  lemma ForkAgainAndPublish(s: System, fork: Step, publish: Step)
    requires s == System(GONE, map[1 := STALE], None)
    requires fork == Fork("m", "b", 0, STAMP) && publish == Publish(1, 3, STAMP)
    ensures Enabled(s, fork) && CacheStands(s, fork) && !Unloaded(s, fork) && Enabled(Apply(s, fork), publish)
    ensures !CacheStands(Apply(s, fork), publish)
    ensures var db := Apply(Apply(s, fork), publish).db;
            && "b" in db.refs
            && HeadsOf(db, "b") == map["/x" := 9]
            && TreeOf(db, db.refs["b"].tip) == ONLY_A["/x" := Entry(9, 420)]
  {
    ForksAgain(map[1 := STALE]);
    PublishesStale(System(AGAIN, map[1 := STALE], None), publish);
    assert s.writers[1].name == "b";
    hide Enabled, Apply, CacheStands;
  }
}
