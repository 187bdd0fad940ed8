/**
 * Exactly when every cache stays its tip's tree, and every tree coherent: what each
 * publication and each fork must find. They do, as long as every ref is created
 * under a name no writer has loaded and no heads row is left of.
 */
module Caches {
  import opened Prelude
  import opened Coherence
  import opened Trees
  import opened CommitGraph
  import opened Stale
  import opened Store
  import opened StoreInvariants
  import opened Serializability

  // ---------------------------------------------------------------------
  // One step.

  lemma AdvanceCache(db: Db, name: Name, id: Id, c: Commit, heads: map<Path, Sha>, n: Name)
    requires CanAdvance(db, name, id, c) && n in db.refs
    ensures CacheOk(Advanced(db, name, id, c, heads), n) <==>
            if n == name then heads == Shas(c.tree) else CacheOk(db, n)
  {
    assert RefRooted(db, n);
  }

  lemma AdvanceKeepsCaches(db: Db, name: Name, id: Id, c: Commit, heads: map<Path, Sha>)
    requires CanAdvance(db, name, id, c) && CachesOk(db)
    ensures CachesOk(Advanced(db, name, id, c, heads)) <==> heads == Shas(c.tree)
  {
    hide Rooted, Coherent, CanInsert, CacheOk, CanAdvance;
    MovedRefExists(db, name, id, c);
    forall n | n in db.refs
      ensures CacheOk(Advanced(db, name, id, c, heads), n) <==>
              if n == name then heads == Shas(c.tree) else CacheOk(db, n)
    {
      AdvanceCache(db, name, id, c, heads, n);
    }
  }

  lemma MovedRefExists(db: Db, name: Name, id: Id, c: Commit)
    requires CanAdvance(db, name, id, c)
    ensures name in db.refs
  {
  }

  /** Digests from the cache and modes from the tip make up the tip's tree. */
  lemma LoadedHeadsAreTheTip(db: Db, name: Name)
    requires CachesOk(db) && Rooted(db) && name in db.refs
    ensures LoadedHeads(db, name, db.refs[name].tip) == TreeOf(db, db.refs[name].tip)
  {
    assert RefRooted(db, name) && CacheOk(db, name);
  }

  lemma PublishKeepsCaches(s: System, step: Step)
    requires Rooted(s.db) && CachesOk(s.db) && Enabled(s, step) && step.Publish?
    ensures CachesOk(Apply(s, step).db) <==> CacheStands(s, step)
  {
    var writer, c := s.writers[step.w], PublishedBy(s, step);
    PublisherCanAdvance(s, step);
    StaleCacheStands(writer.request, writer.heads, writer.source, HeadsOf(s.db, writer.name));
    hide Rooted, CanInsert, Plan, CacheKept, UpdatedHeads, CachesOk, CanAdvance, Advanced;
    AdvanceKeepsCaches(s.db, writer.name, step.id, c, UpdatedHeads(writer.request, HeadsOf(s.db, writer.name), c.tree));
  }

  lemma ForkKeepsCaches(s: System, step: Step)
    requires Rooted(s.db) && CachesOk(s.db) && Enabled(s, step) && step.Fork?
    ensures CachesOk(Apply(s, step).db) <==> CacheStands(s, step)
  {
    var Fork(mount, branch, genesis, stamp) := step;
    var mid := WithMount(s.db, mount, genesis, stamp);
    MountKeepsRooted(s.db, mount, genesis, stamp);
    MountKeepsCaches(s.db, mount, genesis, stamp);
    BranchKeepsCaches(mid, mount, branch);
    hide Rooted, CachesOk, CanInsert, Branched, WithMount;
  }

  lemma MountKeepsCaches(db: Db, mount: Name, genesis: Id, stamp: Stamp)
    requires Rooted(db) && CachesOk(db) && (mount in db.refs || CanInsert(db, genesis, Genesis(stamp)))
    ensures var db' := WithMount(db, mount, genesis, stamp);
            && mount in db'.refs && db'.heads == db.heads
            && TreeOf(db', db'.refs[mount].tip) == ForkedTree(db, mount)
            && (forall n | n in db.refs :: CacheOk(db', n))
            && (CacheOk(db', mount) <==> mount in db.refs || HeadsOf(db, mount) == map[])
  {
    if mount !in db.refs {
      var db' := WithMount(db, mount, genesis, stamp);
      forall n | n in db.refs
        ensures CacheOk(db', n)
      {
        assert RefRooted(db, n) && CacheOk(db, n);
      }
    }
  }

  lemma BranchKeepsCaches(db: Db, mount: Name, branch: Name)
    requires mount in db.refs && branch !in db.refs
    ensures forall n | n in db.refs :: CacheOk(Branched(db, mount, branch), n) <==> CacheOk(db, n)
    ensures var seeded := Shas(TreeOf(db, db.refs[mount].tip));
            CacheOk(Branched(db, mount, branch), branch) <==> seeded + HeadsOf(db, branch) == seeded
  {
  }

  lemma SettlingKeepsCaches(db: Db, name: Name, state: RefState)
    requires CachesOk(db) && name in db.refs
    ensures CachesOk(Settling(db, name, state))
  {
    forall n | n in db.refs
      ensures CacheOk(Settling(db, name, state), n)
    {
      assert CacheOk(db, n);
    }
  }

  lemma MergeKeepsCaches(db: Db, branch: Name, mount: Name, id: Id, stamp: Stamp)
    requires Rooted(db) && CachesOk(db) && CanMerge(db, branch, mount, id, stamp)
    ensures CachesOk(MergedDb(db, branch, mount, id, stamp))
  {
    SettlingKeepsCaches(db, branch, Merged);
    if MergeResult(db, branch, mount) != TreeOf(db, db.refs[mount].tip) {
      MergerCanAdvance(db, branch, mount, id, stamp);
      var c := MergeCommit(db, branch, mount, stamp);
      hide CanMerge, Settling, Advanced, CachesOk, Rooted;
      AdvanceKeepsCaches(Settling(db, branch, Merged), mount, id, c, Shas(c.tree));
    }
  }

  lemma SweepKeepsCaches(s: System, step: Step)
    requires Rooted(s.db) && CachesOk(s.db) && Enabled(s, step) && step.CollectCommits?
    ensures CachesOk(Apply(s, step).db)
  {
    SweepKeepsRooted(s.db, step.cutoff, step.limit, step.batch);
    forall n | n in s.db.refs
      ensures CacheOk(Apply(s, step).db, n)
    {
      assert CacheOk(s.db, n);
    }
    hide Rooted, CacheOk;
  }

  lemma CollectKeepsCaches(db: Db, rows: Collection)
    requires CachesOk(db)
    ensures CachesOk(Collected(db, rows))
  {
    forall n | n in db.refs && n !in rows
      ensures CacheOk(Collected(db, rows), n)
    {
      assert CacheOk(db, n);
    }
  }

  /** Every step but a publication and a fork keeps every cache; those two do exactly when their condition holds. */
  lemma StepCaches(s: System, step: Step)
    requires Rooted(s.db) && CachesOk(s.db) && Enabled(s, step)
    ensures CachesOk(Apply(s, step).db) <==> CacheStands(s, step)
  {
    match step
    case Publish(_, _, _) => PublishKeepsCaches(s, step);
    case Fork(_, _, _, _) => ForkKeepsCaches(s, step);
    case MergeBranch(branch, mount, id, stamp) => MergeKeepsCaches(s.db, branch, mount, id, stamp);
    case Settle(name, state) => SettlingKeepsCaches(s.db, name, state);
    case CollectRefs => CollectKeepsCaches(s.db, s.collector.value);
    case CollectCommits(_, _, _) => SweepKeepsCaches(s, step);
    case _ =>
  }

  // ---------------------------------------------------------------------
  // Coherence of the trees, caches aside.

  lemma WriteCoheres(path: Path, sha: Sha, ifSha: IfSha, heads: Tree)
    requires Plan(Write(path, sha, ifSha), heads, None).NewTree?
    ensures Coherent(Plan(Write(path, sha, ifSha), heads, None).tree.Keys) <==> Coherent(heads.Keys)
  {
    assert forall q | q in heads :: !Collide(path, q);
  }

  lemma CaptureCoheres(writes: seq<(Path, Sha)>, deletes: seq<Path>, heads: Tree)
    requires Coherent(WrittenPaths(writes))
    ensures Coherent(CaptureTree(heads, writes, deletes).Keys) <==> Coherent(KeptByCapture(heads, writes, deletes).Keys)
  {
    var kept, next := KeptByCapture(heads, writes, deletes), CaptureTree(heads, writes, deletes);
    forall p
      ensures p in next <==> p in kept || p in WrittenPaths(writes)
    {
    }
    assert forall w, q | w in WrittenPaths(writes) && q in kept :: !Collide(w, q);
    hide CaptureTree, KeptByCapture, WrittenPaths;
  }

  /** A plan's tree is coherent exactly when what it keeps of the heads is. */
  lemma PlannedTreeCoheres(s: System, step: Step)
    requires FreeInv(s) && TreesOk(s.db) && Enabled(s, step) && step.Publish?
    ensures Coherent(PublishedBy(s, step).tree.Keys) <==> Coheres(s, step)
  {
    var writer := s.writers[step.w];
    assert WriterLinked(s.db, writer);
    match writer.request
    case Write(path, sha, ifSha) => WriteCoheres(path, sha, ifSha, writer.heads);
    case Delete(_, _) =>
    case Capture(writes, deletes) => CaptureCoheres(writes, deletes, writer.heads);
    case Restore(_) =>
  }

  lemma InsertKeepsTrees(db: Db, id: Id, c: Commit)
    requires RowsOk(db) && TreesOk(db) && CanInsert(db, id, c)
    ensures TreesOk(Inserted(db, id, c)) <==> Coherent(c.tree.Keys)
  {
    hide Coherent, Closed;
    assert id in Inserted(db, id, c).inserted && Inserted(db, id, c).inserted[id] == c;
  }

  lemma MergedTreeIsCoherent(db: Db, branch: Name, mount: Name, id: Id, stamp: Stamp)
    requires CanMerge(db, branch, mount, id, stamp)
    ensures Coherent(MergeCommit(db, branch, mount, stamp).tree.Keys)
  {
  }

  lemma MergeKeepsTrees(db: Db, branch: Name, mount: Name, id: Id, stamp: Stamp)
    requires Rooted(db) && TreesOk(db) && CanMerge(db, branch, mount, id, stamp)
    ensures TreesOk(MergedDb(db, branch, mount, id, stamp))
  {
    MergedTreeIsCoherent(db, branch, mount, id, stamp);
    if MergeResult(db, branch, mount) != TreeOf(db, db.refs[mount].tip) {
      InsertKeepsTrees(db, id, MergeCommit(db, branch, mount, stamp));
    }
    hide Coherent, MergeResult, CanInsert;
  }

  /** Every step keeps every tree coherent, a publication exactly when what it keeps of its heads is coherent. */
  lemma StepTrees(s: System, step: Step)
    requires FreeInv(s) && TreesOk(s.db) && Enabled(s, step)
    ensures TreesOk(Apply(s, step).db) <==> Coheres(s, step)
  {
    hide Coherent, Plan, UpdatedHeads;
    match step
    case Publish(_, id, _) =>
      PlannedTreeCoheres(s, step);
      InsertKeepsTrees(s.db, id, PublishedBy(s, step));
    case Fork(mount, branch, genesis, stamp) =>
      if mount !in s.db.refs {
        NothingIsCoherent();
        assert Genesis(stamp).tree.Keys == {};
        InsertKeepsTrees(s.db, genesis, Genesis(stamp));
      }
    case MergeBranch(branch, mount, id, stamp) => MergeKeepsTrees(s.db, branch, mount, id, stamp);
    case _ =>
  }

  lemma NothingIsCoherent()
    ensures Coherent({})
  {
  }

  // ---------------------------------------------------------------------
  // Both together.

  lemma StoredIsCoherent(db: Db, id: Id)
    requires RowsOk(db) && TreesOk(db)
    ensures Coherent(TreeOf(db, id).Keys)
  {
  }

  lemma LoadedIsCoherent(db: Db, name: Name, seen: Id)
    requires DbOk(db) && LeftoversOk(db)
    ensures Coherent(LoadedHeads(db, name, seen).Keys)
  {
    assert LoadedHeads(db, name, seen).Keys == HeadsOf(db, name).Keys;
    if name in db.refs {
      assert CacheOk(db, name);
      StoredIsCoherent(db, db.refs[name].tip);
      assert HeadsOf(db, name).Keys == TreeOf(db, db.refs[name].tip).Keys;
    }
  }

  lemma StepKeepsWriters(s: System, step: Step)
    requires SoundInv(s) && Enabled(s, step)
    ensures forall w | w in Apply(s, step).writers :: WriterCoherent(Apply(s, step).writers[w])
  {
    if step.LoadHeads? {
      var RefLoaded(name, request, seen) := s.writers[step.w];
      LoadedIsCoherent(s.db, name, seen);
    }
    hide DbOk, Coherent, LeftoversOk;
  }

  lemma CoherentPart(part: set<Path>, whole: set<Path>)
    requires part <= whole && Coherent(whole)
    ensures Coherent(part)
  {
  }

  /** Coherent heads make a coherent tree. */
  lemma SoundPlansCohere(s: System, step: Step)
    requires SoundInv(s) && Enabled(s, step)
    ensures Coheres(s, step)
  {
    if step.Publish? {
      var writer := s.writers[step.w];
      assert WriterCoherent(writer);
      match writer.request
      case Delete(path, _) => CoherentPart(writer.heads.Keys - {path}, writer.heads.Keys);
      case Capture(writes, deletes) =>
        CoherentPart(KeptByCapture(writer.heads, writes, deletes).Keys, writer.heads.Keys);
      case _ =>
    }
  }

  lemma LeftoverIsCoherent(db: Db, rows: Collection, name: Name)
    requires DbOk(db) && LeftoversOk(db) && (forall n | n in rows :: n in db.refs) && name !in Collected(db, rows).refs
    ensures Coherent(HeadsOf(Collected(db, rows), name).Keys)
  {
    CoherentPart(HeadsOf(Collected(db, rows), name).Keys, HeadsOf(db, name).Keys);
    if name in db.refs {
      assert CacheOk(db, name);
      StoredIsCoherent(db, db.refs[name].tip);
      assert HeadsOf(db, name).Keys == TreeOf(db, db.refs[name].tip).Keys;
    }
  }

  lemma StepKeepsLeftovers(s: System, step: Step)
    requires SoundInv(s) && Enabled(s, step)
    ensures LeftoversOk(Apply(s, step).db)
  {
    if step.CollectRefs? {
      forall n | n !in Apply(s, step).db.refs
        ensures Coherent(HeadsOf(Apply(s, step).db, n).Keys)
      {
        LeftoverIsCoherent(s.db, s.collector.value, n);
      }
    }
    hide DbOk, Coherent, Plan, UpdatedHeads, WriterLinked, WriterCoherent;
  }

  /** A sound store stays sound, caches and trees, through a step exactly when the caches do. */
  lemma EveryStepKeepsCaches(s: System, step: Step)
    requires SoundInv(s) && Enabled(s, step)
    ensures DbOk(Apply(s, step).db) <==> CacheStands(s, step)
    ensures SoundInv(Apply(s, step)) <==> CacheStands(s, step)
  {
    StepKeepsLinks(s, step);
    StepCaches(s, step);
    StepTrees(s, step);
    SoundPlansCohere(s, step);
    StepKeepsWriters(s, step);
    StepKeepsLeftovers(s, step);
    hide CachesOk, TreesOk, LeftoversOk, CacheStands, Coheres, WriterCoherent, FreeInv, Rooted, Enabled, Apply;
    FreeIsRooted(Apply(s, step));
  }

  lemma FreeIsRooted(s: System)
    requires FreeInv(s)
    ensures Rooted(s.db)
  {
  }

  // ---------------------------------------------------------------------
  // Whole runs.

  /** At every point of the run every cache is its tip's tree. */
  ghost predicate AlwaysCached(s: System, steps: seq<Step>)
    requires IsRun(s, steps)
    decreases |steps|
  {
    CachesOk(s.db) && (steps != [] ==> AlwaysCached(Apply(s, steps[0]), steps[1..]))
  }

  /** At every point of the run every tree ever committed is coherent. */
  ghost predicate AlwaysCoherent(s: System, steps: seq<Step>)
    requires IsRun(s, steps)
    decreases |steps|
  {
    TreesOk(s.db) && (steps != [] ==> AlwaysCoherent(Apply(s, steps[0]), steps[1..]))
  }

  ghost predicate AllCachesStand(s: System, steps: seq<Step>)
    requires IsRun(s, steps)
    decreases |steps|
  {
    steps == [] || (CacheStands(s, steps[0]) && AllCachesStand(Apply(s, steps[0]), steps[1..]))
  }

  ghost predicate AllCohere(s: System, steps: seq<Step>)
    requires IsRun(s, steps)
    decreases |steps|
  {
    steps == [] || (Coheres(s, steps[0]) && AllCohere(Apply(s, steps[0]), steps[1..]))
  }

  /** A run drifts exactly when some publication leaves rows its writer had not loaded, or a fork finds foreign rows. */
  lemma {:induction false} CachesDriftExactly(s: System, steps: seq<Step>)
    requires FreeInv(s) && CachesOk(s.db) && IsRun(s, steps)
    ensures AlwaysCached(s, steps) <==> AllCachesStand(s, steps)
    decreases |steps|
  {
    if steps != [] {
      var next := Apply(s, steps[0]);
      StepCaches(s, steps[0]);
      StepKeepsLinks(s, steps[0]);
      FreeIsRooted(s);
      hide CacheStands, FreeInv, Enabled, CachesOk;
      if CacheStands(s, steps[0]) {
        CachesDriftExactly(next, steps[1..]);
      } else {
        assert !CachesOk(next.db);
      }
    }
  }

  /** A run commits an incoherent tree exactly when some publication keeps incoherent heads. */
  lemma {:induction false} TreesStayCoherentExactly(s: System, steps: seq<Step>)
    requires FreeInv(s) && TreesOk(s.db) && IsRun(s, steps)
    ensures AlwaysCoherent(s, steps) <==> AllCohere(s, steps)
    decreases |steps|
  {
    if steps != [] {
      var next := Apply(s, steps[0]);
      StepTrees(s, steps[0]);
      StepKeepsLinks(s, steps[0]);
      hide Coheres, FreeInv, Enabled, TreesOk;
      if Coheres(s, steps[0]) {
        TreesStayCoherentExactly(next, steps[1..]);
      } else {
        assert !TreesOk(next.db);
      }
    }
  }

  /** Where the caches are right throughout, so are the trees. */
  lemma {:induction false} RightCachesMakeCoherentTrees(s: System, steps: seq<Step>)
    requires SoundInv(s) && IsRun(s, steps) && AllCachesStand(s, steps)
    ensures AllCohere(s, steps) && AlwaysCached(s, steps) && AlwaysCoherent(s, steps) && SoundInv(After(s, steps))
    decreases |steps|
  {
    if steps != [] {
      EveryStepKeepsCaches(s, steps[0]);
      SoundPlansCohere(s, steps[0]);
      hide CacheStands, FreeInv, Enabled, Coheres;
      RightCachesMakeCoherentTrees(Apply(s, steps[0]), steps[1..]);
    }
  }

  // ---------------------------------------------------------------------
  // Runs that create refs under fresh names only.

  lemma CurrentCacheIsKept(db: Db, writer: Writer)
    requires Rooted(db) && CachesOk(db) && writer.name in db.refs && db.refs[writer.name].tip == writer.seen
    requires writer.HeadsLoaded? && WriterCurrent(db, writer)
    ensures HeadsOf(db, writer.name) == Shas(writer.heads) && writer.heads == TreeOf(db, writer.seen)
  {
    assert CacheOk(db, writer.name);
  }

  /** Nothing a current writer publishes is stale, but for a restore's source. */
  lemma CurrentPublicationsStand(s: System, step: Step)
    requires Inv(s) && Enabled(s, step) && step.Publish?
    ensures TreeStands(s, step) && CacheStands(s, step)
  {
    var writer := s.writers[step.w];
    CurrentCacheIsKept(s.db, writer);
    StalePlanStands(writer.request, writer.heads, writer.heads, writer.source);
  }

  lemma FreshForksStand(s: System, step: Step)
    requires FreshNames(s, step) && step.Fork?
    ensures CacheStands(s, step)
  {
  }

  lemma AdvanceKeepsCurrent(db: Db, name: Name, id: Id, c: Commit, heads: map<Path, Sha>, writer: Writer)
    requires CanAdvance(db, name, id, c) && WriterCurrent(db, writer)
    ensures WriterCurrent(Advanced(db, name, id, c, heads), writer)
  {
    TipIsOlder(db, name, id, c);
    if writer.name in db.refs { assert RefRooted(db, writer.name); }
  }

  lemma MergeKeepsCurrent(db: Db, branch: Name, mount: Name, id: Id, stamp: Stamp, writer: Writer)
    requires Rooted(db) && CanMerge(db, branch, mount, id, stamp) && WriterCurrent(db, writer)
    ensures WriterCurrent(MergedDb(db, branch, mount, id, stamp), writer)
  {
    if MergeResult(db, branch, mount) != TreeOf(db, db.refs[mount].tip) {
      var c := MergeCommit(db, branch, mount, stamp);
      MergerCanAdvance(db, branch, mount, id, stamp);
      AdvanceKeepsCurrent(Settling(db, branch, Merged), mount, id, c, Shas(c.tree), writer);
    }
  }

  lemma ForkKeepsCurrent(db: Db, mount: Name, branch: Name, genesis: Id, stamp: Stamp, writer: Writer)
    requires Rooted(db) && branch !in db.refs && mount != branch
    requires mount in db.refs || CanInsert(db, genesis, Genesis(stamp))
    requires WriterCurrent(db, writer) && writer.name != branch && (mount in db.refs || writer.name != mount)
    ensures WriterCurrent(Branched(WithMount(db, mount, genesis, stamp), mount, branch), writer)
  {
    if writer.name in db.refs { assert RefRooted(db, writer.name); }
  }

  lemma QuietKeepsCurrent(s: System, step: Step, w: nat)
    requires Inv(s) && Enabled(s, step) && w in Apply(s, step).writers
    requires step.LoadRef? || step.FindSource? || step.ReadSource? || step.Withdraw? || step.CollectHeads?
             || step.CollectAborts?
    ensures WriterCurrent(Apply(s, step).db, Apply(s, step).writers[w])
  {
    if w in s.writers { assert WriterCurrent(s.db, s.writers[w]); }
    hide SoundInv, TreeOf;
  }

  lemma SameTipsKeepCurrent(db: Db, db': Db, writer: Writer)
    requires WriterCurrent(db, writer) && db'.commits == db.commits
    requires forall n | n in db'.refs :: n in db.refs && db'.refs[n].tip == db.refs[n].tip
    ensures WriterCurrent(db', writer)
  {
  }

  lemma SweepKeepsCurrent(db: Db, cutoff: int, limit: nat, batch: set<Id>, writer: Writer)
    requires Rooted(db) && WriterCurrent(db, writer)
    requires GcSweep.IsBatch(db.commits, GcSweep.Doomed(db.commits, RootsOf(db, cutoff)), limit, batch)
    ensures WriterCurrent(Swept(db, batch), writer)
  {
    SweepKeepsRooted(db, cutoff, limit, batch);
    hide Rooted;
  }

  lemma StepKeepsCurrent(s: System, step: Step, w: nat)
    requires Inv(s) && Enabled(s, step) && FreshNames(s, step) && w in Apply(s, step).writers
    ensures WriterCurrent(Apply(s, step).db, Apply(s, step).writers[w])
  {
    hide Plan, UpdatedHeads, CanMerge, MergedDb, CanInsert, Branched, WithMount, DbOk, WriterLinked, WriterCoherent;
    if w in s.writers { assert WriterCurrent(s.db, s.writers[w]); }
    hide WriterCurrent;
    match step
    case LoadHeads(v) =>
      if v == w { LoadKeepsCurrent(s, step); }
    case Publish(v, id, _) =>
      PublisherCanAdvance(s, step);
      var writer, c := s.writers[v], PublishedBy(s, step);
      AdvanceKeepsCurrent(s.db, writer.name, id, c, UpdatedHeads(writer.request, HeadsOf(s.db, writer.name), c.tree),
                          s.writers[w]);
    case Fork(mount, branch, genesis, stamp) => ForkKeepsCurrent(s.db, mount, branch, genesis, stamp, s.writers[w]);
    case MergeBranch(branch, mount, id, stamp) => MergeKeepsCurrent(s.db, branch, mount, id, stamp, s.writers[w]);
    case Settle(_, _) => SameTipsKeepCurrent(s.db, Apply(s, step).db, s.writers[w]);
    case CollectRefs => SameTipsKeepCurrent(s.db, Apply(s, step).db, s.writers[w]);
    case CollectCommits(cutoff, limit, batch) => SweepKeepsCurrent(s.db, cutoff, limit, batch, s.writers[w]);
    case _ => QuietKeepsCurrent(s, step, w);
  }

  lemma LoadKeepsCurrent(s: System, step: Step)
    requires Inv(s) && Enabled(s, step) && step.LoadHeads?
    ensures WriterCurrent(s.db, Apply(s, step).writers[step.w])
  {
    var RefLoaded(name, request, seen) := s.writers[step.w];
    assert WriterCurrent(s.db, s.writers[step.w]);
    if name in s.db.refs && s.db.refs[name].tip == seen { LoadedHeadsAreTheTip(s.db, name); }
  }

  /** With fresh names every step keeps the whole invariant and performs its action, given a restore its source. */
  lemma FreshStepsStand(s: System, step: Step)
    requires Inv(s) && Enabled(s, step) && FreshNames(s, step)
    ensures Inv(Apply(s, step)) && CacheStands(s, step) && (Refines(s, step) <==> SourceStands(s, step))
  {
    if step.Publish? { CurrentPublicationsStand(s, step); }
    if step.Fork? { FreshForksStand(s, step); }
    EveryStepKeepsCaches(s, step);
    EveryStepRefines(s, step);
    forall w | w in Apply(s, step).writers
      ensures WriterCurrent(Apply(s, step).db, Apply(s, step).writers[w])
    {
      StepKeepsCurrent(s, step, w);
    }
    hide SoundInv, WriterCurrent, Enabled, Refines, SourceStands;
  }

  ghost predicate NamesStayFresh(s: System, steps: seq<Step>)
    requires IsRun(s, steps)
    decreases |steps|
  {
    steps == [] || (FreshNames(s, steps[0]) && NamesStayFresh(Apply(s, steps[0]), steps[1..]))
  }

  /** Every restore published its source's tree as it was. */
  ghost predicate AllSourcesStand(s: System, steps: seq<Step>)
    requires IsRun(s, steps)
    decreases |steps|
  {
    steps == [] || (SourceStands(s, steps[0]) && AllSourcesStand(Apply(s, steps[0]), steps[1..]))
  }

  /** With fresh names no cache ever drifts, and a run is serial exactly when no restore lost its source. */
  lemma {:induction false} FreshRunsStand(s: System, steps: seq<Step>)
    requires Inv(s) && IsRun(s, steps) && NamesStayFresh(s, steps)
    ensures AllCachesStand(s, steps) && Inv(After(s, steps))
    ensures IsSerial(s, steps) <==> AllSourcesStand(s, steps)
    decreases |steps|
  {
    if steps != [] {
      FreshStepsStand(s, steps[0]);
      hide Enabled, Refines, CacheStands, FreshNames, SourceStands;
      FreshRunsStand(Apply(s, steps[0]), steps[1..]);
    }
  }

  // ---------------------------------------------------------------------
  // When nothing is left under a name.

  /** No heads row is without its ref, and a collector at work has found all the rows there are. */
  ghost predicate NothingLeft(s: System) {
    && (forall n | n !in s.db.refs :: HeadsOf(s.db, n) == map[])
    && (s.collector.Some? ==> forall n | n in s.collector.value :: HeadsOf(s.db, n).Keys <= s.collector.value[n])
  }

  /** No ref is written to while a collector is deleting it. */
  predicate Undisturbed(s: System, step: Step) {
    s.collector.Some? ==>
      && (Publishes(s, step) ==> s.writers[step.w].name !in s.collector.value)
      && (step.MergeBranch? ==> step.mount !in s.collector.value)
  }

  lemma CollectionLeavesNothing(s: System)
    requires NothingLeft(s) && s.collector.Some?
    ensures forall n | n !in Collected(s.db, s.collector.value).refs ::
              HeadsOf(Collected(s.db, s.collector.value), n) == map[]
  {
    forall n | n !in Collected(s.db, s.collector.value).refs
      ensures HeadsOf(Collected(s.db, s.collector.value), n) == map[]
    {
      if n in s.collector.value { assert HeadsOf(s.db, n) - s.collector.value[n] == map[]; }
    }
  }

  lemma MergeLeavesNothing(s: System, step: Step)
    requires CollectorOk(s) && NothingLeft(s) && Enabled(s, step) && Undisturbed(s, step) && step.MergeBranch?
    ensures NothingLeft(Apply(s, step))
  {
    hide Shas, CanInsert, MergeResult, MergeCommit;
  }

  /** No writer touches a row the collector has deleted, in whatever order the two commit. */
  lemma LockedRowsStay(s: System, step: Step, name: Name, path: Path)
    requires step.Publish? && Enabled(s, step) && s.collector.Some?
    requires name in s.collector.value && path in s.collector.value[name]
    ensures Get(HeadsOf(Apply(s, step).db, name), path) == Get(HeadsOf(s.db, name), path)
  {
    hide Plan, CanInsert, Shas, PlannedCommit;
  }

  /** Then the collector takes every row with its ref. */
  lemma StepLeavesNothing(s: System, step: Step)
    requires CollectorOk(s) && NothingLeft(s) && Enabled(s, step) && Undisturbed(s, step)
    ensures NothingLeft(Apply(s, step))
  {
    hide Plan, UpdatedHeads, CanMerge, CanInsert, Shas, MergedDb, Collected;
    match step
    case CollectRefs => CollectionLeavesNothing(s);
    case MergeBranch(_, _, _, _) => MergeLeavesNothing(s, step);
    case _ =>
  }

  predicate Unloaded(s: System, step: Step) {
    step.Fork? ==> forall w | w in s.writers ::
      s.writers[w].name != step.branch && (step.mount in s.db.refs || s.writers[w].name != step.mount)
  }

  ghost predicate AllQuiet(s: System, steps: seq<Step>)
    requires IsRun(s, steps)
    decreases |steps|
  {
    steps == [] || (Undisturbed(s, steps[0]) && Unloaded(s, steps[0]) && AllQuiet(Apply(s, steps[0]), steps[1..]))
  }

  /** Names are fresh while no ref is written to during its collection and none is made that a writer has loaded. */
  lemma {:induction false} QuietRunsStayFresh(s: System, steps: seq<Step>)
    requires FreeInv(s) && NothingLeft(s) && IsRun(s, steps) && AllQuiet(s, steps)
    ensures NamesStayFresh(s, steps)
    decreases |steps|
  {
    if steps != [] {
      StepKeepsLinks(s, steps[0]);
      StepLeavesNothing(s, steps[0]);
      NothingLeftIsFresh(s, steps[0]);
      hide FreeInv, NothingLeft, Enabled, Apply, Undisturbed, Unloaded, FreshNames;
      QuietRunsStayFresh(Apply(s, steps[0]), steps[1..]);
    }
  }

  lemma NothingLeftIsFresh(s: System, step: Step)
    requires NothingLeft(s) && Enabled(s, step) && Unloaded(s, step)
    ensures FreshNames(s, step)
  {
  }

  const EMPTY := System(Db(map[], map[], map[], map[]), map[], None)

  lemma EmptyIsSound()
    ensures Inv(EMPTY) && NothingLeft(EMPTY)
  {
  }

  /**
   * From an empty store: commits never lose a parent; caches are right, trees
   * coherent and runs serial each exactly when its condition holds of every step;
   * right caches make trees coherent; and quiet runs meet all but a restore's.
   */
  lemma RunsFromEmptyAreSound(steps: seq<Step>)
    requires IsRun(EMPTY, steps)
    ensures Closed(After(EMPTY, steps).db.commits)
    ensures AlwaysCached(EMPTY, steps) <==> AllCachesStand(EMPTY, steps)
    ensures AlwaysCoherent(EMPTY, steps) <==> AllCohere(EMPTY, steps)
    ensures AllCachesStand(EMPTY, steps) ==> AllCohere(EMPTY, steps)
    ensures IsSerial(EMPTY, steps) <==> AllStand(EMPTY, steps)
    ensures AllQuiet(EMPTY, steps) ==>
              AllCachesStand(EMPTY, steps) && (IsSerial(EMPTY, steps) <==> AllSourcesStand(EMPTY, steps))
  {
    EmptyIsSound();
    RunsKeepRooted(EMPTY, steps);
    CachesDriftExactly(EMPTY, steps);
    TreesStayCoherentExactly(EMPTY, steps);
    RunsAreSerial(EMPTY, steps);
    if AllCachesStand(EMPTY, steps) { RightCachesMakeCoherentTrees(EMPTY, steps); }
    if AllQuiet(EMPTY, steps) {
      QuietRunsStayFresh(EMPTY, steps);
      FreshRunsStand(EMPTY, steps);
    }
  }
}
