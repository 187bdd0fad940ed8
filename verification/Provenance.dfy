/**
 * What the store's own steps leave in a ref's history: a merge joins two lineages,
 * an operation signs its commit, and the engine's records follow both.
 */
module Provenance {
  import opened Prelude
  import opened Coherence
  import opened Trees
  import opened CommitGraph
  import opened Stale
  import opened Store
  import opened StoreInvariants
  import opened Serializability
  import opened Races
  import opened RestoreSource
  import Lineage
  import Mirror
  import MirrorHistory
  import MirrorLaws

  // ---------------------------------------------------------------------
  // A merge joins the two lineages.

  lemma MergeReaches(db: Db, branch: Name, mount: Name, id: Id, stamp: Stamp, below: Id)
    requires Rooted(db) && CanMerge(db, branch, mount, id, stamp)
    requires MergeResult(db, branch, mount) != TreeOf(db, db.refs[mount].tip)
    ensures var commits := MergedDb(db, branch, mount, id, stamp).commits;
            Reaches(commits, id, below) <==>
              below == id || Reaches(db.commits, db.refs[mount].tip, below)
              || Reaches(db.commits, db.refs[branch].tip, below)
  {
    var settled, c := Settling(db, branch, Merged), MergeCommit(db, branch, mount, stamp);
    var commits := MergedDb(db, branch, mount, id, stamp).commits;
    var ours, theirs := db.refs[branch].tip, db.refs[mount].tip;
    MergerCanAdvance(db, branch, mount, id, stamp);
    InsertKeepsReach(settled, id, c);
    assert RefRooted(db, branch) && RefRooted(db, mount);
    assert commits == Inserted(settled, id, c).commits && commits[id] == c;
    assert c.parents[0] == theirs && c.parents[1] == ours;
    TwoParents(db.commits, commits, id, theirs, ours, below);
  }

  lemma TwoParents(commits: Commits, commits': Commits, id: Id, p: Id, q: Id, below: Id)
    requires Closed(commits) && p in commits && q in commits
    requires forall d | d in commits :: d in commits' && commits'[d] == commits[d]
    requires id in commits' && commits'[id].parents == [p, q] && p < id && q < id
    ensures Reaches(commits', id, below) <==> below == id || Reaches(commits, p, below) || Reaches(commits, q, below)
  {
    ReachesSame(commits, commits', p, below);
    ReachesSame(commits, commits', q, below);
    assert commits'[id].parents[0] == p && commits'[id].parents[1] == q;
    assert IsParent(commits', p, id) && IsParent(commits', q, id);
    assert forall r: Id | IsParent(commits', r, id) :: r == p || r == q;
  }

  predicate Moves(db: Db, db': Db, name: Name) {
    name in db.refs && name in db'.refs && db'.refs[name].tip != db.refs[name].tip
  }

  /** A merge that moves the mount puts below it all that was below the mount and all that was below the branch. */
  lemma MergeJoinsLineages(s: System, step: Step, below: Id)
    requires FreeInv(s) && step.MergeBranch? && Enabled(s, step)
    ensures var db, db' := s.db, Apply(s, step).db;
            && step.branch in db.refs && step.mount in db.refs && step.mount in db'.refs
            && (Moves(db, db', step.mount) <==>
                  TreeOf(db', db'.refs[step.mount].tip) != TreeOf(db, db.refs[step.mount].tip))
            && (Below(db', step.mount, below) <==>
                  || Below(db, step.mount, below)
                  || (Moves(db, db', step.mount)
                      && (below == db'.refs[step.mount].tip || Below(db, step.branch, below))))
  {
    var MergeBranch(branch, mount, id, stamp) := step;
    var db := s.db;
    CanMergeHas(db, branch, mount, id, stamp);
    if MergeResult(db, branch, mount) != TreeOf(db, db.refs[mount].tip) {
      MergeReaches(db, branch, mount, id, stamp, below);
      MergerCanAdvance(db, branch, mount, id, stamp);
      TipIsOlder(Settling(db, branch, Merged), mount, id, MergeCommit(db, branch, mount, stamp));
    }
    hide Rooted, Reaches, MergeResult, CanMerge;
  }

  /** From then on the branch's commits are stored for as long as the mount lives, though the branch be collected. */
  lemma MergedStaysStored(s: System, step: Step, steps: seq<Step>, below: Id)
    requires FreeInv(s) && step.MergeBranch? && Enabled(s, step) && IsRun(Apply(s, step), steps)
    requires Lives(Apply(s, step), steps, step.mount) && Moves(s.db, Apply(s, step).db, step.mount)
    requires Below(s.db, step.branch, below)
    ensures var db := After(Apply(s, step), steps).db; Below(db, step.mount, below) && below in db.commits
  {
    MergeJoinsLineages(s, step, below);
    StepKeepsLinks(s, step);
    hide FreeInv, Below, Enabled, Apply, Lives, IsRun;
    RunKeepsBelow(Apply(s, step), steps, step.mount, below);
  }

  lemma MergedFromATip(base: Tree, ours: Tree, theirs: Tree, path: Path)
    ensures var sha := Merge.ShaAt(Merge.MergedTree(base, ours, theirs), path);
            sha == Merge.ShaAt(ours, path) || sha == Merge.ShaAt(theirs, path)
  {
  }

  /** What either lineage held at a path the mount's then holds, and nothing else. */
  lemma MergeJoinsWhatWasHeld(s: System, step: Step, path: Path, sha: Sha)
    requires FreeInv(s) && step.MergeBranch? && Enabled(s, step) && Moves(s.db, Apply(s, step).db, step.mount)
    ensures var db, db' := s.db, Apply(s, step).db;
            && step.branch in db.refs && step.mount in db.refs && step.mount in db'.refs
            && (MirrorHistory.HeldBy(db'.commits, db'.refs[step.mount].tip, path, sha) <==>
                  || MirrorHistory.HeldBy(db.commits, db.refs[step.mount].tip, path, sha)
                  || MirrorHistory.HeldBy(db.commits, db.refs[step.branch].tip, path, sha))
  {
    var db, db' := s.db, Apply(s, step).db;
    MergeJoinsLineages(s, step, 0);
    var ours, theirs, tip := db.refs[step.branch].tip, db.refs[step.mount].tip, db'.refs[step.mount].tip;
    MergedFromATip(TreeOf(db, db.refs[step.branch].base.value), TreeOf(db, ours), TreeOf(db, theirs), path);
    MergedRows(s, step);
    forall c: Id
      ensures Reaches(db'.commits, tip, c) <==>
                c == tip || Reaches(db.commits, theirs, c) || Reaches(db.commits, ours, c)
      ensures Reaches(db.commits, theirs, c) || Reaches(db.commits, ours, c) ==> c in db.commits
    {
      MergeJoinsLineages(s, step, c);
      assert RefRooted(db, step.branch) && RefRooted(db, step.mount);
      if Reaches(db.commits, theirs, c) { AncestorsAreStored(db.commits, theirs, c); }
      if Reaches(db.commits, ours, c) { AncestorsAreStored(db.commits, ours, c); }
      assert Reaches(db.commits, theirs, theirs);
    }
    assert Reaches(db.commits, ours, ours) && Reaches(db.commits, theirs, theirs);
    hide Rooted, Reaches, FreeInv, Enabled, Apply, Merge.ShaAt;
    HeldIsJoined(db.commits, db'.commits, ours, theirs, tip, path, sha);
  }

  lemma MergedRows(s: System, step: Step)
    requires FreeInv(s) && step.MergeBranch? && Enabled(s, step) && Moves(s.db, Apply(s, step).db, step.mount)
    ensures var db, db' := s.db, Apply(s, step).db; var tip := db'.refs[step.mount].tip;
            && step.branch in db.refs && db.refs[step.branch].base.Some? && tip in db'.commits
            && db'.commits[tip].tree == MergeResult(db, step.branch, step.mount)
            && (forall d | d in db.commits :: d in db'.commits && db'.commits[d] == db.commits[d])
  {
    CanMergeHas(s.db, step.branch, step.mount, step.id, step.stamp);
    hide Rooted, MergeResult, Merge.Mergeable, CanInsert, Shas;
  }

  lemma HeldIsJoined(commits: Commits, commits': Commits, ours: Id, theirs: Id, tip: Id, path: Path, sha: Sha)
    requires forall c: Id ::
               Reaches(commits', tip, c) <==> c == tip || Reaches(commits, theirs, c) || Reaches(commits, ours, c)
    requires forall c: Id | Reaches(commits, theirs, c) || Reaches(commits, ours, c) :: c in commits
    requires forall d | d in commits :: d in commits' && commits'[d] == commits[d]
    requires tip in commits' && Reaches(commits, ours, ours) && Reaches(commits, theirs, theirs)
    requires var held := Merge.ShaAt(commits'[tip].tree, path);
             held == Merge.ShaAt(commits[ours].tree, path) || held == Merge.ShaAt(commits[theirs].tree, path)
    ensures MirrorHistory.HeldBy(commits', tip, path, sha) <==>
              MirrorHistory.HeldBy(commits, theirs, path, sha) || MirrorHistory.HeldBy(commits, ours, path, sha)
  {
    hide Reaches, Merge.ShaAt;
    if c :| Reaches(commits', tip, c) && Lineage.Holds(commits', c, path, sha) {
      if c == tip {
        assert Lineage.Holds(commits, ours, path, sha) || Lineage.Holds(commits, theirs, path, sha);
      } else {
        assert Lineage.Holds(commits, c, path, sha);
      }
    }
    if c :| (Reaches(commits, theirs, c) || Reaches(commits, ours, c)) && Lineage.Holds(commits, c, path, sha) {
      assert Lineage.Holds(commits', c, path, sha);
    }
  }

  // ---------------------------------------------------------------------
  // An operation signs its commit.

  /** A row's operation and the number of its parents tell the same thing. */
  predicate IsSigned(c: Commit) {
    && |c.parents| <= 2
    && (c.op == "import" <==> c.parents == [])
    && (c.op in {"write", "delete", "capture", "restore"} <==> |c.parents| == 1)
    && (c.op == "merge" <==> |c.parents| == 2)
  }

  predicate AllSigned(db: Db) {
    forall id | id in db.inserted :: IsSigned(db.inserted[id])
  }

  /** The one row the second store may have and the first not. */
  ghost predicate AddsRow(db: Db, db': Db, id: Id, c: Commit) {
    db'.inserted == db.inserted || db'.inserted == db.inserted[id := c]
  }

  lemma MergeAddsRow(db: Db, branch: Name, mount: Name, id: Id, stamp: Stamp)
    requires branch in db.refs && mount in db.refs && db.refs[branch].base.Some?
    ensures var c := MergeCommit(db, branch, mount, stamp);
            && AddsRow(db, MergedDb(db, branch, mount, id, stamp), id, c) && IsSigned(c)
            && c.author == stamp.author && c.createdAt == stamp.at
  {
    hide MergeResult, Shas;
  }

  lemma StepAddsRow(s: System, step: Step) returns (id: Id, c: Commit)
    requires Enabled(s, step)
    ensures AddsRow(s.db, Apply(s, step).db, id, c) && IsSigned(c)
    ensures Apply(s, step).db.inserted != s.db.inserted ==>
              && (step.Publish? || step.Fork? || step.MergeBranch?)
              && c.author == step.stamp.author && c.createdAt == step.stamp.at
  {
    id, c := 0, Genesis(Stamp("", 0));
    match step
    case Publish(w, at, stamp) => id, c := at, PlannedCommit(s.writers[w], stamp);
    case Fork(mount, branch, genesis, stamp) => id, c := genesis, Genesis(stamp);
    case MergeBranch(branch, mount, at, stamp) =>
      CanMergeHas(s.db, branch, mount, at, stamp);
      id, c := at, MergeCommit(s.db, branch, mount, stamp);
      MergeAddsRow(s.db, branch, mount, at, stamp);
      hide *;
    case _ =>
  }

  /** Every row a step inserts is signed, and carries the step's author and time. */
  lemma StepSigns(s: System, step: Step)
    requires Enabled(s, step) && AllSigned(s.db)
    ensures AllSigned(Apply(s, step).db)
    ensures forall id | id in Apply(s, step).db.inserted && id !in s.db.inserted ::
              && (step.Publish? || step.Fork? || step.MergeBranch?)
              && Apply(s, step).db.inserted[id].author == step.stamp.author
              && Apply(s, step).db.inserted[id].createdAt == step.stamp.at
  {
    var id, c := StepAddsRow(s, step);
    hide Enabled, Apply, IsSigned;
  }

  /** So no run from the empty store ever stores a write with two parents, or a commit of an unknown operation. */
  lemma {:induction false} RunsSign(s: System, steps: seq<Step>)
    requires FreeInv(s) && IsRun(s, steps) && AllSigned(s.db)
    ensures AllSigned(After(s, steps).db)
    ensures forall id | id in After(s, steps).db.commits :: IsSigned(After(s, steps).db.commits[id])
    decreases |steps|
  {
    if steps != [] {
      StepSigns(s, steps[0]);
      StepKeepsLinks(s, steps[0]);
      hide FreeInv, Enabled, AllSigned;
      RunsSign(Apply(s, steps[0]), steps[1..]);
    }
  }

  lemma RefIsAGraph(db: Db, name: Name)
    requires Rooted(db) && name in db.refs
    ensures MirrorHistory.IsGraph(db.commits, db.refs[name].tip)
  {
    assert RefRooted(db, name);
  }

  lemma GrownLineage(db: Db, db': Db, name: Name)
    requires Rooted(db) && RowsOk(db') && name in db.refs
    requires forall d | d in db.commits :: d in db'.commits && db'.commits[d] == db.commits[d]
    ensures MirrorHistory.KeepsLineage(db.commits, db.refs[name].tip, db'.commits)
  {
    assert RefRooted(db, name);
  }

  lemma SweptLineage(db: Db, cutoff: int, limit: nat, batch: set<Id>, name: Name)
    requires Rooted(db) && name in db.refs
    requires GcSweep.IsBatch(db.commits, GcSweep.Doomed(db.commits, RootsOf(db, cutoff)), limit, batch)
    ensures MirrorHistory.KeepsLineage(db.commits, db.refs[name].tip, Swept(db, batch).commits)
  {
    SweepKeepsRooted(db, cutoff, limit, batch);
    SweepKeepsRefs(db, cutoff, batch, name);
    RefIsAGraph(Swept(db, batch), name);
  }

  /** No step loses or changes a commit below a ref. */
  lemma StepKeepsLineage(s: System, step: Step, name: Name)
    requires FreeInv(s) && Enabled(s, step) && name in s.db.refs
    ensures MirrorHistory.KeepsLineage(s.db.commits, s.db.refs[name].tip, Apply(s, step).db.commits)
  {
    if step.CollectCommits? {
      SweptLineage(s.db, step.cutoff, step.limit, step.batch, name);
    } else {
      StepKeepsRooted(s, step);
      StepKeepsRows(s, step);
      hide FreeInv, Enabled, Apply, RefRooted, RowsOk;
      GrownLineage(s.db, Apply(s, step).db, name);
    }
  }

  lemma InsertKeepsCommits(db: Db, id: Id, c: Commit)
    requires CanInsert(db, id, c)
    ensures forall d | d in db.commits ::
              d in Inserted(db, id, c).commits && Inserted(db, id, c).commits[d] == db.commits[d]
  {
  }

  lemma StepKeepsRows(s: System, step: Step)
    requires Enabled(s, step) && !step.CollectCommits?
    ensures forall d | d in s.db.commits ::
              d in Apply(s, step).db.commits && Apply(s, step).db.commits[d] == s.db.commits[d]
  {
    match step
    case Publish(w, id, stamp) => InsertKeepsCommits(s.db, id, PlannedCommit(s.writers[w], stamp));
    case Fork(mount, _, genesis, stamp) =>
      if mount !in s.db.refs { InsertKeepsCommits(s.db, genesis, Genesis(stamp)); }
    case MergeBranch(branch, mount, id, stamp) =>
      CanMergeHas(s.db, branch, mount, id, stamp);
      hide MergeResult, Shas;
    case _ =>
  }

  /** A publication is the next commit of its ref, signed with its request's name. */
  lemma PublishIsNext(s: System, step: Step)
    requires FreeInv(s) && step.Publish? && Enabled(s, step)
    ensures var db, db', writer := s.db, Apply(s, step).db, s.writers[step.w];
            && writer.name in db.refs && writer.name in db'.refs
            && var tip, tip' := db.refs[writer.name].tip, db'.refs[writer.name].tip;
            && MirrorHistory.IsGraph(db.commits, tip) && MirrorHistory.IsNext(db.commits, tip, db'.commits, tip')
            && Signs(db'.commits[tip'].op, writer.request)
            && db'.commits[tip'].author == step.stamp.author && db'.commits[tip'].createdAt == step.stamp.at
  {
    var name := s.writers[step.w].name;
    RefIsAGraph(s.db, name);
    StepKeepsLineage(s, step, name);
    hide Plan, UpdatedHeads, FreeInv, CanInsert, Unblocked, MirrorHistory.IsGraph, MirrorHistory.KeepsLineage;
  }

  /**
   * After a publication a path it changed was born exactly if it is a write to a
   * path the replaced tip lacked; the others are as they were. It holds what its
   * tree holds and what was held before.
   */
  lemma PublishBirths(s: System, step: Step, path: Path, sha: Sha)
    requires FreeInv(s) && step.Publish? && Enabled(s, step)
    ensures var db, db', writer := s.db, Apply(s, step).db, s.writers[step.w];
            && writer.name in db.refs && writer.name in db'.refs
            && var tip, tip' := db.refs[writer.name].tip, db'.refs[writer.name].tip;
            && tip in db.commits && tip' in db'.commits
            && var before, after := db.commits[tip].tree, db'.commits[tip'].tree;
            && (MirrorHistory.BornOf(db'.commits, tip', path) <==>
                  if Get(after, path) != Get(before, path) then writer.request.Write? && path !in before
                  else MirrorHistory.BornOf(db.commits, tip, path))
            && (MirrorHistory.HeldBy(db'.commits, tip', path, sha) <==>
                  Merge.ShaAt(after, path) == Some(sha) || MirrorHistory.HeldBy(db.commits, tip, path, sha))
  {
    PublishIsNext(s, step);
    var name := s.writers[step.w].name;
    var (commits, commits', tip, tip') :=
      (s.db.commits, Apply(s, step).db.commits, s.db.refs[name].tip, Apply(s, step).db.refs[name].tip);
    assert Reaches(commits, tip, tip) && commits'[tip] == commits[tip];
    hide FreeInv, Enabled, Apply, Reaches, MirrorHistory.BornOf, MirrorHistory.HeldBy;
    MirrorHistory.BornIsSame(commits, tip, commits', path);
    MirrorHistory.HeldIsSame(commits, tip, commits', path, sha);
    MirrorHistory.NextBorn(commits', tip, tip', path);
    MirrorHistory.NextHeld(commits', tip, tip', path, sha);
  }

  /** No sweep before its own time is up takes a published commit, whatever becomes of its ref. */
  lemma PublishedStaysStored(s: System, step: Step, steps: seq<Step>)
    requires FreeInv(s) && step.Publish? && Enabled(s, step)
    requires IsRun(Apply(s, step), steps) && InGrace(steps, step.stamp.at)
    ensures var db, name := Apply(s, step).db, s.writers[step.w].name;
            name in db.refs && db.refs[name].tip in After(Apply(s, step), steps).db.commits
  {
    PublishIsNext(s, step);
    StepKeepsLinks(s, step);
    hide FreeInv, Enabled, Apply, IsRun;
    RunKeepsYoung(Apply(s, step), steps, Apply(s, step).db.refs[s.writers[step.w].name].tip);
  }

  // ---------------------------------------------------------------------
  // The engine on the store.

  /** The request an event of the engine puts to its session. */
  ghost predicate Asks(m: Mirror.State, e: Mirror.Event, request: Request) {
    match e
    case Write(p, sha) => request == Request.Write(p, sha, Any)
    case Commits => AsksForItsLists(m, request)
    case CaptureStops => AsksForItsLists(m, request)
    case Reconcile =>
      var staged := Mirror.Materialize(m, Mirror.DirtyPaths(m));
      request.Capture? && MirrorHistory.IsBatch(request.writes, request.deletes,
                                                Mirror.ToWrite(staged, staged.disk),
                                                Mirror.ToDelete(staged, true, staged.disk))
    case _ => false
  }

  ghost predicate AsksForItsLists(m: Mirror.State, request: Request) {
    m.capturing.Some? && request.Capture?
    && MirrorHistory.IsBatch(request.writes, request.deletes, Mirror.Fetched(m.disk, m.capturing.value.changed),
                             m.capturing.value.deletes)
  }

  /** The event asks for nothing, or for what the tip already is or cannot become. */
  ghost predicate ChangesNothing(m: Mirror.State, e: Mirror.Event, tip: Tree) {
    e.Write? || e.Commits? || e.CaptureStops? || e.Reconcile? ==>
      exists request :: Asks(m, e, request) && !Plan(request, tip, None).NewTree?
  }

  /** A step that leaves the ref where it is, an event that commits nothing, or an event and its publication. */
  datatype Turn =
    | Elsewhere(step: Step)
    | Alone(event: Mirror.Event)
    | Together(step: Step, event: Mirror.Event)

  ghost predicate CanTurn(s: System, m: Mirror.State, name: Name, turn: Turn) {
    name in s.db.refs &&
    match turn
    case Elsewhere(step) =>
      Enabled(s, step) && name in Apply(s, step).db.refs && !Moves(s.db, Apply(s, step).db, name)
    case Alone(event) =>
      Mirror.Enabled(m, event) && ChangesNothing(m, event, TreeOf(s.db, s.db.refs[name].tip))
    case Together(step, event) =>
      && Mirror.Enabled(m, event) && step.Publish? && Enabled(s, step) && TreeStands(s, step)
      && s.writers[step.w].name == name && Asks(m, event, s.writers[step.w].request)
  }

  ghost function TurnStore(s: System, m: Mirror.State, name: Name, turn: Turn): System
    requires CanTurn(s, m, name, turn)
  {
    if turn.Alone? then s else Apply(s, turn.step)
  }

  function TurnEngine(m: Mirror.State, turn: Turn): Mirror.State {
    if turn.Elsewhere? then m else Mirror.Next(m, turn.event)
  }

  /** The ref's history and the engine's records of it say the same. */
  ghost predicate Agree(s: System, m: Mirror.State, name: Name) {
    name in s.db.refs && MirrorHistory.Represents(s.db.commits, s.db.refs[name].tip, m)
  }

  lemma SourceIsIdle(request: Request, heads: Tree, source: Option<Tree>)
    requires !request.Restore?
    ensures Plan(request, heads, source) == Plan(request, heads, None)
  {
  }

  /** A publication that stands performs its request on its ref's graph, under its request's name. */
  lemma PublishPerforms(s: System, step: Step)
    requires FreeInv(s) && step.Publish? && Enabled(s, step) && TreeStands(s, step)
    requires s.writers[step.w].request.Write? || s.writers[step.w].request.Capture?
    ensures var db, db', writer := s.db, Apply(s, step).db, s.writers[step.w];
            && writer.name in db.refs && writer.name in db'.refs && db.refs[writer.name].tip in db.commits
            && MirrorHistory.Performs(db.commits, db.refs[writer.name].tip, writer.request,
                                      if writer.request.Write? then "write" else "capture",
                                      db'.commits, db'.refs[writer.name].tip)
  {
    var writer := s.writers[step.w];
    PublishReplacesItsParent(s, step);
    PublishIsNext(s, step);
    var before := s.db.commits[s.db.refs[writer.name].tip].tree;
    SourceIsIdle(writer.request, before, SourceOf(Meaning(s.db), writer.request));
    assert SourceStands(s, step);
    hide FreeInv, Enabled, Apply, Plan, TreeStands, SourceStands, MirrorHistory.IsNext, MirrorHistory.IsGraph, Meaning;
  }

  lemma AskedIsRecorded(s: System, m: Mirror.State, name: Name, turn: Turn)
    requires FreeInv(s) && CanTurn(s, m, name, turn) && turn.Together?
    ensures var db, db' := s.db, Apply(s, turn.step).db;
            && name in db'.refs && db.refs[name].tip in db.commits
            && MirrorHistory.Records(db.commits, db.refs[name].tip, m, turn.event, db'.commits, db'.refs[name].tip)
  {
    PublishPerforms(s, turn.step);
    hide FreeInv, Enabled, Apply, TreeStands, MirrorHistory.Performs, MirrorHistory.IsBatch, Mirror.Materialize;
    hide Mirror.ToWrite, Mirror.ToDelete, Mirror.Fetched, Mirror.Enabled;
  }

  lemma IdleIsRecorded(s: System, m: Mirror.State, name: Name, event: Mirror.Event)
    requires FreeInv(s) && CanTurn(s, m, name, Alone(event))
    ensures s.db.refs[name].tip in s.db.commits
    ensures MirrorHistory.Records(s.db.commits, s.db.refs[name].tip, m, event, s.db.commits, s.db.refs[name].tip)
  {
    RefIsAGraph(s.db, name);
    hide Plan, FreeInv, Mirror.Enabled, MirrorHistory.IsBatch, Mirror.ToWrite, Mirror.ToDelete, Mirror.Fetched;
  }

  /** One turn of store and engine keeps them in agreement. */
  lemma TurnKeepsAgreement(s: System, m: Mirror.State, name: Name, turn: Turn)
    requires FreeInv(s) && Mirror.Inv(m) && Agree(s, m, name) && CanTurn(s, m, name, turn)
    ensures FreeInv(TurnStore(s, m, name, turn)) && Mirror.Inv(TurnEngine(m, turn))
    ensures Agree(TurnStore(s, m, name, turn), TurnEngine(m, turn), name)
  {
    hide FreeInv, Enabled, Apply, TreeStands, Asks, Plan, Mirror.Inv, Mirror.Enabled, Mirror.Next;
    hide MirrorHistory.Represents, MirrorHistory.Records, MirrorHistory.KeepsLineage;
    match turn
    case Elsewhere(step) =>
      StepKeepsLinks(s, step);
      StepKeepsLineage(s, step, name);
      MirrorHistory.OthersChangeNothing(s.db.commits, s.db.refs[name].tip, Apply(s, step).db.commits, m);
    case Alone(event) =>
      MirrorLaws.NextKeepsInv(m, event);
      IdleIsRecorded(s, m, name, event);
      MirrorHistory.EventIsRecorded(s.db.commits, s.db.refs[name].tip, m, event, s.db.commits, s.db.refs[name].tip);
    case Together(step, event) =>
      StepKeepsLinks(s, step);
      MirrorLaws.NextKeepsInv(m, event);
      AskedIsRecorded(s, m, name, turn);
      var db' := Apply(s, step).db;
      MirrorHistory.EventIsRecorded(s.db.commits, s.db.refs[name].tip, m, event, db'.commits, db'.refs[name].tip);
  }

  ghost predicate CanPlay(s: System, m: Mirror.State, name: Name, turns: seq<Turn>)
    decreases |turns|
  {
    turns == [] ||
    (CanTurn(s, m, name, turns[0])
     && CanPlay(TurnStore(s, m, name, turns[0]), TurnEngine(m, turns[0]), name, turns[1..]))
  }

  ghost function Played(s: System, m: Mirror.State, name: Name, turns: seq<Turn>): (System, Mirror.State)
    requires CanPlay(s, m, name, turns)
    decreases |turns|
  {
    if turns == [] then (s, m)
    else Played(TurnStore(s, m, name, turns[0]), TurnEngine(m, turns[0]), name, turns[1..])
  }

  /**
   * Over any run of the store and the engine together, other writers, merges and
   * sweeps in between, what the engine goes by is what its ref's history answers.
   */
  lemma {:induction false} PlayKeepsAgreement(s: System, m: Mirror.State, name: Name, turns: seq<Turn>)
    requires FreeInv(s) && Mirror.Inv(m) && Agree(s, m, name) && CanPlay(s, m, name, turns)
    ensures var (s', m') := Played(s, m, name, turns); FreeInv(s') && Mirror.Inv(m') && Agree(s', m', name)
    decreases |turns|
  {
    if turns != [] {
      TurnKeepsAgreement(s, m, name, turns[0]);
      hide CanTurn, Agree, FreeInv, Mirror.Inv, TurnEngine, TurnStore;
      PlayKeepsAgreement(TurnStore(s, m, name, turns[0]), TurnEngine(m, turns[0]), name, turns[1..]);
    }
  }
}
