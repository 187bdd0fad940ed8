/**
 * What the engine's session answers from history: `lineage` and `born` in the
 * mirror's state are the digests and the creations the commit graph records, and
 * stay so as the engine's own commits extend the graph.
 */
module MirrorHistory {
  import opened Prelude
  import opened Coherence
  import opened Trees
  import opened CommitGraph
  import opened Mirror
  import opened MirrorLaws
  import opened MirrorRuns
  import Lineage
  import Merge

  /** What `heldInLineage` answers. */
  ghost predicate HeldBy(commits: Commits, tip: Id, path: Path, sha: Sha) {
    exists c :: Reaches(commits, tip, c) && Lineage.Holds(commits, c, path, sha)
  }

  /** What `createdByNewestWrite` answers. */
  ghost predicate BornOf(commits: Commits, tip: Id, path: Path) {
    exists c :: Lineage.IsNewest(commits, tip, path, c) && commits[c].op == "write" && Lineage.Created(commits, c, path)
  }

  ghost predicate IsGraph(commits: Commits, tip: Id) {
    Closed(commits) && Lineage.GenesisIsEmpty(commits) && tip in commits
  }

  ghost predicate Represents(commits: Commits, tip: Id, s: State) {
    && IsGraph(commits, tip)
    && Shas(commits[tip].tree) == s.head
    && (forall p, sha: Sha :: (p, sha) in s.lineage <==> HeldBy(commits, tip, p, sha))
    && (forall p :: p in s.born <==> BornOf(commits, tip, p))
  }

  /** Other refs gain commits and lose collected ones; the ancestors of the tip stay. */
  ghost predicate KeepsLineage(commits: Commits, tip: Id, commits': Commits) {
    && IsGraph(commits', tip)
    && forall x | x in commits && Reaches(commits, tip, x) :: x in commits' && commits'[x] == commits[x]
  }

  /** A commit on top of the tip. */
  ghost predicate IsNext(commits: Commits, tip: Id, commits': Commits, id: Id) {
    KeepsLineage(commits, tip, commits') && id in commits' && commits'[id].parents == [tip]
  }

  lemma LineageIsSame(commits: Commits, tip: Id, commits': Commits, d: Id)
    requires IsGraph(commits, tip) && KeepsLineage(commits, tip, commits')
    ensures Reaches(commits', tip, d) <==> Reaches(commits, tip, d)
    ensures Reaches(commits, tip, d) ==> d in commits && d in commits' && commits'[d] == commits[d] && d <= tip
  {
    ReachesSame(commits, commits', tip, d);
    if Reaches(commits, tip, d) {
      AncestorsAreStored(commits, tip, d);
      ReachesOlder(commits, tip, d);
    }
  }

  lemma ParentIsInLineage(commits: Commits, tip: Id, d: Id, p: Id)
    requires IsGraph(commits, tip) && d in commits && Reaches(commits, tip, d) && p in commits[d].parents
    ensures Reaches(commits, tip, p)
  {
    assert IsParent(commits, p, d) && Reaches(commits, p, p);
    assert Reaches(commits, d, p);
    ReachesTransitive(commits, tip, d, p);
  }

  lemma TouchesIsSame(commits: Commits, tip: Id, commits': Commits, d: Id, path: Path)
    requires IsGraph(commits, tip) && KeepsLineage(commits, tip, commits')
    requires Reaches(commits, tip, d) && d in commits && d in commits' && commits'[d] == commits[d]
    ensures Lineage.Touches(commits', d, path) <==> Lineage.Touches(commits, d, path)
    ensures Lineage.Created(commits', d, path) <==> Lineage.Created(commits, d, path)
  {
    hide Reaches, Closed;
    forall p | p in commits[d].parents
      ensures Lineage.TreeAt(commits', p) == Lineage.TreeAt(commits, p)
    {
      ParentIsInLineage(commits, tip, d, p);
      LineageIsSame(commits, tip, commits', p);
    }
  }

  lemma HeldIsSame(commits: Commits, tip: Id, commits': Commits, path: Path, sha: Sha)
    requires IsGraph(commits, tip) && KeepsLineage(commits, tip, commits')
    ensures HeldBy(commits', tip, path, sha) <==> HeldBy(commits, tip, path, sha)
  {
    hide Reaches, Closed;
    forall c: Id
      ensures Reaches(commits', tip, c) <==> Reaches(commits, tip, c)
      ensures Reaches(commits, tip, c) ==>
                (Lineage.Holds(commits', c, path, sha) <==> Lineage.Holds(commits, c, path, sha))
    {
      LineageIsSame(commits, tip, commits', c);
    }
  }

  /** The newest commit of the lineage that touches the path, if there is one, in either graph. */
  lemma NewestIsSame(commits: Commits, tip: Id, commits': Commits, path: Path, c: Id)
    requires IsGraph(commits, tip) && KeepsLineage(commits, tip, commits')
    ensures Lineage.IsNewest(commits', tip, path, c) <==> Lineage.IsNewest(commits, tip, path, c)
    ensures Lineage.IsNewest(commits, tip, path, c) ==>
              && c in commits && c in commits' && commits'[c] == commits[c]
              && (Lineage.Created(commits', c, path) <==> Lineage.Created(commits, c, path))
  {
    hide Reaches, Closed, Lineage.Touches, Lineage.Created;
    forall d: Id
      ensures Reaches(commits', tip, d) <==> Reaches(commits, tip, d)
      ensures Reaches(commits, tip, d) ==>
                && d in commits && d in commits' && commits'[d] == commits[d]
                && (Lineage.Touches(commits', d, path) <==> Lineage.Touches(commits, d, path))
                && (Lineage.Created(commits', d, path) <==> Lineage.Created(commits, d, path))
    {
      LineageIsSame(commits, tip, commits', d);
      if Reaches(commits, tip, d) { TouchesIsSame(commits, tip, commits', d, path); }
    }
  }

  lemma BornIsSame(commits: Commits, tip: Id, commits': Commits, path: Path)
    requires IsGraph(commits, tip) && KeepsLineage(commits, tip, commits')
    ensures BornOf(commits', tip, path) <==> BornOf(commits, tip, path)
  {
    hide Lineage.IsNewest, Lineage.Created, KeepsLineage, IsGraph;
    forall c: Id
      ensures Lineage.IsNewest(commits', tip, path, c) <==> Lineage.IsNewest(commits, tip, path, c)
      ensures Lineage.IsNewest(commits, tip, path, c) ==>
                && c in commits && c in commits' && commits'[c] == commits[c]
                && (Lineage.Created(commits', c, path) <==> Lineage.Created(commits, c, path))
    {
      NewestIsSame(commits, tip, commits', path, c);
    }
  }

  /** Whatever happens to other refs, the session's answers about this one stand. */
  lemma OthersChangeNothing(commits: Commits, tip: Id, commits': Commits, s: State)
    requires Represents(commits, tip, s) && KeepsLineage(commits, tip, commits')
    ensures Represents(commits', tip, s)
  {
    assert Reaches(commits, tip, tip);
    hide Reaches, HeldBy, BornOf, Lineage.GenesisIsEmpty, Closed;
    forall p, sha: Sha
      ensures HeldBy(commits', tip, p, sha) <==> HeldBy(commits, tip, p, sha)
    {
      HeldIsSame(commits, tip, commits', p, sha);
    }
    forall p
      ensures BornOf(commits', tip, p) <==> BornOf(commits, tip, p)
    {
      BornIsSame(commits, tip, commits', p);
    }
  }

  // ---------------------------------------------------------------------
  // One commit more.

  lemma NextReaches(commits: Commits, tip: Id, id: Id, d: Id)
    requires IsGraph(commits, tip) && id in commits && commits[id].parents == [tip]
    ensures Reaches(commits, id, d) <==> d == id || Reaches(commits, tip, d)
    ensures tip < id && (Reaches(commits, tip, d) ==> d in commits && d <= tip)
  {
    assert commits[id].parents[0] == tip;
    assert forall p: Id :: IsParent(commits, p, id) <==> p == tip;
    if Reaches(commits, tip, d) {
      AncestorsAreStored(commits, tip, d);
      ReachesOlder(commits, tip, d);
    }
  }

  lemma NextHeld(commits: Commits, tip: Id, id: Id, path: Path, sha: Sha)
    requires IsGraph(commits, tip) && id in commits && commits[id].parents == [tip]
    ensures HeldBy(commits, id, path, sha) <==>
            Merge.ShaAt(commits[id].tree, path) == Some(sha) || HeldBy(commits, tip, path, sha)
  {
    forall d: Id
      ensures Reaches(commits, id, d) <==> d == id || Reaches(commits, tip, d)
    {
      NextReaches(commits, tip, id, d);
    }
    hide Reaches, Closed, Merge.ShaAt;
    assert Lineage.Holds(commits, id, path, sha) <==> Merge.ShaAt(commits[id].tree, path) == Some(sha);
  }

  lemma NextBorn(commits: Commits, tip: Id, id: Id, path: Path)
    requires IsGraph(commits, tip) && id in commits && commits[id].parents == [tip]
    ensures BornOf(commits, id, path) <==>
            if Get(commits[id].tree, path) != Get(commits[tip].tree, path)
            then commits[id].op == "write" && path !in commits[tip].tree
            else BornOf(commits, tip, path)
  {
    forall d: Id
      ensures Reaches(commits, id, d) <==> d == id || Reaches(commits, tip, d)
      ensures tip < id && (Reaches(commits, tip, d) ==> d in commits && d <= tip)
    {
      NextReaches(commits, tip, id, d);
    }
    assert commits[id].parents[0] == tip;
    assert Lineage.Touches(commits, id, path) <==> Get(commits[id].tree, path) != Get(commits[tip].tree, path);
    assert Lineage.Created(commits, id, path) <==> path !in commits[tip].tree;
    hide Reaches, Closed, Lineage.Touches, Lineage.Created, Get;
    NewestMoves(commits, tip, id, path);
  }

  lemma NewestMoves(commits: Commits, tip: Id, id: Id, path: Path)
    requires id in commits
    requires forall d: Id :: Reaches(commits, id, d) <==> d == id || Reaches(commits, tip, d)
    requires forall d: Id | Reaches(commits, tip, d) :: d in commits && d < id
    ensures forall c: Id :: Lineage.IsNewest(commits, id, path, c) <==>
              if Lineage.Touches(commits, id, path) then c == id else Lineage.IsNewest(commits, tip, path, c)
  {
    hide Reaches, Lineage.Touches;
    forall c: Id
      ensures Lineage.IsNewest(commits, id, path, c) <==>
              if Lineage.Touches(commits, id, path) then c == id else Lineage.IsNewest(commits, tip, path, c)
    {
      assert Reaches(commits, id, id);
    }
  }

  // ---------------------------------------------------------------------
  // The engine's events.

  /** The kernel has performed a request on the ref: a commit on top of its tip, or nothing. */
  ghost predicate Performs(commits: Commits, tip: Id, request: Request, op: string, commits': Commits, tip': Id)
    requires tip in commits
  {
    var outcome := Plan(request, commits[tip].tree, None);
    if outcome.NewTree? then
      IsNext(commits, tip, commits', tip') && commits'[tip'].tree == outcome.tree && commits'[tip'].op == op
    else tip' == tip && KeepsLineage(commits, tip, commits')
  }

  /** The lists a capture sends, in any order. */
  predicate IsBatch(writes: seq<(Path, Sha)>, deletes: seq<Path>, batch: Disk, gone: set<Path>) {
    && batch.Keys == WrittenPaths(writes) && (forall p | p in batch :: batch[p] == LastSha(writes, p))
    && (forall p | p in deletes :: p in gone) && forall p | p in gone :: p in deletes
  }

  ghost predicate Captures(commits: Commits, tip: Id, batch: Disk, gone: set<Path>, commits': Commits, tip': Id)
    requires tip in commits
  {
    exists writes, deletes ::
      IsBatch(writes, deletes, batch, gone)
      && Performs(commits, tip, Request.Capture(writes, deletes), "capture", commits', tip')
  }

  /** What the capture in flight commits. */
  ghost predicate Fetches(commits: Commits, tip: Id, s: State, commits': Commits, tip': Id)
    requires tip in commits
  {
    s.capturing.Some?
    && Captures(commits, tip, Fetched(s.disk, s.capturing.value.changed), s.capturing.value.deletes, commits', tip')
  }

  /** What an event of the engine does to the graph and the ref. */
  ghost predicate Records(commits: Commits, tip: Id, s: State, e: Event, commits': Commits, tip': Id)
    requires tip in commits
  {
    match e
    case Write(p, sha) => Performs(commits, tip, Request.Write(p, sha, Any), "write", commits', tip')
    case Commits => Fetches(commits, tip, s, commits', tip')
    case CaptureStops => Fetches(commits, tip, s, commits', tip')
    case Reconcile =>
      var staged := Materialize(s, DirtyPaths(s));
      Captures(commits, tip, ToWrite(staged, staged.disk), ToDelete(staged, true, staged.disk), commits', tip')
    case _ => tip' == tip && KeepsLineage(commits, tip, commits')
  }

  /** Only head, lineage and born are of the history. */
  predicate SameHistory(s: State, t: State) {
    s.head == t.head && s.lineage == t.lineage && s.born == t.born
  }

  /** A commit whose tree differs from the last only where it says, brought into the engine's records. */
  lemma NextRepresents(commits: Commits, tip: Id, s: State, commits': Commits, id: Id, t: State)
    requires Represents(commits, tip, s) && IsNext(commits, tip, commits', id)
    requires Shas(commits'[id].tree) == t.head
    requires forall p, sha: Sha :: (p, sha) in t.lineage <==> (p, sha) in s.lineage || Get(t.head, p) == Some(sha)
    requires forall p :: p in t.born <==>
               if Get(commits'[id].tree, p) != Get(commits[tip].tree, p)
               then commits'[id].op == "write" && p !in commits[tip].tree
               else p in s.born
    ensures Represents(commits', id, t)
  {
    assert Reaches(commits, tip, tip);
    OthersChangeNothing(commits, tip, commits', s);
    hide Reaches, HeldBy, BornOf, Closed, Lineage.GenesisIsEmpty;
    forall p, sha: Sha
      ensures (p, sha) in t.lineage <==> HeldBy(commits', id, p, sha)
    {
      NextHeld(commits', tip, id, p, sha);
      assert Merge.ShaAt(commits'[id].tree, p) == Get(t.head, p);
    }
    forall p
      ensures p in t.born <==> BornOf(commits', id, p)
    {
      NextBorn(commits', tip, id, p);
    }
  }

  lemma SameRepresents(commits: Commits, tip: Id, s: State, t: State)
    requires Represents(commits, tip, s) && SameHistory(s, t)
    ensures Represents(commits, tip, t)
  {
  }

  lemma HeadIsHeld(commits: Commits, tip: Id, s: State, p: Path)
    requires Represents(commits, tip, s) && p in s.head
    ensures (p, s.head[p]) in s.lineage
  {
    assert Reaches(commits, tip, tip) && Lineage.Holds(commits, tip, p, s.head[p]);
    assert HeldBy(commits, tip, p, s.head[p]);
  }

  lemma WriteHistory(s: State, tree: Tree, p: Path, sha: Sha)
    requires Shas(tree) == s.head && (p in tree ==> tree[p].sha != sha)
    requires forall q | q in s.head :: (q, s.head[q]) in s.lineage
    ensures var t, next := Next(s, Event.Write(p, sha)), tree[p := Entry(sha, ModeOf(tree, p))];
            && Shas(next) == t.head
            && (forall q, x: Sha :: (q, x) in t.lineage <==> (q, x) in s.lineage || Get(t.head, q) == Some(x))
            && (forall q :: q in t.born <==> if Get(next, q) != Get(tree, q) then q !in tree else q in s.born)
  {
    var t, next := Next(s, Event.Write(p, sha)), tree[p := Entry(sha, ModeOf(tree, p))];
    assert tree.Keys == s.head.Keys;
    forall q
      ensures Get(next, q) != Get(tree, q) <==> q == p
    {
    }
  }

  lemma PlannedWrite(s: State, tree: Tree, p: Path, sha: Sha)
    requires Enabled(s, Event.Write(p, sha)) && Shas(tree) == s.head
    ensures Plan(Request.Write(p, sha, Any), tree, None)
            == if p in tree && tree[p].sha == sha then Unchanged else NewTree(tree[p := Entry(sha, ModeOf(tree, p))])
  {
    assert tree.Keys == s.head.Keys;
    assert forall q | q in tree :: q !in FilesBlocking(s.head, p);
  }

  lemma RewriteKeepsHistory(s: State, p: Path, sha: Sha)
    requires Get(s.head, p) == Some(sha) && (p, sha) in s.lineage
    ensures SameHistory(s, Next(s, Event.Write(p, sha)))
  {
  }

  lemma WriteIsRecorded(commits: Commits, tip: Id, s: State, p: Path, sha: Sha, commits': Commits, tip': Id)
    requires Enabled(s, Event.Write(p, sha)) && Represents(commits, tip, s)
    requires Records(commits, tip, s, Event.Write(p, sha), commits', tip')
    ensures Represents(commits', tip', Next(s, Event.Write(p, sha)))
  {
    var tree, t := commits[tip].tree, Next(s, Event.Write(p, sha));
    PlannedWrite(s, tree, p, sha);
    if p in tree && tree[p].sha == sha {
      HeadIsHeld(commits, tip, s, p);
      RewriteKeepsHistory(s, p, sha);
      hide Represents, Next, KeepsLineage, Enabled;
      OthersChangeNothing(commits, tip, commits', s);
      SameRepresents(commits', tip, s, t);
    } else {
      forall q | q in s.head
        ensures (q, s.head[q]) in s.lineage
      {
        HeadIsHeld(commits, tip, s, q);
      }
      WriteHistory(s, tree, p, sha);
      hide Represents, Next, KeepsLineage, Enabled;
      NextRepresents(commits, tip, s, commits', tip', t);
    }
  }

  /** What a capture's tree changes is what the engine counts as changed. */
  lemma CaptureChanges(tree: Tree, writes: seq<(Path, Sha)>, deletes: seq<Path>, batch: Disk, gone: set<Path>, p: Path)
    requires IsBatch(writes, deletes, batch, gone)
    ensures var after := CapturedHead(Shas(tree), batch, gone);
            && Shas(CaptureTree(tree, writes, deletes)) == after
            && (p in ChangedPaths(Shas(tree), after) <==> Get(CaptureTree(tree, writes, deletes), p) != Get(tree, p))
  {
    CaptureIsTheKernels(tree, writes, deletes, batch, gone);
    var next := CaptureTree(tree, writes, deletes);
    assert p in next && p in tree && next[p].sha == tree[p].sha ==> next[p] == tree[p];
    assert next.Keys == Shas(next).Keys && tree.Keys == Shas(tree).Keys;
  }

  lemma PlannedCapture(tree: Tree, writes: seq<(Path, Sha)>, deletes: seq<Path>, batch: Disk, gone: set<Path>)
    requires IsBatch(writes, deletes, batch, gone) && Coherent(batch.Keys)
    ensures var next := CaptureTree(tree, writes, deletes);
            Plan(Request.Capture(writes, deletes), tree, None) == if next == tree then Unchanged else NewTree(next)
  {
  }

  /** What the commit of a capture does to the engine's records, by the tree it commits. */
  lemma CaptureHistory(s: State, tree: Tree, writes: seq<(Path, Sha)>, deletes: seq<Path>, batch: Disk, gone: set<Path>)
    requires IsBatch(writes, deletes, batch, gone) && Shas(tree) == s.head
    ensures var t, next := CommitCapture(s, batch, gone), CaptureTree(tree, writes, deletes);
            && Shas(next) == t.head
            && (forall p, sha: Sha :: (p, sha) in t.lineage <==> (p, sha) in s.lineage || Get(t.head, p) == Some(sha))
            && (forall p :: p in t.born <==> p in s.born && Get(next, p) == Get(tree, p))
  {
    var t := CommitCapture(s, batch, gone);
    forall p
      ensures Shas(CaptureTree(tree, writes, deletes)) == t.head
      ensures p in ChangedPaths(s.head, t.head) <==> Get(CaptureTree(tree, writes, deletes), p) != Get(tree, p)
    {
      CaptureChanges(tree, writes, deletes, batch, gone, p);
    }
    CommitFrame(s, batch, gone);
    hide CaptureTree, CapturedHead, IsBatch, ChangedPaths, Shas;
  }

  lemma CommitIsRecorded(commits: Commits, tip: Id, s: State, batch: Disk, gone: set<Path>, commits': Commits, tip': Id)
    requires Represents(commits, tip, s) && Coherent(batch.Keys)
    requires Captures(commits, tip, batch, gone, commits', tip')
    ensures Represents(commits', tip', CommitCapture(s, batch, gone))
  {
    var writes, deletes :| IsBatch(writes, deletes, batch, gone)
      && Performs(commits, tip, Request.Capture(writes, deletes), "capture", commits', tip');
    var tree, t := commits[tip].tree, CommitCapture(s, batch, gone);
    PlannedCapture(tree, writes, deletes, batch, gone);
    CaptureHistory(s, tree, writes, deletes, batch, gone);
    if CaptureTree(tree, writes, deletes) == tree {
      forall p, sha: Sha
        ensures (p, sha) in t.lineage <==> (p, sha) in s.lineage
      {
        if p in s.head { HeadIsHeld(commits, tip, s, p); }
      }
      assert t.lineage == s.lineage && t.born == s.born;
      OthersChangeNothing(commits, tip, commits', s);
      hide Represents, CaptureTree, CommitCapture, Coherent, IsBatch;
      SameRepresents(commits', tip, s, t);
    } else {
      hide Represents, KeepsLineage, CaptureTree, CommitCapture, Coherent, IsBatch;
      NextRepresents(commits, tip, s, commits', tip', t);
    }
  }

  lemma CaptureIsRecorded(commits: Commits, tip: Id, s: State, full: bool, seen: Disk, commits': Commits, tip': Id)
    requires Inv(s) && IsPart(seen, s.disk) && Represents(commits, tip, s)
    requires Captures(commits, tip, ToWrite(s, seen), ToDelete(s, full, seen), commits', tip')
    ensures Represents(commits', tip', Captured(s, full, seen))
  {
    SeenIsCoherent(seen, s.disk);
    PartIsCoherent(ToWrite(s, seen).Keys, seen.Keys);
    var staged := Materialize(s.(index := Confirmations(s, seen)), ToRestage(s, full, seen));
    SameRepresents(commits, tip, s, staged);
    hide Represents, Coherent, Captures, CommitCapture, ToWrite, ToDelete, ToRestage, Confirmations, Materialize;
    CommitIsRecorded(commits, tip, staged, ToWrite(s, seen), ToDelete(s, full, seen), commits', tip');
    var committed := CommitCapture(staged, ToWrite(s, seen), ToDelete(s, full, seen));
    SameRepresents(commits', tip', committed, Captured(s, full, seen));
  }

  lemma FetchIsRecorded(commits: Commits, tip: Id, s: State, commits': Commits, tip': Id)
    requires Inv(s) && Represents(commits, tip, s) && Fetches(commits, tip, s, commits', tip')
    ensures Represents(commits', tip', Committed(s)) && Represents(commits', tip', Committed(s).(resume := s.resume))
  {
    var writes, deletes := Fetched(s.disk, s.capturing.value.changed), s.capturing.value.deletes;
    FetchedIsCoherent(s.disk, s.capturing.value.changed);
    CommitIsRecorded(commits, tip, s, writes, deletes, commits', tip');
    hide Represents, CommitCapture, Fetched;
    SameRepresents(commits', tip', CommitCapture(s, writes, deletes), Committed(s));
    SameRepresents(commits', tip', CommitCapture(s, writes, deletes), Committed(s).(resume := s.resume));
  }

  lemma EventIsRecorded(commits: Commits, tip: Id, s: State, e: Event, commits': Commits, tip': Id)
    requires Inv(s) && Enabled(s, e) && Represents(commits, tip, s)
    requires Records(commits, tip, s, e, commits', tip')
    ensures Represents(commits', tip', Next(s, e))
  {
    hide Represents, Captures, Inv, CanMaterialize, Captured, Committed, KeepsLineage;
    match e
    case Write(p, sha) => WriteIsRecorded(commits, tip, s, p, sha, commits', tip');
    case Commits => FetchIsRecorded(commits, tip, s, commits', tip');
    case CaptureStops => FetchIsRecorded(commits, tip, s, commits', tip');
    case Reconcile =>
      var staged := Materialize(s, DirtyPaths(s));
      ReconciledKeepsInv(s);
      SameRepresents(commits, tip, s, staged);
      CaptureIsRecorded(commits, tip, staged, true, staged.disk, commits', tip');
    case _ =>
      OthersChangeNothing(commits, tip, commits', s);
      SameRepresents(commits', tip, s, Next(s, e));
  }

  datatype Graph = Graph(commits: Commits, tip: Id)

  ghost predicate Follows(s: State, e: Event, one: Graph, two: Graph) {
    one.tip in one.commits && Records(one.commits, one.tip, s, e, two.commits, two.tip)
  }

  /** The graph before and after every event of a run. */
  ghost predicate IsRecording(s: State, run: seq<Event>, graphs: seq<Graph>) {
    && |graphs| == |run| + 1
    && forall i | 0 <= i < |run| :: Follows(After(s, run[..i]), run[i], graphs[i], graphs[i + 1])
  }

  lemma {:induction false} RunPrefix(s: State, run: seq<Event>, n: nat)
    requires IsRun(s, run) && n < |run|
    ensures IsRun(s, run[..n]) && Enabled(After(s, run[..n]), run[n])
    ensures After(s, run[..n + 1]) == Next(After(s, run[..n]), run[n])
    decreases |run|
  {
    hide Enabled, Next;
    if n == |run| - 1 {
      assert run[..n + 1] == run;
    } else {
      RunPrefix(s, run[..|run| - 1], n);
      assert run[..|run| - 1][..n] == run[..n] && run[..|run| - 1][..n + 1] == run[..n + 1];
    }
  }

  lemma FollowingIsRecorded(s: State, e: Event, one: Graph, two: Graph)
    requires Inv(s) && Enabled(s, e) && Represents(one.commits, one.tip, s) && Follows(s, e, one, two)
    ensures Represents(two.commits, two.tip, Next(s, e))
  {
    EventIsRecorded(one.commits, one.tip, s, e, two.commits, two.tip);
    hide *;
  }

  lemma {:induction false} RecordedUpTo(s: State, run: seq<Event>, graphs: seq<Graph>, n: nat)
    requires Inv(s) && IsRun(s, run) && IsRecording(s, run, graphs) && n <= |run|
    requires Represents(graphs[0].commits, graphs[0].tip, s)
    ensures Represents(graphs[n].commits, graphs[n].tip, After(s, run[..n]))
    decreases n
  {
    hide Represents, Inv, Enabled, Next, Follows, IsRun;
    if n > 0 {
      var mid, e := After(s, run[..n - 1]), run[n - 1];
      RecordedUpTo(s, run, graphs, n - 1);
      RunPrefix(s, run, n - 1);
      RunKeepsInv(s, run[..n - 1]);
      hide After;
      FollowingIsRecorded(mid, e, graphs[n - 1], graphs[n]);
    }
  }

  /** Over any run, next to any activity on other refs, the engine's lineage and births are the history's. */
  lemma HistoryIsTheEngines(s: State, run: seq<Event>, graphs: seq<Graph>)
    requires Inv(s) && IsRun(s, run) && IsRecording(s, run, graphs)
    requires Represents(graphs[0].commits, graphs[0].tip, s)
    ensures Represents(graphs[|run|].commits, graphs[|run|].tip, After(s, run))
  {
    RecordedUpTo(s, run, graphs, |run|);
    assert run[..|run|] == run;
    hide *;
  }

  lemma WarmAgrees(head: Disk, disk: Disk, lineage: set<(Path, Sha)>, born: set<Path>, p: Path)
    ensures var s := Warm(head, disk, lineage, born);
            && p !in DirtyPaths(s)
            && Agreed(s, p) == if p in head && p in disk then
                                 Some(if disk[p] == head[p] || (p, disk[p]) in lineage then head[p] else disk[p])
                               else if p in head then if p in born then Some(head[p]) else None
                               else Get(disk, p)
  {
  }

  /**
   * A mount taken over from an earlier process keeps the branch's version of a path
   * exactly where the target holds something the branch once held there, or lacks a
   * file the branch's newest change to it created; elsewhere the target's version wins.
   */
  lemma WarmReconcile(
      commits: Commits, tip: Id, head: Disk, disk: Disk, lineage: set<(Path, Sha)>, born: set<Path>, p: Path)
    requires var s := Warm(head, disk, lineage, born); Inv(s) && CanReconcile(s) && Represents(commits, tip, s)
    ensures var s := Warm(head, disk, lineage, born);
            Get(Reconciled(s).head, p) == Get(Reconciled(s).disk, p)
            == if p in head && p in disk then
                 Some(if disk[p] == head[p] || HeldBy(commits, tip, p, disk[p]) then head[p] else disk[p])
               else if p in head then if BornOf(commits, tip, p) then Some(head[p]) else None
               else Get(disk, p)
  {
    ReconciledPath(Warm(head, disk, lineage, born), p);
    WarmAgrees(head, disk, lineage, born, p);
    hide Reconciled, CanReconcile, Inv, Agreed, HeldBy, BornOf, IsGraph;
  }

  /** The two questions a warm mount's first full scan asks, put to the history, get the engine's answers. */
  method Ask(s: State, commits: Commits, ghost tip: Id, records: seq<Id>, path: Path, sha: Sha)
    returns (held: bool, created: bool)
    requires Represents(commits, tip, s) && Lineage.IsHistory(commits, tip, path, records)
    requires forall c | c in commits && commits[c].op == "write" :: |commits[c].parents| <= 1
    ensures held == ((path, sha) in s.lineage) && created == (path in s.born)
  {
    held := Lineage.HeldInLineage(commits, tip, records, path, sha);
    created := Lineage.CreatedByNewestWrite(commits, tip, records, path);
    assert held <==> HeldBy(commits, tip, path, sha);
    assert created <==> BornOf(commits, tip, path);
  }
}
