/** The two bounds of the straggler guard, over runs of any length and interleaving. */
module MirrorRuns {
  import opened Prelude
  import opened Coherence
  import opened Trees
  import opened Mirror
  import opened MirrorLaws

  function After(s: State, run: seq<Event>): State {
    if run == [] then s else Next(After(s, run[..|run| - 1]), run[|run| - 1])
  }

  ghost predicate IsRun(s: State, run: seq<Event>) {
    run == [] || (IsRun(s, run[..|run| - 1]) && Enabled(After(s, run[..|run| - 1]), run[|run| - 1]))
  }

  lemma Extended(s: State, run: seq<Event>, e: Event)
    requires IsRun(s, run) && Enabled(After(s, run), e)
    ensures IsRun(s, run + [e]) && After(s, run + [e]) == Next(After(s, run), e)
  {
    assert (run + [e])[..|run|] == run;
  }

  /** A mount whose files were just written to an empty target. */
  function Cold(head: Disk, lineage: set<(Path, Sha)>, born: set<Path>): State {
    State(head, head, CleanEntries(head, head.Keys), multiset{}, 0, None, None, lineage, born)
  }

  /** A mount taken over from an earlier process: the target may hold anything. */
  function Warm(head: Disk, disk: Disk, lineage: set<(Path, Sha)>, born: set<Path>): State {
    State(head, disk, CleanEntries(head, head.Keys), multiset{}, 0, Some(0), None, lineage, born)
  }

  lemma AcquiredIsSound(head: Disk, disk: Disk, lineage: set<(Path, Sha)>, born: set<Path>)
    requires Coherent(head.Keys) && Coherent(disk.Keys)
    requires forall p | p in head :: (p, head[p]) in lineage
    ensures Inv(Cold(head, lineage, born)) && Inv(Warm(head, disk, lineage, born))
    ensures Synced(Cold(head, lineage, born))
  {
  }

  lemma {:induction false} RunKeepsInv(s: State, run: seq<Event>)
    requires Inv(s) && IsRun(s, run)
    ensures Inv(After(s, run))
  {
    if run != [] {
      RunKeepsInv(s, run[..|run| - 1]);
      hide Next, Enabled, Inv;
      NextKeepsInv(After(s, run[..|run| - 1]), run[|run| - 1]);
    }
  }

  /** Whatever happened before, a reconcile that succeeds leaves head, disk and index the same map. */
  lemma RunThenReconcile(s: State, run: seq<Event>)
    requires Inv(s) && IsRun(s, run) && run != [] && run[|run| - 1] == Reconcile
    ensures Synced(After(s, run))
  {
    var before := run[..|run| - 1];
    RunKeepsInv(s, before);
    ReconcileConverges(After(s, before));
  }

  // ---------------------------------------------------------------------
  // Exactly when a reconcile keeps the head's version of a path.

  /** The path diverged, and the divergence is put down to a lost mirror write. */
  predicate Excused(s: State, p: Path) {
    p in s.index
    && if p in s.disk then
         (Guarded(s, s.index[p]) && s.index[p].previous == Some(s.disk[p]))
         || (Resuming(s) && !s.index[p].unconfirmed && (p, s.disk[p]) in s.lineage)
       else
         Guarded(s, s.index[p])
         || (Resuming(s) && !s.index[p].unconfirmed && p in s.born)
  }

  /** One path after the dirty files are written again. */
  lemma RestagedPath(s: State, p: Path)
    requires Inv(s)
    ensures var staged := Materialize(s, DirtyPaths(s));
            if p in DirtyPaths(s) then
              Get(staged.disk, p) == Get(s.head, p) == Some(s.head[p]) && Get(staged.index, p) == Some(Clean(s.head[p]))
            else Get(staged.disk, p) == Get(s.disk, p) && Get(staged.index, p) == Get(s.index, p)
  {
  }

  lemma AgreedIsLocal(s: State, t: State, p: Path)
    requires t == s.(disk := t.disk, index := t.index)
    requires Get(t.disk, p) == Get(s.disk, p) && Get(t.index, p) == Get(s.index, p)
    ensures Agreed(t, p) == Agreed(s, p)
  {
    assert (p in t.disk) == (p in s.disk) && (p in t.index) == (p in s.index);
    assert p in s.disk ==> t.disk[p] == s.disk[p];
    assert p in s.index ==> t.index[p] == s.index[p];
  }

  lemma ReconciledPath(s: State, p: Path)
    requires Inv(s) && s.capturing.None? && CanReconcile(s)
    ensures Get(Reconciled(s).head, p) == Get(Reconciled(s).disk, p)
            == if p in DirtyPaths(s) then Get(s.head, p) else Agreed(s, p)
  {
    var staged := Materialize(s, DirtyPaths(s));
    MaterializeKeepsInv(s, DirtyPaths(s));
    CapturedPath(staged, p);
    RestagedPath(s, p);
    hide Captured, CanMaterialize, Coherent, ToRestage, Inv, DirtyPaths;
    if p !in DirtyPaths(s) { AgreedIsLocal(s, staged, p); }
  }

  lemma ReconcileKeepsHead(s: State, p: Path)
    requires Inv(s) && s.capturing.None? && CanReconcile(s)
    ensures Get(Reconciled(s).head, p) == Get(s.head, p) <==>
            p in DirtyPaths(s) || Get(s.disk, p) == Get(s.head, p) || Excused(s, p)
    ensures Get(Reconciled(s).head, p) == Get(s.head, p) || Get(Reconciled(s).head, p) == Get(s.disk, p)
  {
    hide Reconciled, CanReconcile, DirtyPaths;
    ReconciledPath(s, p);
    AgreedAsExcused(s, p);
  }

  /** Exactly when a reconcile leaves what the target holds. */
  lemma ReconcileKeepsDisk(s: State, p: Path)
    requires Inv(s) && s.capturing.None? && CanReconcile(s)
    ensures Get(Reconciled(s).disk, p) == Get(s.disk, p) <==>
            Get(s.disk, p) == Get(s.head, p) || (p !in DirtyPaths(s) && !Excused(s, p))
  {
    hide Reconciled, CanReconcile, DirtyPaths;
    ReconciledPath(s, p);
    AgreedAsExcused(s, p);
  }

  lemma AgreedAsExcused(s: State, p: Path)
    requires s.index.Keys == s.head.Keys && (p in s.index ==> s.index[p].sha == s.head[p])
    ensures Agreed(s, p) == Get(s.head, p) <==> Get(s.disk, p) == Get(s.head, p) || Excused(s, p)
    ensures Agreed(s, p) == if Excused(s, p) then Get(s.head, p) else Get(s.disk, p)
  {
    assert (p in s.index) == (p in s.head);
  }

  // ---------------------------------------------------------------------
  // The upper bound: what an exec left is never overwritten.

  /** No capture in flight has a file to restage. */
  predicate NothingListed(s: State) {
    s.capturing.Some? ==> s.capturing.value.restage == {}
  }

  /** Nothing is outstanding that a capture could put back. */
  predicate Owned(s: State) {
    && s.pending == multiset{} && DirtyPaths(s) == {} && !Resuming(s) && NothingListed(s)
    && forall p | p in s.index :: !Guarded(s, s.index[p])
  }

  predicate OnlyScans(e: Event) {
    e.Scan? || e.Restages? || e.Commits? || e.CaptureStops? || e.CaptureAborts? || e.RestageAborts?
  }

  lemma NoteExecOwns(s: State, after: Disk)
    requires Inv(s) && s.pending == multiset{} && forall p | p in s.index :: !s.index[p].dirty
    ensures Owned(NoteExec(s).(disk := after)) <==> NothingListed(s)
  {
    assert forall p :: !InFlight(s.pending, p);
    assert NoteExec(s).index == s.index;
    hide Coherent, ListsOk;
  }

  /** An exec leaves nothing that could be put back, except on the restage list of a capture it overtook. */
  lemma ExecOwns(s: State, after: Disk)
    requires Inv(s) && Enabled(s, Exec(after))
    ensures Owned(Next(s, Exec(after))) <==> NothingListed(s)
    ensures Next(s, Exec(after)).disk == after && Next(s, Exec(after)).capturing == s.capturing
  {
    var staged := Materialize(s, DirtyPaths(s));
    MaterializeKeepsInv(s, DirtyPaths(s));
    DirtyIsRestaged(s);
    assert staged.pending == s.pending;
    hide Materialize, Inv, Owned, CanMaterialize;
    NoteExecOwns(staged, after);
  }

  lemma OwnedRestagesNothing(s: State, full: bool, seen: Disk)
    requires Owned(s)
    ensures ToRestage(s, full, seen) == {}
  {
  }

  lemma MaterializeNothing(s: State)
    ensures Materialize(s, {}) == s
  {
    assert Bytes(s.head, {}) == map[] && CleanEntries(s.head, {}) == map[];
    assert s.disk + map[] == s.disk && s.index + map[] == s.index;
  }

  lemma ConfirmKeepsOwned(s: State, seen: Disk)
    requires Owned(s)
    ensures Owned(s.(index := Confirmations(s, seen)))
  {
    assert forall p | p in s.index && s.index[p].dirty :: p in DirtyPaths(s);
  }

  lemma CommitKeepsOwned(s: State, writes: Disk, deletes: set<Path>)
    requires Owned(s)
    ensures Owned(CommitCapture(s, writes, deletes))
  {
    assert forall p | p in s.index && s.index[p].dirty :: p in DirtyPaths(s);
    var t := CommitCapture(s, writes, deletes);
    forall p | p in t.index
      ensures !Guarded(t, t.index[p]) && !t.index[p].dirty
    {
      assert (p in s.index && t.index[p] == s.index[p]) || t.index[p] == Clean(writes[p]);
    }
  }

  lemma InterruptedNothing(s: State, requests: set<Path>, staged: set<Path>, torn: Disk)
    requires requests == {} && staged + torn.Keys <= requests
    ensures Interrupted(s, staged, torn) == s
  {
    assert staged == {} && torn == map[];
    MaterializeNothing(s);
    assert s.disk + torn == s.disk;
  }

  lemma ScanStaysOwned(s: State, full: bool, seen: Disk)
    requires Owned(s)
    ensures Owned(Scanned(s, full, seen)) && Scanned(s, full, seen).disk == s.disk
  {
    OwnedRestagesNothing(s, full, seen);
    ConfirmKeepsOwned(s.(capturing := None), seen);
    hide Confirmations, ToRestage, ToWrite, ToDelete;
  }

  lemma RestagesStaysOwned(s: State)
    requires Owned(s) && s.capturing.Some?
    ensures Owned(Restaged(s)) && Restaged(s).disk == s.disk
  {
    MaterializeNothing(s);
    hide Materialize;
  }

  lemma CommitsStaysOwned(s: State)
    requires Owned(s) && s.capturing.Some?
    ensures Owned(Committed(s)) && Owned(Committed(s).(resume := s.resume)) && Committed(s).disk == s.disk
  {
    var writes, deletes := Fetched(s.disk, s.capturing.value.changed), s.capturing.value.deletes;
    CommitKeepsOwned(s, writes, deletes);
    CommitFrame(s, writes, deletes);
    hide CommitCapture, Fetched, CapturedHead;
  }

  lemma ScanKeepsOwned(s: State, e: Event)
    requires Owned(s) && Enabled(s, e) && OnlyScans(e)
    ensures Owned(Next(s, e)) && Next(s, e).disk == s.disk
  {
    hide Scanned, Restaged, Committed, Interrupted, CanMaterialize;
    match e
    case Scan(full, seen) => ScanStaysOwned(s, full, seen);
    case Restages => RestagesStaysOwned(s);
    case Commits => CommitsStaysOwned(s);
    case CaptureStops => CommitsStaysOwned(s);
    case CaptureAborts(staged, torn) => InterruptedNothing(s, s.capturing.value.restage, staged, torn);
    case RestageAborts(staged, torn) => InterruptedNothing(s, DirtyPaths(s), staged, torn);
  }

  lemma {:induction false} ScansKeepOwned(s: State, run: seq<Event>)
    requires Inv(s) && Owned(s) && IsRun(s, run) && forall e | e in run :: OnlyScans(e)
    ensures Owned(After(s, run)) && After(s, run).disk == s.disk
  {
    if run != [] {
      var before := run[..|run| - 1];
      ScansKeepOwned(s, before);
      RunKeepsInv(s, before);
      hide Inv, Owned, Next, Enabled;
      ScanKeepsOwned(After(s, before), run[|run| - 1]);
    }
  }

  /**
   * An exec with no later write and no restage list to come: captures leave its
   * files alone, and the reconcile commits exactly them.
   */
  lemma ExecOutputIsKept(s: State, after: Disk, run: seq<Event>)
    requires Inv(s) && Enabled(s, Exec(after))
    requires IsRun(Next(s, Exec(after)), run) && forall e | e in run :: OnlyScans(e)
    ensures var t := After(Next(s, Exec(after)), run);
            NothingListed(s) ==>
              && t.disk == after
              && (t.capturing.None? ==> CanReconcile(t) && Reconciled(t).head == Reconciled(t).disk == after)
  {
    var began := Next(s, Exec(after));
    NextKeepsInv(s, Exec(after));
    ExecOwns(s, after);
    RunKeepsInv(began, run);
    if NothingListed(s) {
      ScansKeepOwned(began, run);
      if After(began, run).capturing.None? { OwnedReconciles(After(began, run)); }
    }
    hide Inv, Owned, Reconciled, CanReconcile, After, IsRun, Next;
  }

  lemma OwnedReconciles(t: State)
    requires Inv(t) && Owned(t) && t.capturing.None?
    ensures CanReconcile(t) && Reconciled(t).head == Reconciled(t).disk == t.disk
  {
    OwnedCanReconcile(t);
    ReconcileConverges(t);
    hide Reconciled, CanReconcile, Inv, Owned;
    forall p
      ensures Get(Reconciled(t).disk, p) == Get(t.disk, p)
    {
      ReconciledPath(t, p);
      OwnedAgrees(t, p);
    }
    SameGets(Reconciled(t).disk, t.disk);
  }

  lemma OwnedAgrees(t: State, p: Path)
    requires Owned(t)
    ensures p !in DirtyPaths(t) && Agreed(t, p) == Get(t.disk, p)
  {
  }

  lemma OwnedCanReconcile(t: State)
    requires Inv(t) && Owned(t)
    ensures CanReconcile(t)
  {
    MaterializeNothing(t);
    OwnedRestagesNothing(t, true, t.disk);
    assert t.disk.Keys + {} == t.disk.Keys;
  }

  lemma SameGets(a: Disk, b: Disk)
    requires forall p :: Get(a, p) == Get(b, p)
    ensures a == b
  {
    forall p
      ensures p in a <==> p in b
      ensures p in a ==> a[p] == b[p]
    {
      assert Get(a, p) == Get(b, p);
    }
  }
}
