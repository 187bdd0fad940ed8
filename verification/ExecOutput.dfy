/**
 * What becomes of the files a command left behind, path by path, whatever happens
 * to other files meanwhile and whatever capture the command overtook.
 */
module ExecOutput {
  import opened Prelude
  import opened Coherence
  import opened Trees
  import opened Mirror
  import opened MirrorLaws
  import opened MirrorRuns

  /** No guard and no resume covers the path, and no mirror write of it is in flight. */
  predicate Free(s: State, p: Path) {
    && !Resuming(s) && !InFlight(s.pending, p)
    && (p in s.index ==> !Guarded(s, s.index[p]))
  }

  /** The path is dirty, and the branch's bytes are not what the target holds. */
  predicate Stale(s: State, p: Path) {
    p in s.index && s.index[p].dirty && Get(s.disk, p) != Some(s.index[p].sha)
  }

  /** The capture in flight has yet to write the branch's bytes to the path. */
  predicate Listed(s: State, p: Path) {
    s.capturing.Some? && p in s.capturing.value.restage
  }

  /** No later command, no write of the path, and no part of a broken-off restaging of it. */
  predicate Elsewhere(e: Event, p: Path) {
    match e
    case Write(q, _) => q != p
    case Outputs(q, _) => q != p
    case CaptureAborts(staged, torn) => p !in staged && p !in torn
    case RestageAborts(staged, torn) => p !in staged && p !in torn
    case Exec(_) | HostExec(_) | Reconcile => false
    case _ => true
  }

  /** A capture commits what the target holds at the path: the file, its absence, or a file in its place. */
  predicate Notices(s: State, e: Event, p: Path) {
    && (e.Commits? || e.CaptureStops?) && s.capturing.Some?
    && var lists := s.capturing.value;
       p in lists.changed || p in lists.deletes || exists w | w in lists.changed :: Collide(w, p)
  }

  // ---------------------------------------------------------------------
  // One event.

  lemma FreeIsNotRestaged(s: State, full: bool, seen: Disk, p: Path)
    requires Inv(s) && Free(s, p)
    ensures p !in ToRestage(s, full, seen)
  {
  }

  lemma ScanSpares(s: State, full: bool, seen: Disk, p: Path)
    requires Inv(s) && Free(s, p)
    ensures var t := Scanned(s, full, seen);
            && Free(t, p) && !Listed(t, p) && t.disk == s.disk && t.head == s.head
            && (Stale(t, p) <==> Stale(s, p))
  {
    FreeIsNotRestaged(s, full, seen, p);
    hide ToWrite, ToDelete, Coherent;
  }

  /** What a capture puts on its lists of a path no guard covers. */
  lemma ScanLists(s: State, full: bool, seen: Disk, p: Path)
    requires Inv(s) && Free(s, p) && p in s.index && Get(s.disk, p) != Get(s.head, p)
    requires IsPart(seen, s.disk)
    ensures var lists := Scanned(s, full, seen).capturing.value;
            && (p in lists.changed <==> p in seen)
            && (p in lists.deletes <==> full && p !in seen)
            && ((exists w | w in lists.changed :: Collide(w, p)) <==> exists w | w in seen :: Collide(w, p))
  {
    forall w | w in seen && Collide(w, p)
      ensures w in ToWrite(s, seen)
    {
    }
  }

  /** A restage list that has the path puts the branch's bytes there; one that has not leaves it alone. */
  lemma RestagesDecides(s: State, p: Path)
    requires Inv(s) && Free(s, p) && Enabled(s, Restages)
    ensures var t := Restaged(s);
            && Free(t, p) && !Listed(t, p) && t.head == s.head
            && (Listed(s, p) ==> Get(t.disk, p) == Get(s.head, p) && !Stale(t, p))
            && (!Listed(s, p) ==> Get(t.disk, p) == Get(s.disk, p) && (Stale(t, p) <==> Stale(s, p)))
  {
    hide Coherent;
  }

  /** What a commit leaves in the index at a path. */
  lemma CommitEntry(s: State, writes: Disk, deletes: set<Path>, p: Path)
    requires s.index.Keys == s.head.Keys && forall q | q in s.index :: s.index[q].sha == s.head[q]
    requires deletes !! writes.Keys
    ensures Get(CommitCapture(s, writes, deletes).index, p)
            == if p in writes then
                 if Get(s.head, p) == Some(writes[p]) then Get(s.index, p) else Some(Clean(writes[p]))
               else if p !in s.index || p in deletes || exists w | w in writes :: Collide(w, p) then None
               else Get(s.index, p)
  {
    CommittedEntry(s, writes, deletes, p);
    CapturedHeadPath(s.head, writes, deletes, p);
    hide CommitCapture, CapturedHead, Collide;
  }

  /** One commit ends the danger to a dirty path exactly when it notices the path. */
  lemma CommitsDecides(s: State, p: Path)
    requires Inv(s) && Free(s, p) && CanCommit(s)
    ensures var t := Committed(s);
            && Free(t, p) && Free(t.(resume := s.resume), p) && !Listed(t, p) && t.disk == s.disk
            && (Stale(t, p) <==> Stale(s, p) && !Notices(s, Commits, p))
  {
    var lists := s.capturing.value;
    var writes := Fetched(s.disk, lists.changed);
    assert writes.Keys == lists.changed && forall q | q in writes :: writes[q] == s.disk[q];
    CommitEntry(s, writes, lists.deletes, p);
    CommitFrame(s, writes, lists.deletes);
    assert p in s.index ==> s.index[p].sha == s.head[p];
    assert (exists w | w in writes :: Collide(w, p)) <==> exists w | w in lists.changed :: Collide(w, p);
    hide CommitCapture, CapturedHead, Coherent, Collide, Fetched, Inv;
  }

  lemma InterruptSpares(s: State, requests: set<Path>, staged: set<Path>, torn: Disk, p: Path)
    requires Free(s, p) && CanInterrupt(s, requests, staged, torn) && p !in staged && p !in torn
    ensures var t := Interrupted(s, staged, torn);
            && Free(t, p) && Get(t.disk, p) == Get(s.disk, p) && t.head == s.head && t.capturing == s.capturing
            && (Stale(t, p) <==> Stale(s, p))
  {
    var t := Interrupted(s, staged, torn);
    assert Get(t.disk, p) == Get(s.disk, p) && Get(t.index, p) == Get(s.index, p);
    assert t == s.(disk := t.disk, index := t.index);
    hide Interrupted, CanInterrupt;
  }

  /** A write of another file, or what became of one. */
  lemma OtherFileSpares(s: State, e: Event, p: Path)
    requires Inv(s) && Free(s, p) && Enabled(s, e) && Elsewhere(e, p)
    requires e.Write? || e.Lands? || e.Drops? || e.Fails?
    ensures var t := Next(s, e);
            && Free(t, p) && Get(t.disk, p) == Get(s.disk, p) && Get(t.head, p) == Get(s.head, p)
            && t.capturing == s.capturing && (Stale(t, p) <==> Stale(s, p))
  {
    var t := Next(s, e);
    assert e.path != p;
    assert forall k | k in t.pending :: k in s.pending || k.0 == e.path;
    assert Get(t.index, p) == Get(s.index, p) && Get(t.head, p) == Get(s.head, p);
    assert Get(t.disk, p) == Get(s.disk, p) && t.capturing == s.capturing && t.execEpoch == s.execEpoch;
    hide Inv, Enabled, Collide;
  }

  /** What a running command leaves at the path, or does to others. */
  lemma OutputSpares(s: State, q: Path, sha: Option<Sha>, p: Path)
    requires Free(s, p)
    ensures var t := Next(s, Outputs(q, sha));
            && Free(t, p) && t.head == s.head && t.capturing == s.capturing && t.index == s.index
            && Get(t.disk, p) == if q == p then sha else Get(s.disk, p)
  {
  }

  /** The event writes the branch's bytes to the path. */
  predicate Rewrites(s: State, e: Event, p: Path) {
    e.Restages? && Listed(s, p)
  }

  lemma StepDecides(s: State, e: Event, p: Path)
    requires Inv(s) && Free(s, p) && Enabled(s, e) && Elsewhere(e, p)
    ensures var t := Next(s, e);
            && Free(t, p)
            && (Listed(t, p) <==> Listed(s, p) && !e.Restages? && !e.CaptureAborts?)
            && (Listed(s, p) ==> Get(t.head, p) == Get(s.head, p))
            && Get(t.disk, p) == (if Rewrites(s, e, p) then Get(s.head, p) else Get(s.disk, p))
            && (Stale(t, p) <==> Stale(s, p) && !Notices(s, e, p) && !Rewrites(s, e, p))
  {
    if e.Write? || e.Lands? || e.Drops? || e.Fails? {
      OtherFileSpares(s, e, p);
      hide Inv, Enabled, Next, Free, Stale;
    } else {
      CaptureStepDecides(s, e, p);
    }
  }

  lemma CaptureStepDecides(s: State, e: Event, p: Path)
    requires Inv(s) && Free(s, p) && Enabled(s, e) && Elsewhere(e, p)
    requires !e.Write? && !e.Lands? && !e.Drops? && !e.Fails?
    ensures var t := Next(s, e);
            && Free(t, p)
            && (Listed(t, p) <==> Listed(s, p) && !e.Restages? && !e.CaptureAborts?)
            && (Listed(s, p) ==> Get(t.head, p) == Get(s.head, p))
            && Get(t.disk, p) == (if Rewrites(s, e, p) then Get(s.head, p) else Get(s.disk, p))
            && (Stale(t, p) <==> Stale(s, p) && !Notices(s, e, p) && !Rewrites(s, e, p))
  {
    hide Inv, Interrupted, Scanned, Restaged, Committed, CanMaterialize, Collide;
    match e
    case Outputs(q, sha) => OutputSpares(s, q, sha, p);
    case Scan(full, seen) => ScanSpares(s, full, seen, p);
    case Restages => RestagesDecides(s, p);
    case Commits => CommitsDecides(s, p);
    case CaptureStops => CommitsDecides(s, p);
    case CaptureAborts(staged, torn) => InterruptSpares(s, s.capturing.value.restage, staged, torn, p);
    case RestageAborts(staged, torn) => InterruptSpares(s, DirtyPaths(s), staged, torn, p);
  }

  // ---------------------------------------------------------------------
  // Whole runs.

  /** The capture in flight at the start has neither written its restage list nor broken off. */
  predicate Waits(run: seq<Event>) {
    forall e | e in run :: !e.Restages? && !e.CaptureAborts?
  }

  /** It has written its list. */
  predicate Finishes(run: seq<Event>) {
    run != [] && (Finishes(run[..|run| - 1]) || (Waits(run[..|run| - 1]) && run[|run| - 1].Restages?))
  }

  /** Some capture of the run notices the path. */
  predicate Noticed(s: State, run: seq<Event>, p: Path) {
    run != [] && (Noticed(s, run[..|run| - 1], p) || Notices(After(s, run[..|run| - 1]), run[|run| - 1], p))
  }

  /** What a run has made of the path. */
  ghost predicate Decided(s: State, run: seq<Event>, p: Path) {
    var t := After(s, run);
    var lost := Listed(s, p) && Finishes(run);
    && Inv(t) && Free(t, p)
    && (Listed(t, p) <==> Listed(s, p) && Waits(run))
    && (Listed(t, p) ==> Get(t.head, p) == Get(s.head, p))
    && Get(t.disk, p) == (if lost then Get(s.head, p) else Get(s.disk, p))
    && (Stale(t, p) <==> !lost && Stale(s, p) && !Noticed(s, run, p))
  }

  lemma WaitsOneMore(run: seq<Event>)
    requires run != []
    ensures var before, last := run[..|run| - 1], run[|run| - 1];
            && (Waits(run) <==> Waits(before) && !last.Restages? && !last.CaptureAborts?)
            && (Finishes(run) ==> !Waits(run))
    decreases |run|
  {
    var before, last := run[..|run| - 1], run[|run| - 1];
    assert forall e :: e in run <==> e in before || e == last;
    if Finishes(before) { WaitsOneMore(before); }
  }

  lemma {:induction false} RunDecides(s: State, run: seq<Event>, p: Path)
    requires Inv(s) && Free(s, p) && IsRun(s, run) && forall e | e in run :: Elsewhere(e, p)
    ensures Decided(s, run, p)
  {
    if run != [] {
      var before, last := run[..|run| - 1], run[|run| - 1];
      var mid := After(s, before);
      RunDecides(s, before, p);
      NextKeepsInv(mid, last);
      WaitsOneMore(run);
      if before != [] { WaitsOneMore(before); }
      assert last in run;
      hide Inv, Free, Stale, Listed, Next, Enabled, Notices, Elsewhere, Waits;
      StepDecides(mid, last, p);
    }
  }

  lemma FreeReconciles(s: State, p: Path)
    requires Inv(s) && Free(s, p) && s.capturing.None? && CanReconcile(s)
    ensures Get(Reconciled(s).disk, p) == Get(s.disk, p) <==> !Stale(s, p)
    ensures Stale(s, p) ==> Get(Reconciled(s).disk, p) == Get(s.head, p) != Get(s.disk, p)
  {
    ReconciledPath(s, p);
    ReconcileKeepsDisk(s, p);
    hide CanReconcile, Reconciled, Coherent;
  }

  /** When what the target holds at a free path outlives a run and the reconcile after it. */
  lemma OutputSurvives(s: State, run: seq<Event>, p: Path)
    requires Inv(s) && Free(s, p) && IsRun(s, run) && forall e | e in run :: Elsewhere(e, p)
    requires Enabled(After(s, run), Reconcile)
    ensures Get(Reconciled(After(s, run)).disk, p) == Get(s.disk, p) <==>
            if Listed(s, p) && Finishes(run) then Get(s.head, p) == Get(s.disk, p)
            else !Stale(s, p) || Noticed(s, run, p)
  {
    RunDecides(s, run, p);
    FreeReconciles(After(s, run), p);
    hide Inv, Free, Stale, Listed, IsRun, After, Reconciled, CanReconcile, Finishes, Noticed;
  }

  /** So also for what a command puts there while it is still running. */
  lemma RunningOutputSurvives(s: State, p: Path, sha: Option<Sha>, run: seq<Event>)
    requires Inv(s) && Free(s, p) && Enabled(s, Outputs(p, sha))
    requires IsRun(Next(s, Outputs(p, sha)), run) && forall e | e in run :: Elsewhere(e, p)
    requires Enabled(After(Next(s, Outputs(p, sha)), run), Reconcile)
    ensures var began := Next(s, Outputs(p, sha));
            Get(Reconciled(After(began, run)).disk, p) == sha <==>
            || Get(s.head, p) == sha
            || (!(Listed(s, p) && Finishes(run)) && (p !in DirtyPaths(s) || Noticed(began, run, p)))
  {
    var began := Next(s, Outputs(p, sha));
    NextKeepsInv(s, Outputs(p, sha));
    OutputSpares(s, p, sha, p);
    OutputSurvives(began, run, p);
    assert p in s.index ==> s.index[p].sha == s.head[p];
    hide Inv, Reconciled, CanReconcile, After, IsRun, Free, Next, Noticed, Finishes;
  }

  lemma HostExecFrees(s: State, after: Disk, p: Path)
    requires Inv(s) && !InFlight(s.pending, p)
    ensures var t := Next(s, HostExec(after));
            && Free(t, p) && t.disk == after && t.head == s.head && (Listed(t, p) <==> Listed(s, p))
            && (Stale(t, p) <==> p in DirtyPaths(s) && Get(s.head, p) != Get(after, p))
  {
    assert p in s.index ==> s.index[p].sha == s.head[p];
  }

  /**
   * A command the host ran itself: when what it left at a path outlives the next
   * reconcile. If a capture it overtook goes on to write its restage list and the
   * path is on it, only if the bytes are the branch's. Otherwise, the files marked
   * dirty not having been written again first, for those it takes a capture in
   * between to notice what the command did.
   */
  lemma HostOutputSurvives(s: State, after: Disk, run: seq<Event>, p: Path)
    requires Inv(s) && Enabled(s, HostExec(after)) && !InFlight(s.pending, p)
    requires IsRun(Next(s, HostExec(after)), run) && forall e | e in run :: Elsewhere(e, p)
    requires Enabled(After(Next(s, HostExec(after)), run), Reconcile)
    ensures var began := Next(s, HostExec(after));
            Get(Reconciled(After(began, run)).disk, p) == Get(after, p) <==>
            || Get(s.head, p) == Get(after, p)
            || (!(Listed(s, p) && Finishes(run)) && (p !in DirtyPaths(s) || Noticed(began, run, p)))
  {
    var began := Next(s, HostExec(after));
    NextKeepsInv(s, HostExec(after));
    HostExecFrees(s, after, p);
    OutputSurvives(began, run, p);
    hide Inv, Reconciled, CanReconcile, After, IsRun, Free, Next, Noticed, Finishes;
  }

  /** After a command of the host's, only writes still in flight excuse a divergence. */
  lemma HostExecExcuses(s: State, after: Disk, p: Path)
    requires Inv(s)
    ensures Excused(Next(s, HostExec(after)), p) <==>
            && p in s.index && s.index[p].unconfirmed && InFlight(s.pending, p)
            && (p in after ==> s.index[p].previous == Some(after[p]))
  {
  }

  lemma ExecFrees(s: State, after: Disk, p: Path)
    requires Inv(s) && Enabled(s, Exec(after))
    ensures var t := Next(s, Exec(after));
            Free(t, p) && t.disk == after && t.head == s.head && (Listed(t, p) <==> Listed(s, p)) && !Stale(t, p)
  {
    DirtyIsRestaged(s);
    MaterializeKeepsInv(s, DirtyPaths(s));
    NoneInFlight(s, p);
    hide Coherent, CanMaterialize, ListsOk;
  }

  lemma NoneInFlight(s: State, p: Path)
    requires s.pending == multiset{}
    ensures !InFlight(s.pending, p)
  {
  }

  /**
   * What an exec left at a path outlives the next reconcile, whatever happens to
   * other files meanwhile, unless a capture it overtook has the path on its restage
   * list, goes on to write that, and the branch's bytes are different.
   */
  lemma ExecOutputSurvives(s: State, after: Disk, run: seq<Event>, p: Path)
    requires Inv(s) && Enabled(s, Exec(after))
    requires IsRun(Next(s, Exec(after)), run) && forall e | e in run :: Elsewhere(e, p)
    requires Enabled(After(Next(s, Exec(after)), run), Reconcile)
    ensures Get(Reconciled(After(Next(s, Exec(after)), run)).disk, p) == Get(after, p) <==>
            !(Listed(s, p) && Finishes(run)) || Get(s.head, p) == Get(after, p)
  {
    var began := Next(s, Exec(after));
    NextKeepsInv(s, Exec(after));
    ExecFrees(s, after, p);
    OutputSurvives(began, run, p);
    hide Inv, Reconciled, CanReconcile, After, IsRun, Next, Free, Stale, Noticed, Finishes;
  }

  /** All of an exec's output is committed exactly when no such list takes anything of it back. */
  lemma ExecOutputIsWhole(s: State, after: Disk, run: seq<Event>)
    requires Inv(s) && Enabled(s, Exec(after))
    requires IsRun(Next(s, Exec(after)), run) && forall e, p | e in run :: Elsewhere(e, p)
    requires Enabled(After(Next(s, Exec(after)), run), Reconcile)
    ensures var t := Reconciled(After(Next(s, Exec(after)), run));
            && t.head == t.disk
            && (t.disk == after <==>
                  Finishes(run) ==> forall p | Listed(s, p) :: Get(s.head, p) == Get(after, p))
  {
    var began := Next(s, Exec(after));
    NextKeepsInv(s, Exec(after));
    RunKeepsInv(began, run);
    ReconcileConverges(After(began, run));
    var t := Reconciled(After(began, run));
    forall p
      ensures Get(t.disk, p) == Get(after, p) <==> !(Listed(s, p) && Finishes(run)) || Get(s.head, p) == Get(after, p)
    {
      ExecOutputSurvives(s, after, run, p);
    }
    hide Inv, Reconciled, After, IsRun, Next, Enabled, Listed, Finishes;
    SameEverywhere(t.disk, after);
  }

  lemma SameEverywhere(a: Disk, b: Disk)
    ensures a == b <==> forall p :: Get(a, p) == Get(b, p)
  {
    if forall p :: Get(a, p) == Get(b, p) { SameGets(a, b); }
  }

  // ---------------------------------------------------------------------
  // An exec that overtakes a capture.

  /** A scan comes between a write and its landing, and an exec between that and the capture's restage list. */
  function Overtaking(p: Path, first: Sha, written: Sha, output: Sha): seq<Event> {
    [] + [Event.Write(p, written)] + [Scan(false, map[p := first])] + [Lands(p, written)] + [Exec(map[p := output])]
    + [Restages] + [Commits]
  }

  /** One file, held at `written` by the branch. */
  function OneFile(
      p: Path, first: Sha, written: Sha, disk: Sha, entry: IndexEntry, inFlight: multiset<(Path, Sha)>, epoch: nat,
      capturing: Option<Lists>): State
  {
    State(map[p := written], map[p := disk], map[p := entry], inFlight, epoch, None, capturing,
          {(p, first), (p, written)}, {})
  }

  ghost predicate Leads(s: State, e: Event, t: State) {
    Enabled(s, e) && Next(s, e) == t
  }

  lemma Written(p: Path, first: Sha, written: Sha, entry: IndexEntry)
    requires p != "" && first != written && entry == IndexEntry(written, false, true, 0, Some(first))
    ensures Leads(Cold(map[p := first], {(p, first)}, {}), Event.Write(p, written),
                  OneFile(p, first, written, first, entry, multiset{(p, written)}, 0, None))
  {
    var s := Cold(map[p := first], {(p, first)}, {});
    assert s.head[p := written] == map[p := written] && s.index[p := entry] == map[p := entry];
    assert s.pending + multiset{(p, written)} == multiset{(p, written)};
  }

  lemma ScannedEarly(p: Path, first: Sha, written: Sha, entry: IndexEntry, lists: Lists)
    requires first != written && entry == IndexEntry(written, false, true, 0, Some(first))
    requires lists == Lists(false, {}, {p}, {})
    ensures var flight := multiset{(p, written)};
            Leads(OneFile(p, first, written, first, entry, flight, 0, None), Scan(false, map[p := first]),
                  OneFile(p, first, written, first, entry, flight, 0, Some(lists)))
  {
    var s := OneFile(p, first, written, first, entry, multiset{(p, written)}, 0, None);
    var seen: Disk := map[p := first];
    assert SeenVerdict(s, p, first) == Restage;
    assert ToWrite(s, seen).Keys == {} && ToRestage(s, false, seen) == {p} && ToDelete(s, false, seen) == {};
    assert Confirmations(s, seen) == s.index;
  }

  lemma LandedLate(p: Path, first: Sha, written: Sha, entry: IndexEntry, lists: Lists)
    ensures Leads(OneFile(p, first, written, first, entry, multiset{(p, written)}, 0, Some(lists)), Lands(p, written),
                  OneFile(p, first, written, written, entry, multiset{}, 0, Some(lists)))
  {
    var was: Disk := map[p := first];
    assert was[p := written] == map[p := written];
    assert multiset{(p, written)} - multiset{(p, written)} == multiset{};
  }

  lemma ExecRuns(p: Path, first: Sha, written: Sha, output: Sha, entry: IndexEntry, lists: Lists)
    requires !entry.dirty
    ensures Leads(OneFile(p, first, written, written, entry, multiset{}, 0, Some(lists)), Exec(map[p := output]),
                  OneFile(p, first, written, output, entry, multiset{}, 1, Some(lists)))
  {
    var s := OneFile(p, first, written, written, entry, multiset{}, 0, Some(lists));
    assert DirtyPaths(s) == {};
    MaterializeNothing(s);
    assert s.disk.Keys + {} == {p} && Coherent({p});
    NoneInFlight(s, p);
    assert Stamped(s.index, s.pending, 1) == s.index;
  }

  lemma Rewritten(p: Path, first: Sha, written: Sha, output: Sha, entry: IndexEntry, lists: Lists)
    requires lists == Lists(false, {}, {p}, {})
    ensures Leads(OneFile(p, first, written, output, entry, multiset{}, 1, Some(lists)), Restages,
                  OneFile(p, first, written, written, Clean(written), multiset{}, 1, Some(Lists(false, {}, {}, {}))))
  {
    var s := OneFile(p, first, written, output, entry, multiset{}, 1, Some(lists));
    assert s.disk.Keys + {p} == {p} && Coherent({p});
    assert Bytes(s.head, {p}) == map[p := written] && CleanEntries(s.head, {p}) == map[p := Clean(written)];
    assert s.disk + map[p := written] == map[p := written];
    assert s.index + map[p := Clean(written)] == map[p := Clean(written)];
    hide Bytes, CleanEntries;
  }

  lemma CommitsNothing(s: State)
    requires s.capturing == Some(Lists(false, {}, {}, {})) && forall q | q in s.head :: (q, s.head[q]) in s.lineage
    ensures Leads(s, Commits, s.(capturing := None))
  {
    assert Fetched(s.disk, {}) == map[] && CapturedHead(s.head, map[], {}) == s.head;
    assert ChangedPaths(s.head, s.head) == {};
    assert s.lineage + (set q | q in s.head :: (q, s.head[q])) == s.lineage;
    assert CommitCapture(s, map[], {}) == s;
  }

  lemma Follow(s: State, run: seq<Event>, mid: State, e: Event, end: State)
    requires IsRun(s, run) && After(s, run) == mid && Leads(mid, e, end)
    ensures IsRun(s, run + [e]) && After(s, run + [e]) == end
  {
    Extended(s, run, e);
    hide IsRun, After;
  }

  lemma SixEvents(
      s: State, e1: Event, s1: State, e2: Event, s2: State, e3: Event, s3: State,
      e4: Event, s4: State, e5: Event, s5: State, e6: Event, s6: State)
    requires Leads(s, e1, s1) && Leads(s1, e2, s2) && Leads(s2, e3, s3)
    requires Leads(s3, e4, s4) && Leads(s4, e5, s5) && Leads(s5, e6, s6)
    ensures var run := [] + [e1] + [e2] + [e3] + [e4] + [e5] + [e6]; IsRun(s, run) && After(s, run) == s6
  {
    assert IsRun(s, []) && After(s, []) == s;
    hide IsRun, After, Leads;
    Follow(s, [], s, e1, s1);
    Follow(s, [] + [e1], s1, e2, s2);
    Follow(s, [] + [e1] + [e2], s2, e3, s3);
    Follow(s, [] + [e1] + [e2] + [e3], s3, e4, s4);
    Follow(s, [] + [e1] + [e2] + [e3] + [e4], s4, e5, s5);
    Follow(s, [] + [e1] + [e2] + [e3] + [e4] + [e5], s5, e6, s6);
  }

  /** What the exec left is written over by the write it came after, and is in no commit. */
  lemma OvertakenOutputIsLost(p: Path, first: Sha, written: Sha, output: Sha)
    requires p != "" && first != written && output != first && output != written
    ensures var s, run := Cold(map[p := first], {(p, first)}, {}), Overtaking(p, first, written, output);
            && Inv(s) && IsRun(s, run)
            && After(s, run).head == After(s, run).disk == map[p := written]
            && After(s, run).capturing.None? && (p, output) !in After(s, run).lineage
  {
    var s := Cold(map[p := first], {(p, first)}, {});
    AcquiredIsSound(map[p := first], map[p := first], {(p, first)}, {});
    var end := OneFile(p, first, written, written, Clean(written), multiset{}, 1, None);
    assert end.head == end.disk == map[p := written] && (p, output) !in end.lineage;
    OvertakingRuns(p, first, written, output, end);
    hide *;
  }

  lemma OvertakingRuns(p: Path, first: Sha, written: Sha, output: Sha, end: State)
    requires p != "" && first != written
    requires end == OneFile(p, first, written, written, Clean(written), multiset{}, 1, None)
    ensures var s, run := Cold(map[p := first], {(p, first)}, {}), Overtaking(p, first, written, output);
            IsRun(s, run) && After(s, run) == end
  {
    var entry, lists := IndexEntry(written, false, true, 0, Some(first)), Lists(false, {}, {p}, {});
    var flight, landed: multiset<(Path, Sha)> := multiset{(p, written)}, multiset{};
    var s5 := OneFile(p, first, written, written, Clean(written), landed, 1, Some(Lists(false, {}, {}, {})));
    CommitsNothing(s5);
    Written(p, first, written, entry);
    ScannedEarly(p, first, written, entry, lists);
    LandedLate(p, first, written, entry, lists);
    ExecRuns(p, first, written, output, entry, lists);
    Rewritten(p, first, written, output, entry, lists);
    hide IsRun, After, Leads, Cold;
    SixEvents(Cold(map[p := first], {(p, first)}, {}),
              Event.Write(p, written), OneFile(p, first, written, first, entry, flight, 0, None),
              Scan(false, map[p := first]), OneFile(p, first, written, first, entry, flight, 0, Some(lists)),
              Lands(p, written), OneFile(p, first, written, written, entry, landed, 0, Some(lists)),
              Exec(map[p := output]), OneFile(p, first, written, output, entry, landed, 1, Some(lists)),
              Restages, s5, Commits, end);
  }
}
