/** The guard's lower bound: mirror writes that never land do not cost a durable write. */
module StragglerGuard {
  import opened Prelude
  import opened Coherence
  import opened Trees
  import opened Mirror
  import opened MirrorLaws
  import opened MirrorRuns

  /** Nothing anywhere stands where `p` needs a directory, nor needs `p` to be one. */
  predicate Apart(s: State, p: Path) {
    && (forall q | q in s.head :: !Collide(p, q))
    && (forall q | q in s.disk :: !Collide(p, q))
    && (forall k | k in s.pending :: !Collide(p, k.0))
  }

  /** The head holds `last`; the target holds it too, or still what it held at the last confirming scan. */
  predicate Straggles(s: State, p: Path, last: Option<Sha>) {
    && Get(s.head, p) == last
    && if p !in s.index then p !in s.disk
       else if s.index[p].unconfirmed then
         Guarded(s, s.index[p]) && Get(s.disk, p) == s.index[p].previous
       else Get(s.disk, p) == Some(s.index[p].sha)
  }

  /** No command runs and no mirror write of `p` lands or is torn; other files come and go. */
  predicate Loses(e: Event, p: Path) {
    match e
    case Write(q, _) => !Collide(p, q)
    case Lands(q, _) => q != p
    case CaptureAborts(_, torn) => p !in torn
    case RestageAborts(_, torn) => p !in torn
    case Drops(_, _) | Fails(_, _) | Scan(_, _) | Restages | Commits | CaptureStops | Reconcile => true
    case Exec(_) | HostExec(_) | Outputs(_, _) => false
  }

  function LastWritten(run: seq<Event>, p: Path, before: Option<Sha>): Option<Sha> {
    if run == [] then before
    else
      var last := run[|run| - 1];
      if last.Write? && last.path == p then Some(last.sha) else LastWritten(run[..|run| - 1], p, before)
  }

  function Left(e: Event, p: Path, last: Option<Sha>): Option<Sha> {
    if e.Write? && e.path == p then Some(e.sha) else last
  }

  /** The capture in flight is neither to commit the path nor to delete it. */
  predicate Unlisted(s: State, p: Path) {
    s.capturing.Some? ==> p !in s.capturing.value.changed && p !in s.capturing.value.deletes
  }

  ghost predicate Held(s: State, p: Path, last: Option<Sha>) {
    Inv(s) && Apart(s, p) && Straggles(s, p, last) && Unlisted(s, p)
  }

  lemma MaterializeHolds(s: State, paths: set<Path>, p: Path, last: Option<Sha>)
    requires Held(s, p, last) && CanMaterialize(s, paths)
    ensures Held(Materialize(s, paths), p, last)
  {
    MaterializeKeepsInv(s, paths);
    hide CanMaterialize;
    var t := Materialize(s, paths);
    assert t.disk.Keys == s.disk.Keys + paths;
    if p in paths {
      assert Get(t.disk, p) == Some(s.head[p]) && t.index[p] == Clean(s.head[p]);
    } else {
      assert Get(t.disk, p) == Get(s.disk, p) && Get(t.index, p) == Get(s.index, p);
    }
  }

  /** The guard keeps a path whose mirror writes were lost out of the lists of any scan. */
  lemma ScanSpares(s: State, full: bool, seen: Disk, p: Path, last: Option<Sha>)
    requires Held(s, p, last) && IsPart(seen, s.disk) && (full ==> seen == s.disk)
    ensures p !in ToWrite(s, seen) && p !in ToDelete(s, full, seen)
    ensures p in ToRestage(s, full, seen) ==> p in s.head
  {
    ListedOn(s, full, seen, p);
    hide ToWrite, ToDelete, ToRestage;
  }

  lemma ScanHolds(s: State, full: bool, seen: Disk, p: Path, last: Option<Sha>)
    requires Held(s, p, last) && IsPart(seen, s.disk) && (full ==> seen == s.disk)
    ensures Held(Scanned(s, full, seen), p, last)
  {
    ScanKeepsInv(s, full, seen);
    ScanSpares(s, full, seen, p, last);
    ConfirmStraggles(s, seen, p, last);
    hide ToWrite, ToRestage, ToDelete, Confirmations, Inv, Straggles;
  }

  lemma ConfirmStraggles(s: State, seen: Disk, p: Path, last: Option<Sha>)
    requires Held(s, p, last) && IsPart(seen, s.disk)
    ensures Straggles(s.(index := Confirmations(s, seen)), p, last)
  {
  }

  /** One path of a state after a commit that neither writes nor deletes it. */
  lemma CommitStraggles(s: State, writes: Disk, deletes: set<Path>, p: Path, last: Option<Sha>)
    requires Held(s, p, last) && p !in writes && p !in deletes && deletes !! writes.Keys && writes.Keys <= s.disk.Keys
    ensures Straggles(CommitCapture(s, writes, deletes), p, last)
  {
    assert forall w | w in writes :: !Collide(w, p);
    CommittedEntry(s, writes, deletes, p);
    CapturedHeadPath(s.head, writes, deletes, p);
    CommitFrame(s, writes, deletes);
    hide CommitCapture, CapturedHead, Collide, Coherent;
  }

  lemma CommitApart(s: State, writes: Disk, deletes: set<Path>, p: Path)
    requires Apart(s, p) && writes.Keys <= s.disk.Keys
    ensures Apart(CommitCapture(s, writes, deletes), p)
  {
    CommitFrame(s, writes, deletes);
    assert forall q | q in CapturedHead(s.head, writes, deletes) :: q in s.head || q in s.disk;
    hide CommitCapture, CapturedHead, Collide;
  }

  lemma HeldByParts(s: State, t: State, p: Path, last: Option<Sha>)
    requires Inv(t) && t == s.(capturing := None, resume := t.resume) && Straggles(s, p, last) && Apart(s, p)
    ensures Held(t, p, last)
  {
    hide Inv, Collide;
  }

  lemma CommitsHolds(s: State, p: Path, last: Option<Sha>)
    requires Held(s, p, last) && CanCommit(s)
    ensures Held(Committed(s), p, last) && Held(Committed(s).(resume := s.resume), p, last)
  {
    CommitsKeepsInv(s);
    var writes, deletes := Fetched(s.disk, s.capturing.value.changed), s.capturing.value.deletes;
    CommitStraggles(s, writes, deletes, p, last);
    CommitApart(s, writes, deletes, p);
    hide Held, CommitCapture, Inv, Fetched, Straggles, Apart, CanCommit;
    HeldByParts(CommitCapture(s, writes, deletes), Committed(s), p, last);
    HeldByParts(CommitCapture(s, writes, deletes), Committed(s).(resume := s.resume), p, last);
  }

  lemma RestagesHolds(s: State, p: Path, last: Option<Sha>)
    requires Held(s, p, last) && Enabled(s, Restages)
    ensures Held(Restaged(s), p, last)
  {
    RestagesKeepsInv(s);
    MaterializeHolds(s, s.capturing.value.restage, p, last);
    hide Materialize, Inv;
  }

  lemma AbortHolds(s: State, staged: set<Path>, torn: Disk, p: Path, last: Option<Sha>)
    requires Held(s, p, last) && Enabled(s, CaptureAborts(staged, torn)) && p !in torn
    ensures Held(Next(s, CaptureAborts(staged, torn)), p, last)
  {
    AbortKeepsInv(s, staged, torn);
    InterruptHolds(s, s.capturing.value.restage, staged, torn, p, last);
    hide Interrupted, Inv, CanInterrupt;
  }

  /** A whole capture commits no path whose mirror writes were lost, and deletes none. */
  lemma CaptureHolds(s: State, full: bool, seen: Disk, p: Path, last: Option<Sha>)
    requires Held(s, p, last) && s.capturing.None? && IsPart(seen, s.disk) && (full ==> seen == s.disk)
    requires CanMaterialize(s, ToRestage(s, full, seen))
    ensures Held(Captured(s, full, seen), p, last)
  {
    var scanned := Scanned(s, full, seen);
    assert scanned.capturing.Some? && Enabled(scanned, Restages);
    CaptureIsItsParts(s, full, seen);
    hide *;
    ScanHolds(s, full, seen, p, last);
    RestagesHolds(scanned, p, last);
    CommitsHolds(Restaged(scanned), p, last);
  }

  lemma WriteHolds(s: State, q: Path, sha: Sha, p: Path, last: Option<Sha>)
    requires Held(s, p, last) && Enabled(s, Event.Write(q, sha)) && !Collide(p, q)
    ensures Apart(Next(s, Event.Write(q, sha)), p)
    ensures Straggles(Next(s, Event.Write(q, sha)), p, if q == p then Some(sha) else last)
  {
    assert forall k | k in Next(s, Event.Write(q, sha)).pending :: k in s.pending || k == (q, sha);
  }

  lemma OutcomeApart(s: State, e: Event, p: Path)
    requires Apart(s, p) && Enabled(s, e) && (e.Lands? || e.Drops? || e.Fails?)
    ensures Apart(Next(s, e), p)
  {
    var t := Next(s, e);
    assert t.head == s.head && forall k | k in t.pending :: k in s.pending;
    assert forall q | q in t.disk :: q in s.disk || (q == e.path && (e.path, e.sha) in s.pending);
    hide Collide, Next, Enabled;
  }

  /** A mirror write that lands on another path, drops or fails. */
  lemma OutcomeStraggles(s: State, e: Event, p: Path, last: Option<Sha>)
    requires Straggles(s, p, last) && Loses(e, p) && (e.Lands? || e.Drops? || e.Fails?)
    ensures Straggles(Next(s, e), p, last) && Next(s, e).capturing == s.capturing
  {
    var t := Next(s, e);
    assert Get(t.disk, p) == Get(s.disk, p) && t.head == s.head && t.execEpoch == s.execEpoch;
    assert (p in t.index) == (p in s.index);
    assert p in s.index ==> t.index[p] == s.index[p] || t.index[p] == s.index[p].(dirty := true);
    hide Next;
  }

  lemma ReconcileHolds(s: State, p: Path, last: Option<Sha>)
    requires Held(s, p, last) && s.capturing.None? && CanReconcile(s)
    ensures Held(Reconciled(s), p, last)
  {
    ReconciledKeepsInv(s);
    hide Materialize, Captured, Held;
    MaterializeHolds(s, DirtyPaths(s), p, last);
    var staged := Materialize(s, DirtyPaths(s));
    CaptureHolds(staged, true, staged.disk, p, last);
  }

  lemma TornHolds(s: State, torn: Disk, p: Path, last: Option<Sha>)
    requires Held(s, p, last) && p !in torn && torn.Keys <= s.head.Keys
    requires Inv(s.(disk := s.disk + torn))
    ensures Held(s.(disk := s.disk + torn), p, last)
  {
    hide Inv;
    assert Get(s.disk + torn, p) == Get(s.disk, p);
  }

  lemma InterruptHolds(s: State, requests: set<Path>, staged: set<Path>, torn: Disk, p: Path, last: Option<Sha>)
    requires Held(s, p, last) && CanInterrupt(s, requests, staged, torn) && p !in torn
    ensures Held(Interrupted(s, staged, torn), p, last)
  {
    PartIsCoherent(s.disk.Keys + staged, s.disk.Keys + (staged + torn.Keys));
    MaterializeHolds(s, staged, p, last);
    InterruptKeepsInv(s, requests, staged, torn);
    assert torn.Keys <= Materialize(s, staged).head.Keys;
    hide Materialize, CanInterrupt, CanMaterialize, Held;
    TornHolds(Materialize(s, staged), torn, p, last);
  }

  lemma StepHolds(s: State, e: Event, p: Path, last: Option<Sha>)
    requires Held(s, p, last) && Enabled(s, e) && Loses(e, p)
    ensures Held(Next(s, e), p, Left(e, p, last))
  {
    if e.Write? {
      NextKeepsInv(s, e);
      WriteHolds(s, e.path, e.sha, p, last);
      hide Apart, Straggles, Inv;
    } else if e.Lands? || e.Drops? || e.Fails? {
      NextKeepsInv(s, e);
      OutcomeApart(s, e, p);
      OutcomeStraggles(s, e, p, last);
      hide Apart, Straggles, Inv;
    } else {
      CaptureStepHolds(s, e, p, last);
    }
  }

  lemma CaptureStepHolds(s: State, e: Event, p: Path, last: Option<Sha>)
    requires Held(s, p, last) && Enabled(s, e) && Loses(e, p)
    requires !e.Write? && !e.Lands? && !e.Drops? && !e.Fails?
    ensures Held(Next(s, e), p, last)
  {
    hide Held, Materialize, Interrupted, Scanned, Restaged, Committed, Reconciled, CanMaterialize, CanReconcile;
    match e
    case Scan(full, seen) => ScanHolds(s, full, seen, p, last);
    case Restages => RestagesHolds(s, p, last);
    case Commits => CommitsHolds(s, p, last);
    case CaptureStops => CommitsHolds(s, p, last);
    case CaptureAborts(staged, torn) => AbortHolds(s, staged, torn, p, last);
    case RestageAborts(staged, torn) => InterruptHolds(s, DirtyPaths(s), staged, torn, p, last);
    case Reconcile => ReconcileHolds(s, p, last);
  }

  lemma {:induction false} RunHolds(s: State, run: seq<Event>, p: Path, last: Option<Sha>)
    requires Held(s, p, last) && IsRun(s, run) && forall e | e in run :: Loses(e, p)
    ensures Held(After(s, run), p, LastWritten(run, p, last))
  {
    if run != [] {
      var before := run[..|run| - 1];
      RunHolds(s, before, p, last);
      hide Held, Next, Enabled, Loses;
      StepHolds(After(s, before), run[|run| - 1], p, LastWritten(before, p, last));
    }
  }

  /**
   * From a confirmed or absent path, any run in which none of its mirror
   * writes lands and no exec runs ends, once reconciled, with head and disk at
   * the last write.
   */
  lemma LostWritesWin(s: State, run: seq<Event>, p: Path)
    requires Inv(s) && Apart(s, p)
    requires Get(s.disk, p) == Get(s.head, p) && (p in s.index ==> !s.index[p].unconfirmed) && Unlisted(s, p)
    requires IsRun(s, run) && forall e | e in run :: Loses(e, p)
    requires run != [] && run[|run| - 1] == Reconcile
    ensures Get(After(s, run).head, p) == Get(After(s, run).disk, p) == LastWritten(run, p, Get(s.head, p))
  {
    RunHolds(s, run, p, Get(s.head, p));
    RunThenReconcile(s, run);
  }

  // ---------------------------------------------------------------------
  // What the guard does not cover.

  /** Two writes of a new file before any scan, the first landed and the second lost. */
  function LandedThenLost(p: Path, first: Sha, second: Sha): seq<Event> {
    [Event.Write(p, first), Lands(p, first), Event.Write(p, second), Drops(p, second)]
  }

  /** One file, never confirmed. */
  function Unconfirmed(p: Path, disk: Disk, sha: Sha, inFlight: multiset<(Path, Sha)>, held: set<(Path, Sha)>): State {
    State(map[p := sha], disk, map[p := IndexEntry(sha, false, true, 0, None)], inFlight, 0, None, None, held, {p})
  }

  lemma FirstWrite(p: Path, sha: Sha)
    requires p != ""
    ensures var s, e := Cold(map[], {}, {}), Event.Write(p, sha);
            Enabled(s, e) && Next(s, e) == Unconfirmed(p, map[], sha, multiset{(p, sha)}, {(p, sha)})
  {
  }

  lemma FirstLands(p: Path, sha: Sha)
    ensures var s, e := Unconfirmed(p, map[], sha, multiset{(p, sha)}, {(p, sha)}), Lands(p, sha);
            Enabled(s, e) && Next(s, e) == Unconfirmed(p, map[p := sha], sha, multiset{}, {(p, sha)})
  {
  }

  lemma SecondWrite(p: Path, first: Sha, second: Sha)
    requires p != "" && first != second
    ensures var s, e := Unconfirmed(p, map[p := first], first, multiset{}, {(p, first)}), Event.Write(p, second);
            && Enabled(s, e)
            && Next(s, e).(born := {p})
               == Unconfirmed(p, map[p := first], second, multiset{(p, second)}, {(p, first), (p, second)})
  {
  }

  lemma AfterTwoWrites(p: Path, first: Sha, second: Sha)
    requires p != "" && first != second
    ensures var s, run := Cold(map[], {}, {}), LandedThenLost(p, first, second);
            && IsRun(s, run)
            && After(s, run).(born := {p})
               == Unconfirmed(p, map[p := first], second, multiset{}, {(p, first), (p, second)})
  {
    var s, run := Cold(map[], {}, {}), LandedThenLost(p, first, second);
    assert IsRun(s, []) && After(s, []) == s;
    hide After, IsRun, Cold, Enabled, Next;
    FirstWrite(p, first);
    Extended(s, [], run[0]);
    FirstLands(p, first);
    Extended(s, [] + [run[0]], run[1]);
    SecondWrite(p, first, second);
    Extended(s, [] + [run[0]] + [run[1]], run[2]);
    var t := After(s, [] + [run[0]] + [run[1]] + [run[2]]);
    Dropped(t, p, second);
    Extended(s, [] + [run[0]] + [run[1]] + [run[2]], run[3]);
    assert run == [] + [run[0]] + [run[1]] + [run[2]] + [run[3]];
  }

  lemma Dropped(s: State, p: Path, sha: Sha)
    requires s.pending == multiset{(p, sha)}
    ensures Enabled(s, Drops(p, sha)) && Next(s, Drops(p, sha)) == s.(pending := multiset{})
  {
  }

  lemma LandedBytesWin(t: State, p: Path, first: Sha, second: Sha)
    requires Inv(t) && first != second
    requires t.(born := {p}) == Unconfirmed(p, map[p := first], second, multiset{}, {(p, first), (p, second)})
    ensures t.capturing.None? && CanReconcile(t) && Get(Reconciled(t).head, p) == Some(first)
  {
    MaterializeNothing(t);
    assert DirtyPaths(t) == {};
    assert ToRestage(t, true, t.disk) == {};
    assert t.disk.Keys + {} == t.disk.Keys;
    assert Coherent({p});
    assert CanReconcile(t);
    hide CanReconcile, Reconciled, Inv;
    ReconcileKeepsHead(t, p);
  }

  /** The digest remembered is the last confirmed one, so the landed bytes read as a change and win. */
  lemma LandedThenLostIsReverted(p: Path, first: Sha, second: Sha)
    requires p != "" && first != second
    ensures var s, run := Cold(map[], {}, {}), LandedThenLost(p, first, second);
            && IsRun(s, run) && LastWritten(run, p, None) == Some(second)
            && After(s, run).head == map[p := second]
            && CanReconcile(After(s, run)) && Get(Reconciled(After(s, run)).head, p) == Some(first)
  {
    var s, run := Cold(map[], {}, {}), LandedThenLost(p, first, second);
    AfterTwoWrites(p, first, second);
    assert run[3].Drops? && run[..3][2] == Event.Write(p, second);
    AcquiredIsSound(map[], map[], {}, {});
    RunKeepsInv(s, run);
    hide After, IsRun, Cold, Inv, CanReconcile, Reconciled;
    LandedBytesWin(After(s, run), p, first, second);
  }
}
