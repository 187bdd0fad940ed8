/**
 * src/kernel.ts and src/session.ts: storage-backed writers and the collector
 * share one advisory lock per tenant. Writers hold it shared from before an
 * upload is made or confirmed until after the commit; the collector holds it
 * exclusively from before its first row deletion until after its last object
 * deletion. Uploads from targets need no lock. The lock belongs to a database
 * session: if the collector's session is lost while it deletes objects, the lock
 * goes and the deletions go on.
 */
module GcLease {
  import opened Prelude
  import opened Trees

  /** `tuddo/<tenant>/<sha>` and `tuddo/<tenant>/quarantine/<uuid>`. */
  datatype Key = Cas(sha: Sha) | Quarantine(id: nat)

  datatype Sweep =
    | Idle
    | Rows                          // lock held, deleting rows in batches
    | Listed(candidates: set<Key>)  // objects listed
    | Orphans(doomed: set<Key>)     // listed objects no row named when the rows were read

  datatype State = State(
    objects: set<Key>,
    rows: map<Sha, Option<Key>>,    // committed blob rows; an inline blob has no key
    shared: map<nat, set<Key>>,     // holders of the shared lock and the keys each has stored or confirmed
    exclusive: bool,
    sweep: Sweep,
    strays: multiset<Key>)          // deletions still to be made by collectors that have lost their sessions

  const EMPTY := State({}, map[], map[], false, Idle, multiset{})

  datatype Step =
    | Upload(key: Key)                       // a target's PUT, a promotion, a quarantine PUT
    | DropQuarantine(id: nat)                // discard or cleanup of a quarantine object
    | AcquireShared(w: nat)
    | Store(w: nat, sha: Sha)                // HEAD, and PUT or copy when absent
    | Confirm(w: nat, sha: Sha)              // HEAD found the promoted object
    | CommitStored(w: nat, shas: set<Sha>)   // the transaction: rows for stored blobs
    | CommitInline(shas: set<Sha>)           // a commit of inline blobs only, without the lock
    | ReleaseShared(w: nat)                  // unlock, or the session is destroyed
    | TryExclusive
    | DeleteRows(shas: set<Sha>)
    | List(prefix: set<Key>)
    | ReadKnown
    | DeleteObject(key: Key)
    | ReleaseExclusive                       // unlock, or the collector's process ends
    | LoseSession                            // the collector's session alone ends
    | DeleteStray(key: Key)                  // a collector without its lock goes on deleting

  predicate Enabled(s: State, step: Step) {
    match step
    case Upload(_) => true
    case DropQuarantine(_) => true
    case AcquireShared(w) => !s.exclusive && w !in s.shared
    case Store(w, _) => w in s.shared
    case Confirm(w, sha) => w in s.shared && Cas(sha) in s.objects
    case CommitStored(w, shas) => w in s.shared && forall sha | sha in shas :: Cas(sha) in s.shared[w]
    case CommitInline(_) => true
    case ReleaseShared(w) => w in s.shared
    case TryExclusive => !s.exclusive && s.shared == map[] && s.sweep == Idle
    case DeleteRows(_) => s.sweep == Rows
    case List(listed) => s.sweep == Rows && listed <= s.objects
    case ReadKnown => s.sweep.Listed?
    case DeleteObject(key) => s.sweep.Orphans? && key in s.sweep.doomed
    case ReleaseExclusive => s.exclusive
    case LoseSession => s.exclusive
    case DeleteStray(key) => key in s.strays
  }

  /** ON CONFLICT DO NOTHING: a row that exists stays as it is. */
  function Insert(rows: map<Sha, Option<Key>>, shas: set<Sha>, stored: bool): map<Sha, Option<Key>> {
    map sha | sha in rows.Keys + shas :: if sha in rows then rows[sha] else if stored then Some(Cas(sha)) else None
  }

  predicate Names(rows: map<Sha, Option<Key>>, key: Key) {
    exists sha | sha in rows :: rows[sha] == Some(key)
  }

  function Apply(s: State, step: Step): State
    requires Enabled(s, step)
  {
    match step
    case Upload(key) => s.(objects := s.objects + {key})
    case DropQuarantine(id) => s.(objects := s.objects - {Quarantine(id)})
    case AcquireShared(w) => s.(shared := s.shared[w := {}])
    case Store(w, sha) => s.(objects := s.objects + {Cas(sha)}, shared := s.shared[w := s.shared[w] + {Cas(sha)}])
    case Confirm(w, sha) => s.(shared := s.shared[w := s.shared[w] + {Cas(sha)}])
    case CommitStored(_, shas) => s.(rows := Insert(s.rows, shas, true))
    case CommitInline(shas) => s.(rows := Insert(s.rows, shas, false))
    case ReleaseShared(w) => s.(shared := s.shared - {w})
    case TryExclusive => s.(exclusive := true, sweep := Rows)
    case DeleteRows(shas) => s.(rows := s.rows - shas)
    case List(listed) => s.(sweep := Listed(listed))
    case ReadKnown => s.(sweep := Orphans(set k | k in s.sweep.candidates && !Names(s.rows, k)))
    case DeleteObject(key) => s.(objects := s.objects - {key}, sweep := Orphans(s.sweep.doomed - {key}))
    case ReleaseExclusive => s.(exclusive := false, sweep := Idle)
    case LoseSession =>
      s.(exclusive := false, sweep := Idle,
         strays := s.strays + if s.sweep.Orphans? then multiset(s.sweep.doomed) else multiset{})
    case DeleteStray(key) => s.(objects := s.objects - {key}, strays := s.strays - multiset{key})
  }

  /** Every committed row with an object key has its object. */
  predicate RowsAreBacked(s: State) {
    forall sha | sha in s.rows && s.rows[sha].Some? :: s.rows[sha].value in s.objects
  }

  /** Every object a holder of the shared lock has stored or confirmed is there. */
  predicate HoldersAreBacked(s: State) {
    forall w, k | w in s.shared && k in s.shared[w] :: k in s.objects
  }

  predicate Held(s: State, key: Key) {
    exists w | w in s.shared :: key in s.shared[w]
  }

  /** What every step keeps, with or without the collector's lock. */
  predicate LockInv(s: State) {
    && (forall sha | sha in s.rows && s.rows[sha].Some? :: s.rows[sha].value == Cas(sha))
    && (forall w, k | w in s.shared && k in s.shared[w] :: k.Cas?)
    && (s.exclusive <==> s.sweep != Idle)
    && (s.exclusive ==> s.shared == map[])
    && (s.sweep.Orphans? ==> forall k | k in s.sweep.doomed :: !Names(s.rows, k))
  }

  predicate Inv(s: State) {
    LockInv(s) && RowsAreBacked(s) && HoldersAreBacked(s)
  }

  /** A deletion without the lock spares what rows name and what holders of the shared lock rely on. */
  predicate Spares(s: State, step: Step) {
    step.DeleteStray? ==> !Names(s.rows, step.key) && !Held(s, step.key)
  }

  /** A deletion without the lock spares what rows name, and new rows find their objects. */
  predicate Backs(s: State, step: Step) {
    match step
    case DeleteStray(key) => !Names(s.rows, key)
    case CommitStored(_, shas) => forall sha | sha in shas && sha !in s.rows :: Cas(sha) in s.objects
    case _ => true
  }

  /** Under the exclusive lock no row that names an object can appear. */
  lemma NothingNewIsNamed(s: State, step: Step, key: Key)
    requires Enabled(s, step) && s.exclusive && s.shared == map[]
    ensures Names(Apply(s, step).rows, key) ==> Names(s.rows, key)
  {
    var s' := Apply(s, step);
    if Names(s'.rows, key) {
      var sha :| sha in s'.rows && s'.rows[sha] == Some(key);
      assert sha in s.rows && s.rows[sha] == Some(key);
    }
  }

  lemma StepKeepsLock(s: State, step: Step)
    requires LockInv(s) && Enabled(s, step)
    ensures LockInv(Apply(s, step))
  {
    var s' := Apply(s, step);
    forall sha | sha in s'.rows && s'.rows[sha].Some?
      ensures s'.rows[sha].value == Cas(sha)
    {
      if sha in s.rows { assert s'.rows[sha] == s.rows[sha]; }
    }
    forall w, k | w in s'.shared && k in s'.shared[w]
      ensures k.Cas?
    {
      if w in s.shared && k in s.shared[w] { assert k.Cas?; }
    }
    if s.sweep.Orphans? && s'.sweep.Orphans? {
      forall k
        ensures Names(s'.rows, k) ==> Names(s.rows, k)
      {
        NothingNewIsNamed(s, step, k);
      }
    }
  }

  /** The exact condition under which one step leaves every committed row its object. */
  lemma StepBacksRows(s: State, step: Step)
    requires LockInv(s) && RowsAreBacked(s) && Enabled(s, step)
    ensures RowsAreBacked(Apply(s, step)) <==> Backs(s, step)
  {
    var s' := Apply(s, step);
    if Backs(s, step) {
      forall sha | sha in s'.rows && s'.rows[sha].Some?
        ensures s'.rows[sha].value in s'.objects
      {
        RowIsBacked(s, step, sha);
      }
    } else if step.DeleteStray? {
      var sha :| sha in s.rows && s.rows[sha] == Some(step.key);
      assert s'.rows[sha].value !in s'.objects;
    } else {
      var sha :| sha in step.shas && sha !in s.rows && Cas(sha) !in s.objects;
      assert s'.rows[sha].value !in s'.objects;
    }
  }

  lemma RowIsBacked(s: State, step: Step, sha: Sha)
    requires LockInv(s) && RowsAreBacked(s) && Enabled(s, step) && Backs(s, step)
    requires sha in Apply(s, step).rows && Apply(s, step).rows[sha].Some?
    ensures Apply(s, step).rows[sha].value in Apply(s, step).objects
  {
    if sha in s.rows {
      assert Apply(s, step).rows[sha] == s.rows[sha] == Some(Cas(sha)) && Cas(sha) in s.objects;
      assert Names(s.rows, Cas(sha));
    } else {
      assert step.CommitStored? && Apply(s, step).rows[sha] == Some(Cas(sha));
    }
  }

  /** The exact condition under which one step keeps rows and holders their objects. */
  lemma StepKeepsInv(s: State, step: Step)
    requires Inv(s) && Enabled(s, step)
    ensures Inv(Apply(s, step)) <==> Spares(s, step)
  {
    var s' := Apply(s, step);
    StepKeepsLock(s, step);
    StepBacksRows(s, step);
    if Spares(s, step) {
      forall w, k | w in s'.shared && k in s'.shared[w]
        ensures k in s'.objects
      {
        if w in s.shared && k in s.shared[w] { assert k in s.objects && k.Cas? && Held(s, k); }
      }
    } else if Held(s, step.key) {
      var w :| w in s.shared && step.key in s.shared[w];
      assert w in s'.shared && step.key in s'.shared[w] && step.key !in s'.objects;
    }
  }

  predicate IsRun(s: State, steps: seq<Step>)
    decreases |steps|
  {
    steps == [] || (Enabled(s, steps[0]) && IsRun(Apply(s, steps[0]), steps[1..]))
  }

  function After(s: State, steps: seq<Step>): State
    requires IsRun(s, steps)
    decreases |steps|
  {
    if steps == [] then s else After(Apply(s, steps[0]), steps[1..])
  }

  /** At every point of the run every committed row has its object. */
  predicate AlwaysBacked(s: State, steps: seq<Step>)
    requires IsRun(s, steps)
    decreases |steps|
  {
    RowsAreBacked(s) && (steps == [] || AlwaysBacked(Apply(s, steps[0]), steps[1..]))
  }

  predicate AlwaysSound(s: State, steps: seq<Step>)
    requires IsRun(s, steps)
    decreases |steps|
  {
    Inv(s) && (steps == [] || AlwaysSound(Apply(s, steps[0]), steps[1..]))
  }

  predicate AllBack(s: State, steps: seq<Step>)
    requires IsRun(s, steps)
    decreases |steps|
  {
    steps == [] || (Backs(s, steps[0]) && AllBack(Apply(s, steps[0]), steps[1..]))
  }

  predicate AllSpare(s: State, steps: seq<Step>)
    requires IsRun(s, steps)
    decreases |steps|
  {
    steps == [] || (Spares(s, steps[0]) && AllSpare(Apply(s, steps[0]), steps[1..]))
  }

  /** In every interleaving, lost sessions included: when no committed row ever loses its object. */
  lemma {:induction false} RowsStayBacked(s: State, steps: seq<Step>)
    requires LockInv(s) && RowsAreBacked(s) && IsRun(s, steps)
    ensures AlwaysBacked(s, steps) <==> AllBack(s, steps)
    decreases |steps|
  {
    if steps != [] {
      StepKeepsLock(s, steps[0]);
      StepBacksRows(s, steps[0]);
      if RowsAreBacked(Apply(s, steps[0])) {
        RowsStayBacked(Apply(s, steps[0]), steps[1..]);
      }
    }
  }

  /** In every interleaving, lost sessions included: when rows and holders of the lock both keep their objects. */
  lemma {:induction false} RunsStaySound(s: State, steps: seq<Step>)
    requires Inv(s) && IsRun(s, steps)
    ensures AlwaysSound(s, steps) <==> AllSpare(s, steps)
    ensures AllSpare(s, steps) ==> Inv(After(s, steps)) && AlwaysBacked(s, steps)
    decreases |steps|
  {
    if steps != [] {
      StepKeepsInv(s, steps[0]);
      if Spares(s, steps[0]) {
        RunsStaySound(Apply(s, steps[0]), steps[1..]);
      }
    }
  }

  lemma {:induction false} WithoutLossNothingStrays(s: State, steps: seq<Step>)
    requires IsRun(s, steps) && s.strays == multiset{}
    requires forall i | 0 <= i < |steps| :: !steps[i].LoseSession?
    ensures AllSpare(s, steps)
    decreases |steps|
  {
    if steps != [] {
      WithoutLossNothingStrays(Apply(s, steps[0]), steps[1..]);
    }
  }

  /** From the empty store, as long as no collector loses its session, no committed row loses its object. */
  lemma RunsFromEmptyStayBacked(steps: seq<Step>)
    requires IsRun(EMPTY, steps)
    requires forall i | 0 <= i < |steps| :: !steps[i].LoseSession?
    ensures AlwaysBacked(EMPTY, steps) && Inv(After(EMPTY, steps))
  {
    WithoutLossNothingStrays(EMPTY, steps);
    RunsStaySound(EMPTY, steps);
  }

  predicate KeepsLock(step: Step) {
    !step.ReleaseExclusive? && !step.LoseSession?
  }

  /** An object the sweep may delete is named by no row and relied on by no writer, now or before the lock goes. */
  lemma {:induction false} DoomedStaysUnnamed(s: State, steps: seq<Step>, key: Key)
    requires LockInv(s) && IsRun(s, steps)
    requires s.sweep.Orphans? && !Names(s.rows, key)
    requires forall i | 0 <= i < |steps| :: KeepsLock(steps[i])
    ensures var s' := After(s, steps); !Names(s'.rows, key) && s'.shared == map[] && s'.sweep.Orphans?
    decreases |steps|
  {
    if steps != [] {
      assert KeepsLock(steps[0]);
      StepKeepsLock(s, steps[0]);
      NothingNewIsNamed(s, steps[0], key);
      DoomedStaysUnnamed(Apply(s, steps[0]), steps[1..], key);
    }
  }

  // ---------------------------------------------------------------------
  // A sweep nothing disturbs.

  predicate AllDelete(steps: seq<Step>) {
    forall i | 0 <= i < |steps| :: steps[i].DeleteObject?
  }

  lemma {:induction false} DeletionsTakeTheDoomed(s: State, steps: seq<Step>)
    requires s.sweep.Orphans? && IsRun(s, steps) && AllDelete(steps)
    ensures var s' := After(s, steps);
            && s'.sweep.Orphans? && s'.sweep.doomed <= s.sweep.doomed && s'.rows == s.rows
            && s'.objects == s.objects - (s.sweep.doomed - s'.sweep.doomed)
    decreases |steps|
  {
    if steps != [] {
      assert steps[0].DeleteObject?;
      DeletionsTakeTheDoomed(Apply(s, steps[0]), steps[1..]);
    }
  }

  function Sweeping(s: State, unused: set<Sha>): seq<Step> {
    [DeleteRows(unused), List(s.objects), ReadKnown]
  }

  /** Once all it had doomed is deleted, exactly the objects a kept row names are left, in quarantine or not. */
  lemma FullSweepLeavesTheNamed(s: State, unused: set<Sha>, steps: seq<Step>)
    requires IsRun(s, Sweeping(s, unused) + steps) && AllDelete(steps)
    requires After(s, Sweeping(s, unused) + steps).sweep == Orphans({})
    ensures var s' := After(s, Sweeping(s, unused) + steps);
            && (forall sha :: sha in s'.rows <==> sha in s.rows && sha !in unused)
            && (forall sha | sha in s'.rows :: s'.rows[sha] == s.rows[sha])
            && forall k :: k in s'.objects <==>
                 k in s.objects && exists sha | sha in s.rows && sha !in unused :: s.rows[sha] == Some(k)
  {
    var all := Sweeping(s, unused) + steps;
    var s1 := Apply(s, DeleteRows(unused));
    var s2 := Apply(s1, List(s.objects));
    var s3 := Apply(s2, ReadKnown);
    assert all[0] == DeleteRows(unused) && all[1..] == [List(s.objects), ReadKnown] + steps;
    assert all[1..][0] == List(s.objects) && all[1..][1..] == [ReadKnown] + steps;
    assert all[1..][1..][0] == ReadKnown && all[1..][1..][1..] == steps;
    assert IsRun(s1, all[1..]) && IsRun(s2, all[1..][1..]) && IsRun(s3, steps);
    assert After(s, all) == After(s1, all[1..]) == After(s2, all[1..][1..]) == After(s3, steps);
    DeletionsTakeTheDoomed(s3, steps);
  }

  /** Nothing keeps a sweep left alone from getting that far. */
  lemma {:induction false} SweepCanFinish(s: State) returns (steps: seq<Step>)
    requires s.sweep.Orphans?
    ensures IsRun(s, steps) && AllDelete(steps) && After(s, steps).sweep == Orphans({})
    decreases if s.sweep.Orphans? then |s.sweep.doomed| else 0
  {
    steps := [];
    if s.sweep.doomed != {} {
      var key :| key in s.sweep.doomed;
      var rest := SweepCanFinish(Apply(s, DeleteObject(key)));
      steps := [DeleteObject(key)] + rest;
      assert steps[1..] == rest;
    }
  }

  // ---------------------------------------------------------------------
  // Both ways a lost session costs a row its object.

  function Swept(): seq<Step> {
    [Upload(Cas(5)), TryExclusive, List({Cas(5)}), ReadKnown, LoseSession, AcquireShared(0), Confirm(0, 5)]
  }

  /** The key is unnamed when it is deleted, and relied on by a writer that commits it afterwards. */
  lemma LostSessionUndercutsWriter()
    ensures var steps := Swept() + [DeleteStray(Cas(5)), CommitStored(0, {5})];
            IsRun(EMPTY, steps) && !RowsAreBacked(After(EMPTY, steps))
  {
    var s := Confirmed();
    SweptRuns();
    var s1 := s.(objects := {}, strays := multiset{});
    var s2 := s1.(rows := map[5 := Some(Cas(5))]);
    assert Apply(s, DeleteStray(Cas(5))) == s1;
    assert Apply(s1, CommitStored(0, {5})).rows == s2.rows;
    TwoMore(EMPTY, Swept(), s, DeleteStray(Cas(5)), s1, CommitStored(0, {5}), s2);
    assert 5 in s2.rows;
  }

  /** The key is named by the time it is deleted. */
  lemma LostSessionUndercutsRow()
    ensures var steps := Swept() + [CommitStored(0, {5}), DeleteStray(Cas(5))];
            IsRun(EMPTY, steps) && !RowsAreBacked(After(EMPTY, steps))
  {
    var s := Confirmed();
    SweptRuns();
    var s1 := s.(rows := map[5 := Some(Cas(5))]);
    var s2 := s1.(objects := {}, strays := multiset{});
    assert Apply(s, CommitStored(0, {5})).rows == s1.rows;
    assert Apply(s1, DeleteStray(Cas(5))) == s2;
    TwoMore(EMPTY, Swept(), s, CommitStored(0, {5}), s1, DeleteStray(Cas(5)), s2);
    assert 5 in s2.rows;
  }

  function Confirmed(): State {
    State({Cas(5)}, map[], map[0 := {Cas(5)}], false, Idle, multiset{Cas(5)})
  }

  lemma {:induction false} OneMore(s: State, steps: seq<Step>, step: Step)
    requires IsRun(s, steps) && Enabled(After(s, steps), step)
    ensures IsRun(s, steps + [step]) && After(s, steps + [step]) == Apply(After(s, steps), step)
    decreases |steps|
  {
    if steps == [] {
      assert steps + [step] == [step] && [step][1..] == [];
    } else {
      OneMore(Apply(s, steps[0]), steps[1..], step);
      assert (steps + [step])[1..] == steps[1..] + [step];
    }
  }

  lemma TwoMore(s: State, steps: seq<Step>, mid: State, one: Step, next: State, two: Step, end: State)
    requires IsRun(s, steps) && After(s, steps) == mid
    requires Enabled(mid, one) && Apply(mid, one) == next && Enabled(next, two) && Apply(next, two) == end
    ensures IsRun(s, steps + [one, two]) && After(s, steps + [one, two]) == end
  {
    OneMore(s, steps, one);
    OneMore(s, steps + [one], two);
    assert steps + [one] + [two] == steps + [one, two];
  }

  lemma SweptRuns()
    ensures IsRun(EMPTY, Swept()) && After(EMPTY, Swept()) == Confirmed()
  {
    hide IsRun, After;
    var listed := [Upload(Cas(5)), TryExclusive, List({Cas(5)}), ReadKnown];
    var orphans := State({Cas(5)}, map[], map[], true, Orphans({Cas(5)}), multiset{});
    ListedRuns(listed, orphans);
    var lost := State({Cas(5)}, map[], map[], false, Idle, multiset{Cas(5)});
    assert multiset(orphans.sweep.doomed) == multiset{Cas(5)};
    assert Apply(orphans, LoseSession) == lost;
    var joined := lost.(shared := map[0 := {}]);
    assert Apply(lost, AcquireShared(0)) == joined;
    TwoMore(EMPTY, listed, orphans, LoseSession, lost, AcquireShared(0), joined);
    assert joined.shared[0] + {Cas(5)} == {Cas(5)};
    assert Apply(joined, Confirm(0, 5)).shared == map[0 := {Cas(5)}];
    assert Apply(joined, Confirm(0, 5)) == Confirmed();
    OneMore(EMPTY, listed + [LoseSession, AcquireShared(0)], Confirm(0, 5));
    assert listed + [LoseSession, AcquireShared(0)] + [Confirm(0, 5)] == Swept();
  }

  lemma ListedRuns(steps: seq<Step>, end: State)
    requires steps == [Upload(Cas(5)), TryExclusive, List({Cas(5)}), ReadKnown]
    requires end == State({Cas(5)}, map[], map[], true, Orphans({Cas(5)}), multiset{})
    ensures IsRun(EMPTY, steps) && After(EMPTY, steps) == end
  {
    assert IsRun(EMPTY, []) && After(EMPTY, []) == EMPTY;
    hide IsRun, After;
    var s1 := EMPTY.(objects := {Cas(5)});
    var s2 := s1.(exclusive := true, sweep := Rows);
    var s3 := s2.(sweep := Listed({Cas(5)}));
    assert Apply(EMPTY, Upload(Cas(5))) == s1;
    TwoMore(EMPTY, [], EMPTY, Upload(Cas(5)), s1, TryExclusive, s2);
    assert [] + [Upload(Cas(5)), TryExclusive] == [Upload(Cas(5)), TryExclusive];
    assert Apply(s3, ReadKnown).sweep.doomed == {Cas(5)};
    TwoMore(EMPTY, [Upload(Cas(5)), TryExclusive], s2, List({Cas(5)}), s3, ReadKnown, end);
    assert [Upload(Cas(5)), TryExclusive] + [List({Cas(5)}), ReadKnown] == steps;
  }
}
