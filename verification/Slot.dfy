/**
 * src/sync/slot.ts: the one-in-flight capture slot. Code between two awaits runs
 * without interruption, so each such stretch is one event; events interleave in
 * any order their guards allow.
 */
module Slot {

  /** The slot's fields, and what an observer of the bodies and promises counts. */
  datatype State = State(
    busy: bool,
    pending: bool,
    failures: nat,
    chain: nat,           // the promise in #chain; promises are numbered as they are made
    unresolved: set<nat>, // promises made and not yet resolved
    capturing: nat,       // capture bodies running now
    exclusives: nat,      // exclusive bodies running now
    starts: nat,          // captures started so far
    triggers: nat,        // triggers raised so far
    covered: nat,         // triggers raised before the latest capture start
    finished: nat)        // triggers raised before the start of the latest capture that ended

  const FRESH := State(false, false, 0, 0, {}, 0, 0, 0, 0, 0, 0)

  datatype Event =
    | Trigger
    | BeginExclusive
    | EndExclusive
    | EndCapture(ok: bool)

  /** An exclusive caller passes its waiting loop only when the slot is free; bodies end only if they run. */
  predicate Enabled(s: State, e: Event) {
    match e
    case Trigger => true
    case BeginExclusive => !s.busy
    case EndExclusive => s.exclusives > 0
    case EndCapture(_) => s.capturing > 0
  }

  /** The head of the drain loop: forget pending and start a capture. */
  function StartCapture(s: State): State {
    s.(pending := false, capturing := s.capturing + 1, starts := s.starts + 1, covered := s.triggers)
  }

  /** `this.#busy = true; this.#chain = this.#drain()`. */
  function StartDrain(s: State): State {
    StartCapture(s.(busy := true, chain := s.chain + 1, unresolved := s.unresolved + {s.chain + 1}))
  }

  function Next(s: State, e: Event): State
    requires Enabled(s, e)
  {
    match e
    case Trigger =>
      var s := s.(triggers := s.triggers + 1);
      if s.busy then s.(pending := true) else StartDrain(s)
    case BeginExclusive =>
      s.(busy := true, chain := s.chain + 1, unresolved := s.unresolved + {s.chain + 1}, exclusives := s.exclusives + 1)
    case EndExclusive =>
      var ended := s.(busy := false, exclusives := s.exclusives - 1, unresolved := s.unresolved - {s.chain});
      if s.pending then StartDrain(ended) else ended
    case EndCapture(ok) =>
      var ended := s.(capturing := s.capturing - 1, finished := s.covered, failures := if ok then 0 else s.failures + 1);
      if s.pending then StartCapture(ended)
      else ended.(busy := false, unresolved := s.unresolved - {s.chain})
  }

  predicate Inv(s: State) {
    && s.capturing + s.exclusives == (if s.busy then 1 else 0)
    && (!s.busy ==> !s.pending)
    && s.finished <= s.covered <= s.triggers
    && (s.pending <==> s.covered < s.triggers)
    && (s.capturing == 0 ==> s.finished == s.covered)
    && s.unresolved == (if s.busy then {s.chain} else {})
    && s.starts <= s.triggers
    && (s.pending ==> s.starts < s.triggers)
  }

  lemma NextKeepsInv(s: State, e: Event)
    requires Inv(s) && Enabled(s, e)
    ensures Inv(Next(s, e))
  {
  }

  lemma FreshIsSound()
    ensures Inv(FRESH)
  {
  }

  predicate IsRun(s: State, events: seq<Event>)
    decreases |events|
  {
    events == [] || (Enabled(s, events[0]) && IsRun(Next(s, events[0]), events[1..]))
  }

  function After(s: State, events: seq<Event>): State
    requires IsRun(s, events)
    decreases |events|
  {
    if events == [] then s else After(Next(s, events[0]), events[1..])
  }

  lemma {:induction false} RunKeepsInv(s: State, events: seq<Event>)
    requires Inv(s) && IsRun(s, events)
    ensures Inv(After(s, events))
    decreases |events|
  {
    if events != [] {
      NextKeepsInv(s, events[0]);
      RunKeepsInv(Next(s, events[0]), events[1..]);
    }
  }

  /**
   * In every interleaving: never two bodies at once; a free slot has nothing
   * pending and every trigger's capture has ended; and a promise anyone still
   * waits for is the current one, whose body is running.
   */
  lemma SlotIsSafe(start: State, events: seq<Event>)
    requires Inv(start) && IsRun(start, events)
    ensures var s := After(start, events);
            && s.capturing + s.exclusives <= 1
            && (!s.busy ==> !s.pending && s.capturing + s.exclusives == 0 && s.finished == s.triggers)
            && (forall p | p in s.unresolved :: p == s.chain && s.capturing + s.exclusives == 1)
            && s.starts <= s.triggers
  {
    RunKeepsInv(start, events);
  }

  /** `settle` leaves its loop when the promise it awaited is still current and the slot is free. */
  predicate SettleReturns(s: State, awaited: nat) {
    awaited == s.chain && !s.busy
  }

  /** When `settle` returns, every capture owed to any trigger so far has ended. */
  lemma SettleIsComplete(start: State, events: seq<Event>, awaited: nat)
    requires Inv(start) && IsRun(start, events) && SettleReturns(After(start, events), awaited)
    ensures var s := After(start, events); s.finished == s.triggers && s.capturing + s.exclusives == 0
  {
    RunKeepsInv(start, events);
  }

  /**
   * A waiter is never stranded: the promise it waits for is resolved, or ending the
   * one running body resolves it or follows on.
   */
  lemma WaitersWake(start: State, events: seq<Event>, awaited: nat, ok: bool)
    requires Inv(start) && IsRun(start, events) && awaited <= After(start, events).chain
    ensures var s := After(start, events);
            || awaited !in s.unresolved
            || (s.exclusives > 0 && awaited !in Next(s, EndExclusive).unresolved)
            || (s.capturing > 0 && !s.pending && awaited !in Next(s, EndCapture(ok)).unresolved)
            || (s.capturing > 0 && s.pending && Next(s, EndCapture(ok)).covered == s.triggers)
  {
    RunKeepsInv(start, events);
  }

  function Triggers(k: nat): (events: seq<Event>)
    ensures |events| == k && forall i | 0 <= i < k :: events[i] == Trigger
  {
    seq(k, _ => Trigger)
  }

  lemma {:induction false} TriggersWhileBusy(s: State, k: nat)
    requires s.busy
    ensures IsRun(s, Triggers(k))
    ensures After(s, Triggers(k)) == s.(pending := s.pending || k > 0, triggers := s.triggers + k)
    decreases k
  {
    if k > 0 {
      assert Triggers(k)[1..] == Triggers(k - 1);
      TriggersWhileBusy(Next(s, Trigger), k - 1);
    }
  }

  /** However many triggers arrive while a body runs, its end starts exactly one follow-up that covers them all. */
  lemma TriggersCoalesce(s: State, k: nat, end: Event)
    requires Inv(s) && s.busy && k > 0
    requires end.EndExclusive? || end.EndCapture?
    requires Enabled(s, end)
    ensures IsRun(s, Triggers(k)) && Enabled(After(s, Triggers(k)), end)
    ensures var next := Next(After(s, Triggers(k)), end);
            && next.starts == s.starts + 1 && next.capturing == 1 && next.exclusives == 0
            && next.covered == next.triggers == s.triggers + k && !next.pending
  {
    TriggersWhileBusy(s, k);
  }

  predicate SameButFailures(s: State, t: State) {
    s.(failures := 0) == t.(failures := 0)
  }

  /** The same events, except that captures may end differently. */
  predicate SameButOutcomes(one: seq<Event>, two: seq<Event>) {
    |one| == |two| && forall i | 0 <= i < |one| :: one[i] == two[i] || (one[i].EndCapture? && two[i].EndCapture?)
  }

  /**
   * Failed captures release the slot exactly as successful ones do: over any run,
   * whichever captures fail, the same things can happen and the same slot is left,
   * but for the count of failures.
   */
  lemma {:induction false} FailureReleasesLikeSuccess(s: State, one: seq<Event>, t: State, two: seq<Event>)
    requires SameButFailures(s, t) && SameButOutcomes(one, two)
    ensures IsRun(s, one) <==> IsRun(t, two)
    ensures IsRun(s, one) ==> SameButFailures(After(s, one), After(t, two))
    decreases |one|
  {
    if one != [] && Enabled(s, one[0]) {
      FailureReleasesLikeSuccess(Next(s, one[0]), one[1..], Next(t, two[0]), two[1..]);
    }
  }

  /** Consecutive failures are the failed captures since the last success. */
  function FailuresSince(events: seq<Event>): nat
    decreases |events|
  {
    if events == [] then 0
    else
      var last, before := events[|events| - 1], FailuresSince(events[..|events| - 1]);
      if last.EndCapture? then (if last.ok then 0 else before + 1) else before
  }

  lemma {:induction false} RunPrefix(s: State, events: seq<Event>, n: nat)
    requires IsRun(s, events) && n < |events|
    ensures IsRun(s, events[..n]) && Enabled(After(s, events[..n]), events[n])
    ensures IsRun(s, events[..n + 1]) && After(s, events[..n + 1]) == Next(After(s, events[..n]), events[n])
    decreases n
  {
    if n == 0 {
      assert events[..1][1..] == [];
    } else {
      RunPrefix(Next(s, events[0]), events[1..], n - 1);
      assert events[..n][1..] == events[1..][..n - 1] && events[..n + 1][1..] == events[1..][..n];
    }
  }

  lemma {:induction false} FailuresAreCounted(start: State, events: seq<Event>)
    requires start.failures == 0 && IsRun(start, events)
    ensures After(start, events).failures == FailuresSince(events)
    decreases |events|
  {
    if events != [] {
      var n := |events| - 1;
      RunPrefix(start, events, n);
      assert events[..n + 1] == events;
      FailuresAreCounted(start, events[..n]);
    }
  }

  /** A new slot, after anything that can happen to it. */
  lemma FreshSlotIsSafe(events: seq<Event>)
    requires IsRun(FRESH, events)
    ensures var s := After(FRESH, events);
            && Inv(s) && s.capturing + s.exclusives <= 1
            && (!s.busy ==> s.finished == s.triggers)
            && s.failures == FailuresSince(events)
  {
    FreshIsSound();
    SlotIsSafe(FRESH, events);
    RunKeepsInv(FRESH, events);
    FailuresAreCounted(FRESH, events);
  }

  /** The class. `history` is the observer; `Valid` ties the fields to it. */
  class CaptureSlot {
    var chain: nat
    var busy: bool
    var pending: bool
    var failures: nat
    ghost var history: State

    ghost predicate Valid()
      reads this
    {
      && Inv(history)
      && chain == history.chain && busy == history.busy
      && pending == history.pending && failures == history.failures
    }

    constructor ()
      ensures Valid() && history == FRESH
    {
      chain, busy, pending, failures := 0, false, false, 0;
      history := FRESH;
    }

    method TriggerCapture()
      requires Valid()
      modifies this
      ensures Valid() && history == Next(old(history), Trigger)
    {
      history := history.(triggers := history.triggers + 1);
      if busy {
        pending := true;
        history := history.(pending := true);
        return;
      }
      StartDraining();
    }

    /** Mark the slot busy, make the drain's promise and run the drain to its first await. */
    method StartDraining()
      requires !busy && chain == history.chain && failures == history.failures
      modifies this
      ensures history == StartDrain(old(history))
      ensures chain == history.chain && busy == history.busy && pending == history.pending && failures == history.failures
    {
      busy := true;
      chain := chain + 1;
      pending := false;
      history := StartDrain(history);
    }

    /** The stretch of the drain loop between one capture's end and the next await. */
    method CaptureEnded(ok: bool)
      requires Valid() && Enabled(history, EndCapture(ok))
      modifies this
      ensures Valid() && history == Next(old(history), EndCapture(ok))
    {
      NextKeepsInv(history, EndCapture(ok));
      if ok { failures := 0; } else { failures := failures + 1; }
      history := Next(history, EndCapture(ok));
      if !pending {
        busy := false;
        return;
      }
      pending := false;
    }

    /** The waiting loop has found the slot free: hold it under a new promise. */
    method ExclusiveBegins()
      requires Valid() && Enabled(history, BeginExclusive)
      modifies this
      ensures Valid() && history == Next(old(history), BeginExclusive)
    {
      busy := true;
      chain := chain + 1;
      history := Next(history, BeginExclusive);
    }

    /** `finally`: release the slot, restart the drain if triggers came in, then resolve the held promise. */
    method ExclusiveEnded()
      requires Valid() && Enabled(history, EndExclusive)
      modifies this
      ensures Valid() && history == Next(old(history), EndExclusive)
    {
      NextKeepsInv(history, EndExclusive);
      history := history.(busy := false, exclusives := history.exclusives - 1,
                          unresolved := history.unresolved - {history.chain});
      busy := false;
      if !pending { return; }
      StartDraining();
    }
  }
}
