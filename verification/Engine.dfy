/** src/sync/engine.ts as it is written: fields updated in place, one method per entry point. */
module Engine {
  import opened Prelude
  import opened Coherence
  import opened Trees
  import opened Mirror
  import opened MirrorLaws

  class SyncEngine {
    var head: Disk                        // the session's view of the branch
    var disk: Disk                        // the target's file system
    var index: Index
    var pendingMirrorWrites: multiset<(Path, Sha)>
    var execEpoch: nat
    var resumeGuard: Option<nat>
    var capturing: Option<Lists>          // what a capture in flight has worked out, across its awaits
    var lineage: set<(Path, Sha)>         // what the session answers from history
    var born: set<Path>

    function Now(): State
      reads this
    {
      State(head, disk, index, pendingMirrorWrites, execEpoch, resumeGuard, capturing, lineage, born)
    }

    /** An engine over a mount its target has never held: everything is written out first. */
    constructor Hydrate(view: Disk, lineage: set<(Path, Sha)>, born: set<Path>)
      ensures head == disk == view && index == CleanEntries(view, view.Keys)
      ensures pendingMirrorWrites == multiset{} && execEpoch == 0 && resumeGuard == None && capturing == None
      ensures this.lineage == lineage && this.born == born
    {
      this.head, this.lineage, this.born := view, lineage, born;
      pendingMirrorWrites, execEpoch, resumeGuard, capturing := multiset{}, 0, None, None;
      disk, index := map[], map[];
      new;
      MaterializeRequests(view.Keys);
    }

    /** Commits, then guards the entry; the mirror write is left in flight. */
    method Write(path: Path, sha: Sha)
      requires Inv(Now()) && Enabled(Now(), Event.Write(path, sha))
      modifies this
      ensures Now() == Next(old(Now()), Event.Write(path, sha)) && Inv(Now())
    {
      NextKeepsInv(Now(), Event.Write(path, sha));
      var isNew := path !in head;
      if isNew {
        born := born + {path};
      } else if head[path] != sha {
        born := born - {path};
      }
      head := head[path := sha];
      lineage := lineage + {(path, sha)};
      var confirmed: Option<Sha> := None;
      if path in index {
        confirmed := if index[path].unconfirmed then index[path].previous else Some(index[path].sha);
      }
      index := index[path := IndexEntry(sha, false, true, execEpoch, confirmed)];
      pendingMirrorWrites := pendingMirrorWrites + multiset{(path, sha)};
    }

    /** A mirror write settles: it took effect, was dropped in silence, or was refused. */
    method Mirrored(e: Event)
      requires Inv(Now()) && Enabled(Now(), e) && (e.Lands? || e.Drops? || e.Fails?)
      modifies this
      ensures Now() == Next(old(Now()), e) && Inv(Now())
    {
      NextKeepsInv(Now(), e);
      pendingMirrorWrites := pendingMirrorWrites - multiset{(e.path, e.sha)};
      if e.Lands? {
        disk := disk[e.path := e.sha];
      } else if e.Fails? && e.path in index {
        index := index[e.path := index[e.path].(dirty := true)];
      }
    }

    /** Every earlier write loses its guard, except those whose mirror write is still in flight. */
    method NoteExec()
      modifies `execEpoch, `index
      ensures Now() == Mirror.NoteExec(old(Now()))
    {
      hide Stamped, InFlight;
      execEpoch := execEpoch + 1;
      var rest := pendingMirrorWrites;
      StampedByNone(index, execEpoch);
      assert pendingMirrorWrites - rest == multiset{};
      while rest != multiset{}
        invariant rest <= pendingMirrorWrites && execEpoch == old(execEpoch) + 1
        invariant index == Stamped(old(index), pendingMirrorWrites - rest, execEpoch)
        decreases |rest|
      {
        var write :| write in rest;
        StampedByOneMore(old(index), pendingMirrorWrites - rest, write, execEpoch);
        OneFewerWrite(pendingMirrorWrites, rest, write);
        rest := rest - multiset{write};
        if write.0 in index && index[write.0].unconfirmed {
          index := index[write.0 := index[write.0].(writeEpoch := execEpoch)];
        }
      }
      assert pendingMirrorWrites - rest == pendingMirrorWrites;
    }

    /** Writes the branch's bytes of each path to the target and records them as clean. */
    method MaterializeRequests(paths: set<Path>)
      requires paths <= head.Keys
      modifies `disk, `index
      ensures Now() == Materialize(old(Now()), paths)
    {
      ghost var s, done: set<Path> := Now(), {};
      var rest := paths;
      WrittenNone(s, done);
      hide Materialize;
      while rest != {}
        invariant rest <= paths && done == paths - rest
        invariant Now() == Materialize(s, done)
        decreases |rest|
      {
        var path :| path in rest;
        WrittenOneMore(s, done, path);
        disk := disk[path := head[path]];
        index := index[path := Clean(head[path])];
        rest, done := rest - {path}, done + {path};
      }
      assert done == paths;
    }

    /** Every file whose mirror write was refused is written again. */
    method RestageDirty()
      requires Inv(Now())
      modifies `disk, `index
      ensures Now() == Materialize(old(Now()), DirtyPaths(old(Now())))
    {
      var requests: set<Path> := {};
      var rest := index.Keys;
      while rest != {}
        invariant rest <= index.Keys
        invariant requests == set p | p in index && p !in rest && index[p].dirty
        decreases |rest|
      {
        var path :| path in rest;
        if index[path].dirty { requests := requests + {path}; }
        rest := rest - {path};
      }
      assert requests == DirtyPaths(Now());
      MaterializeRequests(requests);
    }

    /** One scanned file: a match retires its guard, a mismatch is a lost write or a change. */
    method ClassifyOne(path: Path, observed: Sha, changed0: set<Path>, restage0: set<Path>)
      returns (changed: set<Path>, restage: set<Path>)
      modifies `index
      ensures Sorting(index, changed, restage)
              == Sort(Sorting(old(index), changed0, restage0), path, SeenVerdict(old(Now()), path, observed))
    {
      changed, restage := changed0, restage0;
      if path in index && index[path].sha == observed {
        index := index[path := index[path].(unconfirmed := false, writeEpoch := 0, previous := None)];
        return;
      }
      if path !in index {
        changed := changed + {path};
        return;
      }
      var entry := index[path];
      if entry.unconfirmed && entry.writeEpoch == execEpoch && entry.previous == Some(observed) {
        restage := restage + {path};
      } else if resumeGuard == Some(execEpoch) && !entry.unconfirmed && (path, observed) in lineage {
        restage := restage + {path};
      } else {
        changed := changed + {path};
      }
    }

    /** The first loop of a capture. */
    method ClassifySeen(seen: Disk) returns (changed: set<Path>, restage: set<Path>)
      modifies `index
      ensures Sorting(index, changed, restage) == Sorted(old(Now()), seen)
    {
      changed, restage := {}, {};
      ghost var s, done: Disk := Now(), map[];
      var rest := seen.Keys;
      SortedNone(s, done);
      hide Sorted, Sort, SeenVerdict, Remaining;
      assert Remaining(seen, done, rest) by { AllRemain(seen); }
      while rest != {}
        invariant rest <= seen.Keys && Remaining(seen, done, rest)
        invariant Sorting(index, changed, restage) == Sorted(s, done)
        decreases |rest|
      {
        var path :| path in rest;
        OneFewer(seen, done, rest, path);
        SortedOneMore(s, done, path, seen[path]);
        assert Now() == s.(index := index);
        changed, restage := ClassifyOne(path, seen[path], changed, restage);
        rest, done := rest - {path}, done[path := seen[path]];
      }
      NoneRemain(seen, done);
    }

    /** The second loop, of an authoritative scan: a file the scan did not list was lost or removed. */
    method ClassifyMissing(seen: Disk) returns (restage: set<Path>, deletes: set<Path>)
      ensures restage == MissingAs(Now(), seen, index.Keys, Restage)
      ensures deletes == MissingAs(Now(), seen, index.Keys, Deleted)
    {
      restage, deletes := {}, {};
      ghost var s, done: set<Path> := Now(), {};
      var rest := index.Keys;
      hide MissingAs;
      MissingNone(s, seen, done);
      while rest != {}
        invariant rest <= index.Keys && done == index.Keys - rest
        invariant restage == MissingAs(s, seen, done, Restage)
        invariant deletes == MissingAs(s, seen, done, Deleted)
        decreases |rest|
      {
        var path :| path in rest;
        MissingOneMore(s, seen, done, path);
        rest, done := rest - {path}, done + {path};
        if path in seen {
          continue;
        }
        var entry := index[path];
        if entry.unconfirmed && entry.writeEpoch == execEpoch {
          restage := restage + {path};
        } else if resumeGuard == Some(execEpoch) && !entry.unconfirmed && path in born {
          restage := restage + {path};
        } else {
          deletes := deletes + {path};
        }
      }
      assert done == index.Keys;
    }

    /** The index entries of the paths a commit reports. */
    method Record(writes: Disk, changedPaths: set<Path>)
      modifies `index
      ensures index == Recorded(old(index), writes, changedPaths)
    {
      ghost var was, done: set<Path> := index, {};
      var rest := changedPaths;
      RecordedNone(was, writes, done);
      hide Recorded;
      while rest != {}
        invariant rest <= changedPaths && done == changedPaths - rest
        invariant index == Recorded(was, writes, done)
        decreases |rest|
      {
        var path :| path in rest;
        RecordedOneMore(was, writes, done, path);
        rest, done := rest - {path}, done + {path};
        index := if path in writes then index[path := Clean(writes[path])] else index - {path};
      }
      assert done == changedPaths;
    }

    method Forget(deletes: set<Path>)
      modifies `index
      ensures index == old(index) - deletes
    {
      var rest := deletes;
      while rest != {}
        invariant rest <= deletes && index == old(index) - (deletes - rest)
        decreases |rest|
      {
        var path :| path in rest;
        rest := rest - {path};
        index := index - {path};
      }
    }

    /** Commits the batch, then brings the index up to the paths the commit reports. */
    method Commit(writes: Disk, deletes: set<Path>)
      requires deletes !! writes.Keys
      modifies `head, `lineage, `born, `index
      ensures Now() == CommitCapture(old(Now()), writes, deletes)
    {
      var after := CapturedHead(head, writes, deletes);
      var changedPaths := ChangedPaths(head, after);
      RecordedThenForgotten(index, writes, changedPaths, deletes);
      hide CapturedHead, ChangedPaths, Recorded;
      head := after;
      lineage := lineage + set p | p in after :: (p, after[p]);
      born := born - changedPaths;
      Record(writes, changedPaths);
      Forget(deletes);
    }

    /** A capture up to its first write: scan, and sort what was seen into lists. */
    method Scan(full: bool, seen: Disk)
      requires Inv(Now()) && Enabled(Now(), Event.Scan(full, seen))
      modifies this
      ensures Now() == Next(old(Now()), Event.Scan(full, seen)) && Inv(Now())
    {
      ghost var s := Now();
      NextKeepsInv(s, Event.Scan(full, seen));
      ListsByLoop(s, full, seen);
      hide Inv, IsPart, Confirmations, ToWrite, ToRestage, ToDelete, MissingAs;
      var changed, restage := ClassifySeen(seen);
      var deletes: set<Path> := {};
      assert Now() == s.(index := Confirmations(s, seen));
      if full {
        var lost;
        lost, deletes := ClassifyMissing(seen);
        restage := restage + lost;
      }
      capturing := Some(Lists(full, changed, restage, deletes));
    }

    /** The restage list is written, whatever has happened to those files since the scan. */
    method WriteRestageList()
      requires Inv(Now()) && Enabled(Now(), Restages)
      modifies this
      ensures Now() == Next(old(Now()), Restages) && Inv(Now())
    {
      NextKeepsInv(Now(), Restages);
      hide Inv, Materialize, CanMaterialize;
      MaterializeRequests(capturing.value.restage);
      capturing := Some(capturing.value.(restage := {}));
    }

    /** The changed files are fetched as they are now, and committed if there is anything to commit. */
    method CommitLists()
      requires Inv(Now()) && Enabled(Now(), Commits)
      modifies this
      ensures Now() == Next(old(Now()), Commits) && Inv(Now())
    {
      ghost var s := Now();
      NextKeepsInv(s, Commits);
      NothingToCommit(s);
      hide Inv, CommitCapture;
      var lists := capturing.value;
      if lists.changed != {} || lists.deletes != {} {
        Commit(Fetched(disk, lists.changed), lists.deletes);
      }
      if lists.full { resumeGuard := None; }
      capturing := None;
    }

    /** A capture nothing interrupts. */
    method Capture(full: bool, seen: Disk)
      requires Inv(Now()) && Enabled(Now(), Event.Scan(full, seen))
      requires CanMaterialize(Now(), ToRestage(Now(), full, seen))
      modifies this
      ensures Now() == Captured(old(Now()), full, seen) && Inv(Now())
    {
      CaptureIsItsParts(Now(), full, seen);
      hide Inv, Captured, Committed, CanMaterialize, ToRestage, IsPart, Materialize;
      Scan(full, seen);
      WriteRestageList();
      CommitLists();
    }

    /** Settles the mirror, restages what is dirty, and only then lets the command run. */
    method Exec(after: Disk)
      requires Inv(Now()) && Enabled(Now(), Event.Exec(after))
      modifies this
      ensures Now() == Next(old(Now()), Event.Exec(after)) && Inv(Now())
    {
      NextKeepsInv(Now(), Event.Exec(after));
      hide Materialize, DirtyPaths, CanMaterialize;
      RestageDirty();
      NoteExec();
      disk := after;
    }

    method Reconcile()
      requires Inv(Now()) && Enabled(Now(), Event.Reconcile)
      modifies this
      ensures Now() == Reconciled(old(Now())) && Synced(Now())
    {
      ReconcileConverges(Now());
      ReconciledKeepsInv(Now());
      hide Inv, Materialize, DirtyPaths, CanMaterialize, Captured;
      RestageDirty();
      assert IsPart(disk, disk);
      Capture(true, disk);
    }
  }

  lemma ListsByLoop(s: State, full: bool, seen: Disk)
    requires Inv(s)
    ensures var t, among := s.(index := Confirmations(s, seen)), s.index.Keys;
            && t.index.Keys == among
            && ToRestage(s, full, seen)
               == ToRestage(s, false, seen) + (if full then MissingAs(t, seen, among, Restage) else {})
            && ToDelete(s, full, seen) == (if full then MissingAs(t, seen, among, Deleted) else {})
  {
    var t := s.(index := Confirmations(s, seen));
    forall p | p in s.index && p !in seen
      ensures p in t.index && MissingVerdict(t, p) == MissingVerdict(s, p)
    {
      assert t.index[p] == s.index[p];
    }
    hide MissingVerdict, Confirmations, SeenVerdict, Inv;
  }

  /** A capture that finds nothing changed makes no commit. */
  lemma NothingToCommit(s: State)
    requires Inv(s) && s.capturing.Some?
    ensures var lists := s.capturing.value;
            lists.changed == {} && lists.deletes == {} ==>
              CommitCapture(s, Fetched(s.disk, lists.changed), lists.deletes) == s
  {
    var lists := s.capturing.value;
    if lists.changed == {} && lists.deletes == {} { EmptyCommit(s, Fetched(s.disk, lists.changed), lists.deletes); }
    hide CommitCapture;
  }

  lemma EmptyCommit(t: State, writes: Disk, deletes: set<Path>)
    requires writes == map[] && deletes == {}
    requires forall p | p in t.head :: (p, t.head[p]) in t.lineage
    ensures CommitCapture(t, writes, deletes) == t
  {
    assert CapturedHead(t.head, writes, deletes) == t.head;
    assert ChangedPaths(t.head, t.head) == {};
    assert t.lineage + (set p | p in t.head :: (p, t.head[p])) == t.lineage;
  }

  /** The files of a set a scan did not list, by verdict. */
  function MissingAs(s: State, seen: Disk, among: set<Path>, verdict: Verdict): set<Path> {
    set p | p in among && p !in seen && p in s.index && MissingVerdict(s, p) == verdict
  }

  lemma MissingNone(s: State, seen: Disk, none: set<Path>)
    requires none == {}
    ensures forall verdict :: MissingAs(s, seen, none, verdict) == {}
  {
  }

  lemma MissingOneMore(s: State, seen: Disk, done: set<Path>, path: Path)
    requires path in s.index
    ensures forall verdict :: MissingAs(s, seen, done + {path}, verdict)
              == MissingAs(s, seen, done, verdict)
                 + (if path !in seen && MissingVerdict(s, path) == verdict then {path} else {})
  {
  }

  function Recorded(index: Index, writes: Disk, changedPaths: set<Path>): Index {
    index - changedPaths + CleanEntries(writes, changedPaths)
  }

  lemma RecordedNone(index: Index, writes: Disk, none: set<Path>)
    requires none == {}
    ensures Recorded(index, writes, none) == index
  {
  }

  lemma RecordedOneMore(index: Index, writes: Disk, done: set<Path>, path: Path)
    ensures var before := Recorded(index, writes, done);
            Recorded(index, writes, done + {path})
            == if path in writes then before[path := Clean(writes[path])] else before - {path}
  {
  }

  lemma RecordedThenForgotten(index: Index, writes: Disk, changedPaths: set<Path>, deletes: set<Path>)
    requires deletes !! writes.Keys
    ensures Recorded(index, writes, changedPaths) - deletes
            == (index - (changedPaths + deletes)) + CleanEntries(writes, changedPaths)
  {
  }

  /** A loop over the files of a map: those done, and the paths left. */
  ghost predicate Remaining(all: Disk, done: Disk, rest: set<Path>) {
    rest <= all.Keys && done == all - rest
  }

  lemma AllRemain(all: Disk)
    ensures Remaining(all, map[], all.Keys)
  {
  }

  lemma NoneRemain(all: Disk, done: Disk)
    requires Remaining(all, done, {})
    ensures done == all
  {
  }

  lemma OneFewer(all: Disk, done: Disk, rest: set<Path>, path: Path)
    requires Remaining(all, done, rest) && path in rest
    ensures path !in done && Remaining(all, done[path := all[path]], rest - {path})
  {
  }

  lemma WrittenNone(s: State, none: set<Path>)
    requires none == {}
    ensures Materialize(s, none) == s
  {
    assert s.disk + Bytes(s.head, none) == s.disk && s.index + CleanEntries(s.head, none) == s.index;
  }

  lemma WrittenOneMore(s: State, done: set<Path>, path: Path)
    requires path in s.head
    ensures var t := Materialize(s, done);
            && t.head == s.head
            && Materialize(s, done + {path})
               == t.(disk := t.disk[path := s.head[path]], index := t.index[path := Clean(s.head[path])])
  {
    var head := s.head;
    assert s.disk + Bytes(head, done + {path}) == (s.disk + Bytes(head, done))[path := head[path]];
    assert s.index + CleanEntries(head, done + {path}) == (s.index + CleanEntries(head, done))[path := Clean(head[path])];
  }

  /** What the first loop of a capture has worked out so far. */
  datatype Sorting = Sorting(index: Index, changed: set<Path>, restage: set<Path>)

  function Sorted(s: State, done: Disk): Sorting {
    Sorting(Confirmations(s, done), ToWrite(s, done).Keys, ToRestage(s, false, done))
  }

  function Sort(so: Sorting, path: Path, verdict: Verdict): Sorting {
    match verdict
    case Confirmed => if path in so.index then so.(index := so.index[path := Confirm(so.index[path])]) else so
    case Changed => so.(changed := so.changed + {path})
    case Restage => so.(restage := so.restage + {path})
    case Deleted => so
  }

  lemma SortedNone(s: State, none: Disk)
    requires none == map[]
    ensures Sorted(s, none) == Sorting(s.index, {}, {})
  {
  }

  lemma SortedOneMore(s: State, done: Disk, path: Path, observed: Sha)
    requires path !in done
    ensures var verdict, before := SeenVerdict(s, path, observed), Sorted(s, done);
            && SeenVerdict(s.(index := before.index), path, observed) == verdict
            && Sorted(s, done[path := observed]) == Sort(before, path, verdict)
  {
    ConfirmationsOneMore(s, done, path, observed);
    ListsOneMore(s, done, path, observed);
    hide SeenVerdict, Confirmations, ToWrite, ToRestage;
  }

  lemma ConfirmationsOneMore(s: State, done: Disk, path: Path, observed: Sha)
    requires path !in done
    ensures var verdict, before := SeenVerdict(s, path, observed), Confirmations(s, done);
            && SeenVerdict(s.(index := before), path, observed) == verdict
            && (verdict == Confirmed ==> path in before)
            && Confirmations(s, done[path := observed])
               == if verdict == Confirmed && path in before then before[path := Confirm(before[path])] else before
  {
  }

  lemma ListsOneMore(s: State, done: Disk, path: Path, observed: Sha)
    requires path !in done
    ensures var verdict, after := SeenVerdict(s, path, observed), done[path := observed];
            && verdict != Deleted
            && ToWrite(s, after).Keys == ToWrite(s, done).Keys + (if verdict == Changed then {path} else {})
            && ToRestage(s, false, after) == ToRestage(s, false, done) + (if verdict == Restage then {path} else {})
  {
  }

  lemma OneFewerWrite<T>(all: multiset<T>, rest: multiset<T>, one: T)
    requires rest <= all && one in rest
    ensures all - (rest - multiset{one}) == all - rest + multiset{one} && rest - multiset{one} <= all
  {
  }

  lemma StampedByNone(index: Index, epoch: nat)
    ensures Stamped(index, multiset{}, epoch) == index
  {
  }

  lemma StampedByOneMore(index: Index, writes: multiset<(Path, Sha)>, write: (Path, Sha), epoch: nat)
    ensures var before := Stamped(index, writes, epoch);
            Stamped(index, writes + multiset{write}, epoch)
            == if write.0 in before && before[write.0].unconfirmed
               then before[write.0 := before[write.0].(writeEpoch := epoch)] else before
  {
    assert forall k :: k in writes + multiset{write} <==> k in writes || k == write;
    assert forall p :: InFlight(writes + multiset{write}, p) <==> InFlight(writes, p) || p == write.0;
  }
}
