/** What the mirror's three states come to, over one reconcile and over whole runs. */
module MirrorLaws {
  import opened Prelude
  import opened Coherence
  import opened Trees
  import opened Mirror

  // ---------------------------------------------------------------------
  // The index stays a cache of the head.

  lemma MaterializeKeepsInv(s: State, paths: set<Path>)
    requires Inv(s) && CanMaterialize(s, paths)
    ensures Inv(Materialize(s, paths))
    ensures Materialize(s, paths).disk.Keys == s.disk.Keys + paths && Materialize(s, paths).capturing == s.capturing
    ensures forall p | p in paths :: Materialize(s, paths).disk[p] == s.head[p]
    ensures forall p | p in s.disk && p !in paths :: Materialize(s, paths).disk[p] == s.disk[p]
  {
    assert Materialize(s, paths).disk.Keys == s.disk.Keys + paths;
    assert Materialize(s, paths).index.Keys == s.index.Keys;
  }

  lemma ConfirmKeepsInv(s: State, seen: Disk)
    requires Inv(s)
    ensures Inv(s.(index := Confirmations(s, seen)))
  {
  }

  lemma CapturedHeadIsCoherent(head: Disk, writes: Disk, deletes: set<Path>)
    requires Coherent(head.Keys) && Coherent(writes.Keys)
    ensures Coherent(CapturedHead(head, writes, deletes).Keys)
  {
    var after := CapturedHead(head, writes, deletes);
    forall p, q | p in after && q in after
      ensures !Under(p, q)
    {
      if p in writes && q !in writes { assert !Collide(p, q); }
      if q in writes && p !in writes { assert !Collide(q, p); }
    }
  }

  /** The digests of the tree the kernel's capture builds are the head a capture of this mount leaves. */
  lemma CaptureIsTheKernels(heads: Tree, writes: seq<(Path, Sha)>, deletes: seq<Path>, batch: Disk, gone: set<Path>)
    requires batch.Keys == WrittenPaths(writes) && forall p | p in batch :: batch[p] == LastSha(writes, p)
    requires forall p :: p in gone <==> p in deletes
    ensures Shas(CaptureTree(heads, writes, deletes)) == CapturedHead(Shas(heads), batch, gone)
  {
    var left, right := Shas(CaptureTree(heads, writes, deletes)), CapturedHead(Shas(heads), batch, gone);
    assert Shas(heads).Keys == heads.Keys;
    forall p
      ensures p in left <==> p in right
      ensures p in left ==> left[p] == right[p]
    {
      assert p in heads ==> (Survives(heads, writes, deletes, p) <==>
                             p !in gone && forall w | w in batch :: !Collide(w, p));
      CapturedHeadPath(Shas(heads), batch, gone, p);
    }
  }

  lemma CommitKeepsInv(s: State, writes: Disk, deletes: set<Path>)
    requires Inv(s) && Coherent(writes.Keys) && deletes !! writes.Keys
    requires s.capturing.Some? ==> s.capturing.value.restage == {}
    ensures Inv(CommitCapture(s, writes, deletes))
  {
    hide Coherent;
    CapturedHeadIsCoherent(s.head, writes, deletes);
    var after := CapturedHead(s.head, writes, deletes);
    var s' := CommitCapture(s, writes, deletes);
    forall p
      ensures p in s'.index <==> p in after
      ensures p in s'.index ==> s'.index[p].sha == after[p]
    {
      CommittedEntry(s, writes, deletes, p);
    }
    CommitFrame(s, writes, deletes);
    hide CommitCapture, CapturedHead;
  }

  lemma CommitFrame(s: State, writes: Disk, deletes: set<Path>)
    ensures var after, t := CapturedHead(s.head, writes, deletes), CommitCapture(s, writes, deletes);
            && t == s.(head := after, index := t.index, lineage := t.lineage, born := t.born)
            && (forall p | p in after :: (p, after[p]) in t.lineage)
            && forall p | p in t.index :: (p in s.index && t.index[p] == s.index[p]) || !t.index[p].unconfirmed
  {
    hide CapturedHead;
  }

  /** One path of the index after a capture: written, left alone, or gone. */
  lemma CommittedEntry(s: State, writes: Disk, deletes: set<Path>, p: Path)
    requires s.index.Keys == s.head.Keys && forall q | q in s.index :: s.index[q].sha == s.head[q]
    requires deletes !! writes.Keys
    ensures var after, s' := CapturedHead(s.head, writes, deletes), CommitCapture(s, writes, deletes);
            && (p in s'.index <==> p in after)
            && (p in after ==>
                  s'.index[p] == if Get(s.head, p) == Get(after, p) then s.index[p] else Clean(writes[p]))
            && (p in after && p !in writes ==> Get(s.head, p) == Get(after, p))
            && (p in after ==> s'.index[p].sha == after[p])
  {
    var after := CapturedHead(s.head, writes, deletes);
    var changed := ChangedPaths(s.head, after);
    assert p in changed <==> Get(s.head, p) != Get(after, p);
  }

  lemma SeenIsCoherent(seen: Disk, disk: Disk)
    requires IsPart(seen, disk) && Coherent(disk.Keys)
    ensures Coherent(seen.Keys)
  {
  }

  lemma CapturedKeepsInv(s: State, full: bool, seen: Disk)
    requires Inv(s) && s.capturing.None? && IsPart(seen, s.disk) && CanMaterialize(s, ToRestage(s, full, seen))
    ensures Inv(Captured(s, full, seen))
  {
    hide Materialize, CommitCapture, Coherent;
    SeenIsCoherent(seen, s.disk);
    var confirmed := s.(index := Confirmations(s, seen));
    ConfirmKeepsInv(s, seen);
    var restage := ToRestage(s, full, seen);
    MaterializeKeepsInv(confirmed, restage);
    PartIsCoherent(ToWrite(s, seen).Keys, seen.Keys);
    CommitKeepsInv(Materialize(confirmed, restage), ToWrite(s, seen), ToDelete(s, full, seen));
  }

  lemma PartIsCoherent(part: set<Path>, whole: set<Path>)
    requires part <= whole && Coherent(whole)
    ensures Coherent(part)
  {
  }

  lemma ListsAreApart(s: State, full: bool, seen: Disk)
    requires Inv(s)
    ensures ListsOk(Lists(full, ToWrite(s, seen).Keys, ToRestage(s, full, seen), ToDelete(s, full, seen)), s.head)
  {
  }

  lemma ScanKeepsInv(s: State, full: bool, seen: Disk)
    requires Inv(s)
    ensures Inv(Scanned(s, full, seen))
  {
    ListsAreApart(s, full, seen);
    ConfirmKeepsInv(s.(capturing := None), seen);
    hide ToWrite, ToRestage, ToDelete, Confirmations, Coherent;
  }

  lemma RestagesKeepsInv(s: State)
    requires Inv(s) && Enabled(s, Restages)
    ensures Inv(Restaged(s))
  {
    MaterializeKeepsInv(s, s.capturing.value.restage);
    hide Materialize, Coherent, CanMaterialize;
  }

  lemma FetchedIsCoherent(disk: Disk, changed: set<Path>)
    requires Coherent(disk.Keys)
    ensures Coherent(Fetched(disk, changed).Keys)
  {
    PartIsCoherent(Fetched(disk, changed).Keys, disk.Keys);
  }

  lemma CommitsKeepsInv(s: State)
    requires Inv(s) && CanCommit(s)
    ensures Inv(Committed(s)) && Inv(Committed(s).(resume := s.resume))
  {
    var lists := s.capturing.value;
    FetchedIsCoherent(s.disk, lists.changed);
    CommitKeepsInv(s, Fetched(s.disk, lists.changed), lists.deletes);
    hide CommitCapture, Coherent, Fetched;
  }

  lemma AbortKeepsInv(s: State, staged: set<Path>, torn: Disk)
    requires Inv(s) && Enabled(s, CaptureAborts(staged, torn))
    ensures Inv(Next(s, CaptureAborts(staged, torn)))
  {
    InterruptKeepsInv(s, s.capturing.value.restage, staged, torn);
    hide Interrupted, Coherent, CanInterrupt;
  }

  /** With nothing in between, the parts make the whole. */
  lemma CaptureIsItsParts(s: State, full: bool, seen: Disk)
    requires Inv(s) && s.capturing.None? && IsPart(seen, s.disk) && CanMaterialize(s, ToRestage(s, full, seen))
    ensures Committed(Restaged(Scanned(s, full, seen))) == Captured(s, full, seen)
    ensures CanCommit(Restaged(Scanned(s, full, seen)))
  {
    ListsAreApart(s, full, seen);
    var scanned := Scanned(s, full, seen);
    var restaged := Restaged(scanned);
    var writes, deletes, restage := ToWrite(s, seen), ToDelete(s, full, seen), ToRestage(s, full, seen);
    MaterializeKeepsInv(s, restage);
    assert forall p | p in writes :: p in seen && writes[p] == seen[p] == s.disk[p];
    SameBytes(s, restage, writes);
    hide ToWrite, ToDelete, ToRestage, Confirmations, Coherent, CanMaterialize, IsPart;
    var plain := Materialize(s.(index := Confirmations(s, seen)), restage);
    assert restaged == plain.(capturing := restaged.capturing);
    CommitIgnoresLists(plain, writes, deletes, restaged.capturing);
    hide CommitCapture, Materialize, Fetched;
  }

  lemma SameBytes(s: State, restage: set<Path>, writes: Disk)
    requires writes.Keys !! restage && forall p | p in writes :: p in s.disk && s.disk[p] == writes[p]
    ensures writes.Keys <= (s.disk + Bytes(s.head, restage)).Keys
    ensures Fetched(s.disk + Bytes(s.head, restage), writes.Keys) == writes
  {
  }

  lemma CommitIgnoresLists(s: State, writes: Disk, deletes: set<Path>, capturing: Option<Lists>)
    ensures CommitCapture(s.(capturing := capturing), writes, deletes)
            == CommitCapture(s, writes, deletes).(capturing := capturing)
  {
  }

  lemma ReconciledKeepsInv(s: State)
    requires Inv(s) && s.capturing.None? && CanReconcile(s)
    ensures Inv(Materialize(s, DirtyPaths(s))) && Inv(Reconciled(s)) && Materialize(s, DirtyPaths(s)).capturing.None?
  {
    hide Materialize, Captured;
    MaterializeKeepsInv(s, DirtyPaths(s));
    var staged := Materialize(s, DirtyPaths(s));
    CapturedKeepsInv(staged, true, staged.disk);
  }

  lemma InterruptKeepsInv(s: State, requests: set<Path>, staged: set<Path>, torn: Disk)
    requires Inv(s) && CanInterrupt(s, requests, staged, torn)
    ensures Inv(Interrupted(s, staged, torn))
    ensures Interrupted(s, staged, torn).disk.Keys == s.disk.Keys + staged + torn.Keys
  {
    PartIsCoherent(s.disk.Keys + staged, s.disk.Keys + (staged + torn.Keys));
    MaterializeKeepsInv(s, staged);
    assert Interrupted(s, staged, torn).disk.Keys == s.disk.Keys + (staged + torn.Keys);
  }

  lemma NextKeepsInv(s: State, e: Event)
    requires Inv(s) && Enabled(s, e)
    ensures Inv(Next(s, e))
  {
    match e
    case Write(p, sha) => WriteKeepsInv(s, p, sha);
    case Lands(p, sha) => LandKeepsInv(s, p, sha);
    case Drops(_, _) =>
    case Fails(_, _) =>
    case Exec(after) => MaterializeKeepsInv(s, DirtyPaths(s)); NoteExecKeepsInv(Materialize(s, DirtyPaths(s)), after);
    case HostExec(after) => NoteExecKeepsInv(s, after);
    case Outputs(p, sha) => OutputKeepsInv(s, p, sha);
    case Scan(full, seen) => ScanKeepsInv(s, full, seen);
    case Restages => RestagesKeepsInv(s);
    case Commits => CommitsKeepsInv(s);
    case CaptureStops => CommitsKeepsInv(s);
    case CaptureAborts(staged, torn) => AbortKeepsInv(s, staged, torn);
    case RestageAborts(staged, torn) => InterruptKeepsInv(s, DirtyPaths(s), staged, torn);
    case Reconcile => ReconciledKeepsInv(s);
  }

  lemma AddingKeepsCoherence(disk: Disk, p: Path)
    requires Coherent(disk.Keys) && FilesBlocking(disk, p) == {}
    ensures Coherent(disk.Keys + {p})
  {
    forall q | q in disk
      ensures !Collide(p, q)
    {
      assert q !in FilesBlocking(disk, p);
    }
  }

  lemma WriteKeepsInv(s: State, p: Path, sha: Sha)
    requires Inv(s) && Enabled(s, Event.Write(p, sha))
    ensures Inv(Next(s, Event.Write(p, sha)))
  {
    AddingKeepsCoherence(s.head, p);
    assert s.head[p := sha].Keys == s.head.Keys + {p};
  }

  lemma LandKeepsInv(s: State, p: Path, sha: Sha)
    requires Inv(s) && Enabled(s, Lands(p, sha))
    ensures Inv(Next(s, Lands(p, sha)))
  {
    AddingKeepsCoherence(s.disk, p);
    assert s.disk[p := sha].Keys == s.disk.Keys + {p};
  }

  lemma OutputKeepsInv(s: State, p: Path, sha: Option<Sha>)
    requires Inv(s) && Enabled(s, Outputs(p, sha))
    ensures Inv(Next(s, Outputs(p, sha)))
  {
    if sha.Some? {
      AddingKeepsCoherence(s.disk, p);
      assert s.disk[p := sha.value].Keys == s.disk.Keys + {p};
    } else {
      PartIsCoherent((s.disk - {p}).Keys, s.disk.Keys);
    }
  }

  lemma NoteExecKeepsInv(s: State, after: Disk)
    requires Inv(s) && Coherent(after.Keys)
    ensures Inv(NoteExec(s).(disk := after))
  {
  }

  // ---------------------------------------------------------------------
  // Reconcile converges.

  /** Head, disk and index hold exactly the same files, with nothing outstanding. */
  ghost predicate Synced(s: State) {
    && s.head == s.disk
    && s.index == CleanEntries(s.head, s.head.Keys)
  }

  /** One path after the confirmations and the restaging of a capture. */
  lemma StagedPath(s: State, seen: Disk, restage: set<Path>, p: Path)
    requires Inv(s) && restage <= s.head.Keys
    ensures var staged := Materialize(s.(index := Confirmations(s, seen)), restage);
            && Get(staged.disk, p) == (if p in restage then Some(s.head[p]) else Get(s.disk, p))
            && Get(staged.index, p) ==
               (if p in restage then Some(Clean(s.head[p]))
                else if p !in s.index then None
                else if Get(seen, p) == Some(s.head[p]) then Some(Confirm(s.index[p]))
                else Some(s.index[p]))
            && staged.head == s.head
  {
  }

  /** The three copies of a path after a capture, by the list the path was on. */
  lemma CapturedCopies(s: State, full: bool, seen: Disk, p: Path)
    requires Inv(s) && s.capturing.None? && IsPart(seen, s.disk) && CanMaterialize(s, ToRestage(s, full, seen))
    ensures var s' := Captured(s, full, seen);
            var writes, deletes, restage := ToWrite(s, seen), ToDelete(s, full, seen), ToRestage(s, full, seen);
            if p in writes then
              Get(s'.head, p) == Get(s'.disk, p) == Get(seen, p) && Get(s'.index, p) == Some(Clean(writes[p]))
            else if p in restage then
              Get(s'.head, p) == Get(s'.disk, p) == Get(s.head, p) && Get(s'.index, p) == Some(Clean(s.head[p]))
            else
              && Get(s'.disk, p) == Get(s.disk, p)
              && if p in deletes || p !in s.head then p !in s'.head && p !in s'.index
                 else (p in s.disk || forall w | w in writes :: !Collide(w, p)) ==>
                   && Get(s'.head, p) == Get(s.head, p)
                   && Get(s'.index, p) ==
                      Some(if Get(seen, p) == Some(s.head[p]) then Confirm(s.index[p]) else s.index[p])
  {
    var restage := ToRestage(s, full, seen);
    var writes, deletes := ToWrite(s, seen), ToDelete(s, full, seen);
    var confirmed := s.(index := Confirmations(s, seen));
    ConfirmKeepsInv(s, seen);
    MaterializeKeepsInv(confirmed, restage);
    var staged := Materialize(confirmed, restage);
    ListedOn(s, full, seen, p);
    if p in s.disk || p in restage { NothingLandedHides(s, full, seen, p); }
    hide Materialize, CommitCapture, CapturedHead, Coherent, CanMaterialize;
    StagedPath(s, seen, restage, p);
    CommittedEntry(staged, writes, deletes, p);
    CapturedHeadPath(s.head, writes, deletes, p);
    hide ToWrite, ToRestage, ToDelete, Confirmations, SeenVerdict, MissingVerdict, Collide, IsPart, CleanEntries;
  }

  lemma CapturedHeadPath(head: Disk, writes: Disk, deletes: set<Path>, p: Path)
    ensures Get(CapturedHead(head, writes, deletes), p) ==
            (if p in writes then Some(writes[p])
             else if p in head && p !in deletes && forall w | w in writes :: !Collide(w, p) then Some(head[p])
             else None)
  {
  }

  /** A file still on the target after restaging is inside no file the capture commits. */
  lemma NothingLandedHides(s: State, full: bool, seen: Disk, p: Path)
    requires Inv(s) && IsPart(seen, s.disk) && CanMaterialize(s, ToRestage(s, full, seen))
    requires p in s.disk || p in ToRestage(s, full, seen)
    ensures forall w | w in ToWrite(s, seen) :: !Collide(w, p)
  {
    forall w | w in ToWrite(s, seen)
      ensures !Collide(w, p)
    {
      assert w in s.disk.Keys + ToRestage(s, full, seen);
    }
  }

  /** Which of the three lists of a capture a path is on. */
  lemma ListedOn(s: State, full: bool, seen: Disk, p: Path)
    requires Inv(s)
    ensures p in ToWrite(s, seen) <==> p in seen && SeenVerdict(s, p, seen[p]) == Changed
    ensures p in ToWrite(s, seen) ==> ToWrite(s, seen)[p] == seen[p]
    ensures p in ToRestage(s, full, seen) <==>
            (p in seen && SeenVerdict(s, p, seen[p]) == Restage)
            || (full && p !in seen && p in s.index && MissingVerdict(s, p) == Restage)
    ensures p in ToDelete(s, full, seen) <==> full && p !in seen && p in s.index && MissingVerdict(s, p) == Deleted
  {
  }

  /** What a full capture agrees on for a path: the disk's answer unless the path is restaged. */
  function Agreed(s: State, p: Path): Option<Sha> {
    if p in s.disk then
      if SeenVerdict(s, p, s.disk[p]) == Restage then Get(s.head, p) else Some(s.disk[p])
    else if p in s.index && MissingVerdict(s, p) == Restage then Get(s.head, p)
    else None
  }

  lemma CapturedPath(s: State, p: Path)
    requires Inv(s) && s.capturing.None? && CanMaterialize(s, ToRestage(s, true, s.disk))
    ensures var s' := Captured(s, true, s.disk);
            && Get(s'.head, p) == Agreed(s, p)
            && Get(s'.disk, p) == Agreed(s, p)
            && (p in s'.index && !(p in s.index && s.index[p].dirty) ==> s'.index[p] == Clean(s'.index[p].sha))
  {
    CapturedCopies(s, true, s.disk, p);
    ListedOn(s, true, s.disk, p);
    hide Captured, ToWrite, ToRestage, ToDelete, Coherent, CanMaterialize, Collide, IsPart;
  }

  /** After a successful reconcile of a quiescent mount the three agree, whatever they held before. */
  lemma ReconcileConverges(s: State)
    requires Inv(s) && s.capturing.None? && CanReconcile(s)
    ensures Synced(Reconciled(s))
  {
    hide Captured, Materialize, CanMaterialize;
    var staged := Materialize(s, DirtyPaths(s));
    ReconciledKeepsInv(s);
    DirtyIsRestaged(s);
    var s' := Reconciled(s);
    forall p
      ensures Get(s'.head, p) == Get(s'.disk, p)
      ensures p in s'.index ==> s'.index[p] == Clean(s'.index[p].sha)
    {
      CapturedPath(staged, p);
    }
    forall p
      ensures p in s'.head <==> p in s'.disk
      ensures p in s'.head ==> s'.head[p] == s'.disk[p]
    {
      assert Get(s'.head, p) == Get(s'.disk, p);
    }
    assert s'.index == CleanEntries(s'.head, s'.head.Keys);
  }

  lemma DirtyIsRestaged(s: State)
    requires Inv(s) && CanMaterialize(s, DirtyPaths(s))
    ensures forall q | q in Materialize(s, DirtyPaths(s)).index :: !Materialize(s, DirtyPaths(s)).index[q].dirty
  {
  }
}
