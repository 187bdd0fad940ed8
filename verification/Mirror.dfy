/**
 * src/sync/engine.ts: one writable mount's branch head, disk mirror and index. Each
 * event is one uninterrupted stretch. A capture is several: it scans and sorts what
 * it saw into lists, writes the restage list, then fetches and commits. Writes, their
 * outcomes and commands come in between.
 */
module Mirror {
  import opened Prelude
  import opened Coherence
  import opened Trees

  type Disk = map<Path, Sha>

  datatype IndexEntry = IndexEntry(
    sha: Sha, dirty: bool, unconfirmed: bool, writeEpoch: nat, previous: Option<Sha>)

  type Index = map<Path, IndexEntry>

  /** What a capture in flight has decided to do, each list fixed when it scanned. */
  datatype Lists = Lists(full: bool, changed: set<Path>, restage: set<Path>, deletes: set<Path>)

  datatype State = State(
    head: Disk,                        // what the branch holds
    disk: Disk,                        // what the target holds
    index: Index,
    pending: multiset<(Path, Sha)>,    // mirror writes in flight
    execEpoch: nat,
    resume: Option<nat>,               // epoch a warm re-acquire was seeded in
    capturing: Option<Lists>,          // the one capture in flight
    lineage: set<(Path, Sha)>,         // digests each path held in the ref's history
    born: set<Path>)                   // paths whose newest commit is a write that created them

  /** An entry nothing is outstanding for. */
  function Clean(sha: Sha): IndexEntry {
    IndexEntry(sha, false, false, 0, None)
  }

  /** A scan saw the written bytes on disk. */
  function Confirm(e: IndexEntry): IndexEntry {
    e.(unconfirmed := false, writeEpoch := 0, previous := None)
  }

  predicate Guarded(s: State, e: IndexEntry) {
    e.unconfirmed && e.writeEpoch == s.execEpoch
  }

  predicate Resuming(s: State) {
    s.resume == Some(s.execEpoch)
  }

  // ---------------------------------------------------------------------
  // Capture.

  datatype Verdict = Confirmed | Changed | Restage | Deleted

  /** A path the scan reported with `observed`. */
  function SeenVerdict(s: State, p: Path, observed: Sha): Verdict {
    if p !in s.index then Changed
    else if s.index[p].sha == observed then Confirmed
    else if Guarded(s, s.index[p]) && s.index[p].previous == Some(observed) then Restage
    else if Resuming(s) && !s.index[p].unconfirmed && (p, observed) in s.lineage then Restage
    else Changed
  }

  /** A path of the index an authoritative scan did not report. */
  function MissingVerdict(s: State, p: Path): Verdict
    requires p in s.index
  {
    if Guarded(s, s.index[p]) then Restage
    else if Resuming(s) && !s.index[p].unconfirmed && p in s.born then Restage
    else Deleted
  }

  function ToWrite(s: State, seen: Disk): Disk {
    map p | p in seen && SeenVerdict(s, p, seen[p]) == Changed :: seen[p]
  }

  function ToRestage(s: State, full: bool, seen: Disk): set<Path> {
    set p | p in seen.Keys + s.index.Keys
         && (if p in seen then SeenVerdict(s, p, seen[p]) == Restage else full && MissingVerdict(s, p) == Restage)
  }

  function ToDelete(s: State, full: bool, seen: Disk): set<Path> {
    set p | p in s.index && p !in seen && full && MissingVerdict(s, p) == Deleted
  }

  function Confirmations(s: State, seen: Disk): Index {
    map p | p in s.index ::
      if p in seen && s.index[p].sha == seen[p] then Confirm(s.index[p]) else s.index[p]
  }

  /** The branch's bytes for some paths, written to the target. */
  function Bytes(head: Disk, paths: set<Path>): Disk {
    map p | p in paths && p in head :: head[p]
  }

  function CleanEntries(head: Disk, paths: set<Path>): Index {
    map p | p in paths && p in head :: Clean(head[p])
  }

  /** The target takes the files: the branch has them and none stands where a directory must. */
  ghost predicate CanMaterialize(s: State, paths: set<Path>) {
    paths <= s.head.Keys && Coherent(s.disk.Keys + paths)
  }

  function Materialize(s: State, paths: set<Path>): State {
    s.(disk := s.disk + Bytes(s.head, paths), index := s.index + CleanEntries(s.head, paths))
  }

  /** The digests a capture leaves at the head: `CaptureTree` without modes. */
  function CapturedHead(head: Disk, writes: Disk, deletes: set<Path>): Disk {
    map p | p in head.Keys + writes.Keys
         && (p in writes || (p !in deletes && forall w | w in writes :: !Collide(w, p))) ::
      if p in writes then writes[p] else head[p]
  }

  function ChangedPaths(before: Disk, after: Disk): set<Path> {
    set p | p in before.Keys + after.Keys && Get(before, p) != Get(after, p)
  }

  /** The commit of a capture, and the index brought up to it. */
  function CommitCapture(s: State, writes: Disk, deletes: set<Path>): State {
    var after := CapturedHead(s.head, writes, deletes);
    var changed := ChangedPaths(s.head, after);
    s.(head := after,
       index := (s.index - (changed + deletes)) + CleanEntries(writes, changed),
       lineage := s.lineage + set p | p in after :: (p, after[p]),
       born := s.born - changed)
  }

  /** The scan of a capture, and the sorting of what it saw. */
  function Scanned(s: State, full: bool, seen: Disk): State {
    s.(index := Confirmations(s, seen),
       capturing := Some(Lists(full, ToWrite(s, seen).Keys, ToRestage(s, full, seen), ToDelete(s, full, seen))))
  }

  /** The restage list has been written. */
  function Restaged(s: State): State
    requires s.capturing.Some?
  {
    Materialize(s, s.capturing.value.restage).(capturing := Some(s.capturing.value.(restage := {})))
  }

  /** The bytes of the changed files, read when they are fetched and not when they were scanned. */
  function Fetched(disk: Disk, changed: set<Path>): Disk {
    map p | p in changed && p in disk :: disk[p]
  }

  /** The changed files are fetched and committed with the deletions. */
  function Committed(s: State): State
    requires s.capturing.Some?
  {
    var lists := s.capturing.value;
    CommitCapture(s, Fetched(s.disk, lists.changed), lists.deletes)
      .(capturing := None, resume := if lists.full then None else s.resume)
  }

  /** A capture with nothing in between. */
  function Captured(s: State, full: bool, seen: Disk): State {
    var staged := Materialize(s.(index := Confirmations(s, seen)), ToRestage(s, full, seen));
    var committed := CommitCapture(staged, ToWrite(s, seen), ToDelete(s, full, seen));
    if full then committed.(resume := None) else committed
  }

  // ---------------------------------------------------------------------
  // Events.

  datatype Event =
    | Write(path: Path, sha: Sha)
    | Lands(path: Path, sha: Sha)
    | Drops(path: Path, sha: Sha)
    | Fails(path: Path, sha: Sha)
    | Exec(after: Disk)
    | HostExec(after: Disk)
    | Outputs(path: Path, left: Option<Sha>)    // a command still running writes a file, or removes it
    | Scan(full: bool, seen: Disk)              // a full scan lists every file, another whatever it listed
    | Restages                                  // the capture in flight writes its restage list
    | Commits                                   // and commits
    | CaptureStops                              // or, full, commits here and fails at another mount
    | CaptureAborts(staged: set<Path>, torn: Disk)  // or fails before it commits
    | RestageAborts(staged: set<Path>, torn: Disk)  // the opening of an `exec` or a `reconcile` that got no further
    | Reconcile

  function DirtyPaths(s: State): set<Path> {
    set p | p in s.index && s.index[p].dirty
  }

  predicate IsPart(part: Disk, whole: Disk) {
    forall p | p in part :: p in whole && part[p] == whole[p]
  }

  function FilesBlocking(disk: Disk, p: Path): set<Path> {
    set q | q in disk && Collide(p, q)
  }

  /**
   * Restaging broken off: some files were written and recorded, and of a chunk
   * that failed some were written, wholly or in part, and not recorded.
   */
  function Interrupted(s: State, staged: set<Path>, torn: Disk): State {
    var t := Materialize(s, staged);
    t.(disk := t.disk + torn)
  }

  ghost predicate CanInterrupt(s: State, requests: set<Path>, staged: set<Path>, torn: Disk) {
    staged + torn.Keys <= requests && staged !! torn.Keys && CanMaterialize(s, staged + torn.Keys)
  }

  /** Restage what is dirty, then a full capture of what is on disk. */
  function Reconciled(s: State): State {
    var staged := Materialize(s, DirtyPaths(s));
    Captured(staged, true, staged.disk)
  }

  ghost predicate CanReconcile(s: State) {
    && s.pending == multiset{}
    && CanMaterialize(s, DirtyPaths(s))
    && var staged := Materialize(s, DirtyPaths(s));
       CanMaterialize(staged, ToRestage(staged, true, staged.disk))
  }

  /** The restage list is written and every changed file is still there to be fetched. */
  predicate CanCommit(s: State) {
    s.capturing.Some? && s.capturing.value.restage == {} && s.capturing.value.changed <= s.disk.Keys
  }

  ghost predicate Enabled(s: State, e: Event) {
    match e
    case Write(p, _) => p != "" && FilesBlocking(s.head, p) == {}
    case Lands(p, sha) => (p, sha) in s.pending && FilesBlocking(s.disk, p) == {}
    case Drops(p, sha) => (p, sha) in s.pending
    case Fails(p, sha) => (p, sha) in s.pending
    case Exec(after) => s.pending == multiset{} && CanMaterialize(s, DirtyPaths(s)) && Coherent(after.Keys)
    case HostExec(after) => Coherent(after.Keys)
    case Outputs(p, sha) => sha.Some? ==> FilesBlocking(s.disk, p) == {}
    case Scan(full, seen) => s.capturing.None? && IsPart(seen, s.disk) && (full ==> seen == s.disk)
    case Restages => s.capturing.Some? && CanMaterialize(s, s.capturing.value.restage)
    case Commits => CanCommit(s)
    case CaptureStops => CanCommit(s) && s.capturing.value.full
    case CaptureAborts(staged, torn) =>
      s.capturing.Some? && CanInterrupt(s, s.capturing.value.restage, staged, torn)
    case RestageAborts(staged, torn) => CanInterrupt(s, DirtyPaths(s), staged, torn)
    case Reconcile => s.capturing.None? && CanReconcile(s)
  }

  /** The entry a write leaves: guarded against the digest a scan last confirmed, not the last written one. */
  function WrittenEntry(s: State, p: Path, sha: Sha): IndexEntry {
    var confirmed :=
      if p !in s.index then None
      else if s.index[p].unconfirmed then s.index[p].previous
      else Some(s.index[p].sha);
    IndexEntry(sha, false, true, s.execEpoch, confirmed)
  }

  predicate InFlight(writes: multiset<(Path, Sha)>, p: Path) {
    exists k | k in writes :: k.0 == p
  }

  /** Entries of writes still in flight keep their guard into the new epoch. */
  function Stamped(index: Index, writes: multiset<(Path, Sha)>, epoch: nat): Index {
    map p | p in index ::
      if InFlight(writes, p) && index[p].unconfirmed then index[p].(writeEpoch := epoch) else index[p]
  }

  /** An exec has run. */
  function NoteExec(s: State): State {
    s.(execEpoch := s.execEpoch + 1, index := Stamped(s.index, s.pending, s.execEpoch + 1))
  }

  function Next(s: State, e: Event): State {
    match e
    case Write(p, sha) =>
      var isNew := p !in s.head;
      var committed := isNew || s.head[p] != sha;
      s.(head := s.head[p := sha],
         index := s.index[p := WrittenEntry(s, p, sha)],
         pending := s.pending + multiset{(p, sha)},
         lineage := s.lineage + {(p, sha)},
         born := if !committed then s.born else if isNew then s.born + {p} else s.born - {p})
    case Lands(p, sha) => s.(disk := s.disk[p := sha], pending := s.pending - multiset{(p, sha)})
    case Drops(p, sha) => s.(pending := s.pending - multiset{(p, sha)})
    case Fails(p, sha) =>
      s.(pending := s.pending - multiset{(p, sha)},
         index := if p in s.index then s.index[p := s.index[p].(dirty := true)] else s.index)
    case Exec(after) => NoteExec(Materialize(s, DirtyPaths(s))).(disk := after)
    case HostExec(after) => NoteExec(s).(disk := after)
    case Outputs(p, sha) => s.(disk := if sha.Some? then s.disk[p := sha.value] else s.disk - {p})
    case Scan(full, seen) => Scanned(s, full, seen)
    case Restages => if s.capturing.Some? then Restaged(s) else s
    case Commits => if s.capturing.Some? then Committed(s) else s
    case CaptureStops => if s.capturing.Some? then Committed(s).(resume := s.resume) else s
    case CaptureAborts(staged, torn) => Interrupted(s, staged, torn).(capturing := None)
    case RestageAborts(staged, torn) => Interrupted(s, staged, torn)
    case Reconcile => Reconciled(s)
  }

  /** The index is a cache of the head; neither side of the mirror holds a file inside a file. */
  ghost predicate Inv(s: State) {
    && Coherent(s.head.Keys) && Coherent(s.disk.Keys)
    && s.index.Keys == s.head.Keys
    && (forall p | p in s.index :: s.index[p].sha == s.head[p])
    && (forall p | p in s.head :: (p, s.head[p]) in s.lineage)
    && (forall p | p in s.index && s.index[p].unconfirmed :: s.index[p].writeEpoch <= s.execEpoch)
    && (s.resume.Some? ==> s.resume.value <= s.execEpoch)
    && (s.capturing.Some? ==> ListsOk(s.capturing.value, s.head))
  }

  /** No path is on two lists, and what is to be restaged the branch has. */
  predicate ListsOk(lists: Lists, head: Disk) {
    && lists.changed !! lists.restage && lists.changed !! lists.deletes && lists.restage !! lists.deletes
    && lists.restage <= head.Keys
  }
}
