/**
 * src/kernel.ts and src/session.ts: the optimistic commit protocol on refs, the
 * heads cache, branch lifecycle and collection, as steps that interleave freely.
 * A SQL statement or an explicitly locked transaction is one step; what a
 * transaction has written shows when it commits.
 */
module Store {
  import opened Prelude
  import opened Coherence
  import opened Trees
  import opened CommitGraph
  import opened Stale
  import Merge
  import GcSweep

  type Name = string

  datatype RefState = Open | Merged | Unauthorized | Abandoned

  /** A branch forked from a mount has a base; a mount ref has none. */
  datatype Ref = Ref(tip: Id, base: Option<Id>, state: RefState)

  /**
   * The tables, and every commit row ever inserted: ids come from a sequence, so
   * the id of a collected row is not used again. A name without heads rows has an
   * empty heads cache; a name may have heads rows and no ref.
   */
  datatype Db = Db(commits: Commits, refs: map<Name, Ref>, heads: map<Name, map<Path, Sha>>, inserted: Commits)

  /**
   * A writer inside its transaction. A restore looks its source commit up and then,
   * in a statement of its own, reads that commit's tree; `stored` remembers whether
   * the commit was still there to be read.
   */
  datatype Writer =
    | RefLoaded(name: Name, request: Request, seen: Id)
    | Restoring(name: Name, request: Request, seen: Id, heads: Tree, found: bool)
    | HeadsLoaded(name: Name, request: Request, seen: Id, heads: Tree, source: Option<Tree>, stored: bool)

  /**
   * A collector's transaction between its two deletions: the refs it will delete,
   * each with the paths of the heads rows its first statement deleted. Those rows
   * are locked, and gone for others once it commits.
   */
  type Collection = map<Name, set<Path>>

  datatype System = System(db: Db, writers: map<nat, Writer>, collector: Option<Collection>)

  datatype Stamp = Stamp(author: string, at: int)

  datatype Step =
    | LoadRef(w: nat, name: Name, request: Request)
    | LoadHeads(w: nat)
    | FindSource(w: nat)
    | ReadSource(w: nat)
    | Publish(w: nat, id: Id, stamp: Stamp)
    | Withdraw(w: nat)
    | Fork(mount: Name, branch: Name, genesis: Id, stamp: Stamp)
    | MergeBranch(branch: Name, mount: Name, id: Id, stamp: Stamp)
    | Settle(name: Name, state: RefState)
    | CollectHeads(names: set<Name>)
    | CollectRefs
    | CollectAborts
    | CollectCommits(cutoff: int, limit: nat, batch: set<Id>)

  function HeadsOf(db: Db, name: Name): map<Path, Sha> {
    if name in db.heads then db.heads[name] else map[]
  }

  /** `loadHeads`: digests from the cache, modes from the tree of the commit the ref was seen at. */
  function LoadedHeads(db: Db, name: Name, seen: Id): Tree {
    var cached := HeadsOf(db, name);
    map p | p in cached :: Entry(cached[p], if seen in db.commits then ModeOf(db.commits[seen].tree, p) else DEFAULT_MODE)
  }

  /** A writer with all it loads before it plans: a restore has its source still to find. */
  function WithHeads(name: Name, request: Request, seen: Id, heads: Tree): Writer {
    if request.Restore? then Restoring(name, request, seen, heads, false)
    else HeadsLoaded(name, request, seen, heads, None, true)
  }

  function WithSource(db: Db, writer: Writer): Writer
    requires writer.Restoring? && writer.request.Restore?
  {
    var Restoring(name, request, seen, heads, found) := writer;
    if !found then
      if request.source in db.commits then writer.(found := true) else HeadsLoaded(name, request, seen, heads, None, true)
    else HeadsLoaded(name, request, seen, heads, Some(TreeOf(db, request.source)), request.source in db.commits)
  }

  function OpName(request: Request): string {
    match request
    case Write(_, _, _) => "write"
    case Delete(_, _) => "delete"
    case Capture(_, _) => "capture"
    case Restore(_) => "restore"
  }

  /** The row `insertCommit` yields: the one with this content, or a new one numbered after the parents. */
  ghost predicate CanInsert(db: Db, id: Id, c: Commit) {
    if id in db.commits then db.commits[id] == c
    else
      && id !in db.inserted
      && (forall k | k in db.commits :: db.commits[k] != c)
      && forall i | 0 <= i < |c.parents| :: c.parents[i] < id
  }

  function Inserted(db: Db, id: Id, c: Commit): Db {
    db.(commits := db.commits[id := c], inserted := db.inserted[id := c])
  }

  ghost function PlannedCommit(writer: Writer, stamp: Stamp): Commit
    requires writer.HeadsLoaded? && Plan(writer.request, writer.heads, writer.source).NewTree?
  {
    Commit(Plan(writer.request, writer.heads, writer.source).tree, [writer.seen], OpName(writer.request),
           stamp.author, stamp.at)
  }

  function TreeOf(db: Db, id: Id): Tree {
    if id in db.commits then db.commits[id].tree else map[]
  }

  function Genesis(stamp: Stamp): Commit {
    Commit(map[], [], "import", stamp.author, stamp.at)
  }

  function MergeCommit(db: Db, branch: Name, mount: Name, stamp: Stamp): Commit
    requires branch in db.refs && mount in db.refs && db.refs[branch].base.Some?
  {
    Commit(MergeResult(db, branch, mount), [db.refs[mount].tip, db.refs[branch].tip], "merge", stamp.author, stamp.at)
  }

  function MergeResult(db: Db, branch: Name, mount: Name): Tree
    requires branch in db.refs && mount in db.refs && db.refs[branch].base.Some?
  {
    Merge.MergedTree(TreeOf(db, db.refs[branch].base.value), TreeOf(db, db.refs[branch].tip),
                     TreeOf(db, db.refs[mount].tip))
  }

  /** The ref with only its state changed. */
  function Settling(db: Db, name: Name, state: RefState): Db
    requires name in db.refs
  {
    db.(refs := db.refs[name := db.refs[name].(state := state)])
  }

  /** The store with one ref moved to a new commit and its cache replaced. */
  function Advanced(db: Db, name: Name, id: Id, c: Commit, heads: map<Path, Sha>): Db
    requires name in db.refs
  {
    Inserted(db, id, c).(refs := db.refs[name := db.refs[name].(tip := id)], heads := db.heads[name := heads])
  }

  /** Both refs are locked, the branch is open, and the three-way merge goes through. */
  ghost predicate CanMerge(db: Db, branch: Name, mount: Name, id: Id, stamp: Stamp) {
    && branch in db.refs && mount in db.refs && branch != mount
    && db.refs[branch].state == Open && db.refs[branch].base.Some?
    && Merge.Mergeable(TreeOf(db, db.refs[branch].base.value), TreeOf(db, db.refs[branch].tip),
                       TreeOf(db, db.refs[mount].tip))
    && (MergeResult(db, branch, mount) == TreeOf(db, db.refs[mount].tip)
        || (id !in db.commits && CanInsert(db, id, MergeCommit(db, branch, mount, stamp))))
  }

  /** A merge that changes nothing only settles the branch; any other also moves the mount. */
  function MergedDb(db: Db, branch: Name, mount: Name, id: Id, stamp: Stamp): Db
    requires branch in db.refs && mount in db.refs && db.refs[branch].base.Some?
  {
    var settled := Settling(db, branch, Merged);
    if MergeResult(db, branch, mount) == TreeOf(db, db.refs[mount].tip) then settled
    else
      var c := MergeCommit(db, branch, mount, stamp);
      Advanced(settled, mount, id, c, Shas(c.tree))
  }

  /** `fork` makes the mount ref with an empty genesis commit if there is none. */
  function WithMount(db: Db, mount: Name, genesis: Id, stamp: Stamp): Db {
    if mount in db.refs then db
    else Inserted(db, genesis, Genesis(stamp)).(refs := db.refs[mount := Ref(genesis, None, Open)])
  }

  /** A branch at the mount's tip, its cache seeded from that commit's tree. */
  function Branched(db: Db, mount: Name, branch: Name): Db
    requires mount in db.refs
  {
    var tip := db.refs[mount].tip;
    db.(refs := db.refs[branch := Ref(tip, Some(tip), Open)],
        heads := db.heads[branch := Shas(TreeOf(db, tip)) + HeadsOf(db, branch)])
  }

  /** The rows a publication writes are none the collector has locked. */
  predicate Unblocked(collector: Option<Collection>, name: Name, request: Request) {
    collector.Some? && name in collector.value ==>
      match request
      case Write(path, _, _) => path !in collector.value[name]
      case Delete(path, _) => path !in collector.value[name]
      case Capture(_, _) => collector.value[name] == {}
      case Restore(_) => collector.value[name] == {}
  }

  function RowsFound(db: Db, names: set<Name>): Collection {
    map n | n in names :: HeadsOf(db, n).Keys
  }

  /** The collector commits: its refs go, and of their heads rows those it had found. */
  function Collected(db: Db, rows: Collection): Db {
    db.(refs := db.refs - rows.Keys,
        heads := map n | n in db.heads :: if n in rows then db.heads[n] - rows[n] else db.heads[n])
  }

  function Tips(db: Db): set<Id> {
    set n | n in db.refs :: db.refs[n].tip
  }

  function Bases(db: Db): set<Id> {
    set n | n in db.refs && db.refs[n].base.Some? :: db.refs[n].base.value
  }

  function RootsOf(db: Db, cutoff: int): GcSweep.Roots {
    GcSweep.Roots(Tips(db), Bases(db), cutoff)
  }

  ghost predicate Enabled(s: System, step: Step) {
    var db := s.db;
    match step
    case LoadRef(w, name, request) =>
      w !in s.writers && name in db.refs && db.refs[name].state == Open
    case LoadHeads(w) =>
      w in s.writers && s.writers[w].RefLoaded?
    case FindSource(w) =>
      w in s.writers && s.writers[w].Restoring? && s.writers[w].request.Restore? && !s.writers[w].found
    case ReadSource(w) =>
      w in s.writers && s.writers[w].Restoring? && s.writers[w].request.Restore? && s.writers[w].found
    case Publish(w, id, stamp) =>
      && w in s.writers && s.writers[w].HeadsLoaded?
      && var writer := s.writers[w];
      && Plan(writer.request, writer.heads, writer.source).NewTree?
      && writer.name in db.refs && db.refs[writer.name].tip == writer.seen
      && Unblocked(s.collector, writer.name, writer.request)
      && CanInsert(db, id, PlannedCommit(writer, stamp))
    case Withdraw(w) => w in s.writers
    case Fork(mount, branch, genesis, stamp) =>
      && branch !in db.refs && mount != branch
      && (mount in db.refs || CanInsert(db, genesis, Genesis(stamp)))
    case MergeBranch(branch, mount, id, stamp) => CanMerge(db, branch, mount, id, stamp)
    case Settle(name, state) =>
      name in db.refs && db.refs[name].base.Some? && db.refs[name].state == Open && state in {Unauthorized, Abandoned}
    case CollectHeads(names) =>
      s.collector.None? && forall n | n in names :: n in db.refs && db.refs[n].state != Open
    case CollectRefs => s.collector.Some?
    case CollectAborts => s.collector.Some?
    case CollectCommits(cutoff, limit, batch) =>
      GcSweep.IsBatch(db.commits, GcSweep.Doomed(db.commits, RootsOf(db, cutoff)), limit, batch)
  }

  ghost function Apply(s: System, step: Step): System
    requires Enabled(s, step)
  {
    var db := s.db;
    match step
    case LoadRef(w, name, request) =>
      s.(writers := s.writers[w := RefLoaded(name, request, db.refs[name].tip)])
    case LoadHeads(w) =>
      var RefLoaded(name, request, seen) := s.writers[w];
      s.(writers := s.writers[w := WithHeads(name, request, seen, LoadedHeads(db, name, seen))])
    case FindSource(w) => s.(writers := s.writers[w := WithSource(db, s.writers[w])])
    case ReadSource(w) => s.(writers := s.writers[w := WithSource(db, s.writers[w])])
    case Publish(w, id, stamp) =>
      var writer := s.writers[w];
      var c := PlannedCommit(writer, stamp);
      s.(db := Advanced(db, writer.name, id, c, UpdatedHeads(writer.request, HeadsOf(db, writer.name), c.tree)),
         writers := s.writers - {w})
    case Withdraw(w) => s.(writers := s.writers - {w})
    case Fork(mount, branch, genesis, stamp) =>
      s.(db := Branched(WithMount(db, mount, genesis, stamp), mount, branch))
    case MergeBranch(branch, mount, id, stamp) => s.(db := MergedDb(db, branch, mount, id, stamp))
    case Settle(name, state) => s.(db := Settling(db, name, state))
    case CollectHeads(names) => s.(collector := Some(RowsFound(db, names)))
    case CollectRefs => s.(db := Collected(db, s.collector.value), collector := None)
    case CollectAborts => s.(collector := None)
    case CollectCommits(_, _, batch) =>
      s.(db := db.(commits := GcSweep.Without(db.commits, batch)))
  }

  // ---------------------------------------------------------------------
  // Invariants.

  /** No commit is missing a parent, a parentless one is empty, and every stored row was inserted as it is. */
  ghost predicate RowsOk(db: Db) {
    && Closed(db.commits)
    && (forall id | id in db.commits && db.commits[id].parents == [] :: db.commits[id].tree == map[])
    && (forall id | id in db.commits :: id in db.inserted && db.inserted[id] == db.commits[id])
  }

  /** Every ref's tip is stored and its base is an ancestor of its tip. */
  ghost predicate Rooted(db: Db) {
    RowsOk(db) && forall name | name in db.refs :: RefRooted(db, name)
  }

  ghost predicate RefRooted(db: Db, name: Name)
    requires name in db.refs
  {
    var ref := db.refs[name];
    && ref.tip in db.commits
    && (ref.base.Some? ==> ref.base.value in db.commits && Reaches(db.commits, ref.tip, ref.base.value))
  }

  ghost predicate TreesOk(db: Db) {
    forall id | id in db.inserted :: Coherent(db.inserted[id].tree.Keys)
  }

  /** Every cache is its ref's tip's tree. */
  ghost predicate CachesOk(db: Db) {
    forall name | name in db.refs :: CacheOk(db, name)
  }

  predicate CacheOk(db: Db, name: Name)
    requires name in db.refs
  {
    HeadsOf(db, name) == Shas(TreeOf(db, db.refs[name].tip))
  }

  ghost predicate DbOk(db: Db) {
    Rooted(db) && TreesOk(db) && CachesOk(db)
  }

  /** Heads rows left without a ref could still stand in one tree. */
  ghost predicate LeftoversOk(db: Db) {
    forall name | name !in db.refs :: Coherent(HeadsOf(db, name).Keys)
  }

  /** What was read of a restore's source is its commit's tree or, had that gone, nothing. */
  predicate SourceLinked(db: Db, request: Request, source: Option<Tree>, stored: bool) {
    source.Some? ==>
      && request.Restore? && request.source in db.inserted
      && source.value == if stored then db.inserted[request.source].tree else map[]
  }

  predicate WriterLinked(db: Db, writer: Writer) {
    && (writer.Restoring? ==> writer.request.Restore? && (writer.found ==> writer.request.source in db.inserted))
    && (writer.HeadsLoaded? ==> SourceLinked(db, writer.request, writer.source, writer.stored))
  }

  /** What was read of the source is the tree of the commit the request names. */
  predicate Intact(db: Db, writer: Writer) {
    writer.HeadsLoaded? && writer.source.Some? && writer.request.Restore? && writer.request.source in db.inserted ==>
      writer.stored || db.inserted[writer.request.source].tree == map[]
  }

  ghost predicate WriterCoherent(writer: Writer) {
    !writer.RefLoaded? ==> Coherent(writer.heads.Keys)
  }

  /** A ref is never seen at a tip later than its own; seen at its own, the loaded heads are that tip's tree. */
  ghost predicate WriterCurrent(db: Db, writer: Writer) {
    writer.name in db.refs ==>
      && writer.seen <= db.refs[writer.name].tip
      && (!writer.RefLoaded? && db.refs[writer.name].tip == writer.seen ==> writer.heads == TreeOf(db, writer.seen))
  }

  /** What a collector is about to delete is settled. */
  predicate CollectorOk(s: System) {
    s.collector.Some? ==>
      forall n | n in s.collector.value :: n in s.db.refs && s.db.refs[n].state != Open
  }

  /** What every run keeps. */
  ghost predicate FreeInv(s: System) {
    Rooted(s.db) && CollectorOk(s) && forall w | w in s.writers :: WriterLinked(s.db, s.writers[w])
  }

  /** What a run keeps as long as no cache drifts. */
  ghost predicate SoundInv(s: System) {
    FreeInv(s) && DbOk(s.db) && LeftoversOk(s.db) && forall w | w in s.writers :: WriterCoherent(s.writers[w])
  }

  /** What a run keeps as long as no name a writer has loaded is created again. */
  ghost predicate Inv(s: System) {
    SoundInv(s) && forall w | w in s.writers :: WriterCurrent(s.db, s.writers[w])
  }

  /** No writer in flight has loaded the name, and no heads row is left under it. */
  predicate Fresh(s: System, name: Name) {
    HeadsOf(s.db, name) == map[] && forall w | w in s.writers :: s.writers[w].name != name
  }

  /** Every ref the step creates has a fresh name. */
  predicate FreshNames(s: System, step: Step) {
    step.Fork? ==> Fresh(s, step.branch) && (step.mount in s.db.refs || Fresh(s, step.mount))
  }

  // ---------------------------------------------------------------------
  // When a step stands, whatever its writer saw and whatever rows it found.

  predicate Publishes(s: System, step: Step) {
    step.Publish? && step.w in s.writers && s.writers[step.w].HeadsLoaded?
  }

  /** The tree a fork starts from. */
  function ForkedTree(db: Db, mount: Name): Tree {
    if mount in db.refs then TreeOf(db, db.refs[mount].tip) else map[]
  }

  /**
   * The rows left in the cache are the new tree. For a publication: all of them were
   * replaced, or the rest were what the writer loaded. For a fork: whatever rows its
   * names had before are rows of the tree it starts from.
   */
  predicate CacheStands(s: System, step: Step) {
    && (Publishes(s, step) ==>
          var writer := s.writers[step.w];
          CacheKept(writer.request, writer.heads, HeadsOf(s.db, writer.name)))
    && (step.Fork? ==>
          var seeded := Shas(ForkedTree(s.db, step.mount));
          && seeded + HeadsOf(s.db, step.branch) == seeded
          && (step.mount in s.db.refs || HeadsOf(s.db, step.mount) == map[]))
  }

  /** What the request keeps of the loaded heads is coherent; a restore keeps nothing of them. */
  ghost predicate Coheres(s: System, step: Step) {
    Publishes(s, step) ==>
      var writer := s.writers[step.w];
      match writer.request
      case Write(_, _, _) => Coherent(writer.heads.Keys)
      case Delete(path, _) => Coherent(writer.heads.Keys - {path})
      case Capture(writes, deletes) => Coherent(KeptByCapture(writer.heads, writes, deletes).Keys)
      case Restore(_) => true
  }

  /** The commit a restore names was there when its tree was read, or had an empty tree. */
  predicate SourceStands(s: System, step: Step) {
    Publishes(s, step) ==> Intact(s.db, s.writers[step.w])
  }

  /** The tip replaced holds what the writer's heads held, as far as the request keeps it. */
  ghost predicate TreeStands(s: System, step: Step) {
    Publishes(s, step) ==>
      var writer := s.writers[step.w];
      Unaffected(writer.request, writer.heads, TreeOf(s.db, writer.seen), writer.source)
  }

  // ---------------------------------------------------------------------
  // What the store means: named trees and the trees of all commits, changed one request at a time.

  datatype Branch = Branch(tree: Tree, base: Option<Tree>, state: RefState)

  datatype World = World(files: map<Name, Branch>, history: map<Id, Tree>)

  datatype Action =
    | Stutter
    | Perform(name: Name, request: Request, id: Id)
    | Create(mount: Name, branch: Name, genesis: Id)
    | Join(branch: Name, mount: Name, id: Id)
    | Close(name: Name, state: RefState)
    | Forget(names: set<Name>)

  /** The tree a restore asks for. */
  function SourceOf(world: World, request: Request): Option<Tree> {
    if request.Restore? then Get(world.history, request.source) else None
  }

  function Joined(files: map<Name, Branch>, branch: Name, mount: Name): Tree
    requires branch in files && mount in files && files[branch].base.Some?
  {
    Merge.MergedTree(files[branch].base.value, files[branch].tree, files[mount].tree)
  }

  /** A commit id may be given to a tree it already names, or not be in use. */
  predicate CanName(history: map<Id, Tree>, id: Id, tree: Tree) {
    id in history ==> history[id] == tree
  }

  ghost predicate Permitted(world: World, action: Action) {
    var files := world.files;
    match action
    case Stutter => true
    case Perform(name, request, id) =>
      && name in files
      && var outcome := Plan(request, files[name].tree, SourceOf(world, request));
         outcome.NewTree? && CanName(world.history, id, outcome.tree)
    case Create(mount, branch, genesis) =>
      branch !in files && mount != branch && (mount !in files ==> CanName(world.history, genesis, map[]))
    case Join(branch, mount, id) =>
      && branch in files && mount in files && branch != mount
      && files[branch].state == Open && files[branch].base.Some?
      && Merge.Mergeable(files[branch].base.value, files[branch].tree, files[mount].tree)
      && (Joined(files, branch, mount) != files[mount].tree ==>
            CanName(world.history, id, Joined(files, branch, mount)))
    case Close(name, _) => name in files
    case Forget(names) => forall n | n in names :: n in files && files[n].state != Open
  }

  ghost function Act(world: World, action: Action): World
    requires Permitted(world, action)
  {
    var World(files, history) := world;
    match action
    case Stutter => world
    case Perform(name, request, id) =>
      var tree := Plan(request, files[name].tree, SourceOf(world, request)).tree;
      World(files[name := files[name].(tree := tree)], history[id := tree])
    case Create(mount, branch, genesis) =>
      var grown := if mount in files then world
                   else World(files[mount := Branch(map[], None, Open)], history[genesis := map[]]);
      grown.(files := grown.files[branch := Branch(grown.files[mount].tree, Some(grown.files[mount].tree), Open)])
    case Join(branch, mount, id) =>
      var merged := Joined(files, branch, mount);
      var settled := files[branch := files[branch].(state := Merged)];
      if merged == files[mount].tree then World(settled, history)
      else World(settled[mount := files[mount].(tree := merged)], history[id := merged])
    case Close(name, state) => World(files[name := files[name].(state := state)], history)
    case Forget(names) => World(files - names, history)
  }

  function BranchOf(db: Db, n: Name): Branch
    requires n in db.refs
  {
    Branch(TreeOf(db, db.refs[n].tip),
           if db.refs[n].base.Some? then Some(TreeOf(db, db.refs[n].base.value)) else None,
           db.refs[n].state)
  }

  function FilesOf(db: Db): map<Name, Branch> {
    map n | n in db.refs :: BranchOf(db, n)
  }

  function HistoryOf(db: Db): map<Id, Tree> {
    map id | id in db.inserted :: db.inserted[id].tree
  }

  function Meaning(db: Db): World {
    World(FilesOf(db), HistoryOf(db))
  }

  /** Only the step that publishes a request performs it. */
  function Label(s: System, step: Step): Action {
    match step
    case Publish(w, id, _) =>
      if Publishes(s, step) then Perform(s.writers[w].name, s.writers[w].request, id) else Stutter
    case Fork(mount, branch, genesis, _) => Create(mount, branch, genesis)
    case MergeBranch(branch, mount, id, _) => Join(branch, mount, id)
    case Settle(name, state) => Close(name, state)
    case CollectRefs => if s.collector.Some? then Forget(s.collector.value.Keys) else Stutter
    case _ => Stutter
  }
}
