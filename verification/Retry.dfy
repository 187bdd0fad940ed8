/**
 * src/kernel.ts: the compare-and-swap loop of `write`, `delete`, `captureBatch`
 * and `restore`, running while other transactions commit between its statements.
 */
module Retry {
  import opened Prelude
  import opened Coherence
  import opened Trees
  import opened CommitGraph
  import opened Stale
  import opened Store
  import opened StoreInvariants
  import opened Caches
  import Kernel

  // ---------------------------------------------------------------------
  // Other transactions.

  /** What other transactions may do to the tables between two statements. */
  ghost predicate Rely(db: Db, db': Db) {
    Rooted(db') && Grows(db, db')
  }

  /** What they do besides, as long as they do not create `name` again and no cache has drifted. */
  ghost predicate RelyFresh(db: Db, db': Db, name: Name) {
    && DbOk(db')
    && (name in db'.refs ==> name in db.refs && db.refs[name].tip <= db'.refs[name].tip)
  }

  ghost predicate Follows(db: Db, db': Db, name: Name, stays: bool) {
    Rely(db, db') && (stays ==> RelyFresh(db, db', name))
  }

  lemma FollowsItself(db: Db, name: Name, stays: bool)
    requires Rooted(db) && (stays ==> DbOk(db))
    ensures Follows(db, db, name, stays)
  {
  }

  lemma FollowsOn(a: Db, b: Db, c: Db, name: Name, stays: bool)
    requires Follows(a, b, name, stays) && Follows(b, c, name, stays)
    ensures Follows(a, c, name, stays)
  {
  }

  lemma RootedFollows(db: Db, db': Db, name: Name, stays: bool)
    requires Follows(db, db', name, stays)
    ensures Rooted(db') && (stays ==> DbOk(db'))
  {
  }

  /** The step makes a ref called `name`. */
  predicate Creates(s: System, step: Step, name: Name) {
    step.Fork? && name !in s.db.refs && (step.branch == name || step.mount == name)
  }

  lemma AdvanceOnlyRaisesTips(db: Db, moved: Name, id: Id, c: Commit, heads: map<Path, Sha>, name: Name)
    requires CanAdvance(db, moved, id, c)
    ensures var db' := Advanced(db, moved, id, c, heads);
            name in db'.refs ==> name in db.refs && db.refs[name].tip <= db'.refs[name].tip
  {
    TipIsOlder(db, moved, id, c);
  }

  lemma StepOnlyRaisesTips(s: System, step: Step, name: Name)
    requires Rooted(s.db) && Enabled(s, step) && !Creates(s, step, name)
    ensures var db' := Apply(s, step).db;
            name in db'.refs ==> name in s.db.refs && s.db.refs[name].tip <= db'.refs[name].tip
  {
    match step
    case Publish(w, id, _) =>
      PublisherCanAdvance(s, step);
      var writer, c := s.writers[w], PublishedBy(s, step);
      AdvanceOnlyRaisesTips(s.db, writer.name, id, c,
                            UpdatedHeads(writer.request, HeadsOf(s.db, writer.name), c.tree), name);
    case MergeBranch(branch, mount, id, stamp) =>
      if MergeResult(s.db, branch, mount) != TreeOf(s.db, s.db.refs[mount].tip) {
        var c := MergeCommit(s.db, branch, mount, stamp);
        MergerCanAdvance(s.db, branch, mount, id, stamp);
        AdvanceOnlyRaisesTips(Settling(s.db, branch, Merged), mount, id, c, Shas(c.tree), name);
      }
    case _ =>
  }

  /**
   * Every step of the protocol is a change a writer relies on; one that does not
   * create its ref again, where no cache drifts, is one it can keep its heads through.
   */
  lemma StepsAreRelied(s: System, step: Step, name: Name)
    requires FreeInv(s) && Enabled(s, step)
    ensures Rely(s.db, Apply(s, step).db)
    ensures SoundInv(s) && CacheStands(s, step) && !Creates(s, step, name) ==> RelyFresh(s.db, Apply(s, step).db, name)
  {
    StepKeepsRooted(s, step);
    if !Creates(s, step, name) { StepOnlyRaisesTips(s, step, name); }
    if SoundInv(s) { EveryStepKeepsCaches(s, step); }
  }

  // ---------------------------------------------------------------------
  // One request.

  method PlanRequest(request: Request, heads: Tree, source: Option<Tree>) returns (outcome: Outcome)
    requires WellFormedRequest(request)
    ensures outcome == Plan(request, heads, source) && outcome != Refused(InvariantBroken)
  {
    match request
    case Write(path, sha, ifSha) => outcome := Kernel.PlanWrite(heads, path, sha, ifSha);
    case Delete(path, ifSha) => outcome := Kernel.PlanDelete(heads, path, ifSha);
    case Capture(writes, deletes) => outcome := Kernel.PlanCapture(heads, writes, deletes);
    case Restore(id) => outcome := Kernel.PlanRestore(heads, id, source);
  }

  /** The row with this content, or one numbered after every row ever inserted. */
  method InsertCommit(db: Db, c: Commit) returns (id: Id)
    requires RowsOk(db) && forall i | 0 <= i < |c.parents| :: c.parents[i] in db.commits
    ensures CanInsert(db, id, c)
  {
    if existing :| existing in db.commits && db.commits[existing] == c { return existing; }
    id := 0;
    var rest := db.inserted.Keys;
    while rest != {}
      invariant rest <= db.inserted.Keys
      invariant forall k | k in db.inserted && k !in rest :: k < id
      decreases |rest|
    {
      var k :| k in rest;
      rest := rest - {k};
      if k >= id { id := k + 1; }
    }
    assert forall i | 0 <= i < |c.parents| :: c.parents[i] in db.inserted;
  }

  /**
   * The tables as one attempt found them when it loaded the ref, loaded the heads,
   * looked a restore's source up, read its tree, and tried to swap.
   */
  datatype Attempt = Attempt(began: Db, loaded: Db, found: Db, read: Db, swapped: Db)

  function SeenAt(a: Attempt, name: Name): Id
    requires name in a.began.refs
  {
    a.began.refs[name].tip
  }

  /** What a restore read of the commit it had found. */
  function SourceAt(a: Attempt, request: Request): Option<Tree> {
    if request.Restore? && request.source in a.found.commits then Some(TreeOf(a.read, request.source)) else None
  }

  /** What the attempt planned from what it had loaded. */
  ghost function PlanOf(a: Attempt, name: Name, request: Request): Outcome
    requires name in a.began.refs
  {
    Plan(request, LoadedHeads(a.loaded, name, SeenAt(a, name)), SourceAt(a, request))
  }

  predicate Swaps(a: Attempt, name: Name)
    requires name in a.began.refs
  {
    name in a.swapped.refs && a.swapped.refs[name].tip == SeenAt(a, name)
  }

  ghost predicate Began(a: Attempt, name: Name) {
    name in a.began.refs && a.began.refs[name].state == Open
  }

  /** The attempt planned a change, and the ref had moved on by the time it tried to make it. */
  ghost predicate Overtaken(a: Attempt, name: Name, request: Request) {
    Began(a, name) && PlanOf(a, name, request).NewTree? && !Swaps(a, name)
  }

  type Answer = Result<Option<Id>, Refusal>

  /** Why the last attempt answered as it did. */
  ghost predicate Explains(a: Attempt, name: Name, request: Request, answer: Answer) {
    match answer
    case Err(why) =>
      || (name !in a.began.refs && why == NotFound)
      || (name in a.began.refs && a.began.refs[name].state != Open && why == Settled)
      || (Began(a, name) && PlanOf(a, name, request) == Refused(why))
    case Ok(None) => Began(a, name) && PlanOf(a, name, request) == Unchanged
    case Ok(Some(_)) => Began(a, name) && PlanOf(a, name, request).NewTree? && Swaps(a, name)
  }

  /** One request this process committed: what it loaded, what it replaced and what it left. */
  datatype Publication = Publication(
    name: Name, request: Request, stamp: Stamp, heads: Tree, source: Option<Tree>, stored: bool,
    parent: Id, before: Tree, cached: map<Path, Sha>, tip: Id, after: Tree)

  /** A restore's tree is that of the commit it names exactly when that had not gone before it was read. */
  predicate RestoresTheNamed(db: Db, p: Publication) {
    && p.request.Restore? && p.request.source in db.inserted
    && var named := db.inserted[p.request.source].tree; (p.after == named <==> p.stored || named == map[])
  }

  /** The ref now stands on the publication: on the tip it replaced, signed with its request's name and its stamp. */
  ghost predicate IsTip(db: Db, p: Publication) {
    && p.name in db.refs && db.refs[p.name].tip == p.tip && p.parent < p.tip
    && p.parent in db.commits && db.commits[p.parent].tree == p.before
    && p.tip in db.commits && db.commits[p.tip].tree == p.after && db.commits[p.tip].parents == [p.parent]
    && Signs(db.commits[p.tip].op, p.request)
    && db.commits[p.tip].author == p.stamp.author && db.commits[p.tip].createdAt == p.stamp.at
    && Plan(p.request, p.heads, p.source) == NewTree(p.after)
    && (p.request.Restore? ==> RestoresTheNamed(db, p))
  }

  /** Exactly when it is its request applied to the tree it replaced, and the cache is its tree. */
  ghost predicate IsExact(db: Db, p: Publication) {
    && (Plan(p.request, p.before, p.source) == NewTree(p.after)
        <==> Unaffected(p.request, p.heads, p.before, p.source))
    && (HeadsOf(db, p.name) == Shas(p.after) <==> CacheKept(p.request, p.heads, p.cached))
  }

  /** What a writer loaded is still its ref's tip if the ref, never made again, still stands where it did. */
  lemma LoadedIsCurrent(a: Attempt, name: Name)
    requires DbOk(a.began) && DbOk(a.loaded) && Began(a, name) && Swaps(a, name)
    requires RelyFresh(a.began, a.loaded, name) && RelyFresh(a.loaded, a.swapped, name) && Grows(a.loaded, a.swapped)
    ensures LoadedHeads(a.loaded, name, SeenAt(a, name)) == TreeOf(a.swapped, a.swapped.refs[name].tip)
  {
    hide LoadedHeads, TreeOf, Rooted, CachesOk, TreesOk, Grows;
    LoadedHeadsAreTheTip(a.loaded, name);
    TipIsStored(a.loaded, name);
    TipIsStored(a.swapped, name);
    SameTree(a.loaded, a.swapped, SeenAt(a, name));
  }

  lemma TipIsStored(db: Db, name: Name)
    requires Rooted(db) && name in db.refs
    ensures db.refs[name].tip in db.commits
  {
    assert RefRooted(db, name);
  }

  lemma SameTree(db: Db, db': Db, id: Id)
    requires Rooted(db) && Rooted(db') && Grows(db, db') && id in db.commits && id in db'.commits
    ensures TreeOf(db, id) == TreeOf(db', id)
  {
  }

  lemma SourceIsLinked(a: Attempt, request: Request)
    requires Rooted(a.found) && Rooted(a.read) && Grows(a.found, a.read) && Grows(a.read, a.swapped)
    ensures SourceLinked(a.swapped, request, SourceAt(a, request), request.Restore? && request.source in a.read.commits)
  {
  }

  lemma PublicationStands(db: Db, p: Publication, c: Commit)
    requires Rooted(db) && p.name in db.refs && p.parent == db.refs[p.name].tip && p.before == TreeOf(db, p.parent)
    requires Plan(p.request, p.heads, p.source) == NewTree(p.after) && p.cached == HeadsOf(db, p.name)
    requires p.request.Restore? ==> RestoresTheNamed(db, p)
    requires c.tree == p.after && c.parents == [p.parent] && Signs(c.op, p.request) && CanInsert(db, p.tip, c)
    requires c.author == p.stamp.author && c.createdAt == p.stamp.at
    ensures CanAdvance(db, p.name, p.tip, c)
    ensures IsTip(Advanced(db, p.name, p.tip, c, UpdatedHeads(p.request, p.cached, p.after)), p)
  {
    assert RefRooted(db, p.name);
    TipIsOlder(db, p.name, p.tip, c);
    AdvanceKeepsRooted(db, p.name, p.tip, c, UpdatedHeads(p.request, p.cached, p.after));
    hide Plan, UpdatedHeads, Rooted, RefRooted;
  }

  lemma PublicationIsExact(db: Db, p: Publication)
    requires Plan(p.request, p.heads, p.source) == NewTree(p.after)
    requires HeadsOf(db, p.name) == UpdatedHeads(p.request, p.cached, p.after)
    ensures IsExact(db, p)
  {
    StalePlanStands(p.request, p.heads, p.before, p.source);
    StaleCacheStands(p.request, p.heads, p.source, p.cached);
  }

  /** Published over its own tip's tree by a store whose caches are right, it leaves them right. */
  lemma CurrentPublicationIsSound(db: Db, p: Publication, c: Commit)
    requires DbOk(db) && CanAdvance(db, p.name, p.tip, c) && c.tree == p.after
    requires Plan(p.request, p.before, p.source) == NewTree(p.after)
    requires p.before == TreeOf(db, db.refs[p.name].tip) && p.cached == HeadsOf(db, p.name)
    requires p.source.Some? ==> Coherent(p.source.value.Keys)
    ensures DbOk(Advanced(db, p.name, p.tip, c, UpdatedHeads(p.request, p.cached, p.after)))
    ensures UpdatedHeads(p.request, p.cached, p.after) == Shas(p.after)
  {
    assert CacheOk(db, p.name) && RefRooted(db, p.name);
    PlanKeepsCoherence(p.request, p.before, p.source);
    StaleCacheStands(p.request, p.before, p.source, p.cached);
    AdvanceKeepsRooted(db, p.name, p.tip, c, UpdatedHeads(p.request, p.cached, p.after));
    AdvanceKeepsCaches(db, p.name, p.tip, c, UpdatedHeads(p.request, p.cached, p.after));
    hide Rooted, CachesOk, TreesOk, Plan, Coherent, Advanced, CanAdvance;
  }

  lemma PublicationIsWhole(db: Db, p: Publication, c: Commit, stays: bool)
    requires Rooted(db) && p.name in db.refs && p.parent == db.refs[p.name].tip && p.before == TreeOf(db, p.parent)
    requires Plan(p.request, p.heads, p.source) == NewTree(p.after) && p.cached == HeadsOf(db, p.name)
    requires SourceLinked(db, p.request, p.source, p.stored)
    requires stays ==> DbOk(db) && p.heads == p.before && (p.source.Some? ==> Coherent(p.source.value.Keys))
    requires c.tree == p.after && c.parents == [p.parent] && Signs(c.op, p.request) && CanInsert(db, p.tip, c)
    requires c.author == p.stamp.author && c.createdAt == p.stamp.at
    ensures var db' := Advanced(db, p.name, p.tip, c, UpdatedHeads(p.request, p.cached, p.after));
            && Rooted(db') && (stays ==> DbOk(db')) && Follows(db, db', p.name, stays)
            && IsTip(db', p) && IsExact(db', p)
            && (stays ==> HeadsOf(db', p.name) == Shas(p.after))
  {
    LinkedRestoresTheNamed(db, p);
    PublicationStands(db, p, c);
    var cached := UpdatedHeads(p.request, p.cached, p.after);
    AdvanceKeepsRooted(db, p.name, p.tip, c, cached);
    if stays { CurrentPublicationIsSound(db, p, c); }
    AdvanceOnlyRaisesTips(db, p.name, p.tip, c, cached, p.name);
    hide Rooted, DbOk, Plan, IsTip, CanAdvance, CanInsert, Grows, UpdatedHeads, Coherent;
    PublicationIsExact(Advanced(db, p.name, p.tip, c, cached), p);
  }

  lemma LinkedRestoresTheNamed(db: Db, p: Publication)
    requires Plan(p.request, p.heads, p.source) == NewTree(p.after) && SourceLinked(db, p.request, p.source, p.stored)
    ensures p.request.Restore? ==> RestoresTheNamed(db, p)
  {
  }

  lemma NoConflictPlanned(request: Request, heads: Tree, source: Option<Tree>)
    ensures Plan(request, heads, source) != Refused(RefConflict)
  {
  }

  /** A published commit is the one record added; any other answer adds none. */
  ghost predicate Leaves(
    before: seq<Publication>, published: seq<Publication>,
    name: Name, request: Request, stamp: Stamp, answer: Answer, stays: bool, db: Db)
  {
    if answer.Ok? && answer.value.Some? then
      && |published| == |before| + 1 && published[..|before|] == before
      && var p := published[|before|];
         && p.name == name && p.request == request && p.stamp == stamp && p.tip == answer.value.value
         && IsTip(db, p) && IsExact(db, p)
         && (stays ==> p.heads == p.before && HeadsOf(db, name) == Shas(p.after))
    else published == before
  }

  lemma LeavesNothing(before: seq<Publication>, name: Name, request: Request, stamp: Stamp, stays: bool, db: Db)
    ensures Leaves(before, before, name, request, stamp, Err(RefConflict), stays, db)
  {
  }

  class Tables {
    var db: Db
    ghost var published: seq<Publication>

    constructor ()
      ensures db == EMPTY.db && published == [] && DbOk(db)
    {
      db := EMPTY.db;
      published := [];
    }

    /** Other transactions run here. Callers may rely on the contract alone; doing nothing is one way to meet it. */
    method Interfere(name: Name, ghost stays: bool)
      requires Rooted(db) && (stays ==> DbOk(db))
      modifies this`db
      ensures Follows(old(db), db, name, stays)
    {
    }

    /**
     * One request on one ref, tried at most `maxCasRetries` times; `stays` says the
     * other transactions never create the ref again. A commit is published at most
     * once, on the tip it replaced; every other answer is what the plan over the
     * tables of the last attempt says, and publishes nothing.
     */
    method Run(name: Name, request: Request, stamp: Stamp, maxCasRetries: nat, ghost stays: bool)
      returns (answer: Answer, ghost attempts: seq<Attempt>)
      requires Rooted(db) && (stays ==> DbOk(db)) && WellFormedRequest(request)
      modifies this
      ensures Rooted(db) && (stays ==> DbOk(db))
      ensures Leaves(old(published), published, name, request, stamp, answer, stays, db)
      ensures IsTrace(attempts, name, request, answer, maxCasRetries)
      ensures Spans(old(db), attempts, db, name, stays)
      ensures answer.Err? ==> answer.error != InvariantBroken
    {
      hide Rooted, DbOk, Overtaken, Explains, Leaves, Follows, Rely, RelyFresh;
      FollowsItself(db, name, stays);
      attempts := [];
      var attempt := 0;
      while attempt < maxCasRetries
        invariant Rooted(db) && (stays ==> DbOk(db)) && published == old(published)
        invariant |attempts| == attempt <= maxCasRetries
        invariant forall i | 0 <= i < attempt :: Overtaken(attempts[i], name, request)
        invariant Spans(old(db), attempts, db, name, stays)
      {
        ghost var a;
        var final;
        ghost var before := db;
        final, a := Try(name, request, stamp, stays);
        OneAttemptMore(old(db), attempts, before, a, db, name, stays);
        attempts := attempts + [a];
        if final.Some? { return final.value, attempts; }
        attempt := attempt + 1;
      }
      LeavesNothing(published, name, request, stamp, stays, db);
      return Err(RefConflict), attempts;
    }

    /** One turn of the loop: an answer, or nothing when the swap found the ref moved. */
    method Try(name: Name, request: Request, stamp: Stamp, ghost stays: bool)
      returns (final: Option<Answer>, ghost a: Attempt)
      requires Rooted(db) && (stays ==> DbOk(db)) && WellFormedRequest(request)
      modifies this
      ensures Rooted(db) && (stays ==> DbOk(db))
      ensures final.None? ==> published == old(published) && Overtaken(a, name, request)
      ensures final.Some? ==>
                && Explains(a, name, request, final.value) && final.value != Err(RefConflict)
                && final.value != Err(InvariantBroken)
                && Leaves(old(published), published, name, request, stamp, final.value, stays, db)
      ensures Spans(old(db), [a], db, name, stays)
    {
      hide Rooted, IsTip, IsExact, CanAdvance, Spans;
      ghost var before := db;
      Interfere(name, stays);
      ghost var began := db;
      FollowsItself(began, name, stays);
      a := Attempt(began, began, began, began, began);
      OneAttempt(before, a, db, name, stays);
      if name !in db.refs { return Some(Err(NotFound)), a; }
      if db.refs[name].state != Open { return Some(Err(Settled)), a; }
      var seen := db.refs[name].tip;
      Interfere(name, stays);
      ghost var loaded := db;
      FollowsItself(loaded, name, stays);
      var heads := LoadedHeads(db, name, seen);
      ghost var found, read;
      var source;
      ghost var stored;
      source, stored, found, read := LoadSource(name, request, stays);
      a := Attempt(began, loaded, found, read, read);
      FollowsItself(read, name, stays);
      OneAttempt(before, a, db, name, stays);
      hide LoadedHeads, Plan;
      var outcome := PlanRequest(request, heads, source);
      if outcome.Refused? {
        NoConflictPlanned(request, heads, source);
        return Some(Err(outcome.why)), a;
      }
      if outcome.Unchanged? { return Some(Ok(None)), a; }
      Interfere(name, stays);
      FollowsItself(db, name, stays);
      a := Attempt(began, loaded, found, read, db);
      OneAttempt(before, a, db, name, stays);
      if name !in db.refs || db.refs[name].tip != seen { return None, a; }
      SourceIsLinked(a, request);
      if stays {
        FollowsOn(loaded, found, read, name, stays);
        FollowsOn(loaded, read, db, name, stays);
        LoadedIsCurrent(a, name);
        SourceIsCoherent(a, request);
      }
      var tip := Publish(name, request, source, stored, heads, outcome.tree, stamp, stays);
      OneAttempt(before, a, db, name, stays);
      return Some(Ok(Some(tip))), a;
    }

    /** A restore's two statements: is the commit there, and what are its files? */
    method LoadSource(name: Name, request: Request, ghost stays: bool)
      returns (source: Option<Tree>, ghost stored: bool, ghost found: Db, ghost read: Db)
      requires Rooted(db) && (stays ==> DbOk(db))
      modifies this`db
      ensures Follows(old(db), found, name, stays) && Follows(found, read, name, stays) && db == read
      ensures source == SourceAt(Attempt(found, found, found, read, read), request)
      ensures stored == (request.Restore? && request.source in read.commits)
    {
      hide Follows, Rooted, DbOk;
      FollowsItself(db, name, stays);
      found, read, source, stored := db, db, None, false;
      if !request.Restore? { return; }
      Interfere(name, stays);
      RootedFollows(old(db), db, name, stays);
      FollowsItself(db, name, stays);
      found, read := db, db;
      if request.source !in db.commits { return; }
      Interfere(name, stays);
      read := db;
      source, stored := Some(TreeOf(db, request.source)), request.source in db.commits;
    }

    /** The compare-and-swap, the cache update and COMMIT. */
    method Publish(
        name: Name, request: Request, source: Option<Tree>, ghost stored: bool, heads: Tree, tree: Tree, stamp: Stamp,
        ghost stays: bool)
      returns (tip: Id)
      requires Rooted(db) && name in db.refs && Plan(request, heads, source) == NewTree(tree)
      requires SourceLinked(db, request, source, stored)
      requires stays ==>
                 && DbOk(db) && heads == TreeOf(db, db.refs[name].tip)
                 && (source.Some? ==> Coherent(source.value.Keys))
      modifies this
      ensures Rooted(db) && (stays ==> DbOk(db)) && Follows(old(db), db, name, stays)
      ensures published == old(published)
                + [Publication(name, request, stamp, heads, source, stored, old(db).refs[name].tip,
                               TreeOf(old(db), old(db).refs[name].tip), HeadsOf(old(db), name), tip, tree)]
      ensures IsTip(db, published[|old(published)|]) && IsExact(db, published[|old(published)|])
      ensures stays ==> HeadsOf(db, name) == Shas(tree)
    {
      var parent := db.refs[name].tip;
      var c := Commit(tree, [parent], OpName(request), stamp.author, stamp.at);
      TipIsStored(db, name);
      tip := InsertCommit(db, c);
      var cached := UpdatedHeads(request, HeadsOf(db, name), tree);
      ghost var p := Publication(name, request, stamp, heads, source, stored,
                                 parent, TreeOf(db, parent), HeadsOf(db, name), tip, tree);
      assert Signs(c.op, request);
      hide *;
      PublicationIsWhole(db, p, c, stays);
      db := Advanced(db, name, tip, c, cached);
      published := published + [p];
    }
  }

  /** The tables of the attempts, in order, from the tables before to the tables after. */
  ghost predicate Spans(before: Db, attempts: seq<Attempt>, after: Db, name: Name, stays: bool)
    decreases |attempts|
  {
    if attempts == [] then Follows(before, after, name, stays)
    else
      var a := attempts[|attempts| - 1];
      && Spans(before, attempts[..|attempts| - 1], a.began, name, stays)
      && Follows(a.began, a.loaded, name, stays) && Follows(a.loaded, a.found, name, stays)
      && Follows(a.found, a.read, name, stays) && Follows(a.read, a.swapped, name, stays)
      && Follows(a.swapped, after, name, stays)
  }

  lemma SpansOn(before: Db, attempts: seq<Attempt>, mid: Db, after: Db, name: Name, stays: bool)
    requires Spans(before, attempts, mid, name, stays) && Follows(mid, after, name, stays)
    ensures Spans(before, attempts, after, name, stays)
  {
    if attempts == [] { FollowsOn(before, mid, after, name, stays); }
    else { FollowsOn(attempts[|attempts| - 1].swapped, mid, after, name, stays); }
  }

  lemma OneAttemptMore(
      before: Db, attempts: seq<Attempt>, mid: Db, a: Attempt, after: Db, name: Name, stays: bool)
    requires Spans(before, attempts, mid, name, stays) && Spans(mid, [a], after, name, stays)
    ensures Spans(before, attempts + [a], after, name, stays)
  {
    hide Follows;
    assert [a][..0] == [] && (attempts + [a])[..|attempts|] == attempts;
    assert Follows(mid, a.began, name, stays);
    SpansOn(before, attempts, mid, a.began, name, stays);
  }

  lemma OneAttempt(before: Db, a: Attempt, after: Db, name: Name, stays: bool)
    requires Follows(before, a.began, name, stays) && Follows(a.began, a.loaded, name, stays)
    requires Follows(a.loaded, a.found, name, stays) && Follows(a.found, a.read, name, stays)
    requires Follows(a.read, a.swapped, name, stays) && Follows(a.swapped, after, name, stays)
    ensures Spans(before, [a], after, name, stays)
  {
    assert [a][..0] == [];
  }

  /** Every attempt but the last was overtaken; the last explains the answer, unless all of them were spent. */
  ghost predicate IsTrace(attempts: seq<Attempt>, name: Name, request: Request, answer: Answer, maxCasRetries: nat) {
    && |attempts| <= maxCasRetries
    && if answer == Err(RefConflict) then
         |attempts| == maxCasRetries && forall i | 0 <= i < |attempts| :: Overtaken(attempts[i], name, request)
       else
         && attempts != []
         && (forall i | 0 <= i < |attempts| - 1 :: Overtaken(attempts[i], name, request))
         && Explains(attempts[|attempts| - 1], name, request, answer)
  }

  lemma SourceIsCoherent(a: Attempt, request: Request)
    requires DbOk(a.read)
    ensures SourceAt(a, request).Some? ==> Coherent(SourceAt(a, request).value.Keys)
  {
    if request.Restore? { StoredIsCoherent(a.read, request.source); }
  }

  // ---------------------------------------------------------------------
  // What refusals say about the ref.

  /** The tree the ref stands at, or none if there is no such ref. */
  function TipTree(db: Db, name: Name): Tree {
    if name in db.refs then TreeOf(db, db.refs[name].tip) else map[]
  }

  /** A refusal, and a no-op other than a restore's, depend on the digests alone. */
  lemma DigestsDecide(request: Request, heads: Tree, tip: Tree, source: Option<Tree>)
    requires Shas(heads) == Shas(tip)
    ensures Plan(request, heads, source).Refused? ==> Plan(request, tip, source) == Plan(request, heads, source)
    ensures !request.Restore? && Plan(request, heads, source).Unchanged? ==> Plan(request, tip, source).Unchanged?
  {
    assert heads.Keys == Shas(heads).Keys == Shas(tip).Keys == tip.Keys;
    forall p | p in heads
      ensures heads[p].sha == tip[p].sha
    {
      assert Shas(heads)[p] == Shas(tip)[p];
    }
    match request
    case Capture(writes, deletes) =>
      if CaptureTree(heads, writes, deletes) == heads { UnchangedByDigests(heads, tip, writes, deletes); }
    case _ =>
  }

  lemma UnchangedByDigests(heads: Tree, tip: Tree, writes: seq<(Path, Sha)>, deletes: seq<Path>)
    requires heads.Keys == tip.Keys && forall p | p in heads :: heads[p].sha == tip[p].sha
    requires CaptureTree(heads, writes, deletes) == heads
    ensures CaptureTree(tip, writes, deletes) == tip
  {
    forall p: Path
      ensures Get(CaptureTree(tip, writes, deletes), p) == Get(tip, p)
    {
      CapturedAt(tip, writes, deletes, p);
      CapturedAt(heads, writes, deletes, p);
      assert Get(CaptureTree(heads, writes, deletes), p) == Get(heads, p);
    }
    SameGets(CaptureTree(tip, writes, deletes), tip);
  }

  /** So they are what the plan over the ref's own tip, when the heads were loaded, says; over nothing, had the ref gone. */
  lemma RefusalsAreTheTips(a: Attempt, name: Name, request: Request)
    requires Began(a, name) && DbOk(a.loaded) && (name in a.loaded.refs || HeadsOf(a.loaded, name) == map[])
    ensures var onTip := Plan(request, TipTree(a.loaded, name), SourceAt(a, request));
            && (PlanOf(a, name, request).Refused? ==> onTip == PlanOf(a, name, request))
            && (!request.Restore? && PlanOf(a, name, request).Unchanged? ==> onTip.Unchanged?)
  {
    LoadedDigests(a.loaded, name, SeenAt(a, name));
    DigestsDecide(request, LoadedHeads(a.loaded, name, SeenAt(a, name)), TipTree(a.loaded, name), SourceAt(a, request));
  }

  lemma LoadedDigests(db: Db, name: Name, seen: Id)
    requires DbOk(db) && (name in db.refs || HeadsOf(db, name) == map[])
    ensures Shas(LoadedHeads(db, name, seen)) == Shas(TipTree(db, name))
  {
    if name in db.refs { assert CacheOk(db, name); }
    assert Shas(LoadedHeads(db, name, seen)) == HeadsOf(db, name);
  }
}
