/** src/kernel.ts: the operations as the code runs them, against the plans of Trees. */
module Kernel {
  import opened Prelude
  import opened Coherence
  import opened Trees

  /** The path holds another content than the caller expects, or holds one where none is expected. */
  predicate Mismatch(heads: Tree, path: Path, ifSha: IfSha) {
    || (ifSha.Absent? && path in heads)
    || (ifSha.Holds? && (path in heads ==> heads[path].sha != ifSha.sha))
  }

  predicate IsBlocked(heads: Tree, path: Path) {
    exists q | q in heads :: Collide(path, q)
  }

  method PlanWrite(heads: Tree, path: Path, sha: Sha, ifSha: IfSha) returns (outcome: Outcome)
    requires path != ""
    ensures outcome == Plan(Write(path, sha, ifSha), heads, None)
    ensures outcome == Refused(PreconditionFailed) <==> Mismatch(heads, path, ifSha)
    ensures outcome == Refused(InvalidPath) <==> !Mismatch(heads, path, ifSha) && IsBlocked(heads, path)
    ensures outcome.Refused? <==> Mismatch(heads, path, ifSha) || IsBlocked(heads, path)
    ensures outcome == Unchanged <==> !outcome.Refused? && path in heads && heads[path].sha == sha
    ensures !outcome.Refused? ==>
              Get(Afterwards(outcome, heads), path) == Some(Entry(sha, if path in heads then heads[path].mode else 420))
    ensures forall q | q != path :: Get(Afterwards(outcome, heads), q) == Get(heads, q)
  {
    var current := Get(heads, path);
    if !Matches(ifSha, current) { return Refused(PreconditionFailed); }
    var collision := FindPathCollision(path, heads.Keys);
    if collision.Some? {
      assert collision.value in heads;
      return Refused(InvalidPath);
    }
    if current.Some? && current.value.sha == sha { return Unchanged; }
    return NewTree(heads[path := Entry(sha, ModeOf(heads, path))]);
  }

  method PlanDelete(heads: Tree, path: Path, ifSha: IfSha) returns (outcome: Outcome)
    ensures outcome == Plan(Delete(path, ifSha), heads, None)
    ensures outcome == Refused(NotFound) <==> path !in heads
    ensures outcome == Refused(PreconditionFailed) <==> path in heads && Mismatch(heads, path, ifSha)
    ensures outcome.NewTree? <==> path in heads && !Mismatch(heads, path, ifSha)
    ensures forall q | q != path :: Get(Afterwards(outcome, heads), q) == Get(heads, q)
    ensures path in Afterwards(outcome, heads) <==> outcome == Refused(PreconditionFailed)
  {
    if path !in heads { return Refused(NotFound); }
    if !Matches(ifSha, Some(heads[path])) { return Refused(PreconditionFailed); }
    return NewTree(heads - {path});
  }

  method PlanRestore(heads: Tree, source: nat, restored: Option<Tree>) returns (outcome: Outcome)
    ensures outcome == Plan(Restore(source), heads, restored)
    ensures outcome == Refused(NotFound) <==> restored.None?
    ensures Some(Afterwards(outcome, heads)) == if restored.Some? then restored else Some(heads)
    ensures outcome == Unchanged <==> restored == Some(heads)
  {
    if restored.None? { return Refused(NotFound); }
    if restored.value == heads { return Unchanged; }
    return NewTree(restored.value);
  }

  predicate MaskedByFirst(writes: seq<(Path, Sha)>, n: nat, p: Path)
    requires n <= |writes|
  {
    exists k | 0 <= k < n :: Collide(writes[k].0, p)
  }

  /** Remove everything a written path would mask. */
  method DropMasked(tree: Tree, writes: seq<(Path, Sha)>) returns (next: Tree)
    requires "" !in WrittenPaths(writes)
    ensures next == map p | p in tree && !MaskedByFirst(writes, |writes|, p) :: tree[p]
  {
    next := tree;
    for i := 0 to |writes|
      invariant next == map p | p in tree && !MaskedByFirst(writes, i, p) :: tree[p]
    {
      assert writes[i].0 in WrittenPaths(writes);
      var masked := FindMaskedPaths(writes[i].0, next.Keys);
      forall p
        ensures MaskedByFirst(writes, i + 1, p) <==> MaskedByFirst(writes, i, p) || Collide(writes[i].0, p)
      {
      }
      next := RemoveAll(next, masked);
    }
  }

  lemma MaskedByAny(writes: seq<(Path, Sha)>, p: Path)
    ensures MaskedByFirst(writes, |writes|, p) <==> exists w | w in WrittenPaths(writes) :: Collide(w, p)
  {
    if MaskedByFirst(writes, |writes|, p) {
      var k :| 0 <= k < |writes| && Collide(writes[k].0, p);
      assert writes[k].0 in WrittenPaths(writes);
    }
  }

  method RemoveAll(tree: Tree, paths: seq<Path>) returns (left: Tree)
    ensures left == map p | p in tree && p !in paths :: tree[p]
  {
    left := tree;
    for i := 0 to |paths|
      invariant left == map p | p in tree && p !in paths[..i] :: tree[p]
    {
      assert paths[..i + 1] == paths[..i] + [paths[i]];
      left := left - {paths[i]};
    }
    assert paths[..|paths|] == paths;
  }

  lemma WrittenPrefix(writes: seq<(Path, Sha)>, i: nat)
    requires i < |writes|
    ensures WrittenPaths(writes[..i + 1]) == WrittenPaths(writes[..i]) + {writes[i].0}
    ensures forall p | p in WrittenPaths(writes[..i + 1]) ::
              LastSha(writes[..i + 1], p) == if p == writes[i].0 then writes[i].1 else LastSha(writes[..i], p)
  {
    var longer := writes[..i + 1];
    assert longer[..i] == writes[..i] && longer[..|longer| - 1] == writes[..i];
    forall p
      ensures p in WrittenPaths(longer) <==> p in WrittenPaths(writes[..i]) || p == writes[i].0
    {
      if p in WrittenPaths(writes[..i]) {
        var k :| 0 <= k < i && writes[..i][k].0 == p;
        assert longer[k].0 == p;
      }
      if p in WrittenPaths(longer) {
        var k :| 0 <= k < i + 1 && longer[k].0 == p;
        if k < i { assert writes[..i][k].0 == p; }
      }
      assert longer[i].0 == writes[i].0;
    }
    forall p | p in WrittenPaths(longer)
      ensures LastSha(longer, p) == if p == writes[i].0 then writes[i].1 else LastSha(writes[..i], p)
    {
      assert longer[|longer| - 1] == writes[i];
    }
  }

  /** Set every written path over what was kept, with the mode the head had. */
  method SetWritten(heads: Tree, kept: Tree, writes: seq<(Path, Sha)>) returns (next: Tree)
    ensures next.Keys == kept.Keys + WrittenPaths(writes)
    ensures forall p | p in next ::
              next[p] == if p in WrittenPaths(writes) then Entry(LastSha(writes, p), ModeOf(heads, p)) else kept[p]
  {
    next := kept;
    for i := 0 to |writes|
      invariant next.Keys == kept.Keys + WrittenPaths(writes[..i])
      invariant forall p | p in next ::
                  next[p] == if p in WrittenPaths(writes[..i]) then Entry(LastSha(writes[..i], p), ModeOf(heads, p))
                             else kept[p]
    {
      WrittenPrefix(writes, i);
      next := next[writes[i].0 := Entry(writes[i].1, ModeOf(heads, writes[i].0))];
    }
    assert writes[..|writes|] == writes;
  }

  lemma CaptureTreeByParts(heads: Tree, writes: seq<(Path, Sha)>, deletes: seq<Path>,
                           remaining: Tree, kept: Tree, next: Tree)
    requires remaining == map p | p in heads && p !in deletes :: heads[p]
    requires kept == map p | p in remaining && !MaskedByFirst(writes, |writes|, p) :: remaining[p]
    requires next.Keys == kept.Keys + WrittenPaths(writes)
    requires forall p | p in next ::
               next[p] == if p in WrittenPaths(writes) then Entry(LastSha(writes, p), ModeOf(heads, p)) else kept[p]
    ensures next == CaptureTree(heads, writes, deletes)
  {
    var whole := CaptureTree(heads, writes, deletes);
    forall p
      ensures p in next <==> p in whole
      ensures p in next ==> next[p] == whole[p]
    {
      KeptSurvives(heads, writes, deletes, remaining, kept, p);
    }
  }

  lemma KeptSurvives(heads: Tree, writes: seq<(Path, Sha)>, deletes: seq<Path>, remaining: Tree, kept: Tree, p: Path)
    requires remaining == map p | p in heads && p !in deletes :: heads[p]
    requires kept == map p | p in remaining && !MaskedByFirst(writes, |writes|, p) :: remaining[p]
    ensures p in kept <==> Survives(heads, writes, deletes, p)
    ensures p in kept ==> kept[p] == heads[p]
  {
    MaskedByAny(writes, p);
  }

  /** No later write of the batch names the same path. */
  predicate IsLastWrite(writes: seq<(Path, Sha)>, k: nat)
    requires k < |writes|
  {
    forall j | k < j < |writes| :: writes[j].0 != writes[k].0
  }

  predicate IsUnwritten(writes: seq<(Path, Sha)>, p: Path) {
    forall k | 0 <= k < |writes| :: writes[k].0 != p
  }

  lemma {:induction false} LastWriteWins(writes: seq<(Path, Sha)>, k: nat)
    requires k < |writes| && IsLastWrite(writes, k)
    ensures writes[k].0 in WrittenPaths(writes) && LastSha(writes, writes[k].0) == writes[k].1
  {
    assert writes[k].0 in WrittenPaths(writes);
    var last := |writes| - 1;
    if k < last {
      assert writes[..last][k] == writes[k];
      LastWriteWins(writes[..last], k);
    }
  }

  lemma CollidingWrites(writes: seq<(Path, Sha)>)
    ensures Coherent(WrittenPaths(writes)) <==>
              forall i, j | 0 <= i < |writes| && 0 <= j < |writes| :: !Collide(writes[i].0, writes[j].0)
  {
    var paths := WrittenPaths(writes);
    if Coherent(paths) {
      forall i, j | 0 <= i < |writes| && 0 <= j < |writes|
        ensures !Collide(writes[i].0, writes[j].0)
      {
        assert writes[i].0 in paths && writes[j].0 in paths;
      }
    } else {
      var p, q :| p in paths && q in paths && Under(p, q);
      var i :| 0 <= i < |writes| && writes[i].0 == p;
      var j :| 0 <= j < |writes| && writes[j].0 == q;
      assert Collide(writes[i].0, writes[j].0);
    }
  }

  /** A capture gives a written path its last content, and leaves of the others what it neither deletes nor masks. */
  lemma CaptureByPath(heads: Tree, writes: seq<(Path, Sha)>, deletes: seq<Path>)
    ensures forall k | 0 <= k < |writes| && IsLastWrite(writes, k) ::
              Get(CaptureTree(heads, writes, deletes), writes[k].0)
              == Some(Entry(writes[k].1, if writes[k].0 in heads then heads[writes[k].0].mode else 420))
    ensures forall p | IsUnwritten(writes, p) ::
              Get(CaptureTree(heads, writes, deletes), p)
              == if p in deletes || MaskedByFirst(writes, |writes|, p) then None else Get(heads, p)
  {
    forall k | 0 <= k < |writes| && IsLastWrite(writes, k)
      ensures Get(CaptureTree(heads, writes, deletes), writes[k].0)
           == Some(Entry(writes[k].1, if writes[k].0 in heads then heads[writes[k].0].mode else 420))
    {
      LastWriteWins(writes, k);
    }
    forall p | IsUnwritten(writes, p)
      ensures Get(CaptureTree(heads, writes, deletes), p)
           == if p in deletes || MaskedByFirst(writes, |writes|, p) then None else Get(heads, p)
    {
      MaskedByAny(writes, p);
      assert p !in WrittenPaths(writes);
    }
  }

  /** `captureBatch` between loading the heads and writing the tree. Its last collision check never fires. */
  method PlanCapture(heads: Tree, writes: seq<(Path, Sha)>, deletes: seq<Path>) returns (outcome: Outcome)
    requires "" !in WrittenPaths(writes)
    ensures outcome == Plan(Capture(writes, deletes), heads, None)
    ensures outcome.Refused? <==>
              exists i, j | 0 <= i < |writes| && 0 <= j < |writes| :: Collide(writes[i].0, writes[j].0)
    ensures outcome.Refused? ==> outcome.why == InvalidPath
    ensures outcome == Unchanged <==> !outcome.Refused? && Afterwards(outcome, heads) == heads
    ensures !outcome.Refused? ==> forall k | 0 <= k < |writes| && IsLastWrite(writes, k) ::
              Get(Afterwards(outcome, heads), writes[k].0)
              == Some(Entry(writes[k].1, if writes[k].0 in heads then heads[writes[k].0].mode else 420))
    ensures !outcome.Refused? ==> forall p | IsUnwritten(writes, p) ::
              Get(Afterwards(outcome, heads), p)
              == if p in deletes || MaskedByFirst(writes, |writes|, p) then None else Get(heads, p)
  {
    CollidingWrites(writes);
    CaptureByPath(heads, writes, deletes);
    var selfCollisions := FindTreeCoherenceCollisions(WrittenPaths(writes));
    if selfCollisions != [] { return Refused(InvalidPath); }
    var remaining := RemoveAll(heads, deletes);
    var kept := DropMasked(remaining, writes);
    var next := SetWritten(heads, kept, writes);
    CaptureTreeByParts(heads, writes, deletes, remaining, kept, next);
    for i := 0 to |writes| {
      assert writes[i].0 in WrittenPaths(writes);
      var collision := FindPathCollision(writes[i].0, next.Keys);
      if collision.Some? {
        NothingCollidesWithAWrite(heads, writes, deletes, writes[i].0, collision.value);
        assert false;
      }
    }
    if next == heads { return Unchanged; }
    return NewTree(next);
  }

  /** Self-collision rejection and masking leave no collision, whatever the head was. */
  lemma NothingCollidesWithAWrite(heads: Tree, writes: seq<(Path, Sha)>, deletes: seq<Path>, w: Path, q: Path)
    requires Coherent(WrittenPaths(writes)) && w in WrittenPaths(writes)
    requires q in CaptureTree(heads, writes, deletes)
    ensures !Collide(w, q)
  {
  }
}
