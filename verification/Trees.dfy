/** The flat trees a commit holds, and what each kernel operation makes of one. */
module Trees {
  import opened Prelude
  import opened Coherence

  /** A SHA-256 digest, read as a number: content is identified with its address. */
  type Sha = nat

  datatype Entry = Entry(sha: Sha, mode: int)

  type Tree = map<Path, Entry>

  const DEFAULT_MODE := 420

  function Get<K, V>(m: map<K, V>, k: K): Option<V> {
    if k in m then Some(m[k]) else None
  }

  /** What the heads cache keeps of a tree: it has no mode column. */
  function Shas(tree: Tree): map<Path, Sha> {
    map p | p in tree :: tree[p].sha
  }

  /** A precondition on the current content of a path: undefined, null or a digest. */
  datatype IfSha = Any | Absent | Holds(sha: Sha)

  predicate Matches(ifSha: IfSha, current: Option<Entry>) {
    match ifSha
    case Any => true
    case Absent => current.None?
    case Holds(sha) => current.Some? && current.value.sha == sha
  }

  datatype Request =
    | Write(path: Path, sha: Sha, ifSha: IfSha)
    | Delete(path: Path, ifSha: IfSha)
    | Capture(writes: seq<(Path, Sha)>, deletes: seq<Path>)
    | Restore(source: nat)

  datatype Refusal = NotFound | PreconditionFailed | InvalidPath | InvariantBroken | Settled | RefConflict

  datatype Outcome = Unchanged | NewTree(tree: Tree) | Refused(why: Refusal)

  function ModeOf(heads: Tree, path: Path): int {
    if path in heads then heads[path].mode else DEFAULT_MODE
  }

  function WrittenPaths(writes: seq<(Path, Sha)>): set<Path> {
    set i | 0 <= i < |writes| :: writes[i].0
  }

  /** The digest the last write of a batch gives to a path. */
  function LastSha(writes: seq<(Path, Sha)>, path: Path): Sha
    requires path in WrittenPaths(writes)
  {
    var last := |writes| - 1;
    if writes[last].0 == path then writes[last].1
    else
      assert forall i | 0 <= i < last :: writes[i] == writes[..last][i];
      LastSha(writes[..last], path)
  }

  /** Entries of `heads` a capture leaves alone: not deleted and not masked by a written path. */
  predicate Survives(heads: Tree, writes: seq<(Path, Sha)>, deletes: seq<Path>, p: Path) {
    p in heads && p !in deletes && forall w | w in WrittenPaths(writes) :: !Collide(w, p)
  }

  /** The tree a capture leaves behind, written over the tree it found. */
  function CaptureTree(heads: Tree, writes: seq<(Path, Sha)>, deletes: seq<Path>): Tree {
    map p | p in heads.Keys + WrittenPaths(writes)
          && (p in WrittenPaths(writes) || Survives(heads, writes, deletes, p)) ::
      if p in WrittenPaths(writes) then Entry(LastSha(writes, p), ModeOf(heads, p)) else heads[p]
  }

  /** What a request makes of the tree it is applied to. `source` is the tree a restore asked for. */
  ghost function Plan(request: Request, heads: Tree, source: Option<Tree>): Outcome {
    match request
    case Write(path, sha, ifSha) =>
      if !Matches(ifSha, Get(heads, path)) then Refused(PreconditionFailed)
      else if exists q | q in heads :: Collide(path, q) then Refused(InvalidPath)
      else if path in heads && heads[path].sha == sha then Unchanged
      else NewTree(heads[path := Entry(sha, ModeOf(heads, path))])
    case Delete(path, ifSha) =>
      if path !in heads then Refused(NotFound)
      else if !Matches(ifSha, Some(heads[path])) then Refused(PreconditionFailed)
      else NewTree(heads - {path})
    case Capture(writes, deletes) =>
      if !Coherent(WrittenPaths(writes)) then Refused(InvalidPath)
      else if CaptureTree(heads, writes, deletes) == heads then Unchanged
      else NewTree(CaptureTree(heads, writes, deletes))
    case Restore(_) =>
      if source.None? then Refused(NotFound)
      else if source.value == heads then Unchanged
      else NewTree(source.value)
  }

  /** The tree an outcome leaves behind. */
  function Afterwards(outcome: Outcome, heads: Tree): Tree {
    if outcome.NewTree? then outcome.tree else heads
  }

  /** Paths a request may be given: validated paths are never empty. */
  predicate WellFormedRequest(request: Request) {
    match request
    case Write(path, _, _) => path != ""
    case Delete(path, _) => path != ""
    case Capture(writes, deletes) => "" !in WrittenPaths(writes) && "" !in deletes
    case Restore(_) => true
  }

  /** No request commits the tree it found, and restoring that tree undoes whatever the request did. */
  lemma RestoreUndoes(request: Request, heads: Tree, source: Option<Tree>, id: nat)
    requires Plan(request, heads, source).NewTree?
    ensures var t := Plan(request, heads, source).tree; t != heads && Plan(Restore(id), t, Some(heads)) == NewTree(heads)
  {
    match request
    case Write(path, sha, _) =>
      assert heads[path := Entry(sha, ModeOf(heads, path))][path].sha == sha;
    case Delete(path, _) =>
      assert path in heads && path !in heads - {path};
    case Capture(_, _) =>
    case Restore(_) =>
  }

  /** Deleting the digest just written to a free path gives back the tree there was before. */
  lemma DeleteUndoesCreation(heads: Tree, path: Path, sha: Sha)
    requires Plan(Write(path, sha, Absent), heads, None).NewTree?
    ensures var t := Plan(Write(path, sha, Absent), heads, None).tree;
            Plan(Delete(path, Holds(sha)), t, None) == NewTree(heads)
  {
    assert heads[path := Entry(sha, ModeOf(heads, path))] - {path} == heads;
  }

  /** A capture of a coherent batch over a coherent tree is coherent, whatever the batch. */
  lemma CaptureKeepsCoherence(heads: Tree, writes: seq<(Path, Sha)>, deletes: seq<Path>)
    requires Coherent(heads.Keys) && Coherent(WrittenPaths(writes))
    ensures Coherent(CaptureTree(heads, writes, deletes).Keys)
  {
    var next := CaptureTree(heads, writes, deletes);
    forall p, q | p in next && q in next
      ensures !Under(p, q)
    {
      if p in WrittenPaths(writes) {
        if q !in WrittenPaths(writes) { assert !Collide(p, q); }
      } else if q in WrittenPaths(writes) {
        assert !Collide(q, p);
      }
    }
  }

  /** Every request answers a coherent tree with a coherent tree or not at all. */
  lemma PlanKeepsCoherence(request: Request, heads: Tree, source: Option<Tree>)
    requires Coherent(heads.Keys)
    requires source.Some? ==> Coherent(source.value.Keys)
    ensures var outcome := Plan(request, heads, source);
            outcome.NewTree? ==> Coherent(outcome.tree.Keys)
  {
    match request
    case Write(path, sha, _) =>
      assert forall q | q in heads :: Collide(path, q) <==> Under(path, q) || Under(q, path);
    case Delete(_, _) =>
    case Capture(writes, deletes) =>
      if Coherent(WrittenPaths(writes)) { CaptureKeepsCoherence(heads, writes, deletes); }
    case Restore(_) =>
  }
}
