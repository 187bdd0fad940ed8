/** Plans made over one tree and carried out on another: what a stale writer's publication comes to. */
module Stale {
  import opened Prelude
  import opened Coherence
  import opened Trees

  /** What a capture leaves of a tree besides the paths it writes. */
  function KeptByCapture(heads: Tree, writes: seq<(Path, Sha)>, deletes: seq<Path>): Tree {
    map p | p in heads && p !in WrittenPaths(writes) && Survives(heads, writes, deletes, p) :: heads[p]
  }

  /** The two trees hold the same as far as the request keeps or looks up what is there. */
  ghost predicate SameKept(request: Request, heads: Tree, tip: Tree) {
    match request
    case Write(path, _, _) => heads - {path} == tip - {path} && ModeOf(heads, path) == ModeOf(tip, path)
    case Delete(path, _) => heads - {path} == tip - {path}
    case Capture(writes, deletes) =>
      && KeptByCapture(heads, writes, deletes) == KeptByCapture(tip, writes, deletes)
      && forall p | p in WrittenPaths(writes) :: ModeOf(heads, p) == ModeOf(tip, p)
    case Restore(_) => true
  }

  predicate IfShaHolds(request: Request, tip: Tree) {
    match request
    case Write(path, _, ifSha) => Matches(ifSha, Get(tip, path))
    case Delete(path, ifSha) => Matches(ifSha, Get(tip, path))
    case _ => true
  }

  /** A plan made over `heads` is the plan over `tip`: same kept files, same precondition, and something to change. */
  ghost predicate Unaffected(request: Request, heads: Tree, tip: Tree, source: Option<Tree>) {
    && SameKept(request, heads, tip) && IfShaHolds(request, tip)
    && Plan(request, heads, source) != NewTree(tip)
  }

  lemma SameGets(s: Tree, t: Tree)
    ensures s == t <==> forall p: Path :: Get(s, p) == Get(t, p)
  {
    if forall p: Path :: Get(s, p) == Get(t, p) {
      forall p: Path
        ensures p in s <==> p in t
        ensures p in s ==> s[p] == t[p]
      {
        assert Get(s, p) == Get(t, p);
      }
    }
  }

  /** A path of a captured tree. */
  lemma CapturedAt(heads: Tree, writes: seq<(Path, Sha)>, deletes: seq<Path>, p: Path)
    ensures Get(CaptureTree(heads, writes, deletes), p) ==
            if p in WrittenPaths(writes) then Some(Entry(LastSha(writes, p), ModeOf(heads, p)))
            else Get(KeptByCapture(heads, writes, deletes), p)
  {
  }

  lemma KeptAt(heads: Tree, writes: seq<(Path, Sha)>, deletes: seq<Path>, p: Path)
    ensures p in WrittenPaths(writes) ==> Get(KeptByCapture(heads, writes, deletes), p) == None
  {
  }

  lemma CaptureTreeKeeps(heads: Tree, tip: Tree, writes: seq<(Path, Sha)>, deletes: seq<Path>)
    ensures CaptureTree(heads, writes, deletes) == CaptureTree(tip, writes, deletes) <==>
            SameKept(Capture(writes, deletes), heads, tip)
  {
    SameGets(CaptureTree(heads, writes, deletes), CaptureTree(tip, writes, deletes));
    SameGets(KeptByCapture(heads, writes, deletes), KeptByCapture(tip, writes, deletes));
    forall p: Path
      ensures Get(CaptureTree(heads, writes, deletes), p) == Get(CaptureTree(tip, writes, deletes), p) <==>
              (p in WrittenPaths(writes) ==> ModeOf(heads, p) == ModeOf(tip, p))
              && Get(KeptByCapture(heads, writes, deletes), p) == Get(KeptByCapture(tip, writes, deletes), p)
    {
      CapturedAt(heads, writes, deletes, p);
      CapturedAt(tip, writes, deletes, p);
      KeptAt(heads, writes, deletes, p);
      KeptAt(tip, writes, deletes, p);
    }
    hide CaptureTree, KeptByCapture, WrittenPaths;
  }

  lemma StaleWrite(path: Path, sha: Sha, ifSha: IfSha, heads: Tree, tip: Tree)
    requires Plan(Write(path, sha, ifSha), heads, None).NewTree?
    ensures Plan(Write(path, sha, ifSha), tip, None) == Plan(Write(path, sha, ifSha), heads, None) <==>
            Unaffected(Write(path, sha, ifSha), heads, tip, None)
  {
    var next := heads[path := Entry(sha, ModeOf(heads, path))];
    var onTip := tip[path := Entry(sha, ModeOf(tip, path))];
    SameButOne(next, onTip, path);
    assert next - {path} == heads - {path} && onTip - {path} == tip - {path};
    assert path in tip && tip[path].sha == sha <==> onTip == tip by { SameButOne(onTip, tip, path); }
    if heads - {path} == tip - {path} { SameCollisions(heads, tip, path); }
  }

  lemma SameButOne(s: Tree, t: Tree, path: Path)
    ensures s == t <==> s - {path} == t - {path} && Get(s, path) == Get(t, path)
  {
    if s - {path} == t - {path} && Get(s, path) == Get(t, path) {
      forall p
        ensures Get(s, p) == Get(t, p)
      {
        assert p != path ==> Get(s, p) == Get(s - {path}, p) && Get(t, p) == Get(t - {path}, p);
      }
      SameGets(s, t);
    }
  }

  lemma SameCollisions(heads: Tree, tip: Tree, path: Path)
    requires heads - {path} == tip - {path}
    ensures (exists q | q in heads :: Collide(path, q)) <==> exists q | q in tip :: Collide(path, q)
  {
    forall q | q != path
      ensures q in heads <==> q in tip
    {
      assert q in heads - {path} <==> q in tip - {path};
    }
  }

  lemma StaleDelete(path: Path, ifSha: IfSha, heads: Tree, tip: Tree)
    requires Plan(Delete(path, ifSha), heads, None).NewTree?
    ensures Plan(Delete(path, ifSha), tip, None) == Plan(Delete(path, ifSha), heads, None) <==>
            Unaffected(Delete(path, ifSha), heads, tip, None)
  {
    assert path !in tip ==> tip == tip - {path};
  }

  lemma StaleCapture(writes: seq<(Path, Sha)>, deletes: seq<Path>, heads: Tree, tip: Tree)
    requires Plan(Capture(writes, deletes), heads, None).NewTree?
    ensures Plan(Capture(writes, deletes), tip, None) == Plan(Capture(writes, deletes), heads, None) <==>
            Unaffected(Capture(writes, deletes), heads, tip, None)
  {
    CaptureTreeKeeps(heads, tip, writes, deletes);
    hide SameKept, CaptureTree;
  }

  /** Exactly when a plan made over one tree is also the plan over another. */
  lemma StalePlanStands(request: Request, heads: Tree, tip: Tree, source: Option<Tree>)
    requires Plan(request, heads, source).NewTree?
    ensures Plan(request, tip, source) == Plan(request, heads, source) <==> Unaffected(request, heads, tip, source)
  {
    match request
    case Write(path, sha, ifSha) => StaleWrite(path, sha, ifSha, heads, tip);
    case Delete(path, ifSha) => StaleDelete(path, ifSha, heads, tip);
    case Capture(writes, deletes) => StaleCapture(writes, deletes, heads, tip);
    case Restore(_) =>
  }

  /** What a publication leaves in the cache: single-path requests touch one row, the others replace all. */
  function UpdatedHeads(request: Request, cached: map<Path, Sha>, tree: Tree): map<Path, Sha> {
    match request
    case Write(path, sha, _) => cached[path := sha]
    case Delete(path, _) => cached - {path}
    case Capture(_, _) => Shas(tree)
    case Restore(_) => Shas(tree)
  }

  /** The untouched rows are those the writer's heads held. */
  predicate CacheKept(request: Request, heads: Tree, cached: map<Path, Sha>) {
    match request
    case Write(path, _, _) => Shas(heads) - {path} == cached - {path}
    case Delete(path, _) => Shas(heads) - {path} == cached - {path}
    case Capture(_, _) => true
    case Restore(_) => true
  }

  /** Exactly when the cache a publication leaves is its tree, whatever tree it was planned over. */
  lemma StaleCacheStands(request: Request, heads: Tree, source: Option<Tree>, cached: map<Path, Sha>)
    requires Plan(request, heads, source).NewTree?
    ensures var tree := Plan(request, heads, source).tree;
            UpdatedHeads(request, cached, tree) == Shas(tree) <==> CacheKept(request, heads, cached)
  {
    match request
    case Write(path, sha, _) =>
      var left, right := cached[path := sha], Shas(heads[path := Entry(sha, ModeOf(heads, path))]);
      assert left - {path} == cached - {path} && right - {path} == Shas(heads) - {path};
      assert left == (left - {path})[path := sha] && right == (right - {path})[path := sha];
    case Delete(path, _) =>
      assert Shas(heads - {path}) == Shas(heads) - {path};
    case Capture(_, _) =>
    case Restore(_) =>
  }
}
