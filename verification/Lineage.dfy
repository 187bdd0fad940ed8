/**
 * src/sync/engine.ts, `heldInLineage`, over the `history` and `diff` queries of
 * src/session.ts: did a path ever hold a digest in this ref's lineage?
 */
module Lineage {
  import opened Prelude
  import opened Coherence
  import opened Trees
  import opened CommitGraph
  import Merge

  function TreeAt(commits: Commits, id: Id): Tree {
    if id in commits then commits[id].tree else map[]
  }

  /** The WHERE clause of the history query. */
  predicate Touches(commits: Commits, c: Id, path: Path)
    requires c in commits
  {
    if commits[c].parents == [] then path in commits[c].tree
    else exists p | p in commits[c].parents :: Get(commits[c].tree, path) != Get(TreeAt(commits, p), path)
  }

  /** The rows of `history`: every commit of the lineage that touches the path, newest first. */
  ghost predicate IsHistory(commits: Commits, tip: Id, path: Path, records: seq<Id>) {
    && (forall c :: c in records <==> c in commits && Reaches(commits, tip, c) && Touches(commits, c, path))
    && forall i, j | 0 <= i < j < |records| :: records[i] > records[j]
  }

  datatype Delta = Delta(beforeSha: Option<Sha>, afterSha: Option<Sha>)

  /** The row `diff(parent, commit)` has for a path, if it has one. */
  function PathDelta(commits: Commits, parent: Id, c: Id, path: Path): Option<Delta> {
    if Get(TreeAt(commits, parent), path) == Get(TreeAt(commits, c), path) then None
    else Some(Delta(Merge.ShaAt(TreeAt(commits, parent), path), Merge.ShaAt(TreeAt(commits, c), path)))
  }

  predicate Mentions(delta: Option<Delta>, sha: Sha) {
    delta.Some? && (delta.value.beforeSha == Some(sha) || delta.value.afterSha == Some(sha))
  }

  predicate Holds(commits: Commits, c: Id, path: Path, sha: Sha) {
    c in commits && Merge.ShaAt(commits[c].tree, path) == Some(sha)
  }

  /** A parentless commit is the genesis import, whose tree is empty. */
  ghost predicate GenesisIsEmpty(commits: Commits) {
    forall id | id in commits && commits[id].parents == [] :: commits[id].tree == map[]
  }

  /** Walking first parents down from a holder meets the commit that introduced the digest. */
  lemma {:induction false} HolderWasIntroduced(commits: Commits, c: Id, path: Path, sha: Sha) returns (d: Id)
    requires Closed(commits) && GenesisIsEmpty(commits) && Holds(commits, c, path, sha)
    ensures d in commits && Reaches(commits, c, d) && Touches(commits, d, path) && commits[d].parents != []
    ensures Mentions(PathDelta(commits, commits[d].parents[0], d, path), sha)
    decreases c
  {
    var p := commits[c].parents[0];
    assert IsParent(commits, p, c);
    if Holds(commits, p, path, sha) {
      d := HolderWasIntroduced(commits, p, path, sha);
      assert Reaches(commits, c, d);
    } else {
      d := c;
    }
  }

  lemma HolderIsRecorded(commits: Commits, tip: Id, records: seq<Id>, path: Path, sha: Sha, c: Id)
    requires Closed(commits) && GenesisIsEmpty(commits) && IsHistory(commits, tip, path, records)
    requires Reaches(commits, tip, c) && Holds(commits, c, path, sha)
    ensures exists i | 0 <= i < |records| :: records[i] in commits && commits[records[i]].parents != []
              && Mentions(PathDelta(commits, commits[records[i]].parents[0], records[i], path), sha)
  {
    var d := HolderWasIntroduced(commits, c, path, sha);
    ReachesTransitive(commits, tip, c, d);
    assert d in records;
    var i :| 0 <= i < |records| && records[i] == d;
  }

  /** The walk over the newest-first records, first parents only, is exact over all parents. */
  method HeldInLineage(commits: Commits, ghost tip: Id, records: seq<Id>, path: Path, sha: Sha) returns (held: bool)
    requires Closed(commits) && GenesisIsEmpty(commits) && tip in commits
    requires IsHistory(commits, tip, path, records)
    ensures held <==> exists c :: Reaches(commits, tip, c) && Holds(commits, c, path, sha)
  {
    for i := 0 to |records|
      invariant forall k | 0 <= k < i && commits[records[k]].parents != [] ::
                  !Mentions(PathDelta(commits, commits[records[k]].parents[0], records[k], path), sha)
    {
      var record := records[i];
      assert record in records;
      if commits[record].parents == [] { continue; }
      var parent := commits[record].parents[0];
      if Mentions(PathDelta(commits, parent, record, path), sha) {
        assert IsParent(commits, parent, record);
        assert Reaches(commits, parent, parent);
        assert Reaches(commits, record, parent);
        ReachesTransitive(commits, tip, record, parent);
        assert Holds(commits, record, path, sha) || Holds(commits, parent, path, sha);
        return true;
      }
    }
    if c :| Reaches(commits, tip, c) && Holds(commits, c, path, sha) {
      HolderIsRecorded(commits, tip, records, path, sha, c);
      assert false;
    }
    return false;
  }

  /** The newest commit of the lineage that touches the path. */
  ghost predicate IsNewest(commits: Commits, tip: Id, path: Path, c: Id) {
    && c in commits && Reaches(commits, tip, c) && Touches(commits, c, path)
    && forall d | d in commits && Reaches(commits, tip, d) && Touches(commits, d, path) :: d <= c
  }

  /** Before it, its parent had no such file. */
  predicate Created(commits: Commits, c: Id, path: Path)
    requires c in commits
  {
    commits[c].parents == [] || path !in TreeAt(commits, commits[c].parents[0])
  }

  /** Did the newest commit of the path create it, as a write? A scan that misses such a file lost it. */
  method CreatedByNewestWrite(commits: Commits, ghost tip: Id, records: seq<Id>, path: Path) returns (created: bool)
    requires IsHistory(commits, tip, path, records)
    requires forall c | c in commits && commits[c].op == "write" :: |commits[c].parents| <= 1
    ensures created <==>
            exists c :: IsNewest(commits, tip, path, c) && commits[c].op == "write" && Created(commits, c, path)
  {
    if records == [] { return false; }
    var newest := records[0];
    assert newest in records;
    forall d | d in commits && Reaches(commits, tip, d) && Touches(commits, d, path)
      ensures d <= newest
    {
      assert d in records;
    }
    assert IsNewest(commits, tip, path, newest);
    if commits[newest].op != "write" { return false; }
    if commits[newest].parents == [] { return true; }
    var delta := PathDelta(commits, commits[newest].parents[0], newest, path);
    return delta.None? || delta.value.beforeSha.None?;
  }
}
