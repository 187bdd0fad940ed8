/** The commit DAG. Row ids come from one sequence, so a commit's id exceeds its parents'. */
module CommitGraph {
  import opened Trees

  type Id = nat

  /** The fields the commit digest covers; equal commits share one row. */
  datatype Commit = Commit(tree: Tree, parents: seq<Id>, op: string, author: string, createdAt: int)

  type Commits = map<Id, Commit>

  /** No commit has a missing parent, and parents precede children. */
  ghost predicate Closed(commits: Commits) {
    forall id, i | id in commits && 0 <= i < |commits[id].parents| ::
      commits[id].parents[i] in commits && commits[id].parents[i] < id
  }

  predicate IsParent(commits: Commits, p: Id, c: Id) {
    c in commits && p < c && p in commits[c].parents
  }

  /** `a` is `d` or is reached from `d` through any parents. */
  ghost predicate Reaches(commits: Commits, d: Id, a: Id)
    decreases d
  {
    a == d || exists p | IsParent(commits, p, d) :: Reaches(commits, p, a)
  }

  lemma {:induction false} ReachesOlder(commits: Commits, d: Id, a: Id)
    requires Reaches(commits, d, a)
    ensures a <= d
    decreases d
  {
    if a != d {
      var p :| IsParent(commits, p, d) && Reaches(commits, p, a);
      ReachesOlder(commits, p, a);
    }
  }

  lemma {:induction false} ReachesTransitive(commits: Commits, c: Id, b: Id, a: Id)
    requires Reaches(commits, c, b) && Reaches(commits, b, a)
    ensures Reaches(commits, c, a)
    decreases c
  {
    if b != c {
      var p :| IsParent(commits, p, c) && Reaches(commits, p, b);
      ReachesTransitive(commits, p, b, a);
    }
  }

  /** Ancestry below a commit is the same in two stores that agree on its ancestors. */
  lemma {:induction false} ReachesSame(commits: Commits, commits': Commits, d: Id, a: Id)
    requires forall x | x in commits && Reaches(commits, d, x) :: x in commits' && commits'[x] == commits[x]
    requires Closed(commits) && d in commits
    ensures Reaches(commits, d, a) <==> Reaches(commits', d, a)
    decreases d
  {
    assert Reaches(commits, d, d);
    if a != d {
      forall p | IsParent(commits, p, d) || IsParent(commits', p, d)
        ensures p in commits && IsParent(commits, p, d) && IsParent(commits', p, d)
        ensures Reaches(commits, p, a) <==> Reaches(commits', p, a)
      {
        var i :| 0 <= i < |commits[d].parents| && commits[d].parents[i] == p;
        forall x | x in commits && Reaches(commits, p, x)
          ensures x in commits' && commits'[x] == commits[x]
        {
          assert Reaches(commits, d, x);
        }
        ReachesSame(commits, commits', p, a);
      }
    }
  }

  /** Every ancestor of a stored commit is stored. */
  lemma {:induction false} AncestorsAreStored(commits: Commits, d: Id, a: Id)
    requires Closed(commits) && d in commits && Reaches(commits, d, a)
    ensures a in commits
    decreases d
  {
    if a != d {
      var p :| IsParent(commits, p, d) && Reaches(commits, p, a);
      var i :| 0 <= i < |commits[d].parents| && commits[d].parents[i] == p;
      AncestorsAreStored(commits, p, a);
    }
  }
}
