/**
 * src/validation.ts: which two files no tree may hold together. A path is the
 * sequence of its characters after normalisation; a directory exists only as a
 * prefix of file paths.
 */
module Coherence {
  import opened Prelude
  import Ordering

  type Path = string

  /** `d` is a file below `p` taken as a directory. */
  predicate Under(p: Path, d: Path) {
    0 < |p| < |d| && d[..|p|] == p && d[|p|] == '/'
  }

  predicate Collide(p: Path, q: Path) {
    Under(p, q) || Under(q, p)
  }

  /** No file of the set is also a directory of the set. */
  ghost predicate Coherent(paths: set<Path>) {
    forall p, q | p in paths && q in paths :: !Under(p, q)
  }

  /** The index of the next separator at or after `from`, or -1. */
  function NextSeparator(s: string, from: nat): (k: int)
    ensures -1 <= k < |s|
    ensures k == -1 ==> forall i | from <= i < |s| :: s[i] != '/'
    ensures k != -1 ==> from <= k && s[k] == '/' && forall i | from <= i < k :: s[i] != '/'
    decreases |s| - from
  {
    if from >= |s| then -1
    else if s[from] == '/' then from
    else NextSeparator(s, from + 1)
  }

  /** The existing file `path` cannot stand beside: the nearest to the root, else the least below it. */
  method FindPathCollision(path: Path, paths: set<Path>) returns (found: Option<Path>)
    requires path != ""
    ensures found.None? <==> forall q | q in paths :: !Collide(path, q)
    ensures found.Some? ==> found.value in paths && Collide(path, found.value)
    ensures found.Some? && Under(found.value, path) ==>
              forall a | a in paths && Under(a, path) :: |found.value| <= |a|
    ensures found.Some? && Under(path, found.value) ==>
              forall q | q in paths && Collide(path, q) :: q == found.value || Ordering.Less(found.value, q)
  {
    var separator := NextSeparator(path, 1);
    ghost var scanned := 1;
    while separator != -1
      invariant 1 <= scanned <= |path|
      invariant separator == NextSeparator(path, scanned)
      invariant forall a | a in paths && Under(a, path) :: scanned <= |a|
      decreases |path| - scanned
    {
      var ancestor := path[..separator];
      if ancestor in paths {
        assert Under(ancestor, path);
        return Some(ancestor);
      }
      scanned := separator + 1;
      forall a | a in paths && Under(a, path)
        ensures scanned <= |a|
      {
        assert a == path[..|a|];
      }
      separator := NextSeparator(path, separator + 1);
    }
    assert forall a | a in paths :: !Under(a, path);
    found := None;
    var rest := paths;
    while rest != {}
      invariant rest <= paths
      invariant found.None? ==> forall q | q in paths - rest :: !Under(path, q)
      invariant found.Some? ==> found.value in paths && Under(path, found.value)
      invariant found.Some? ==>
                  forall q | q in paths - rest && Under(path, q) :: q == found.value || Ordering.Less(found.value, q)
      decreases |rest|
    {
      var candidate :| candidate in rest;
      rest := rest - {candidate};
      if Under(path, candidate) {
        if found.None? || Ordering.Less(candidate, found.value) {
          if found.Some? {
            forall q | q in paths - rest && Under(path, q)
              ensures q == candidate || Ordering.Less(candidate, q)
            {
              if q != candidate && q != found.value {
                Ordering.LessTransitive(candidate, found.value, q);
              }
            }
          }
          found := Some(candidate);
        } else {
          Ordering.LessIsTotal(candidate, found.value);
        }
      }
    }
  }

  /** Every existing file that `path` would hide, in both directions. */
  method FindMaskedPaths(path: Path, paths: set<Path>) returns (masked: seq<Path>)
    requires path != ""
    ensures forall q :: q in masked <==> q in paths && Collide(path, q)
  {
    masked := [];
    var separator := NextSeparator(path, 1);
    ghost var scanned := 1;
    while separator != -1
      invariant 1 <= scanned <= |path|
      invariant separator == NextSeparator(path, scanned)
      invariant forall q :: q in masked <==> q in paths && Under(q, path) && |q| < scanned
      decreases |path| - scanned
    {
      var ancestor := path[..separator];
      forall q | q in paths && Under(q, path) && |q| <= separator
        ensures q == ancestor || |q| < scanned
      {
        assert q == path[..|q|];
      }
      if ancestor in paths { masked := masked + [ancestor]; }
      scanned := separator + 1;
      separator := NextSeparator(path, separator + 1);
    }
    ghost var ancestors := masked;
    var rest := paths;
    while rest != {}
      invariant rest <= paths
      invariant forall q :: q in masked <==> q in ancestors || (q in paths - rest && Under(path, q))
      decreases |rest|
    {
      var candidate :| candidate in rest;
      rest := rest - {candidate};
      if Under(path, candidate) { masked := masked + [candidate]; }
    }
  }

  /** Every prefix pair of the set, ordered by path and then by colliding path. */
  method FindTreeCoherenceCollisions(paths: set<Path>) returns (collisions: seq<(Path, Path)>)
    ensures forall c :: c in collisions <==> c.0 in paths && c.1 in paths && Under(c.0, c.1)
    ensures Ordering.PairsAscend(collisions)
    ensures collisions == [] <==> Coherent(paths)
  {
    collisions := [];
    var rest := paths;
    while rest != {}
      invariant rest <= paths
      invariant forall c :: c in collisions <==> c.0 in paths && c.1 in paths - rest && Under(c.0, c.1)
      invariant Ordering.PairsAscend(collisions)
      decreases |rest|
    {
      var colliding :| colliding in rest;
      ghost var before := collisions;
      var separator := NextSeparator(colliding, 1);
      ghost var scanned := 1;
      while separator != -1
        invariant 1 <= scanned && (separator != -1 ==> scanned <= |colliding|)
        invariant separator == NextSeparator(colliding, scanned)
        invariant forall c :: c in collisions <==>
                                c in before || (c.0 in paths && c.1 == colliding && Under(c.0, colliding) && |c.0| < scanned)
        invariant Ordering.PairsAscend(collisions)
        decreases |colliding| - scanned
      {
        var path := colliding[..separator];
        forall q | q in paths && Under(q, colliding) && |q| <= separator
          ensures q == path || |q| < scanned
        {
          assert q == colliding[..|q|];
        }
        if path in paths { collisions := Ordering.InsertPair(collisions, (path, colliding)); }
        scanned := separator + 1;
        separator := NextSeparator(colliding, separator + 1);
      }
      rest := rest - {colliding};
    }
    if collisions == [] {
      forall p, q | p in paths && q in paths
        ensures !Under(p, q)
      {
        assert (p, q) !in collisions;
      }
    } else {
      assert collisions[0] in collisions;
    }
  }
}
