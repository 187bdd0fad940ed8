/** The order JavaScript's `<` gives two strings, and sorting by it. */
module Ordering {

  predicate Less(a: string, b: string) {
    if b == "" then false
    else if a == "" then true
    else if a[0] != b[0] then a[0] < b[0]
    else Less(a[1..], b[1..])
  }

  lemma {:induction false} LessIsTotal(a: string, b: string)
    ensures a == b || Less(a, b) || Less(b, a)
    ensures !(Less(a, b) && Less(b, a))
    ensures !Less(a, a)
  {
    if a != "" {
      LessIsTotal(a[1..], a[1..]);
      if b != "" && a[0] == b[0] {
        LessIsTotal(a[1..], b[1..]);
        assert a == [a[0]] + a[1..] && b == [b[0]] + b[1..];
      }
    }
  }

  /** The strings part at `k`: there the first has ended or holds the lesser character. */
  predicate PartsBelow(a: string, b: string, k: nat) {
    k <= |a| && k < |b| && a[..k] == b[..k] && (k < |a| ==> a[k] < b[k])
  }

  /** The order looks at the first difference, and puts a prefix first. */
  lemma {:induction false} LessAtFirstDifference(a: string, b: string)
    ensures Less(a, b) <==> exists k: nat :: PartsBelow(a, b, k)
  {
    if a == "" || b == "" || a[0] != b[0] {
      if Less(a, b) { assert PartsBelow(a, b, 0); }
      if k: nat :| PartsBelow(a, b, k) {
        assert k > 0 ==> a[..k][0] == b[..k][0];
      }
    } else {
      LessAtFirstDifference(a[1..], b[1..]);
      if k: nat :| PartsBelow(a[1..], b[1..], k) {
        assert a[..k + 1] == [a[0]] + a[1..][..k] && b[..k + 1] == [b[0]] + b[1..][..k];
        assert PartsBelow(a, b, k + 1);
      }
      if k: nat :| PartsBelow(a, b, k) {
        assert a[1..][..k - 1] == a[..k][1..] && b[1..][..k - 1] == b[..k][1..];
        assert PartsBelow(a[1..], b[1..], k - 1);
      }
    }
  }

  lemma {:induction false} LessTransitive(a: string, b: string, c: string)
    requires Less(a, b) && Less(b, c)
    ensures Less(a, c)
  {
    if a != "" && a[0] == b[0] && b[0] == c[0] {
      LessTransitive(a[1..], b[1..], c[1..]);
    }
  }

  /** Lexicographic order on pairs of strings. */
  predicate PairLess(x: (string, string), y: (string, string)) {
    Less(x.0, y.0) || (x.0 == y.0 && Less(x.1, y.1))
  }

  predicate PairsAscend(s: seq<(string, string)>) {
    forall i, j | 0 <= i < j < |s| :: PairLess(s[i], s[j])
  }

  lemma PairLessTransitive(x: (string, string), y: (string, string), z: (string, string))
    requires PairLess(x, y) && PairLess(y, z)
    ensures PairLess(x, z)
  {
    if Less(x.0, y.0) && Less(y.0, z.0) {
      LessTransitive(x.0, y.0, z.0);
    } else if x.0 == y.0 == z.0 {
      LessTransitive(x.1, y.1, z.1);
    }
  }

  /** Place a new pair into an ascending sequence. */
  method InsertPair(s: seq<(string, string)>, x: (string, string)) returns (r: seq<(string, string)>)
    requires PairsAscend(s) && x !in s
    ensures PairsAscend(r)
    ensures forall e :: e in r <==> e in s || e == x
  {
    var i := 0;
    while i < |s| && PairLess(s[i], x)
      invariant 0 <= i <= |s|
      invariant forall k | 0 <= k < i :: PairLess(s[k], x)
    {
      i := i + 1;
    }
    r := s[..i] + [x] + s[i..];
    forall k | i <= k < |s|
      ensures PairLess(x, s[k])
    {
      LessIsTotal(s[i].0, x.0);
      LessIsTotal(s[i].1, x.1);
      if k > i { PairLessTransitive(x, s[i], s[k]); }
    }
    forall e
      ensures e in r <==> e in s || e == x
    {
      assert s == s[..i] + s[i..];
    }
  }
}
