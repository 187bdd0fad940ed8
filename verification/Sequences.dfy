/** `split` and `join` on one separator. */
module Sequences {

  /** The pieces between separators; the empty sequence has one empty piece. */
  function Split<T(==)>(s: seq<T>, sep: T): (pieces: seq<seq<T>>)
    ensures pieces != []
    ensures forall i | 0 <= i < |pieces| :: sep !in pieces[i]
    decreases |s|
  {
    if s == [] then [[]]
    else
      var rest := Split(s[1..], sep);
      if s[0] == sep then [[]] + rest else [[s[0]] + rest[0]] + rest[1..]
  }

  function Join<T>(pieces: seq<seq<T>>, sep: T): seq<T>
    decreases |pieces|
  {
    if pieces == [] then []
    else if |pieces| == 1 then pieces[0]
    else pieces[0] + [sep] + Join(pieces[1..], sep)
  }

  lemma {:induction false} JoinOfSplit<T>(s: seq<T>, sep: T)
    ensures Join(Split(s, sep), sep) == s
    decreases |s|
  {
    if s != [] {
      JoinOfSplit(s[1..], sep);
      var rest := Split(s[1..], sep);
      assert s == [s[0]] + s[1..];
      if s[0] == sep {
        assert Split(s, sep)[1..] == rest;
      } else {
        assert Split(s, sep)[1..] == rest[1..];
      }
    }
  }

  lemma {:induction false} SplitPrepend<T>(piece: seq<T>, s: seq<T>, sep: T)
    requires sep !in piece
    ensures Split(piece + s, sep) == [piece + Split(s, sep)[0]] + Split(s, sep)[1..]
    decreases |piece|
  {
    if piece == [] {
      assert piece + s == s;
      assert piece + Split(s, sep)[0] == Split(s, sep)[0];
    } else {
      SplitPrepend(piece[1..], s, sep);
      assert (piece + s)[1..] == piece[1..] + s;
      var first, tail := Split(s, sep)[0], Split(s, sep)[1..];
      assert piece[0] in piece && (piece + s)[0] == piece[0];
      var rest := Split((piece + s)[1..], sep);
      assert rest[0] == piece[1..] + first && rest[1..] == tail;
      assert [piece[0]] + (piece[1..] + first) == piece + first;
    }
  }

  /** Joining loses nothing when no piece holds the separator. */
  lemma {:induction false} SplitOfJoin<T>(pieces: seq<seq<T>>, sep: T)
    requires pieces != [] && forall i | 0 <= i < |pieces| :: sep !in pieces[i]
    ensures Split(Join(pieces, sep), sep) == pieces
    decreases |pieces|
  {
    if |pieces| == 1 {
      assert pieces[0] + [] == pieces[0];
      SplitPrepend(pieces[0], [], sep);
    } else {
      SplitOfJoin(pieces[1..], sep);
      var rest := [sep] + Join(pieces[1..], sep);
      assert rest[1..] == Join(pieces[1..], sep);
      SplitPrepend(pieces[0], rest, sep);
      assert pieces[0] + rest == pieces[0] + [sep] + Join(pieces[1..], sep);
      assert pieces == [pieces[0]] + pieces[1..];
      assert pieces[0] + [] == pieces[0];
    }
  }

  lemma {:induction false} SplitAt<T>(left: seq<T>, right: seq<T>, sep: T)
    requires sep !in left
    ensures Split(left + [sep] + right, sep) == [left] + Split(right, sep)
  {
    var rest := [sep] + right;
    assert rest[1..] == right;
    assert left + rest == left + [sep] + right;
    SplitPrepend(left, rest, sep);
    assert left + [] == left;
  }

  /** A stretch without separators that a separator or an end stands on either side of. */
  predicate IsSegment<T(==)>(s: seq<T>, sep: T, i: nat, j: nat) {
    && i <= j <= |s| && (i == 0 || s[i - 1] == sep) && (j == |s| || s[j] == sep)
    && forall k | i <= k < j :: s[k] != sep
  }

  lemma {:induction false} SegmentIsPiece<T>(s: seq<T>, sep: T, i: nat, j: nat) returns (k: nat)
    requires IsSegment(s, sep, i, j)
    ensures k < |Split(s, sep)| && Split(s, sep)[k] == s[i..j] && (k == 0 <==> i == 0)
    decreases |s|
  {
    k := 0;
    if s != [] {
      var tail := s[1..];
      if i > 0 {
        var at := SegmentIsPiece(tail, sep, i - 1, j - 1);
        assert tail[i - 1..j - 1] == s[i..j];
        k := if s[0] == sep then at + 1 else at;
      } else if j > 0 {
        var at := SegmentIsPiece(tail, sep, 0, j - 1);
        assert s[0..j] == [s[0]] + tail[0..j - 1];
      }
    }
  }

  lemma {:induction false} PieceIsSegment<T>(s: seq<T>, sep: T, k: nat) returns (i: nat, j: nat)
    requires k < |Split(s, sep)|
    ensures IsSegment(s, sep, i, j) && Split(s, sep)[k] == s[i..j] && (k == 0 <==> i == 0)
    decreases |s|
  {
    i, j := 0, 0;
    if s != [] {
      var tail := s[1..];
      var rest := Split(tail, sep);
      if s[0] != sep {
        i, j := PieceIsSegment(tail, sep, k);
        if k == 0 {
          j := j + 1;
          assert s[0..j] == [s[0]] + tail[0..j - 1];
        } else {
          i, j := i + 1, j + 1;
          assert tail[i - 1..j - 1] == s[i..j];
        }
      } else if k > 0 {
        i, j := PieceIsSegment(tail, sep, k - 1);
        i, j := i + 1, j + 1;
        assert tail[i - 1..j - 1] == s[i..j];
      }
    }
  }
}
