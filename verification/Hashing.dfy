/**
 * src/hashing.ts: the byte strings whose digests name trees and commits. A
 * byte is written as the character with its code, so strings are byte strings.
 */
module Hashing {
  import opened Prelude
  import opened Sequences
  import Bytes
  import Ordering

  const NUL := '\0'

  datatype TreeEntry = TreeEntry(path: string, mode: nat, blobSha: string)

  function Decimal(n: nat): string {
    var last := ['0' + (n % 10) as char];
    if n < 10 then last else Decimal(n / 10) + last
  }

  function EntryBytes(e: TreeEntry): string {
    e.path + [NUL] + Decimal(e.mode) + [NUL] + e.blobSha + "\n"
  }

  /** What validation leaves: paths hold no NUL, digests are 64 characters without one. */
  predicate IsCanonical(e: TreeEntry) {
    NUL !in e.path && |e.blobSha| == 64 && NUL !in e.blobSha
  }

  function AllBytes(entries: seq<TreeEntry>): string {
    if entries == [] then "" else EntryBytes(entries[0]) + AllBytes(entries[1..])
  }

  predicate Ascends(entries: seq<TreeEntry>) {
    forall i, j | 0 <= i < j < |entries| :: !Ordering.Less(entries[j].path, entries[i].path)
  }

  predicate DistinctPaths(entries: seq<TreeEntry>) {
    forall i, j | 0 <= i < j < |entries| :: entries[i].path != entries[j].path
  }

  // ---------------------------------------------------------------------
  // Trees.

  lemma {:induction false} DecimalHasNoNul(n: nat)
    ensures NUL !in Decimal(n) && |Decimal(n)| > 0
  {
    if n >= 10 { DecimalHasNoNul(n / 10); }
  }

  predicate IsDecimal(s: string) {
    forall i | 0 <= i < |s| :: '0' <= s[i] <= '9'
  }

  /** The bytes of a numeral. */
  function Codes(s: string): (codes: Bytes.Buffer)
    requires IsDecimal(s)
    ensures |codes| == |s| && Bytes.AllDigits(10, codes)
  {
    seq(|s|, i requires 0 <= i < |s| => s[i] as int)
  }

  lemma {:induction false} DecimalIsDecimal(n: nat)
    ensures IsDecimal(Decimal(n)) && Decimal(n) != ""
  {
    if n >= 10 { DecimalIsDecimal(n / 10); }
  }

  lemma ValueOfOneMore(tens: string, digit: nat)
    requires IsDecimal(tens) && digit < 10
    ensures var s := tens + ['0' + digit as char];
            IsDecimal(s) && Bytes.Value(10, Codes(s)) == 10 * Bytes.Value(10, Codes(tens)) + digit
  {
    var s := tens + ['0' + digit as char];
    var codes := Codes(s);
    assert codes[..|codes| - 1] == Codes(tens);
  }

  /** A numeral reads back, in base ten, as its number and has no leading zero. */
  lemma {:induction false} DecimalReadsBack(n: nat)
    ensures IsDecimal(Decimal(n)) && Bytes.Value(10, Codes(Decimal(n))) == n
    ensures Decimal(n) != "" && (n > 0 ==> Decimal(n)[0] != '0')
  {
    DecimalIsDecimal(n);
    if n < 10 {
      ValueOfOneMore("", n);
      assert "" + ['0' + n as char] == Decimal(n);
    } else {
      DecimalReadsBack(n / 10);
      ValueOfOneMore(Decimal(n / 10), n % 10);
      hide Codes, Bytes.Value;
    }
  }

  lemma {:induction false} DecimalIsInjective(m: nat, n: nat)
    requires Decimal(m) == Decimal(n)
    ensures m == n
  {
    DecimalHasNoNul(m / 10);
    DecimalHasNoNul(n / 10);
    var a, b := Decimal(m), Decimal(n);
    assert a[|a| - 1] == b[|b| - 1];
    if m >= 10 && n >= 10 {
      assert Decimal(m / 10) == a[..|a| - 1] == Decimal(n / 10);
      DecimalIsInjective(m / 10, n / 10);
    }
  }

  /** Text up to the first NUL, and what follows it, are determined by the whole. */
  lemma FirstNul(a: string, x: string, b: string, y: string)
    requires NUL !in a && NUL !in b && a + [NUL] + x == b + [NUL] + y
    ensures a == b && x == y
  {
    SplitAt(a, x, NUL);
    SplitAt(b, y, NUL);
    var whole := a + [NUL] + x;
    assert a == Split(whole, NUL)[0] == b;
    assert x == whole[|a| + 1..] == y;
  }

  /** An entry can be read off the front of any text that starts with one. */
  lemma EntryIsAPrefixCode(d: TreeEntry, x: string, e: TreeEntry, y: string)
    requires IsCanonical(d) && IsCanonical(e) && EntryBytes(d) + x == EntryBytes(e) + y
    ensures d == e && x == y
  {
    var dShaOn, eShaOn := d.blobSha + "\n" + x, e.blobSha + "\n" + y;
    var dModeOn, eModeOn := Decimal(d.mode) + [NUL] + dShaOn, Decimal(e.mode) + [NUL] + eShaOn;
    assert EntryBytes(d) + x == d.path + [NUL] + dModeOn;
    assert EntryBytes(e) + y == e.path + [NUL] + eModeOn;
    FirstNul(d.path, dModeOn, e.path, eModeOn);
    DecimalHasNoNul(d.mode);
    DecimalHasNoNul(e.mode);
    FirstNul(Decimal(d.mode), dShaOn, Decimal(e.mode), eShaOn);
    DecimalIsInjective(d.mode, e.mode);
    assert d.blobSha == dShaOn[..64] && e.blobSha == eShaOn[..64];
    assert x == dShaOn[65..] && y == eShaOn[65..];
  }

  lemma {:induction false} BytesAreInjective(a: seq<TreeEntry>, b: seq<TreeEntry>)
    requires forall e | e in a + b :: IsCanonical(e)
    requires AllBytes(a) == AllBytes(b)
    ensures a == b
  {
    if a != [] && b != [] {
      assert a[0] in a + b && b[0] in a + b;
      EntryIsAPrefixCode(a[0], AllBytes(a[1..]), b[0], AllBytes(b[1..]));
      assert forall e | e in a[1..] + b[1..] :: e in a + b;
      BytesAreInjective(a[1..], b[1..]);
      assert a == [a[0]] + a[1..] && b == [b[0]] + b[1..];
    }
  }

  /** The line of digest before an entry, and the path the next one starts with. */
  function Boundary(entries: seq<TreeEntry>, k: nat): string
    requires k <= |entries|
  {
    (if k == 0 then "" else entries[k - 1].blobSha + "\n") + if k == |entries| then "" else entries[k].path
  }

  function ModeField(entries: seq<TreeEntry>, k: nat): string
    requires k < |entries|
  {
    Decimal(entries[k].mode)
  }

  /** What stands between the NULs of a tree's bytes, by position: each mode between its path and its digest. */
  predicate IsTreeText(entries: seq<TreeEntry>, pieces: seq<string>) {
    && |pieces| == 2 * |entries| + 1
    && (forall k | 0 <= k < |entries| :: pieces[2 * k + 1] == ModeField(entries, k))
    && forall k | 0 <= k <= |entries| :: pieces[2 * k] == Boundary(entries, k)
  }

  /** The text is the entries' paths, decimal modes and digests in order, each digest's line ended by a newline. */
  lemma {:induction false} TreeTextIsPinned(entries: seq<TreeEntry>)
    requires forall e | e in entries :: IsCanonical(e)
    ensures IsTreeText(entries, Split(AllBytes(entries), NUL))
  {
    if entries != [] {
      var first, others := entries[0], entries[1..];
      assert forall e | e in others :: e in entries;
      TreeTextIsPinned(others);
      assert entries == [first] + others && IsCanonical(first);
      assert AllBytes(entries) == EntryBytes(first) + AllBytes(others);
      hide *;
      SplitOfEntry(first, AllBytes(others));
      TextOfOneMore(first, others, Split(AllBytes(others), NUL));
    }
  }

  lemma SplitOfEntry(e: TreeEntry, rest: string)
    requires IsCanonical(e)
    ensures var pieces := Split(rest, NUL);
            Split(EntryBytes(e) + rest, NUL) == [e.path, Decimal(e.mode), e.blobSha + "\n" + pieces[0]] + pieces[1..]
  {
    var sha, mode, pieces := e.blobSha + "\n", Decimal(e.mode), Split(rest, NUL);
    DecimalHasNoNul(e.mode);
    assert EntryBytes(e) + rest == e.path + [NUL] + (mode + [NUL] + (sha + rest));
    hide Split, EntryBytes, Decimal;
    SplitAt(e.path, mode + [NUL] + (sha + rest), NUL);
    SplitAt(mode, sha + rest, NUL);
    SplitPrepend(sha, rest, NUL);
    assert [e.path] + ([mode] + ([sha + pieces[0]] + pieces[1..])) == [e.path, mode, sha + pieces[0]] + pieces[1..];
  }

  lemma TextOfOneMore(first: TreeEntry, others: seq<TreeEntry>, pieces: seq<string>)
    requires IsTreeText(others, pieces)
    ensures IsTreeText([first] + others,
                       [first.path, Decimal(first.mode), first.blobSha + "\n" + pieces[0]] + pieces[1..])
  {
    var entries := [first] + others;
    var all := [first.path, Decimal(first.mode), first.blobSha + "\n" + pieces[0]] + pieces[1..];
    hide Decimal;
    forall k | 0 <= k < |entries|
      ensures all[2 * k + 1] == ModeField(entries, k)
    {
      assert k > 0 ==> pieces[2 * (k - 1) + 1] == ModeField(others, k - 1);
    }
    forall k | 0 <= k <= |entries|
      ensures all[2 * k] == Boundary(entries, k)
    {
      BoundaryShifts(first, others, k);
      assert k > 0 ==> pieces[2 * (k - 1)] == Boundary(others, k - 1);
      assert k > 1 ==> all[2 * k] == pieces[2 * (k - 1)];
    }
  }

  lemma BoundaryShifts(first: TreeEntry, others: seq<TreeEntry>, k: nat)
    requires k <= |others| + 1
    ensures Boundary([first] + others, k) == if k == 0 then first.path
            else if k == 1 then first.blobSha + "\n" + Boundary(others, 0) else Boundary(others, k - 1)
  {
    assert "" + first.path == first.path;
    assert k == 1 ==> "" + (if others == [] then "" else others[0].path) == if others == [] then "" else others[0].path;
  }

  predicate SameMembers(a: seq<TreeEntry>, b: seq<TreeEntry>) {
    (forall e | e in a :: e in b) && (forall e | e in b :: e in a)
  }

  lemma FirstIsLeast(a: seq<TreeEntry>, e: TreeEntry)
    requires Ascends(a) && DistinctPaths(a) && e in a
    ensures e == a[0] || Ordering.Less(a[0].path, e.path)
  {
    var i :| 0 <= i < |a| && a[i] == e;
    Ordering.LessIsTotal(a[0].path, a[i].path);
  }

  lemma RestMembers(a: seq<TreeEntry>, e: TreeEntry)
    requires a != [] && DistinctPaths(a)
    ensures e in a[1..] <==> e in a && e != a[0]
  {
    assert a == [a[0]] + a[1..];
    if e in a[1..] {
      var i :| 0 <= i < |a[1..]| && a[1..][i] == e;
      assert a[i + 1] == e && a[0].path != a[i + 1].path;
    }
  }

  /** Ascending lists of the same entries, no path twice, are the same list. */
  lemma {:induction false} AscendingIsUnique(a: seq<TreeEntry>, b: seq<TreeEntry>)
    requires Ascends(a) && Ascends(b) && DistinctPaths(a) && DistinctPaths(b) && SameMembers(a, b)
    ensures a == b
  {
    assert (a != [] ==> a[0] in b) && (b != [] ==> b[0] in a);
    if a != [] && b != [] {
      SameFirst(a, b);
      forall e
        ensures e in a[1..] <==> e in b[1..]
      {
        RestMembers(a, e);
        RestMembers(b, e);
      }
      AscendingIsUnique(a[1..], b[1..]);
      assert a == [a[0]] + a[1..] && b == [b[0]] + b[1..];
    }
  }

  lemma SameFirst(a: seq<TreeEntry>, b: seq<TreeEntry>)
    requires a != [] && b != []
    requires Ascends(a) && Ascends(b) && DistinctPaths(a) && DistinctPaths(b) && SameMembers(a, b)
    ensures a[0] == b[0]
  {
    assert a[0] in b && b[0] in a;
    FirstIsLeast(a, b[0]);
    FirstIsLeast(b, a[0]);
    Ordering.LessIsTotal(a[0].path, b[0].path);
  }

  /** A place for one more entry among ascending ones, after its equals. */
  method Insert(sorted: seq<TreeEntry>, e: TreeEntry) returns (r: seq<TreeEntry>)
    requires Ascends(sorted)
    ensures Ascends(r) && forall x :: x in r <==> x in sorted || x == e
    ensures DistinctPaths(sorted) && (forall x | x in sorted :: x.path != e.path) ==> DistinctPaths(r)
  {
    var i := |sorted|;
    while i > 0 && Ordering.Less(e.path, sorted[i - 1].path)
      invariant 0 <= i <= |sorted|
      invariant i < |sorted| ==> Ordering.Less(e.path, sorted[i].path)
    {
      i := i - 1;
    }
    r := sorted[..i] + [e] + sorted[i..];
    InsertedAscends(sorted, e, i);
    InsertedMembers(sorted, e, i);
  }

  lemma InsertedMembers(sorted: seq<TreeEntry>, e: TreeEntry, i: nat)
    requires i <= |sorted|
    ensures var r := sorted[..i] + [e] + sorted[i..]; forall x :: x in r <==> x in sorted || x == e
  {
    assert sorted == sorted[..i] + sorted[i..];
  }

  lemma NotLessTransitive(p: string, q: string, r: string)
    requires !Ordering.Less(q, p) && !Ordering.Less(r, q)
    ensures !Ordering.Less(r, p)
  {
    Ordering.LessIsTotal(p, q);
    Ordering.LessIsTotal(q, r);
    Ordering.LessIsTotal(p, r);
    if Ordering.Less(p, q) && Ordering.Less(q, r) { Ordering.LessTransitive(p, q, r); }
  }

  lemma InsertedAscends(sorted: seq<TreeEntry>, e: TreeEntry, i: nat)
    requires Ascends(sorted) && i <= |sorted|
    requires i > 0 ==> !Ordering.Less(e.path, sorted[i - 1].path)
    requires i < |sorted| ==> Ordering.Less(e.path, sorted[i].path)
    ensures Ascends(sorted[..i] + [e] + sorted[i..])
    ensures DistinctPaths(sorted) && (forall x | x in sorted :: x.path != e.path) ==>
              DistinctPaths(sorted[..i] + [e] + sorted[i..])
  {
    forall k | 0 <= k < i
      ensures !Ordering.Less(e.path, sorted[k].path)
    {
      if k < i - 1 { NotLessTransitive(sorted[k].path, sorted[i - 1].path, e.path); }
    }
    forall k | i <= k < |sorted|
      ensures !Ordering.Less(sorted[k].path, e.path)
    {
      Ordering.LessIsTotal(e.path, sorted[i].path);
      if i < k { NotLessTransitive(e.path, sorted[i].path, sorted[k].path); }
    }
  }

  /** Serializes the entries by path, in byte order; an entry whose path is not valid is refused. */
  method TreePreimage(entries: seq<TreeEntry>, isValid: string -> bool) returns (r: Result<string, string>)
    ensures r.Ok? <==> forall e | e in entries :: isValid(e.path)
    ensures r.Err? ==> !isValid(r.error) && exists e :: e in entries && e.path == r.error
    ensures r.Ok? && DistinctPaths(entries) ==> IsTreePreimage(entries, r.value)
  {
    for i := 0 to |entries|
      invariant forall k | 0 <= k < i :: isValid(entries[k].path)
    {
      if !isValid(entries[i].path) {
        assert entries[i] in entries;
        return Err(entries[i].path);
      }
    }
    var sorted := [];
    for i := 0 to |entries|
      invariant Ascends(sorted)
      invariant forall x :: x in sorted <==> x in entries[..i]
      invariant DistinctPaths(entries) ==> DistinctPaths(sorted)
    {
      assert entries[..i + 1] == entries[..i] + [entries[i]];
      sorted := Insert(sorted, entries[i]);
    }
    assert entries[..|entries|] == entries;
    var serialized := "";
    for i := 0 to |sorted|
      invariant serialized == AllBytes(sorted[..i])
    {
      BytesOfOneMore(sorted[..i], sorted[i]);
      assert sorted[..i + 1] == sorted[..i] + [sorted[i]];
      serialized := serialized + EntryBytes(sorted[i]);
    }
    assert sorted[..|sorted|] == sorted;
    assert DistinctPaths(entries) ==> IsPreimageOf(entries, sorted, serialized);
    return Ok(serialized);
  }

  ghost predicate IsPreimageOf(entries: seq<TreeEntry>, sorted: seq<TreeEntry>, bytes: string) {
    Ascends(sorted) && DistinctPaths(sorted) && SameMembers(entries, sorted) && bytes == AllBytes(sorted)
  }

  /** The bytes are the entries' own, each once, in ascending order of path. */
  ghost predicate IsTreePreimage(entries: seq<TreeEntry>, bytes: string) {
    exists sorted :: IsPreimageOf(entries, sorted, bytes)
  }

  lemma {:induction false} BytesOfOneMore(entries: seq<TreeEntry>, e: TreeEntry)
    ensures AllBytes(entries + [e]) == AllBytes(entries) + EntryBytes(e)
  {
    if entries == [] {
      assert entries + [e] == [e] && [e][1..] == [];
      assert EntryBytes(e) + "" == EntryBytes(e) && "" + EntryBytes(e) == EntryBytes(e);
    } else {
      assert (entries + [e])[1..] == entries[1..] + [e];
      BytesOfOneMore(entries[1..], e);
      assert EntryBytes(entries[0]) + (AllBytes(entries[1..]) + EntryBytes(e))
          == EntryBytes(entries[0]) + AllBytes(entries[1..]) + EntryBytes(e);
    }
  }

  /** Two trees have the same preimage exactly when they hold the same entries, in whatever order. */
  lemma TreePreimageNamesTheTree(a: seq<TreeEntry>, aBytes: string, b: seq<TreeEntry>, bBytes: string)
    requires forall e | e in a + b :: IsCanonical(e)
    requires IsTreePreimage(a, aBytes) && IsTreePreimage(b, bBytes)
    ensures aBytes == bBytes <==> SameMembers(a, b)
  {
    var sa :| IsPreimageOf(a, sa, aBytes);
    var sb :| IsPreimageOf(b, sb, bBytes);
    if aBytes == bBytes {
      forall e | e in sa + sb
        ensures IsCanonical(e)
      {
        assert e in a + b;
      }
      BytesAreInjective(sa, sb);
    }
    if SameMembers(a, b) {
      AscendingIsUnique(sa, sb);
    }
  }

  // ---------------------------------------------------------------------
  // Commits.

  datatype CommitInput = CommitInput(
    treeSha: string, parents: seq<string>, authorUser: string,
    agentKind: Option<string>, threadId: Option<string>, runId: Option<string>, ts: string, op: string)

  function OrEmpty(s: Option<string>): string {
    if s.Some? then s.value else ""
  }

  predicate IsText(s: string) {
    NUL !in s
  }

  /** No field holds a NUL; newlines are allowed anywhere. */
  predicate IsNulFree(c: CommitInput) {
    && IsText(c.treeSha) && (forall i | 0 <= i < |c.parents| :: IsText(c.parents[i]))
    && IsText(c.authorUser) && IsText(OrEmpty(c.agentKind)) && IsText(OrEmpty(c.threadId))
    && IsText(OrEmpty(c.runId)) && IsText(c.ts) && IsText(c.op)
  }

  /** The same commit once an absent text field is read as the empty one. */
  predicate SameCommit(c: CommitInput, d: CommitInput) {
    && c.treeSha == d.treeSha && c.parents == d.parents && c.authorUser == d.authorUser
    && OrEmpty(c.agentKind) == OrEmpty(d.agentKind) && OrEmpty(c.threadId) == OrEmpty(d.threadId)
    && OrEmpty(c.runId) == OrEmpty(d.runId) && c.ts == d.ts && c.op == d.op
  }

  /** The tree and parent lines, each ended by a newline. */
  function Ancestry(treeSha: string, parents: seq<string>): string {
    if parents == [] then "tree" + [NUL] + treeSha + "\n"
    else Ancestry(treeSha, parents[..|parents| - 1]) + "parent" + [NUL] + parents[|parents| - 1] + "\n"
  }

  /** What stands between the NULs of the ancestry lines, when `tag` opens the line after them. */
  function AncestryPieces(treeSha: string, parents: seq<string>, tag: string): seq<string> {
    if parents == [] then ["tree", treeSha + "\n" + tag]
    else AncestryPieces(treeSha, parents[..|parents| - 1], "parent") + [parents[|parents| - 1] + "\n" + tag]
  }

  function Pieces(c: CommitInput): seq<string> {
    AncestryPieces(c.treeSha, c.parents, "author")
    + [c.authorUser, OrEmpty(c.agentKind), OrEmpty(c.threadId), OrEmpty(c.runId) + "\nts", c.ts + "\nop", c.op + "\n"]
  }

  /** Serializes a commit; a timestamp that is not canonical is refused. */
  method CommitPreimage(c: CommitInput, isTimestamp: string -> bool) returns (r: Result<string, string>)
    ensures r.Ok? <==> isTimestamp(c.ts)
    ensures r.Err? ==> r.error == c.ts
    ensures r.Ok? ==> r.value == Join(Pieces(c), NUL)
  {
    if !isTimestamp(c.ts) {
      return Err(c.ts);
    }
    var serialized := "tree" + [NUL] + c.treeSha + "\n";
    for i := 0 to |c.parents|
      invariant serialized == Ancestry(c.treeSha, c.parents[..i])
    {
      assert c.parents[..i + 1][..i] == c.parents[..i];
      serialized := serialized + "parent" + [NUL] + c.parents[i] + "\n";
    }
    assert c.parents[..|c.parents|] == c.parents;
    CommitIsJoined(c);
    hide Ancestry, Pieces, Join;
    serialized := serialized + "author" + [NUL] + c.authorUser + [NUL] + OrEmpty(c.agentKind)
      + [NUL] + OrEmpty(c.threadId) + [NUL] + OrEmpty(c.runId) + "\n";
    serialized := serialized + "ts" + [NUL] + c.ts + "\n";
    serialized := serialized + "op" + [NUL] + c.op + "\n";
    return Ok(serialized);
  }

  lemma {:induction false} JoinOneMore(pieces: seq<string>, piece: string)
    requires pieces != []
    ensures Join(pieces + [piece], NUL) == Join(pieces, NUL) + [NUL] + piece
  {
    var all := pieces + [piece];
    if |pieces| == 1 {
      assert all[1..] == [piece];
    } else {
      assert all[1..] == pieces[1..] + [piece];
      JoinOneMore(pieces[1..], piece);
      assert pieces[0] + [NUL] + (Join(pieces[1..], NUL) + [NUL] + piece)
          == pieces[0] + [NUL] + Join(pieces[1..], NUL) + [NUL] + piece;
    }
  }

  lemma {:induction false} AncestryIsJoined(treeSha: string, parents: seq<string>, tag: string)
    ensures AncestryPieces(treeSha, parents, tag) != []
    ensures Join(AncestryPieces(treeSha, parents, tag), NUL) == Ancestry(treeSha, parents) + tag
  {
    if parents == [] {
      assert ["tree", treeSha + "\n" + tag][1..] == [treeSha + "\n" + tag];
      assert "tree" + [NUL] + (treeSha + "\n" + tag) == "tree" + [NUL] + treeSha + "\n" + tag;
    } else {
      var before, last := parents[..|parents| - 1], parents[|parents| - 1];
      AncestryIsJoined(treeSha, before, "parent");
      JoinOneMore(AncestryPieces(treeSha, before, "parent"), last + "\n" + tag);
      assert Ancestry(treeSha, before) + "parent" + [NUL] + (last + "\n" + tag)
          == Ancestry(treeSha, before) + "parent" + [NUL] + last + "\n" + tag;
    }
  }

  lemma CommitIsJoined(c: CommitInput)
    ensures Join(Pieces(c), NUL)
            == Ancestry(c.treeSha, c.parents) + "author" + [NUL] + c.authorUser + [NUL] + OrEmpty(c.agentKind)
               + [NUL] + OrEmpty(c.threadId) + [NUL] + OrEmpty(c.runId) + "\n"
               + "ts" + [NUL] + c.ts + "\n" + "op" + [NUL] + c.op + "\n"
  {
    var p0 := AncestryPieces(c.treeSha, c.parents, "author");
    AncestryIsJoined(c.treeSha, c.parents, "author");
    hide Ancestry, AncestryPieces, Join;
    var (a, b, d) := (c.authorUser, OrEmpty(c.agentKind), OrEmpty(c.threadId));
    var (e, f, g) := (OrEmpty(c.runId) + "\nts", c.ts + "\nop", c.op + "\n");
    JoinOneMore(p0, a);
    JoinOneMore(p0 + [a], b);
    JoinOneMore(p0 + [a] + [b], d);
    JoinOneMore(p0 + [a] + [b] + [d], e);
    JoinOneMore(p0 + [a] + [b] + [d] + [e], f);
    JoinOneMore(p0 + [a] + [b] + [d] + [e] + [f], g);
    assert Pieces(c) == p0 + [a] + [b] + [d] + [e] + [f] + [g];
  }

  lemma {:induction false} AncestryPiecesAreText(treeSha: string, parents: seq<string>, tag: string)
    requires IsText(treeSha) && IsText(tag) && forall i | 0 <= i < |parents| :: IsText(parents[i])
    ensures forall i | 0 <= i < |AncestryPieces(treeSha, parents, tag)| ::
              IsText(AncestryPieces(treeSha, parents, tag)[i])
  {
    if parents != [] { AncestryPiecesAreText(treeSha, parents[..|parents| - 1], "parent"); }
  }

  lemma PiecesAreText(c: CommitInput)
    requires IsNulFree(c)
    ensures Pieces(c) != [] && forall i | 0 <= i < |Pieces(c)| :: NUL !in Pieces(c)[i]
  {
    var p0 := AncestryPieces(c.treeSha, c.parents, "author");
    AncestryPiecesAreText(c.treeSha, c.parents, "author");
    hide AncestryPieces;
    forall i | 0 <= i < |Pieces(c)|
      ensures IsText(Pieces(c)[i])
    {
    }
  }

  lemma {:induction false} AncestryDetermines(s: string, ps: seq<string>, t: string, qs: seq<string>, tag: string)
    ensures |AncestryPieces(s, ps, tag)| == |ps| + 2
    ensures AncestryPieces(s, ps, tag) == AncestryPieces(t, qs, tag) ==> s == t && ps == qs
  {
    var a, b := AncestryPieces(s, ps, tag), AncestryPieces(t, qs, tag);
    PiecesPerParent(s, ps, tag);
    PiecesPerParent(t, qs, tag);
    if a == b {
      if ps == [] {
        assert a[1] == b[1];
        SuffixOff(s + "\n", t + "\n", tag);
        SuffixOff(s, t, "\n");
      } else {
        var n := |ps| - 1;
        PiecesPerParent(s, ps[..n], "parent");
        PiecesPerParent(t, qs[..n], "parent");
        assert AncestryPieces(s, ps[..n], "parent") == a[..n + 2] == b[..n + 2] == AncestryPieces(t, qs[..n], "parent");
        AncestryDetermines(s, ps[..n], t, qs[..n], "parent");
        assert a[n + 2] == b[n + 2];
        SuffixOff(ps[n] + "\n", qs[n] + "\n", tag);
        SuffixOff(ps[n], qs[n], "\n");
        assert ps == ps[..n] + [ps[n]] && qs == qs[..n] + [qs[n]];
      }
    }
  }

  lemma {:induction false} PiecesPerParent(s: string, ps: seq<string>, tag: string)
    ensures |AncestryPieces(s, ps, tag)| == |ps| + 2
  {
    if ps != [] { PiecesPerParent(s, ps[..|ps| - 1], "parent"); }
  }

  lemma SuffixOff(a: string, b: string, suffix: string)
    requires a + suffix == b + suffix
    ensures a == b
  {
    assert a == (a + suffix)[..|a|] && b == (b + suffix)[..|b|];
    assert |a| == |b|;
  }

  /** The tree or a parent, and the tag of the line after it. */
  function Line(treeSha: string, parents: seq<string>, last: string, k: nat): string
    requires k <= |parents|
  {
    (if k == 0 then treeSha else parents[k - 1]) + "\n" + if k == |parents| then last else "parent"
  }

  /** The fields of a commit in their pinned order, by what stands between the NULs. */
  predicate IsCommitText(c: CommitInput, pieces: seq<string>) {
    var n := |c.parents|;
    && |pieces| == n + 8
    && pieces[0] == "tree" && (forall k | 0 <= k <= n :: pieces[k + 1] == Line(c.treeSha, c.parents, "author", k))
    && pieces[n + 2] == c.authorUser && pieces[n + 3] == OrEmpty(c.agentKind) && pieces[n + 4] == OrEmpty(c.threadId)
    && pieces[n + 5] == OrEmpty(c.runId) + "\nts" && pieces[n + 6] == c.ts + "\nop" && pieces[n + 7] == c.op + "\n"
  }

  lemma {:induction false} AncestryPieceAt(treeSha: string, parents: seq<string>, last: string, k: nat)
    requires k <= |parents|
    ensures var pieces := AncestryPieces(treeSha, parents, last);
            |pieces| == |parents| + 2 && pieces[0] == "tree" && pieces[k + 1] == Line(treeSha, parents, last, k)
  {
    if parents != [] {
      AncestryPieceAt(treeSha, parents[..|parents| - 1], "parent", if k < |parents| then k else 0);
    }
  }

  /** The preimage splits into the commit's fields in their pinned order. */
  lemma CommitTextIsPinned(c: CommitInput)
    requires IsNulFree(c)
    ensures IsCommitText(c, Split(Join(Pieces(c), NUL), NUL))
  {
    PiecesAreText(c);
    SplitOfJoin(Pieces(c), NUL);
    hide AncestryPieces, Split, Join, IsNulFree;
    AncestryPieceAt(c.treeSha, c.parents, "author", 0);
    forall k | 0 <= k <= |c.parents|
      ensures Pieces(c)[k + 1] == Line(c.treeSha, c.parents, "author", k)
    {
      AncestryPieceAt(c.treeSha, c.parents, "author", k);
    }
  }

  lemma PiecesDetermine(c: CommitInput, d: CommitInput)
    ensures Pieces(c) == Pieces(d) <==> SameCommit(c, d)
  {
    var p, q := AncestryPieces(c.treeSha, c.parents, "author"), AncestryPieces(d.treeSha, d.parents, "author");
    AncestryDetermines(c.treeSha, c.parents, d.treeSha, d.parents, "author");
    PiecesPerParent(d.treeSha, d.parents, "author");
    hide AncestryPieces;
    if Pieces(c) == Pieces(d) {
      var (a, b) := (Pieces(c), Pieces(d));
      assert |p| == |q| && p == a[..|p|] && q == b[..|q|];
      assert a[|p|] == b[|p|] && a[|p| + 1] == b[|p| + 1] && a[|p| + 2] == b[|p| + 2];
      assert a[|p| + 3] == b[|p| + 3] && a[|p| + 4] == b[|p| + 4] && a[|p| + 5] == b[|p| + 5];
      SuffixOff(OrEmpty(c.runId), OrEmpty(d.runId), "\nts");
      SuffixOff(c.ts, d.ts, "\nop");
      SuffixOff(c.op, d.op, "\n");
    }
  }

  /** Two commits have the same preimage exactly when they are the same, an absent text field being the empty one. */
  lemma CommitPreimageNamesTheCommit(c: CommitInput, d: CommitInput)
    requires IsNulFree(c) && IsNulFree(d)
    ensures Join(Pieces(c), NUL) == Join(Pieces(d), NUL) <==> SameCommit(c, d)
  {
    PiecesAreText(c);
    PiecesAreText(d);
    SplitOfJoin(Pieces(c), NUL);
    SplitOfJoin(Pieces(d), NUL);
    PiecesDetermine(c, d);
  }

  /** The condition is needed: a NUL lets text slide from one field into the next. */
  lemma NulSlidesBetweenFields(c: CommitInput, name: string, kind: string, rest: string)
    requires c.authorUser == name && c.agentKind == Some(kind + [NUL] + rest)
    ensures var d := c.(authorUser := name + [NUL] + kind, agentKind := Some(rest));
            !SameCommit(c, d) && Join(Pieces(c), NUL) == Join(Pieces(d), NUL)
  {
    var d := c.(authorUser := name + [NUL] + kind, agentKind := Some(rest));
    CommitIsJoined(c);
    CommitIsJoined(d);
    hide Pieces, Join, Ancestry;
    var before := Ancestry(c.treeSha, c.parents) + "author" + [NUL];
    assert before + name + [NUL] + (kind + [NUL] + rest) == before + (name + [NUL] + kind) + [NUL] + rest;
    assert |c.authorUser| < |d.authorUser|;
  }

  function CasObjectKey(tenant: string, sha: string): string {
    "tuddo/" + tenant + "/" + sha
  }

  /** A key's directories are the store's own, the tenant and the digest. */
  lemma CasKeyParts(tenant: string, sha: string)
    requires '/' !in tenant && '/' !in sha
    ensures Split(CasObjectKey(tenant, sha), '/') == ["tuddo", tenant, sha]
  {
    assert CasObjectKey(tenant, sha) == "tuddo" + ['/'] + (tenant + ['/'] + sha);
    SplitAt("tuddo", tenant + ['/'] + sha, '/');
    SplitAt(tenant, sha, '/');
    SplitPrepend(sha, "", '/');
    assert sha + "" == sha;
  }

  /** Tenants and digests share no object key: the digest's length is fixed. */
  lemma CasKeysAreDistinct(t1: string, s1: string, t2: string, s2: string)
    requires |s1| == 64 && |s2| == 64
    ensures CasObjectKey(t1, s1) == CasObjectKey(t2, s2) <==> t1 == t2 && s1 == s2
  {
    var a, b := CasObjectKey(t1, s1), CasObjectKey(t2, s2);
    if a == b {
      assert s1 == a[|a| - 64..] && s2 == b[|b| - 64..];
      assert t1 == a[6..|a| - 65] && t2 == b[6..|b| - 65];
    }
  }
}
