/** src/sync/tar.ts: `writePaxTar` and `parsePaxTar`. */
module TarArchive {
  import opened Prelude
  import opened Bytes
  import opened TarFields
  import opened TarHeader

  /** A regular file; the path is its UTF-8 form. */
  datatype Member = Member(path: Buffer, bytes: Buffer)

  predicate Aligned(n: nat) {
    n % BLOCK_SIZE == 0
  }

  lemma AlignedSum(a: nat, b: nat)
    requires Aligned(a) && Aligned(b)
    ensures Aligned(a + b) && Aligned(a + BLOCK_SIZE) && Aligned(a + BLOCK_SIZE + b)
  {
  }

  /** A size rounded up to whole blocks. */
  function PaddedSize(size: nat): (p: nat)
    ensures Aligned(p) && size <= p < size + BLOCK_SIZE
  {
    size + (BLOCK_SIZE - size % BLOCK_SIZE) % BLOCK_SIZE
  }

  function PadToBlock(s: Buffer): (r: Buffer)
    ensures |r| == PaddedSize(|s|)
  {
    s + Zeros(PaddedSize(|s|) - |s|)
  }

  // ---------------------------------------------------------------------
  // Writing.

  const HEADER_PREFIX: Buffer := [80, 97, 120, 72, 101, 97, 100, 101, 114, 115, 46, 48, 47]
  const ENTRY_NAME: Buffer := [112, 97, 120, 45, 101, 110, 116, 114, 121]

  function HeaderName(index: nat): Buffer {
    HEADER_PREFIX + Digits(10, index)
  }

  /** Why the writer refuses an entry, in the order it looks. */
  function Refusal(entries: seq<Member>, index: nat): Option<TarError>
    requires index < |entries|
  {
    var path := entries[index].path;
    if path == [] then Some(EmptyPath)
    else if !IsArchivePath(path) then Some(UnsafePath)
    else if exists k | 0 <= k < index :: entries[k].path == path then Some(DuplicatePath)
    else if |PaxRecord(path)| > MAX_FIELD_SIZE then Some(SizeOutOfRange)
    else if |HeaderName(index)| > 100 then Some(FieldTooLong)
    else if |entries[index].bytes| > MAX_FIELD_SIZE then Some(SizeOutOfRange)
    else None
  }

  predicate CanWrite(entries: seq<Member>) {
    forall i | 0 <= i < |entries| :: Refusal(entries, i).None?
  }

  /** An extended header with the path, then the member itself. */
  function MemberBlocks(index: nat, entry: Member): (r: Buffer)
    requires |HeaderName(index)| <= 100
  {
    Header(HeaderName(index), EXTENDED, |PaxRecord(entry.path)|) + PadToBlock(PaxRecord(entry.path))
    + (Header(ENTRY_NAME, REGULAR, |entry.bytes|) + PadToBlock(entry.bytes))
  }

  /** The first `count` members. */
  function Blocks(entries: seq<Member>, count: nat): Buffer
    requires count <= |entries| && forall i | 0 <= i < count :: Refusal(entries, i).None?
  {
    if count == 0 then []
    else
      assert Refusal(entries, count - 1).None?;
      Blocks(entries, count - 1) + MemberBlocks(count - 1, entries[count - 1])
  }

  function Archive(entries: seq<Member>): Buffer
    requires CanWrite(entries)
  {
    Blocks(entries, |entries|) + Zeros(2 * BLOCK_SIZE)
  }

  /** One turn of the writer's loop. */
  method WriteMember(entries: seq<Member>, index: nat, seen: set<Buffer>) returns (blocks: Result<Buffer, TarError>)
    requires index < |entries|
    requires entries[index].path in seen <==> exists k | 0 <= k < index :: entries[k].path == entries[index].path
    ensures blocks == if Refusal(entries, index).Some? then Err(Refusal(entries, index).value)
                      else Ok(MemberBlocks(index, entries[index]))
  {
    hide Header, PaxRecord, IsArchivePath, PadToBlock, HeaderName;
    var entry := entries[index];
    if entry.path == [] { return Err(EmptyPath); }
    if !IsArchivePath(entry.path) { return Err(UnsafePath); }
    if entry.path in seen { return Err(DuplicatePath); }
    var payload := PaxPathRecord(entry.path);
    var extended := CreateHeader(HeaderName(index), EXTENDED, |payload|);
    if extended.Err? { return Err(extended.error); }
    var header := CreateHeader(ENTRY_NAME, REGULAR, |entry.bytes|);
    if header.Err? { return Err(header.error); }
    return Ok(extended.value + PadToBlock(payload) + (header.value + PadToBlock(entry.bytes)));
  }

  method WritePaxTar(entries: seq<Member>) returns (archive: Result<Buffer, TarError>)
    ensures archive.Ok? <==> CanWrite(entries)
    ensures archive.Ok? ==> archive.value == Archive(entries)
    ensures archive.Err? ==>
              exists i | 0 <= i < |entries| :: Refusal(entries, i) == Some(archive.error)
                                              && forall k | 0 <= k < i :: Refusal(entries, k).None?
  {
    hide Refusal, MemberBlocks;
    var parts: Buffer := [];
    var seen: set<Buffer> := {};
    for index := 0 to |entries|
      invariant forall k | 0 <= k < index :: Refusal(entries, k).None?
      invariant forall p :: p in seen <==> exists k | 0 <= k < index :: entries[k].path == p
      invariant parts == Blocks(entries, index)
    {
      var blocks := WriteMember(entries, index, seen);
      if blocks.Err? { return Err(blocks.error); }
      seen := seen + {entries[index].path};
      parts := parts + blocks.value;
    }
    return Ok(parts + Zeros(2 * BLOCK_SIZE));
  }

  lemma {:induction false} BlocksArePrefixes(entries: seq<Member>, i: nat, n: nat)
    requires i <= n <= |entries| && CanWrite(entries)
    ensures Blocks(entries, i) <= Blocks(entries, n)
    decreases n - i
  {
    hide MemberBlocks;
    if i < n { BlocksArePrefixes(entries, i, n - 1); }
  }
}
