/** src/sync/tar.ts, `parsePaxTar`: the loop over 512-byte blocks. */
module TarParser {
  import opened Prelude
  import opened Bytes
  import opened TarFields
  import opened TarHeader
  import opened TarArchive

  /** The loop's variables; `entries` keeps archive order. */
  datatype ParseState = ParseState(offset: nat, entries: seq<Member>, localPax: Records, globalPax: Records)

  datatype Turn = More(state: ParseState) | Done(entries: seq<Member>) | Failed(error: TarError)

  predicate IsZeroBlock(block: Buffer) {
    |block| == BLOCK_SIZE && forall i | 0 <= i < |block| :: block[i] == 0
  }

  predicate InBounds(archive: Buffer, offset: nat) {
    Aligned(|archive|) && Aligned(offset) && offset <= |archive|
  }

  function BlockAt(archive: Buffer, offset: nat): (block: Buffer)
    requires InBounds(archive, offset) && offset < |archive|
    ensures |block| == BLOCK_SIZE
  {
    assert offset + BLOCK_SIZE <= |archive|;
    archive[offset..offset + BLOCK_SIZE]
  }

  /** A payload and the offset after its padding, both inside the archive. */
  function ReadPayload(archive: Buffer, offset: nat, size: nat): (payload: Result<Buffer, TarError>)
    requires InBounds(archive, offset)
    ensures payload.Ok? ==> InBounds(archive, offset + PaddedSize(size)) && payload.value == archive[offset..offset + size]
  {
    if PaddedSize(size) > MAX_SAFE_INTEGER then Err(BadSize)
    else if PaddedSize(size) > |archive| - offset then Err(Truncated)
    else Ok(archive[offset..offset + size])
  }

  /** The block at `offset` is zero: two of them and nothing but zeros to the end. */
  function ReadTerminator(archive: Buffer, state: ParseState): Turn
    requires InBounds(archive, state.offset) && state.offset < |archive|
  {
    if state.offset + 2 * BLOCK_SIZE > |archive|
       || !IsZeroBlock(archive[state.offset + BLOCK_SIZE..state.offset + 2 * BLOCK_SIZE])
    then Failed(BadTerminator)
    else if |state.localPax| > 0 then Failed(DanglingExtendedHeader)
    else if exists i | state.offset + 2 * BLOCK_SIZE <= i < |archive| :: archive[i] != 0 then Failed(TrailingData)
    else Done(state.entries)
  }

  function ReadExtended(archive: Buffer, state: ParseState, global: bool, size: nat): (turn: Turn)
    requires InBounds(archive, state.offset) && state.offset < |archive|
    ensures turn.More? ==> state.offset < turn.state.offset && InBounds(archive, turn.state.offset)
  {
    var payload := ReadPayload(archive, state.offset + BLOCK_SIZE, size);
    if payload.Err? then Failed(payload.error)
    else
      var records := ReadRecords(payload.value, 0, map[]);
      if records.Err? then Failed(records.error)
      else
        var next := state.offset + BLOCK_SIZE + PaddedSize(size);
        More(if global then state.(offset := next, globalPax := state.globalPax + records.value)
             else state.(offset := next, localPax := state.localPax + records.value))
  }

  function TrimNul(s: Buffer): Buffer {
    var nul := IndexOf(s, NUL, 0);
    if nul == -1 then s else s[..nul]
  }

  /** `prefix/name` of a plain ustar header. */
  function DecodeUstarPath(header: Buffer): Result<Buffer, TarError>
    requires |header| == BLOCK_SIZE
  {
    var name, prefix := TrimNul(header[..100]), TrimNul(header[345..500]);
    if name == [] then Err(EmptyPath)
    else
      var nameText := DecodeUtf8(name);
      if nameText.Err? then nameText
      else
        var prefixText := if prefix == [] then Ok([]) else DecodeUtf8(prefix);
        if prefixText.Err? then prefixText
        else if prefixText.value == [] then nameText
        else Ok(prefixText.value + [SLASH] + nameText.value)
  }

  function MemberPath(attributes: Records, header: Buffer): Result<Buffer, TarError>
    requires |header| == BLOCK_SIZE
  {
    if PATH_KEY in attributes then
      var path := DecodeUtf8(attributes[PATH_KEY]);
      if path.Ok? && path.value == [] then Err(EmptyPath) else path
    else DecodeUstarPath(header)
  }

  /** A decimal without leading zeros. */
  function MemberSize(attributes: Records, headerSize: nat): Result<nat, TarError> {
    if SIZE_KEY !in attributes then Ok(headerSize)
    else
      var text := attributes[SIZE_KEY];
      if !IsAscii(text) then Err(NotAscii)
      else if text == [] || !AllDigits(10, text) || (text[0] == ZERO && |text| > 1) then Err(BadSize)
      else if Value(10, text) > MAX_SAFE_INTEGER then Err(BadSize)
      else Ok(Value(10, text))
  }

  /** The caller's checks: the expected prefix and the validation hook. */
  type PathCheck = Buffer -> bool

  function ReadMember(archive: Buffer, state: ParseState, header: Buffer, headerSize: nat, accepts: PathCheck): (turn: Turn)
    requires InBounds(archive, state.offset) && state.offset < |archive| && |header| == BLOCK_SIZE
    ensures turn.More? ==> state.offset < turn.state.offset && InBounds(archive, turn.state.offset)
  {
    var attributes := state.globalPax + state.localPax;
    var path := MemberPath(attributes, header);
    if path.Err? then Failed(path.error)
    else if !IsArchivePath(path.value) then Failed(UnsafePath)
    else if !accepts(path.value) then Failed(RejectedPath)
    else
      var size := MemberSize(attributes, headerSize);
      if size.Err? then Failed(size.error)
      else
        var payload := ReadPayload(archive, state.offset + BLOCK_SIZE, size.value);
        if payload.Err? then Failed(payload.error)
        else if exists k | 0 <= k < |state.entries| :: state.entries[k].path == path.value then Failed(DuplicatePath)
        else
          More(state.(offset := state.offset + BLOCK_SIZE + PaddedSize(size.value),
                      localPax := map[],
                      entries := state.entries + [Member(path.value, payload.value)]))
  }

  function ReadHeaded(archive: Buffer, state: ParseState, header: Buffer, accepts: PathCheck): (turn: Turn)
    requires InBounds(archive, state.offset) && state.offset < |archive| && |header| == BLOCK_SIZE
    ensures turn.More? ==> state.offset < turn.state.offset && InBounds(archive, turn.state.offset)
  {
    hide ReadExtended, ReadMember, CheckSum, CheckMagic, ReadTarNumber;
    var size := ReadTarNumber(header[124..136]);
    var typeflag := if header[156] == 0 then REGULAR else header[156];
    if CheckSum(header).Err? then Failed(CheckSum(header).error)
    else if CheckMagic(header).Err? then Failed(CheckMagic(header).error)
    else if size.Err? then Failed(size.error)
    else if typeflag == EXTENDED || typeflag == GLOBAL then ReadExtended(archive, state, typeflag == GLOBAL, size.value)
    else if typeflag != REGULAR then Failed(NotRegular)
    else ReadMember(archive, state, header, size.value, accepts)
  }

  /** One turn of the loop. It moves forward by whole blocks and stays inside the archive. */
  function ReadBlock(archive: Buffer, state: ParseState, accepts: PathCheck): (turn: Turn)
    requires InBounds(archive, state.offset) && state.offset < |archive|
    ensures turn.More? ==> state.offset < turn.state.offset && InBounds(archive, turn.state.offset)
  {
    hide ReadHeaded;
    if IsZeroBlock(BlockAt(archive, state.offset)) then ReadTerminator(archive, state)
    else ReadHeaded(archive, state, BlockAt(archive, state.offset), accepts)
  }

  function ParseFrom(archive: Buffer, state: ParseState, accepts: PathCheck): Result<seq<Member>, TarError>
    requires InBounds(archive, state.offset)
    decreases |archive| - state.offset
  {
    if state.offset == |archive| then Err(NoTerminator)
    else
      match ReadBlock(archive, state, accepts)
      case More(next) => ParseFrom(archive, next, accepts)
      case Done(entries) => Ok(entries)
      case Failed(error) => Err(error)
  }

  const START := ParseState(0, [], map[], map[])

  function Parse(archive: Buffer, accepts: PathCheck): Result<seq<Member>, TarError> {
    if archive == [] || !Aligned(|archive|) then Err(BadArchiveLength) else ParseFrom(archive, START, accepts)
  }

  /** The loop itself. */
  method ParsePaxTar(archive: Buffer, accepts: PathCheck) returns (entries: Result<seq<Member>, TarError>)
    ensures entries == Parse(archive, accepts)
  {
    hide ReadBlock;
    if |archive| == 0 || !Aligned(|archive|) { return Err(BadArchiveLength); }
    ghost var whole := ParseFrom(archive, START, accepts);
    var state := START;
    while state.offset < |archive|
      invariant InBounds(archive, state.offset)
      invariant ParseFrom(archive, state, accepts) == whole
      decreases |archive| - state.offset
    {
      var turn := ReadOne(archive, state, accepts);
      match turn
      case More(next) => state := next;
      case Done(members) => return Ok(members);
      case Failed(error) => return Err(error);
    }
    return Err(NoTerminator);
  }

  /** One block, with the header verified by the checksum loop. */
  method ReadOne(archive: Buffer, state: ParseState, accepts: PathCheck) returns (turn: Turn)
    requires InBounds(archive, state.offset) && state.offset < |archive|
    ensures turn == ReadBlock(archive, state, accepts)
  {
    hide ReadMember, ReadTerminator, CheckMagic, CheckSum, ReadTarNumber, ReadRecords, ReadExtended;
    var header := BlockAt(archive, state.offset);
    if IsZeroBlock(header) { return ReadTerminator(archive, state); }
    var sum := VerifyChecksum(header);
    if sum.Err? { return Failed(sum.error); }
    var magic := CheckMagic(header);
    if magic.Err? { return Failed(magic.error); }
    var typeflag: Byte := if header[156] == 0 then REGULAR else header[156];
    var size := ReadNumber(header[124..136]);
    if size.Err? { return Failed(size.error); }
    if typeflag == EXTENDED || typeflag == GLOBAL {
      return ReadExtended(archive, state, typeflag == GLOBAL, size.value);
    }
    if typeflag != REGULAR { return Failed(NotRegular); }
    return ReadMember(archive, state, header, size.value, accepts);
  }
}
