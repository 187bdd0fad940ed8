/** src/sync/tar.ts: the 512-byte ustar header, written in place and checked field by field. */
module TarHeader {
  import opened Prelude
  import opened Bytes
  import opened TarFields

  function Padded(s: Buffer, length: nat): (r: Buffer)
    requires |s| <= length
    ensures |r| == length
  {
    s + Zeros(length - |s|)
  }

  /** Bytes 0 to 147: name, mode, owner ids, size and mtime. */
  function Front(name: Buffer, size: nat): Buffer
    requires |name| <= 100
  {
    Padded(name, 100) + OctalField(420, 8) + OctalField(0, 8) + OctalField(0, 8) + OctalField(size, 12) + OctalField(0, 12)
  }

  /** Bytes 156 to 511: type flag, empty link name, magic, version and nothing else. */
  function Back(typeflag: Byte): Buffer {
    [typeflag] + Zeros(100) + USTAR_MAGIC + USTAR_VERSION + Zeros(247)
  }

  const BLANKS: Buffer := [SPACE, SPACE, SPACE, SPACE, SPACE, SPACE, SPACE, SPACE]

  function ChecksumField(sum: nat): Buffer {
    PadStart(Digits(8, sum), 6) + [NUL, SPACE]
  }

  function Header(name: Buffer, typeflag: Byte, size: nat): Buffer
    requires |name| <= 100
  {
    Front(name, size) + ChecksumField(Sum(Front(name, size) + BLANKS + Back(typeflag))) + Back(typeflag)
  }

  lemma {:induction false} FieldWidth(value: nat, length: nat, k: nat)
    requires length > 1 && k == length - 1 && value < Pow(8, k)
    ensures |OctalField(value, length)| == length
  {
    DigitCount(8, value, k);
  }

  lemma Powers()
    ensures Pow(8, 6) == 262144 && Pow(8, 11) == MAX_FIELD_SIZE + 1
  {
  }

  lemma FrontWidth(name: Buffer, size: nat)
    requires |name| <= 100 && size <= MAX_FIELD_SIZE
    ensures |Front(name, size)| == 148 && Front(name, size)[124..136] == OctalField(size, 12)
  {
    Powers();
    FieldWidth(420, 8, 7);
    FieldWidth(0, 8, 7);
    FieldWidth(size, 12, 11);
    FieldWidth(0, 12, 11);
    var before := Padded(name, 100) + OctalField(420, 8) + OctalField(0, 8) + OctalField(0, 8);
    assert Front(name, size) == before + OctalField(size, 12) + OctalField(0, 12);
  }

  lemma BackWidth(typeflag: Byte)
    ensures |Back(typeflag)| == 356 && Back(typeflag)[0] == typeflag
    ensures Back(typeflag)[101..107] == USTAR_MAGIC && Back(typeflag)[107..109] == USTAR_VERSION
  {
  }

  /** The header with its checksum field blanked, which is what the checksum sums. */
  function Blanked(header: Buffer): (b: Buffer)
    requires |header| == BLOCK_SIZE
    ensures |b| == BLOCK_SIZE
  {
    header[..148] + BLANKS + header[156..]
  }

  lemma ChecksumWidth(sum: nat)
    requires sum <= 255 * BLOCK_SIZE
    ensures |ChecksumField(sum)| == 8
  {
    Powers();
    DigitCount(8, sum, 6);
  }

  /** Where each field of a written header lies. */
  lemma HeaderLayout(name: Buffer, typeflag: Byte, size: nat)
    requires |name| <= 100 && size <= MAX_FIELD_SIZE
    ensures var header := Header(name, typeflag, size);
            && |header| == BLOCK_SIZE
            && header[124..136] == OctalField(size, 12)
            && Blanked(header) == Front(name, size) + BLANKS + Back(typeflag)
            && header[148..156] == ChecksumField(Sum(Blanked(header)))
            && header[156] == typeflag
            && header[257..263] == USTAR_MAGIC && header[263..265] == USTAR_VERSION
  {
    hide Front, Back, ChecksumField;
    FrontWidth(name, size);
    BackWidth(typeflag);
    var front, back := Front(name, size), Back(typeflag);
    var check := ChecksumField(Sum(front + BLANKS + back));
    ChecksumWidth(Sum(front + BLANKS + back));
    var header := front + check + back;
    assert header[..148] == front && header[156..] == back;
    assert header[124..136] == front[124..136];
    assert header[148..156] == check;
    assert header[257..263] == back[101..107] && header[263..265] == back[107..109];
  }

  lemma HeaderWidth(name: Buffer, typeflag: Byte, size: nat)
    requires |name| <= 100 && size <= MAX_FIELD_SIZE
    ensures |Header(name, typeflag, size)| == BLOCK_SIZE
  {
    HeaderLayout(name, typeflag, size);
  }

  // ---------------------------------------------------------------------
  // Reading.

  function CheckMagic(header: Buffer): Result<(), TarError>
    requires |header| == BLOCK_SIZE
  {
    if !IsAscii(header[257..263]) then Err(NotAscii)
    else if header[257..263] != USTAR_MAGIC then Err(BadMagic)
    else if !IsAscii(header[263..265]) then Err(NotAscii)
    else if header[263..265] != USTAR_VERSION then Err(BadVersion)
    else Ok(())
  }

  function CheckSum(header: Buffer): Result<(), TarError>
    requires |header| == BLOCK_SIZE
  {
    var stored := ReadTarNumber(header[148..156]);
    if stored.Err? then Err(stored.error)
    else if stored.value != Sum(Blanked(header)) then Err(BadChecksum)
    else Ok(())
  }

  method VerifyChecksum(header: Buffer) returns (verdict: Result<(), TarError>)
    requires |header| == BLOCK_SIZE
    ensures verdict == CheckSum(header)
  {
    var stored := ReadNumber(header[148..156]);
    if stored.Err? { return Err(stored.error); }
    ghost var blanked := Blanked(header);
    var calculated: nat := 0;
    for index := 0 to |header|
      invariant calculated == Sum(blanked[..index])
    {
      calculated := calculated + if 148 <= index < 156 then 32 else header[index];
      assert blanked[..index + 1][..index] == blanked[..index];
    }
    assert blanked[..|header|] == blanked;
    if stored.value != calculated { return Err(BadChecksum); }
    return Ok(());
  }

  /** A written header passes every check of the reader and states its size. */
  lemma HeaderReadsBack(name: Buffer, typeflag: Byte, size: nat)
    requires |name| <= 100 && size <= MAX_FIELD_SIZE
    ensures var header := Header(name, typeflag, size);
            && |header| == BLOCK_SIZE
            && CheckSum(header) == Ok(()) && CheckMagic(header) == Ok(())
            && ReadTarNumber(header[124..136]) == Ok(size)
            && header[156] == typeflag
            && exists i | 0 <= i < BLOCK_SIZE :: header[i] != 0
  {
    hide ReadTarNumber, OctalField, Sum, Blanked, Header;
    HeaderLayout(name, typeflag, size);
    var header := Header(name, typeflag, size);
    OctalFieldReadsBack(size, 12);
    ChecksumReadsBack(Sum(Blanked(header)));
    assert header[257] == USTAR_MAGIC[0] by { assert header[257..263][0] == header[257]; }
  }

  lemma OctalFieldReadsBack(value: nat, length: nat)
    requires length > 1 && value <= MAX_SAFE_INTEGER
    ensures ReadTarNumber(OctalField(value, length)) == Ok(value)
  {
    OctalReadsBack(value, length - 1, [NUL]);
  }

  lemma ChecksumReadsBack(sum: nat)
    requires sum <= MAX_SAFE_INTEGER
    ensures ReadTarNumber(ChecksumField(sum)) == Ok(sum)
  {
    OctalReadsBack(sum, 6, [NUL, SPACE]);
  }

  // ---------------------------------------------------------------------
  // Writing.

  /** Copy bytes into the buffer at an offset. */
  method Copy(buffer: array<Byte>, offset: nat, bytes: Buffer)
    requires offset + |bytes| <= buffer.Length
    modifies buffer
    ensures buffer[..] == old(buffer[..offset]) + bytes + old(buffer[offset + |bytes|..])
  {
    for i := 0 to |bytes|
      invariant forall k | 0 <= k < offset || offset + i <= k < buffer.Length :: buffer[k] == old(buffer[k])
      invariant forall k | 0 <= k < i :: buffer[offset + k] == bytes[k]
    {
      buffer[offset + i] := bytes[i];
    }
    ghost var after := old(buffer[..offset]) + bytes + old(buffer[offset + |bytes|..]);
    assert |after| == buffer.Length;
    forall k | 0 <= k < buffer.Length
      ensures buffer[k] == after[k]
    {
      if offset <= k < offset + |bytes| { assert buffer[offset + (k - offset)] == bytes[k - offset]; }
    }
  }

  /** Write the next field of a buffer that is zero from `offset` on. */
  method PutField(buffer: array<Byte>, offset: nat, bytes: Buffer, ghost prefix: Buffer)
    requires |prefix| == offset && offset + |bytes| <= buffer.Length
    requires buffer[..] == prefix + Zeros(buffer.Length - offset)
    modifies buffer
    ensures buffer[..] == prefix + bytes + Zeros(buffer.Length - offset - |bytes|)
  {
    Copy(buffer, offset, bytes);
  }

  /** Bytes left zero may be counted as written. */
  lemma SkipZeros(prefix: Buffer, gap: nat, left: nat)
    requires gap <= left
    ensures prefix + Zeros(left) == (prefix + Zeros(gap)) + Zeros(left - gap)
  {
  }

  method WriteOctalField(buffer: array<Byte>, offset: nat, length: nat, value: nat, ghost prefix: Buffer)
    returns (fits: bool)
    requires |prefix| == offset && 0 < length && offset + length <= buffer.Length
    requires buffer[..] == prefix + Zeros(buffer.Length - offset)
    modifies buffer
    ensures fits <==> |Digits(8, value)| <= length - 1
    ensures fits ==> buffer[..] == prefix + OctalField(value, length) + Zeros(buffer.Length - offset - length)
  {
    var digits := Digits(8, value);
    if |digits| > length - 1 { return false; }
    var text := PadStart(digits, length - 1);
    PutField(buffer, offset, text, prefix);
    SkipZeros(prefix + text, 1, buffer.Length - offset - (length - 1));
    assert prefix + text + Zeros(1) == prefix + OctalField(value, length);
    return true;
  }

  /** `createHeader`: fields, blanked checksum, sum, checksum. */
  method CreateHeader(name: Buffer, typeflag: Byte, size: nat) returns (header: Result<Buffer, TarError>)
    ensures header == if size > MAX_FIELD_SIZE then Err(SizeOutOfRange)
                      else if |name| > 100 then Err(FieldTooLong)
                      else Ok(Header(name, typeflag, size))
  {
    if size > MAX_FIELD_SIZE { return Err(SizeOutOfRange); }
    if |name| > 100 { return Err(FieldTooLong); }
    var buffer := new Byte[BLOCK_SIZE](_ => 0);
    assert buffer[..] == [] + Zeros(BLOCK_SIZE);
    WriteFront(buffer, name, size);
    WriteBack(buffer, typeflag, Front(name, size));
    FrontWidth(name, size);
    BackWidth(typeflag);
    ghost var front, back := Front(name, size), Back(typeflag);
    assert buffer[..148] == front && buffer[156..] == back;
    Copy(buffer, 148, BLANKS);
    assert buffer[..] == front + BLANKS + back;
    var checksum: nat := 0;
    for i := 0 to buffer.Length
      invariant checksum == Sum(buffer[..i])
    {
      assert buffer[..i + 1][..i] == buffer[..i];
      checksum := checksum + buffer[i];
    }
    assert buffer[..buffer.Length] == buffer[..];
    ChecksumWidth(checksum);
    assert buffer[..148] == front && buffer[156..] == back;
    Copy(buffer, 148, PadStart(Digits(8, checksum), 6) + [NUL, SPACE]);
    return Ok(buffer[..]);
  }

  method WriteFront(buffer: array<Byte>, name: Buffer, size: nat)
    requires buffer.Length == BLOCK_SIZE && |name| <= 100 && size <= MAX_FIELD_SIZE
    requires buffer[..] == [] + Zeros(BLOCK_SIZE)
    modifies buffer
    ensures |Front(name, size)| == 148 && buffer[..] == Front(name, size) + Zeros(BLOCK_SIZE - 148)
  {
    FrontWidth(name, size);
    EveryFieldFits(size);
    hide OctalField, Digits, Pow;
    PutField(buffer, 0, name, []);
    SkipZeros([] + name, 100 - |name|, BLOCK_SIZE - |name|);
    ghost var p0 := Padded(name, 100);
    assert buffer[..] == p0 + Zeros(412);
    var _ := WriteOctalField(buffer, 100, 8, 420, p0);
    ghost var p1 := p0 + OctalField(420, 8);
    var _ := WriteOctalField(buffer, 108, 8, 0, p1);
    ghost var p2 := p1 + OctalField(0, 8);
    var _ := WriteOctalField(buffer, 116, 8, 0, p2);
    ghost var p3 := p2 + OctalField(0, 8);
    var _ := WriteOctalField(buffer, 124, 12, size, p3);
    ghost var p4 := p3 + OctalField(size, 12);
    var _ := WriteOctalField(buffer, 136, 12, 0, p4);
  }

  lemma EveryFieldFits(size: nat)
    requires size <= MAX_FIELD_SIZE
    ensures |Digits(8, 420)| <= 7 && |Digits(8, 0)| <= 7 && |Digits(8, size)| <= 11
    ensures |OctalField(420, 8)| == 8 && |OctalField(0, 8)| == 8
    ensures |OctalField(size, 12)| == 12 && |OctalField(0, 12)| == 12
  {
    Powers();
    DigitCount(8, 420, 7);
    DigitCount(8, 0, 7);
    DigitCount(8, size, 11);
  }

  method WriteBack(buffer: array<Byte>, typeflag: Byte, ghost front: Buffer)
    requires buffer.Length == BLOCK_SIZE && |front| == 148
    requires buffer[..] == front + Zeros(BLOCK_SIZE - 148)
    modifies buffer
    ensures buffer[..] == front + Zeros(8) + Back(typeflag)
  {
    SkipZeros(front, 8, BLOCK_SIZE - 148);
    ghost var p0 := front + Zeros(8);
    PutField(buffer, 156, [typeflag], p0);
    SkipZeros(p0 + [typeflag], 100, BLOCK_SIZE - 157);
    ghost var p1 := p0 + [typeflag] + Zeros(100);
    PutField(buffer, 257, USTAR_MAGIC, p1);
    PutField(buffer, 263, USTAR_VERSION, p1 + USTAR_MAGIC);
    assert p1 + USTAR_MAGIC + USTAR_VERSION + Zeros(247) == p0 + Back(typeflag);
  }
}
