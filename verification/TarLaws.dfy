/** What the tar writer and parser are for: nothing is lost, and nothing partial is returned. */
module TarLaws {
  import opened Prelude
  import opened Bytes
  import opened TarFields
  import opened TarHeader
  import opened TarArchive
  import opened TarParser

  // ---------------------------------------------------------------------
  // Truncation.

  lemma SamePayload(part: Buffer, whole: Buffer, offset: nat, size: nat)
    requires InBounds(part, offset) && InBounds(whole, offset) && part <= whole
    requires ReadPayload(part, offset, size).Ok?
    ensures ReadPayload(whole, offset, size) == ReadPayload(part, offset, size)
  {
    assert whole[offset..offset + size] == part[offset..offset + size];
  }

  /** A turn that a truncated archive can still take is the turn the whole archive takes. */
  lemma SameTurn(part: Buffer, whole: Buffer, state: ParseState, accepts: PathCheck)
    requires part <= whole && InBounds(part, state.offset) && InBounds(whole, state.offset) && state.offset < |part|
    ensures BlockAt(part, state.offset) == BlockAt(whole, state.offset)
    ensures ReadBlock(part, state, accepts).More? ==>
              ReadBlock(whole, state, accepts) == ReadBlock(part, state, accepts)
    ensures ReadBlock(part, state, accepts).Done? ==>
              && ReadBlock(part, state, accepts).entries == state.entries
              && state.offset + 2 * BLOCK_SIZE <= |part|
              && IsZeroBlock(BlockAt(whole, state.offset))
              && ReadBlock(whole, state, accepts) in {Done(state.entries), Failed(TrailingData)}
  {
    hide CheckSum, CheckMagic, ReadTarNumber, ReadRecords, MemberPath, MemberSize, IsArchivePath, ReadPayload;
    var header := BlockAt(part, state.offset);
    assert BlockAt(whole, state.offset) == header;
    if IsZeroBlock(header) {
      if state.offset + 2 * BLOCK_SIZE <= |part| {
        assert whole[state.offset + BLOCK_SIZE..state.offset + 2 * BLOCK_SIZE]
            == part[state.offset + BLOCK_SIZE..state.offset + 2 * BLOCK_SIZE];
      }
    } else {
      SameHeaded(part, whole, state, header, accepts);
    }
  }

  lemma SameHeaded(part: Buffer, whole: Buffer, state: ParseState, header: Buffer, accepts: PathCheck)
    requires part <= whole && InBounds(part, state.offset) && InBounds(whole, state.offset) && state.offset < |part|
    requires |header| == BLOCK_SIZE
    ensures !ReadHeaded(part, state, header, accepts).Done?
    ensures ReadHeaded(part, state, header, accepts).More? ==>
              ReadHeaded(whole, state, header, accepts) == ReadHeaded(part, state, header, accepts)
  {
    hide CheckSum, CheckMagic, ReadTarNumber, ReadRecords, MemberPath, MemberSize, IsArchivePath, ReadPayload;
    var headerSize := ReadTarNumber(header[124..136]);
    if headerSize.Ok? {
      MaybeSamePayload(part, whole, state.offset + BLOCK_SIZE, headerSize.value);
      var size := MemberSize(state.globalPax + state.localPax, headerSize.value);
      if size.Ok? { MaybeSamePayload(part, whole, state.offset + BLOCK_SIZE, size.value); }
    }
  }

  lemma MaybeSamePayload(part: Buffer, whole: Buffer, offset: nat, size: nat)
    requires InBounds(part, offset) && InBounds(whole, offset) && part <= whole
    ensures ReadPayload(part, offset, size).Ok? ==> ReadPayload(whole, offset, size) == ReadPayload(part, offset, size)
  {
    if ReadPayload(part, offset, size).Ok? { SamePayload(part, whole, offset, size); }
  }

  /** Where the parse of an archive meets its terminator, if it does. */
  function TerminatorAt(archive: Buffer, state: ParseState, accepts: PathCheck): nat
    requires InBounds(archive, state.offset)
    decreases |archive| - state.offset
  {
    if state.offset == |archive| then state.offset
    else
      match ReadBlock(archive, state, accepts)
      case More(next) => TerminatorAt(archive, next, accepts)
      case _ => state.offset
  }

  lemma {:induction false} TruncationIsCaught(part: Buffer, whole: Buffer, state: ParseState, accepts: PathCheck)
    requires part <= whole && InBounds(part, state.offset) && InBounds(whole, state.offset)
    requires ParseFrom(part, state, accepts).Ok?
    ensures TerminatorAt(whole, state, accepts) + 2 * BLOCK_SIZE <= |part|
    ensures ParseFrom(whole, state, accepts) in {ParseFrom(part, state, accepts), Err(TrailingData)}
    decreases |part| - state.offset
  {
    hide ReadBlock;
    SameTurn(part, whole, state, accepts);
    match ReadBlock(part, state, accepts)
    case More(next) => TruncationIsCaught(part, whole, next, accepts);
    case _ =>
      NoMoreAtZeros(whole, state, accepts);
  }

  lemma NoMoreAtZeros(archive: Buffer, state: ParseState, accepts: PathCheck)
    requires InBounds(archive, state.offset) && state.offset < |archive|
    requires IsZeroBlock(BlockAt(archive, state.offset))
    ensures !ReadBlock(archive, state, accepts).More?
  {
  }

  /** No prefix of an accepted archive is accepted with other members. */
  lemma NoPartialMap(part: Buffer, whole: Buffer, accepts: PathCheck)
    requires part <= whole && Parse(part, accepts).Ok? && Parse(whole, accepts).Ok?
    ensures Parse(part, accepts) == Parse(whole, accepts)
  {
    TruncationIsCaught(part, whole, START, accepts);
  }

  // ---------------------------------------------------------------------
  // Slices.

  /** Where in the archive a member's bytes were taken from. */
  datatype Slice = Slice(start: nat, length: nat)

  function Slices(archive: Buffer, state: ParseState, accepts: PathCheck): seq<Slice>
    requires InBounds(archive, state.offset)
    decreases |archive| - state.offset
  {
    if state.offset == |archive| then []
    else
      match ReadBlock(archive, state, accepts)
      case More(next) =>
        (if |next.entries| > |state.entries| then
           [Slice(state.offset + BLOCK_SIZE, |next.entries[|next.entries| - 1].bytes|)]
         else [])
        + Slices(archive, next, accepts)
      case _ => []
  }

  /** A turn adds no member, or one whose bytes lie between its header and the next block. */
  lemma TurnTakesOneSlice(archive: Buffer, state: ParseState, accepts: PathCheck)
    requires InBounds(archive, state.offset) && state.offset < |archive| && ReadBlock(archive, state, accepts).More?
    ensures var next, start := ReadBlock(archive, state, accepts).state, state.offset + BLOCK_SIZE;
            next.entries == state.entries
            || (&& |next.entries| == |state.entries| + 1 && next.entries[..|state.entries|] == state.entries
                && var bytes := next.entries[|state.entries|].bytes;
                   start + |bytes| <= next.offset && bytes == archive[start..start + |bytes|])
  {
    hide CheckSum, CheckMagic, ReadTarNumber, ReadRecords, MemberPath, MemberSize, IsArchivePath;
  }

  /** Slices after `from` and inside `size` bytes, none reaching into the next. */
  predicate InOrder(s: seq<Slice>, from: nat, size: nat) {
    && (forall i | 0 <= i < |s| :: from < s[i].start && s[i].start + s[i].length <= size)
    && (forall i, j | 0 <= i < j < |s| :: s[i].start + s[i].length <= s[j].start)
  }

  lemma OneSliceMore(first: seq<Slice>, rest: seq<Slice>, from: nat, next: nat, size: nat)
    requires InOrder(rest, next, size) && from <= next <= size
    requires |first| <= 1 && forall x | x in first :: from < x.start && x.start + x.length <= next
    ensures InOrder(first + rest, from, size)
  {
  }

  /** The members' bytes are disjoint slices of the archive, in order and in bounds. */
  lemma {:induction false} SlicesAreDisjoint(archive: Buffer, state: ParseState, accepts: PathCheck)
    requires InBounds(archive, state.offset)
    ensures InOrder(Slices(archive, state, accepts), state.offset, |archive|)
    decreases |archive| - state.offset
  {
    hide ReadBlock;
    if state.offset < |archive| && ReadBlock(archive, state, accepts).More? {
      TurnTakesOneSlice(archive, state, accepts);
      var next := ReadBlock(archive, state, accepts).state;
      SlicesAreDisjoint(archive, next, accepts);
      var added := Slices(archive, state, accepts)[..|Slices(archive, state, accepts)| - |Slices(archive, next, accepts)|];
      assert Slices(archive, state, accepts) == added + Slices(archive, next, accepts);
      hide Slices, InOrder;
      OneSliceMore(added, Slices(archive, next, accepts), state.offset, next.offset, |archive|);
    }
  }

  /** An accepted archive yields one member a slice, holding exactly the slice's bytes. */
  lemma {:induction false} SlicesAreTheMembers(archive: Buffer, state: ParseState, accepts: PathCheck)
    requires InBounds(archive, state.offset) && ParseFrom(archive, state, accepts).Ok?
    ensures var s, members := Slices(archive, state, accepts), ParseFrom(archive, state, accepts).value;
            && |members| == |state.entries| + |s| && members[..|state.entries|] == state.entries
            && forall i | 0 <= i < |s| ::
                 s[i].start + s[i].length <= |archive|
                 && members[|state.entries| + i].bytes == archive[s[i].start..s[i].start + s[i].length]
    decreases |archive| - state.offset
  {
    hide ReadBlock;
    if ReadBlock(archive, state, accepts).More? {
      TurnTakesOneSlice(archive, state, accepts);
      SlicesAreTheMembers(archive, ReadBlock(archive, state, accepts).state, accepts);
    } else {
      DoneKeepsEntries(archive, state, accepts);
    }
  }

  lemma DoneKeepsEntries(archive: Buffer, state: ParseState, accepts: PathCheck)
    requires InBounds(archive, state.offset) && state.offset < |archive|
    ensures ReadBlock(archive, state, accepts).Done? ==> ReadBlock(archive, state, accepts).entries == state.entries
  {
    hide CheckSum, CheckMagic, ReadTarNumber, ReadRecords, MemberPath, MemberSize, IsArchivePath, ReadPayload;
  }

  // ---------------------------------------------------------------------
  // Round trip.

  /** The decoder drops one leading byte order mark. */
  function DropBom(path: Buffer): Buffer {
    if BOM <= path then path[3..] else path
  }

  function Decoded(entries: seq<Member>): (r: seq<Member>)
    ensures |r| == |entries|
  {
    seq(|entries|, i requires 0 <= i < |entries| => Member(DropBom(entries[i].path), entries[i].bytes))
  }

  const ANY_PATH: PathCheck := _ => true

  /** Paths come from strings, whose UTF-8 form is well formed. */
  predicate PathsAreText(entries: seq<Member>) {
    forall i | 0 <= i < |entries| :: WellFormedUtf8(entries[i].path)
  }

  predicate NoBom(entries: seq<Member>) {
    forall i | 0 <= i < |entries| :: !(BOM <= entries[i].path)
  }

  /** A header block at `offset` with a payload after it. */
  ghost predicate HoldsMember(archive: Buffer, offset: nat, name: Buffer, typeflag: Byte, payload: Buffer) {
    && |name| <= 100 && |payload| <= MAX_FIELD_SIZE
    && InBounds(archive, offset) && offset + BLOCK_SIZE + PaddedSize(|payload|) <= |archive|
    && archive[offset..offset + BLOCK_SIZE] == Header(name, typeflag, |payload|)
    && archive[offset + BLOCK_SIZE..offset + BLOCK_SIZE + |payload|] == payload
  }

  lemma SlicesOfBlock(archive: Buffer, before: Buffer, header: Buffer, payload: Buffer, after: Buffer)
    requires archive == before + (header + PadToBlock(payload)) + after
    requires |header| == BLOCK_SIZE
    ensures archive[|before|..|before| + BLOCK_SIZE] == header
    ensures archive[|before| + BLOCK_SIZE..|before| + BLOCK_SIZE + |payload|] == payload
  {
  }

  lemma MemberWidth(i: nat, entry: Member)
    requires |HeaderName(i)| <= 100 && |PaxRecord(entry.path)| <= MAX_FIELD_SIZE && |entry.bytes| <= MAX_FIELD_SIZE
    ensures |Header(HeaderName(i), EXTENDED, |PaxRecord(entry.path)|)| == BLOCK_SIZE
    ensures |Header(ENTRY_NAME, REGULAR, |entry.bytes|)| == BLOCK_SIZE
    ensures |MemberBlocks(i, entry)| == (BLOCK_SIZE + PaddedSize(|PaxRecord(entry.path)|))
                                        + (BLOCK_SIZE + PaddedSize(|entry.bytes|))
    ensures Aligned(|MemberBlocks(i, entry)|)
  {
    hide Header, PaxRecord, PadToBlock, HeaderName, PaddedSize, Aligned;
    HeaderWidth(HeaderName(i), EXTENDED, |PaxRecord(entry.path)|);
    HeaderWidth(ENTRY_NAME, REGULAR, |entry.bytes|);
    var record, bytes := PaddedSize(|PaxRecord(entry.path)|), PaddedSize(|entry.bytes|);
    AlignedSum(record, record);
    AlignedSum(bytes, bytes);
    AlignedSum(BLOCK_SIZE + record, BLOCK_SIZE + bytes);
  }

  lemma AlignedZero()
    ensures Aligned(0) && Aligned(2 * BLOCK_SIZE)
  {
  }

  lemma Writable(entries: seq<Member>, i: nat)
    requires CanWrite(entries) && i < |entries|
    ensures Refusal(entries, i).None?
    ensures |HeaderName(i)| <= 100 && |PaxRecord(entries[i].path)| <= MAX_FIELD_SIZE
    ensures |entries[i].bytes| <= MAX_FIELD_SIZE
  {
    hide PaxRecord, HeaderName, IsArchivePath;
    assert Refusal(entries, i).None?;
  }

  lemma NoBlocks(entries: seq<Member>)
    requires CanWrite(entries)
    ensures |Blocks(entries, 0)| == 0 && Aligned(|Blocks(entries, 0)|)
  {
  }

  lemma BlocksGrow(entries: seq<Member>, i: nat, count: nat)
    requires i + 1 == count <= |entries| && CanWrite(entries)
    requires Aligned(|Blocks(entries, i)|)
    ensures Aligned(|Blocks(entries, count)|)
  {
    hide MemberBlocks, PaxRecord, HeaderName, IsArchivePath, Refusal, Aligned, PaddedSize;
    MemberIsAligned(entries, i);
    AlignedSum(|Blocks(entries, i)|, |MemberBlocks(i, entries[i])|);
  }

  lemma MemberIsAligned(entries: seq<Member>, i: nat)
    requires i < |entries| && CanWrite(entries)
    ensures |HeaderName(i)| <= 100 && Aligned(|MemberBlocks(i, entries[i])|)
  {
    hide MemberBlocks, PaxRecord, HeaderName, Refusal, Aligned, PaddedSize, Header;
    Writable(entries, i);
    MemberWidth(i, entries[i]);
  }

  lemma {:induction false} BlocksAreAligned(entries: seq<Member>, count: nat)
    requires count <= |entries| && CanWrite(entries)
    ensures Aligned(|Blocks(entries, count)|)
    decreases count
  {
    hide Blocks, Aligned, Refusal;
    if count == 0 {
      NoBlocks(entries);
    } else {
      BlocksAreAligned(entries, count - 1);
      BlocksGrow(entries, count - 1, count);
    }
  }

  /** Where member `i` of a written archive lies. */
  lemma MemberLayout(entries: seq<Member>, i: nat)
    requires CanWrite(entries) && i < |entries|
    ensures var archive := Archive(entries);
            var record := PaxRecord(entries[i].path);
            var offset := |Blocks(entries, i)|;
            var middle := offset + BLOCK_SIZE + PaddedSize(|record|);
            && |HeaderName(i)| <= 100
            && HoldsMember(archive, offset, HeaderName(i), EXTENDED, record)
            && HoldsMember(archive, middle, ENTRY_NAME, REGULAR, entries[i].bytes)
            && |Blocks(entries, i + 1)| == middle + BLOCK_SIZE + PaddedSize(|entries[i].bytes|)
  {
    hide Header, PaxRecord, HeaderName, Refusal, Aligned, PaddedSize, PadToBlock, HoldsMember;
    Writable(entries, i);
    AlignedZero();
    var archive := Archive(entries);
    var record, bytes := PaxRecord(entries[i].path), entries[i].bytes;
    var first := Header(HeaderName(i), EXTENDED, |record|) + PadToBlock(record);
    var second := Header(ENTRY_NAME, REGULAR, |bytes|) + PadToBlock(bytes);
    MemberWidth(i, entries[i]);
    BlocksAreAligned(entries, i);
    BlocksAreAligned(entries, |entries|);
    BlocksArePrefixes(entries, i + 1, |entries|);
    TwoBlocks(archive, Blocks(entries, i), first, second);
    AlignedSum(|Blocks(entries, i)|, PaddedSize(|record|));
    AlignedSum(|Blocks(entries, |entries|)|, 2 * BLOCK_SIZE);
    HoldsAfter(archive, Blocks(entries, i), HeaderName(i), EXTENDED, record);
    HoldsAfter(archive, Blocks(entries, i) + first, ENTRY_NAME, REGULAR, bytes);
  }

  lemma TwoBlocks(archive: Buffer, before: Buffer, first: Buffer, second: Buffer)
    requires before + (first + second) <= archive
    ensures before + first <= archive && (before + first) + second <= archive
  {
    assert before + (first + second) == (before + first) + second;
  }

  lemma HoldsAfter(archive: Buffer, before: Buffer, name: Buffer, typeflag: Byte, payload: Buffer)
    requires |name| <= 100 && |payload| <= MAX_FIELD_SIZE && |Header(name, typeflag, |payload|)| == BLOCK_SIZE
    requires before + (Header(name, typeflag, |payload|) + PadToBlock(payload)) <= archive
    requires Aligned(|archive|) && Aligned(|before|)
    ensures HoldsMember(archive, |before|, name, typeflag, payload)
  {
    hide Header;
    var header := Header(name, typeflag, |payload|);
    var upTo := before + (header + PadToBlock(payload));
    assert archive == before + (header + PadToBlock(payload)) + archive[|upTo|..];
    SlicesOfBlock(archive, before, header, payload, archive[|upTo|..]);
  }

  lemma HoldsInBounds(archive: Buffer, offset: nat, name: Buffer, typeflag: Byte, payload: Buffer)
    requires HoldsMember(archive, offset, name, typeflag, payload)
    ensures InBounds(archive, offset) && offset + BLOCK_SIZE <= |archive| && Aligned(offset + BLOCK_SIZE)
    ensures ReadPayload(archive, offset + BLOCK_SIZE, |payload|) == Ok(payload)
    ensures InBounds(archive, offset + BLOCK_SIZE + PaddedSize(|payload|))
  {
    AlignedSum(offset, PaddedSize(|payload|));
  }

  /** A written header is read as what it announces. */
  lemma HeaderTurn(archive: Buffer, state: ParseState, name: Buffer, typeflag: Byte, payload: Buffer, accepts: PathCheck)
    requires HoldsMember(archive, state.offset, name, typeflag, payload)
    requires InBounds(archive, state.offset) && state.offset < |archive|
    ensures typeflag == EXTENDED ==> ReadBlock(archive, state, accepts) == ReadExtended(archive, state, false, |payload|)
    ensures typeflag == REGULAR ==>
              ReadBlock(archive, state, accepts)
                == ReadMember(archive, state, BlockAt(archive, state.offset), |payload|, accepts)
  {
    hide Header, CheckSum, CheckMagic, ReadTarNumber, ReadExtended, ReadMember, ReadTerminator, Aligned, PaddedSize;
    HeaderReadsBack(name, typeflag, |payload|);
    assert BlockAt(archive, state.offset) == Header(name, typeflag, |payload|);
  }

  lemma PaxRecordFits(archive: Buffer, offset: nat, name: Buffer, path: Buffer)
    requires HoldsMember(archive, offset, name, EXTENDED, PaxRecord(path))
    ensures |PaxRecord(path)| <= MAX_SAFE_INTEGER
    ensures InBounds(archive, offset) && offset + BLOCK_SIZE <= |archive| && Aligned(offset + BLOCK_SIZE)
    ensures ReadPayload(archive, offset + BLOCK_SIZE, |PaxRecord(path)|) == Ok(PaxRecord(path))
  {
    hide PaxRecord;
    HoldsInBounds(archive, offset, name, EXTENDED, PaxRecord(path));
  }

  lemma ExtendedTurn(archive: Buffer, state: ParseState, name: Buffer, path: Buffer, accepts: PathCheck)
    requires HoldsMember(archive, state.offset, name, EXTENDED, PaxRecord(path)) && state.localPax == map[]
    requires InBounds(archive, state.offset) && state.offset < |archive|
    ensures var record := PaxRecord(path);
            ReadBlock(archive, state, accepts)
              == More(state.(offset := state.offset + BLOCK_SIZE + PaddedSize(|record|),
                             localPax := map[PATH_KEY := path]))
  {
    hide PaxRecord, Header, ReadBlock, ReadMember, ReadRecords, ReadPayload, HoldsMember, Aligned, PaddedSize;
    HeaderTurn(archive, state, name, EXTENDED, PaxRecord(path), accepts);
    PaxRecordFits(archive, state.offset, name, path);
    PaxRecordReadsBack(path);
    assert map[] + map[PATH_KEY := path] == map[PATH_KEY := path];
  }

  predicate Contains(entries: seq<Member>, path: Buffer) {
    exists k | 0 <= k < |entries| :: entries[k].path == path
  }

  predicate Readable(seen: seq<Member>, path: Buffer, accepts: PathCheck) {
    path != [] && IsArchivePath(path) && !(BOM <= path) && !Contains(seen, path) && accepts(path)
  }

  lemma MemberTurn(archive: Buffer, state: ParseState, name: Buffer, path: Buffer, bytes: Buffer, accepts: PathCheck)
    requires HoldsMember(archive, state.offset, name, REGULAR, bytes) && WellFormedUtf8(path)
    requires InBounds(archive, state.offset) && state.offset < |archive|
    requires state.localPax == map[PATH_KEY := path] && state.globalPax == map[]
    ensures var next := More(ParseState(state.offset + BLOCK_SIZE + PaddedSize(|bytes|),
                                        state.entries + [Member(DropBom(path), bytes)], map[], map[]));
            var turn := ReadBlock(archive, state, accepts);
            && (turn == next || (turn.Failed? && turn.error != TrailingData))
            && (Readable(state.entries, path, accepts) ==> turn == next)
  {
    hide Header, ReadBlock, ReadExtended, ReadPayload, IsArchivePath, WellFormedUtf8, HoldsMember, Aligned, PaddedSize;
    HeaderTurn(archive, state, name, REGULAR, bytes, accepts);
    HoldsInBounds(archive, state.offset, name, REGULAR, bytes);
    var attributes := state.globalPax + state.localPax;
    assert attributes == map[PATH_KEY := path];
    assert SIZE_KEY != PATH_KEY;
  }

  lemma LastTurn(entries: seq<Member>, done: seq<Member>, accepts: PathCheck)
    requires CanWrite(entries)
    ensures var archive := Archive(entries);
            var state := ParseState(|Blocks(entries, |entries|)|, done, map[], map[]);
            && InBounds(archive, state.offset) && state.offset + 2 * BLOCK_SIZE == |archive|
            && ReadBlock(archive, state, accepts) == Done(done)
  {
    hide Blocks, ReadHeaded;
    BlocksAreAligned(entries, |entries|);
  }

  ghost predicate AcceptsAll(entries: seq<Member>, accepts: PathCheck) {
    NoBom(entries) && forall i | 0 <= i < |entries| :: accepts(entries[i].path)
  }

  /** The state before member `i` of a written archive. */
  function Before(entries: seq<Member>, i: nat): ParseState
    requires CanWrite(entries) && i <= |entries|
  {
    ParseState(|Blocks(entries, i)|, Decoded(entries)[..i], map[], map[])
  }

  /** What parsing a written archive from member `i` on comes to. */
  ghost predicate ParsesFrom(entries: seq<Member>, i: nat, accepts: PathCheck)
    requires CanWrite(entries) && i <= |entries|
  {
    var archive, state := Archive(entries), Before(entries, i);
    && InBounds(archive, state.offset)
    && var parsed := ParseFrom(archive, state, accepts);
    && parsed != Err(TrailingData)
    && (parsed.Ok? ==> parsed.value == Decoded(entries)
                       && TerminatorAt(archive, state, accepts) + 2 * BLOCK_SIZE == |archive|)
    && (AcceptsAll(entries, accepts) ==> parsed == Ok(entries))
  }

  lemma {:induction false} ParseMembers(entries: seq<Member>, i: nat, accepts: PathCheck)
    requires CanWrite(entries) && PathsAreText(entries) && i <= |entries|
    ensures ParsesFrom(entries, i, accepts)
    decreases |entries| - i
  {
    hide ReadBlock, Archive, Blocks, PaxRecord, HeaderName, HoldsMember, IsArchivePath, WellFormedUtf8, Refusal;
    if i == |entries| {
      LastTurn(entries, Decoded(entries), accepts);
      assert Decoded(entries)[..i] == Decoded(entries);
      if NoBom(entries) { assert Decoded(entries) == entries; }
    } else {
      ParseMembers(entries, i + 1, accepts);
      OneMember(entries, i, accepts);
    }
  }

  lemma OneMember(entries: seq<Member>, i: nat, accepts: PathCheck)
    requires CanWrite(entries) && PathsAreText(entries) && i < |entries|
    requires ParsesFrom(entries, i + 1, accepts)
    ensures ParsesFrom(entries, i, accepts)
  {
    hide ReadBlock, Archive, Blocks, PaxRecord, HeaderName, HoldsMember, IsArchivePath, WellFormedUtf8, Refusal,
         Aligned, PaddedSize, ReadPayload;
    var archive, state := Archive(entries), Before(entries, i);
    var path, bytes := entries[i].path, entries[i].bytes;
    var record := PaxRecord(path);
    MemberLayout(entries, i);
    HoldsInBounds(archive, state.offset, HeaderName(i), EXTENDED, record);
    ExtendedTurn(archive, state, HeaderName(i), path, accepts);
    var middle := state.(offset := state.offset + BLOCK_SIZE + PaddedSize(|record|), localPax := map[PATH_KEY := path]);
    HoldsInBounds(archive, middle.offset, ENTRY_NAME, REGULAR, bytes);
    MemberTurn(archive, middle, ENTRY_NAME, path, bytes, accepts);
    assert state.entries + [Member(DropBom(path), bytes)] == Decoded(entries)[..i + 1];
    assert ParseFrom(archive, state, accepts) == ParseFrom(archive, middle, accepts);
    assert TerminatorAt(archive, state, accepts) == TerminatorAt(archive, middle, accepts);
    if ReadBlock(archive, middle, accepts).More? {
      assert ParseFrom(archive, middle, accepts) == ParseFrom(archive, Before(entries, i + 1), accepts);
      assert TerminatorAt(archive, middle, accepts) == TerminatorAt(archive, Before(entries, i + 1), accepts);
    }
    if NoBom(entries) { FreshAndSafe(entries, i, state.entries); }
  }

  lemma FreshAndSafe(entries: seq<Member>, i: nat, done: seq<Member>)
    requires CanWrite(entries) && i < |entries| && NoBom(entries) && done == Decoded(entries)[..i]
    ensures entries[i].path != [] && IsArchivePath(entries[i].path) && !Contains(done, entries[i].path)
  {
    assert Refusal(entries, i).None?;
    assert forall k | 0 <= k < i :: done[k].path == entries[k].path;
  }

  lemma ArchiveParses(entries: seq<Member>, accepts: PathCheck)
    requires CanWrite(entries) && PathsAreText(entries)
    ensures Before(entries, 0) == START && ParsesFrom(entries, 0, accepts)
    ensures Parse(Archive(entries), accepts) == ParseFrom(Archive(entries), START, accepts)
  {
    hide ReadBlock;
    ParseMembers(entries, 0, accepts);
    LastTurn(entries, [], accepts);
    assert Decoded(entries)[..0] == [];
  }

  /**
   * Parsing what was written gives back exactly what was written, for paths with
   * newlines and `=` and for any contents, if and only if no path begins with a
   * byte order mark.
   */
  lemma RoundTrip(entries: seq<Member>)
    requires CanWrite(entries) && PathsAreText(entries)
    ensures Parse(Archive(entries), ANY_PATH) == Ok(entries) <==> NoBom(entries)
  {
    hide ReadBlock, Archive, Blocks, Refusal, WellFormedUtf8;
    ArchiveParses(entries, ANY_PATH);
    if !NoBom(entries) {
      var i :| 0 <= i < |entries| && BOM <= entries[i].path;
      assert Decoded(entries)[i].path != entries[i].path;
    }
  }

  /** No proper prefix of a written archive is accepted, whatever the caller's path checks. */
  lemma WrittenPrefixesAreRejected(entries: seq<Member>, part: Buffer, accepts: PathCheck)
    requires CanWrite(entries) && PathsAreText(entries)
    requires part < Archive(entries)
    ensures Parse(part, accepts).Err?
  {
    hide ReadBlock, Archive, Blocks, Refusal, WellFormedUtf8;
    ArchiveParses(entries, accepts);
    if Parse(part, accepts).Ok? {
      TruncationIsCaught(part, Archive(entries), START, accepts);
      assert false;
    }
  }
}
