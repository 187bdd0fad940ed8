/**
 * src/sync/tar.ts: header fields, numbers and extended records of the pax
 * Interchange Format (IEEE Std 1003.1-2017, pax, "ustar Interchange Format" and
 * "pax Extended Header").
 */
module TarFields {
  import opened Prelude
  import opened Bytes
  import Sequences

  const BLOCK_SIZE: nat := 512
  const MAX_FIELD_SIZE: nat := 0x1_FFFF_FFFF  // eleven octal digits
  const MAX_SAFE_INTEGER: nat := 9007199254740991

  const USTAR_MAGIC: Buffer := [117, 115, 116, 97, 114, 0]
  const USTAR_VERSION: Buffer := [48, 48]
  const PATH_KEY: Buffer := [112, 97, 116, 104]
  const SIZE_KEY: Buffer := [115, 105, 122, 101]
  const REGULAR: Byte := 48
  const EXTENDED: Byte := 120
  const GLOBAL: Byte := 103

  datatype TarError =
    | BadArchiveLength | BadTerminator | DanglingExtendedHeader | TrailingData | NoTerminator
    | NotAscii | BadNumber | NumberTooLarge | BadChecksum | BadMagic | BadVersion | NotRegular | Truncated
    | BadRecord | BadUtf8 | EmptyPath | UnsafePath | RejectedPath | DuplicatePath | BadSize
    | FieldTooLong | SizeOutOfRange

  // ---------------------------------------------------------------------
  // Numbers.

  predicate IsAscii(s: Buffer) {
    forall i | 0 <= i < |s| :: s[i] < 128
  }

  /** Trailing NUL and space bytes removed. */
  function Trim(s: Buffer): (t: Buffer)
    ensures t <= s
  {
    if s != [] && (s[|s| - 1] == NUL || s[|s| - 1] == SPACE) then Trim(s[..|s| - 1]) else s
  }

  /** The base-256 form over the first `n` bytes; the top bit of the first marks the form. */
  function ReadBase256(field: Buffer, n: nat): Result<nat, TarError>
    requires n <= |field|
  {
    if n == 0 then Ok(0)
    else
      var high := ReadBase256(field, n - 1);
      if high.Err? then high
      else
        var byte := if n == 1 then field[0] % 128 else field[n - 1];
        var value := high.value * 256 + byte;
        if value > MAX_SAFE_INTEGER then Err(NumberTooLarge) else Ok(value)
  }

  function ReadTarNumber(field: Buffer): Result<nat, TarError> {
    if field != [] && field[0] >= 128 then ReadBase256(field, |field|)
    else if !IsAscii(field) then Err(NotAscii)
    else
      var text := Trim(field);
      if text == [] || !AllDigits(8, text) then Err(BadNumber)
      else if Value(8, text) > MAX_SAFE_INTEGER then Err(NumberTooLarge)
      else Ok(Value(8, text))
  }

  /** The number as the code reads it: a running value in the base-256 form. */
  method ReadNumber(field: Buffer) returns (number: Result<nat, TarError>)
    ensures number == ReadTarNumber(field)
  {
    if field != [] && field[0] >= 128 {
      var value := 0;
      for index := 0 to |field|
        invariant ReadBase256(field, index) == Ok(value)
      {
        var byte := if index == 0 then field[index] % 128 else field[index];
        value := value * 256 + byte;
        if value > MAX_SAFE_INTEGER {
          assert ReadBase256(field, index + 1) == Err(NumberTooLarge);
          TooLargeStays(field, index + 1, |field|);
          return Err(NumberTooLarge);
        }
      }
      return Ok(value);
    }
    if !IsAscii(field) { return Err(NotAscii); }
    var text := Trim(field);
    if text == [] || !AllDigits(8, text) { return Err(BadNumber); }
    var value := Value(8, text);
    if value > MAX_SAFE_INTEGER { return Err(NumberTooLarge); }
    return Ok(value);
  }

  lemma {:induction false} TooLargeStays(field: Buffer, n: nat, m: nat)
    requires n <= m <= |field| && ReadBase256(field, n).Err?
    ensures ReadBase256(field, m) == ReadBase256(field, n)
    decreases m - n
  {
    if n < m { TooLargeStays(field, n, m - 1); }
  }

  /** A zero-padded octal field with its NUL. */
  function OctalField(value: nat, length: nat): Buffer
    requires length > 0
  {
    PadStart(Digits(8, value), length - 1) + [NUL]
  }

  lemma TrimOfDigits(digits: Buffer, tail: Buffer)
    requires digits != [] && AllDigits(8, digits)
    requires tail == [NUL] || tail == [NUL, SPACE]
    ensures Trim(digits + tail) == digits
  {
    assert Trim(digits) == digits;
    assert (digits + [NUL])[..|digits + [NUL]| - 1] == digits;
    assert Trim(digits + [NUL]) == digits;
    if tail == [NUL, SPACE] {
      assert (digits + tail)[..|digits + tail| - 1] == digits + [NUL];
    }
  }

  lemma OctalReadsBack(value: nat, width: nat, tail: Buffer)
    requires width > 0 && value <= MAX_SAFE_INTEGER
    requires tail == [NUL] || tail == [NUL, SPACE]
    ensures ReadTarNumber(PadStart(Digits(8, value), width) + tail) == Ok(value)
  {
    var digits := PadStart(Digits(8, value), width);
    var field := digits + tail;
    PaddedReadsBack(8, value, width);
    TrimOfDigits(digits, tail);
    assert field[0] == digits[0] && field[0] < 128;
    assert IsAscii(field) by {
      forall i | 0 <= i < |field|
        ensures field[i] < 128
      {
        if i < |digits| { assert field[i] == digits[i]; } else { assert field[i] == tail[i - |digits|]; }
      }
    }
  }

  // ---------------------------------------------------------------------
  // Paths as UTF-8.

  predicate Continues(b: Byte) {
    0x80 <= b < 0xC0
  }

  /** How many bytes the well-formed sequence at the front takes; 0 if there is none. */
  function LeadLength(s: Buffer): nat
    requires s != []
  {
    if s[0] < 0x80 then 1
    else if 0xC2 <= s[0] < 0xE0 && |s| >= 2 && Continues(s[1]) then 2
    else if 0xE0 <= s[0] < 0xF0 && |s| >= 3 && Continues(s[1]) && Continues(s[2])
            && (s[0] == 0xE0 ==> s[1] >= 0xA0) && (s[0] == 0xED ==> s[1] < 0xA0) then 3
    else if 0xF0 <= s[0] < 0xF5 && |s| >= 4 && Continues(s[1]) && Continues(s[2]) && Continues(s[3])
            && (s[0] == 0xF0 ==> s[1] >= 0x90) && (s[0] == 0xF4 ==> s[1] < 0x90) then 4
    else 0
  }

  predicate WellFormedUtf8(s: Buffer)
    decreases |s|
  {
    s == [] || (0 < LeadLength(s) <= |s| && WellFormedUtf8(s[LeadLength(s)..]))
  }

  const BOM: Buffer := [0xEF, 0xBB, 0xBF]

  /** A fatal UTF-8 decoder refuses malformed input and drops one leading byte order mark. */
  function DecodeUtf8(s: Buffer): Result<Buffer, TarError> {
    if !WellFormedUtf8(s) then Err(BadUtf8)
    else if BOM <= s then Ok(s[3..])
    else Ok(s)
  }

  const SLASH: Byte := 47

  /** A relative path without NUL and without empty, `.` or `..` segments. */
  predicate IsArchivePath(path: Buffer) {
    && NUL !in path
    && !([SLASH] <= path)
    && forall i | 0 <= i < |Sequences.Split(path, SLASH)| ::
         Sequences.Split(path, SLASH)[i] !in [[], [46], [46, 46]]
  }

  /** Between its slashes and its ends such a path has names, and none of them is empty, `.` or `..`. */
  lemma ArchivePathBySegments(path: Buffer)
    ensures IsArchivePath(path) <==>
              && NUL !in path
              && forall i: nat, j: nat | Sequences.IsSegment(path, SLASH, i, j) ::
                   i < j && path[i..j] != [46] && path[i..j] != [46, 46]
  {
    var pieces := Sequences.Split(path, SLASH);
    if IsArchivePath(path) {
      forall i: nat, j: nat | Sequences.IsSegment(path, SLASH, i, j)
        ensures i < j && path[i..j] != [46] && path[i..j] != [46, 46]
      {
        var k := Sequences.SegmentIsPiece(path, SLASH, i, j);
        assert pieces[k] !in [[], [46], [46, 46]];
      }
    }
    if NUL !in path && forall i: nat, j: nat | Sequences.IsSegment(path, SLASH, i, j) ::
         i < j && path[i..j] != [46] && path[i..j] != [46, 46] {
      assert !Sequences.IsSegment(path, SLASH, 0, 0);
      forall k | 0 <= k < |pieces|
        ensures pieces[k] !in [[], [46], [46, 46]]
      {
        var i, j := Sequences.PieceIsSegment(path, SLASH, k);
      }
    }
  }

  // ---------------------------------------------------------------------
  // Extended records: a decimal length that counts itself.

  /** `n` bytes of text, a space and the digits of the total: what a length must equal. */
  function SelfLength(n: nat, length: nat): nat {
    n + 1 + |Digits(10, length)|
  }

  lemma SelfLengthGrows(n: nat, a: nat, b: nat)
    requires a <= b
    ensures SelfLength(n, a) <= SelfLength(n, b)
  {
    DigitsGrow(10, a, b);
  }

  lemma {:induction false} PowerOutgrows(k: nat)
    requires k > 0
    ensures Pow(10, k) >= 10 * k
  {
    if k > 1 { PowerOutgrows(k - 1); } else { assert Pow(10, 0) == 1; }
  }

  lemma SelfLengthIsBounded(n: nat)
    ensures SelfLength(n, 2 * n + 4) <= 2 * n + 4
  {
    PowerOutgrows(n + 3);
    DigitCount(10, 2 * n + 4, n + 3);
  }

  /** Iterate the length until it counts itself. */
  function FixLength(n: nat, length: nat): (fixed: nat)
    requires length <= SelfLength(n, length) <= 2 * n + 4
    ensures fixed == SelfLength(n, fixed) && length <= fixed <= 2 * n + 4
    ensures forall m | m == SelfLength(n, m) && length <= m :: fixed <= m
    decreases 2 * n + 4 - length
  {
    var next := SelfLength(n, length);
    if next == length then length
    else
      SelfLengthGrows(n, length, next);
      SelfLengthGrows(n, next, 2 * n + 4);
      SelfLengthIsBounded(n);
      assert forall m | m == SelfLength(n, m) && length <= m :: next <= m by {
        forall m | m == SelfLength(n, m) && length <= m
          ensures next <= m
        {
          SelfLengthGrows(n, length, m);
        }
      }
      FixLength(n, next)
  }

  /** The least length that counts itself; it exists for every text. */
  function RecordLength(n: nat): (length: nat)
    ensures length == SelfLength(n, length) && n + 2 <= length <= 2 * n + 4
    ensures forall m | m == SelfLength(n, m) :: length <= m
  {
    SelfLengthIsBounded(n);
    SelfLengthGrows(n, n + 2, 2 * n + 4);
    FixLength(n, n + 2)
  }

  function PathText(path: Buffer): Buffer {
    PATH_KEY + [EQUALS] + path + [NEWLINE]
  }

  function PaxRecord(path: Buffer): (record: Buffer)
    ensures |record| == RecordLength(|PathText(path)|)
  {
    var value := PathText(path);
    Digits(10, RecordLength(|value|)) + [SPACE] + value
  }

  /** The loop of `paxPathRecord`. It ends for every path, at the least length. */
  method PaxPathRecord(path: Buffer) returns (record: Buffer)
    ensures record == PaxRecord(path)
  {
    var value := PathText(path);
    var n := |value|;
    var length := n + 2;
    SelfLengthIsBounded(n);
    SelfLengthGrows(n, n + 2, 2 * n + 4);
    while true
      invariant length <= SelfLength(n, length) <= 2 * n + 4
      invariant FixLength(n, length) == RecordLength(n)
      decreases 2 * n + 4 - length
    {
      var next := n + 1 + |Digits(10, length)|;
      if next == length { break; }
      SelfLengthGrows(n, length, next);
      SelfLengthGrows(n, next, 2 * n + 4);
      length := next;
    }
    record := Digits(10, length) + [SPACE] + value;
  }

  type Records = map<Buffer, Buffer>

  datatype Record = Record(key: Buffer, value: Buffer, length: nat)

  /** One record at `cursor`: its key, its value and its length, or why it is refused. */
  function ReadRecord(payload: Buffer, cursor: nat): (record: Result<Record, TarError>)
    requires cursor < |payload|
    ensures record.Ok? ==> 0 < record.value.length <= |payload| - cursor
  {
    var space := IndexOf(payload, SPACE, cursor);
    if space == -1 then Err(BadRecord)
    else
      var text := payload[cursor..space];
      if !IsAscii(text) then Err(NotAscii)
      else if text == [] || !AllDigits(10, text) || text[0] == ZERO then Err(BadRecord)
      else
        var length := Value(10, text);
        if length > MAX_SAFE_INTEGER || length < space - cursor + 2 then Err(BadRecord)
        else if length > |payload| - cursor then Err(BadRecord)
        else if payload[cursor + length - 1] != NEWLINE then Err(BadRecord)
        else
          var body := payload[space + 1..cursor + length - 1];
          var equals := IndexOf(body, EQUALS, 0);
          if equals <= 0 then Err(BadRecord)
          else if !IsAscii(body[..equals]) then Err(NotAscii)
          else Ok(Record(body[..equals], body[equals + 1..], length))
  }

  function Put(records: Records, record: Record): Records {
    records[record.key := record.value]
  }

  /** All records from `cursor` on, later keys over earlier ones. */
  function ReadRecords(payload: Buffer, cursor: nat, records: Records): Result<Records, TarError>
    requires cursor <= |payload|
    decreases |payload| - cursor
  {
    if cursor == |payload| then Ok(records)
    else
      var record := ReadRecord(payload, cursor);
      if record.Err? then Err(record.error)
      else ReadRecords(payload, cursor + record.value.length, Put(records, record.value))
  }

  method ParsePaxRecords(payload: Buffer) returns (parsed: Result<Records, TarError>)
    ensures parsed == ReadRecords(payload, 0, map[])
  {
    hide ReadRecord;
    ghost var whole := ReadRecords(payload, 0, map[]);
    var records: Records := map[];
    var cursor := 0;
    while cursor < |payload|
      invariant cursor <= |payload|
      invariant ReadRecords(payload, cursor, records) == whole
    {
      var record := ReadRecord(payload, cursor);
      if record.Err? { return Err(record.error); }
      records, cursor := Put(records, record.value), cursor + record.value.length;
    }
    return Ok(records);
  }

  /** Where the pieces of a path record lie. */
  lemma RecordLayout(path: Buffer)
    ensures var record := PaxRecord(path);
            var space := IndexOf(record, SPACE, 0);
            && 0 < space < |record| - 1
            && record[0..space] == Digits(10, |record|)
            && record[space + 1..|record| - 1] == PATH_KEY + [EQUALS] + path
            && record[|record| - 1] == NEWLINE
            && |record| >= space + 2
  {
    var record := PaxRecord(path);
    var digits := Digits(10, |record|);
    DigitsReadBack(10, |record|);
    assert record == digits + [SPACE] + PathText(path);
    assert forall i | 0 <= i < |digits| :: record[i] == digits[i];
    assert record[|digits|] == SPACE;
    assert IndexOf(record, SPACE, 0) == |digits|;
  }

  lemma BodyLayout(body: Buffer, path: Buffer)
    requires body == PATH_KEY + [EQUALS] + path
    ensures IndexOf(body, EQUALS, 0) == 4 && body[..4] == PATH_KEY && body[5..] == path
  {
    assert body[4] == EQUALS && forall i | 0 <= i < 4 :: body[i] == PATH_KEY[i];
  }

  lemma PaxRecordParses(path: Buffer)
    requires |PaxRecord(path)| <= MAX_SAFE_INTEGER
    ensures ReadRecord(PaxRecord(path), 0) == Ok(Record(PATH_KEY, path, |PaxRecord(path)|))
  {
    hide PaxRecord, IndexOf, Digits, Value;
    var record := PaxRecord(path);
    var space := IndexOf(record, SPACE, 0);
    RecordLayout(path);
    DigitsReadBack(10, |record|);
    BodyLayout(record[space + 1..|record| - 1], path);
  }

  /** The record of a path reads back as the one key `path` with the same bytes, newlines and `=` included. */
  lemma PaxRecordReadsBack(path: Buffer)
    requires |PaxRecord(path)| <= MAX_SAFE_INTEGER
    ensures ReadRecords(PaxRecord(path), 0, map[]) == Ok(map[PATH_KEY := path])
  {
    hide ReadRecord;
    PaxRecordParses(path);
    var record := PaxRecord(path);
    assert ReadRecords(record, |record|, map[PATH_KEY := path]) == Ok(map[PATH_KEY := path]);
  }
}
