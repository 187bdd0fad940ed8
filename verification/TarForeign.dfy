/**
 * src/sync/tar.ts, `parsePaxTar`, on archives any tool may have written: which byte
 * strings it accepts, and what it makes of them, by what the pax Interchange Format
 * says an archive is (IEEE Std 1003.1-2017, pax).
 */
module TarForeign {
  import opened Prelude
  import opened Bytes
  import opened TarFields
  import opened TarHeader
  import opened TarArchive
  import opened TarParser
  import opened TarLaws
  import Utf8

  // ---------------------------------------------------------------------
  // Numbers.

  function BigEndian(s: Buffer): nat {
    if s == [] then 0 else BigEndian(s[..|s| - 1]) * 256 + s[|s| - 1]
  }

  predicate IsFiller(b: Byte) {
    b == NUL || b == SPACE
  }

  /** Octal digits and nothing but NULs and spaces after them. */
  predicate IsOctal(field: Buffer, k: nat, n: nat) {
    && 0 < k <= |field| && AllDigits(8, field[..k]) && Value(8, field[..k]) == n
    && forall i | k <= i < |field| :: IsFiller(field[i])
  }

  /** The field states the number: in base 256, most significant byte first, if its top bit is set, else in octal. */
  ghost predicate States(field: Buffer, n: nat) {
    if field != [] && field[0] >= 128 then BigEndian([field[0] - 128] + field[1..]) == n
    else exists k: nat :: IsOctal(field, k, n)
  }

  lemma {:induction false} TrimEnds(field: Buffer, k: nat)
    requires k <= |field| && forall i | k <= i < |field| :: IsFiller(field[i])
    requires k > 0 ==> !IsFiller(field[k - 1])
    ensures Trim(field) == field[..k]
    decreases |field|
  {
    if k < |field| {
      assert IsFiller(field[|field| - 1]);
      TrimEnds(field[..|field| - 1], k);
      assert field[..|field| - 1][..k] == field[..k];
    } else {
      assert field[..k] == field;
    }
  }

  lemma {:induction false} TrimmedIsFiller(field: Buffer)
    ensures forall i | |Trim(field)| <= i < |field| :: IsFiller(field[i])
    decreases |field|
  {
    if field != [] && IsFiller(field[|field| - 1]) { TrimmedIsFiller(field[..|field| - 1]); }
  }

  lemma {:induction false} Base256IsBigEndian(field: Buffer, m: nat)
    requires field != [] && field[0] >= 128 && m <= |field|
    ensures var value := BigEndian(([field[0] - 128] + field[1..])[..m]);
            ReadBase256(field, m) == if value <= MAX_SAFE_INTEGER then Ok(value) else Err(NumberTooLarge)
  {
    var lowered := [field[0] - 128] + field[1..];
    if m > 0 {
      Base256IsBigEndian(field, m - 1);
      assert lowered[..m][..m - 1] == lowered[..m - 1] && lowered[..m][m - 1] == lowered[m - 1];
      assert field[0] % 128 == field[0] - 128;
    }
  }

  lemma OctalIsRead(field: Buffer, k: nat, n: nat)
    requires field != [] && field[0] < 128 && IsOctal(field, k, n)
    ensures IsAscii(field) && Trim(field) == field[..k]
  {
    assert IsDigit(8, field[..k][k - 1]);
    TrimEnds(field, k);
    forall i | 0 <= i < |field|
      ensures field[i] < 128
    {
      if i < k { assert IsDigit(8, field[..k][i]); } else { assert IsFiller(field[i]); }
    }
  }

  /** A field is read as a number exactly when it states one a double holds exactly. */
  lemma NumberIsStated(field: Buffer, n: nat)
    ensures ReadTarNumber(field) == Ok(n) <==> States(field, n) && n <= MAX_SAFE_INTEGER
  {
    if field != [] && field[0] >= 128 {
      var lowered := [field[0] - 128] + field[1..];
      Base256IsBigEndian(field, |field|);
      assert lowered[..|field|] == lowered;
    } else {
      if k: nat :| IsOctal(field, k, n) { OctalIsRead(field, k, n); }
      if ReadTarNumber(field) == Ok(n) {
        TrimmedIsFiller(field);
        assert field[..|Trim(field)|] == Trim(field);
        assert IsOctal(field, |Trim(field)|, n);
      }
    }
  }

  // ---------------------------------------------------------------------
  // Headers.

  function Ascii(text: string): (bytes: Buffer)
    requires forall i | 0 <= i < |text| :: text[i] < 128 as char
    ensures |bytes| == |text|
  {
    seq(|text|, i requires 0 <= i < |text| => text[i] as int)
  }

  /** What the numbers in the model spell, as the standard writes it. */
  lemma ConstantsSpell(index: nat)
    ensures MAGIC == Ascii("ustar\0") + Ascii("00") && PATH_KEY == Ascii("path") && SIZE_KEY == Ascii("size")
    ensures [REGULAR, EXTENDED, GLOBAL] == Ascii("0xg")
    ensures [ZERO, SPACE, EQUALS, NEWLINE, SLASH, NUL] == Ascii("0 =\n/\0")
    ensures HeaderName(index) == Ascii("PaxHeaders.0/") + Digits(10, index) && ENTRY_NAME == Ascii("pax-entry")
    ensures BOM == Utf8.Encode(0xFEFF)
    ensures MAX_FIELD_SIZE + 1 == Pow(8, 11)
  {
    Powers();
  }

  /** The bytes of a header, its checksum field counted as eight spaces. */
  function Checksum(header: Buffer): nat
    requires |header| == 512
  {
    Sum(header[..148]) + 8 * 32 + Sum(header[156..])
  }

  /** "ustar", a NUL and "00". */
  const MAGIC: Buffer := [117, 115, 116, 97, 114, 0, 48, 48]

  /** A header of this type that states this size and its own checksum; all its other bytes are free. */
  ghost predicate IsUstar(header: Buffer, typeflag: Byte, size: nat) {
    && |header| == 512 && size <= MAX_SAFE_INTEGER
    && States(header[124..136], size) && States(header[148..156], Checksum(header))
    && header[257..265] == MAGIC
    && (header[156] == typeflag || (header[156] == 0 && typeflag == REGULAR))
  }

  lemma {:induction false} BlankedSum(header: Buffer)
    requires |header| == 512
    ensures Sum(Blanked(header)) == Checksum(header) <= MAX_SAFE_INTEGER
  {
    SumConcat(header[..148], BLANKS);
    SumConcat(header[..148] + BLANKS, header[156..]);
    SumOfBlanks();
  }

  lemma SumOfBlanks()
    ensures Sum(BLANKS) == 8 * 32
  {
    var two: Buffer := [SPACE, SPACE];
    var four: Buffer := two + two;
    SumConcat([SPACE], [SPACE]);
    assert [SPACE][..0] == [] && [SPACE] + [SPACE] == two;
    SumConcat(two, two);
    SumConcat(four, four);
    assert four + four == BLANKS;
  }

  /** A header passes the checks exactly when it is one. */
  lemma HeaderIsChecked(header: Buffer)
    requires |header| == 512
    ensures CheckSum(header).Ok? <==> States(header[148..156], Checksum(header))
    ensures CheckMagic(header).Ok? <==> header[257..265] == MAGIC
  {
    BlankedSum(header);
    NumberIsStated(header[148..156], Checksum(header));
    hide States, Checksum, ReadTarNumber, Sum, Blanked;
    assert header[257..265] == header[257..263] + header[263..265];
    assert MAGIC[..6] == USTAR_MAGIC && MAGIC[6..] == USTAR_VERSION;
    assert header[257..265][..6] == header[257..263] && header[257..265][6..] == header[263..265];
  }

  /** The fields of a header the project writes, where the standard has them: mode 0644, no owner, no time. */
  lemma WrittenHeader(name: Buffer, typeflag: Byte, size: nat)
    requires |name| <= 100 && size <= MAX_FIELD_SIZE && typeflag != 0
    ensures var header := Header(name, typeflag, size);
            && IsUstar(header, typeflag, size)
            && States(header[100..108], 6 * 64 + 4 * 8 + 4) && States(header[108..116], 0)
            && States(header[116..124], 0) && States(header[136..148], 0)
            && header[..|name|] == name
            && forall i | |name| <= i < 100 || 157 <= i < 257 || 265 <= i < 512 :: header[i] == 0
  {
    var header := Header(name, typeflag, size);
    HeaderReadsBack(name, typeflag, size);
    HeaderIsChecked(header);
    NumberIsStated(header[124..136], size);
    NumbersWritten(name, typeflag, size);
    TextWritten(name, typeflag, size);
    hide Header, States, CheckSum, CheckMagic, ReadTarNumber, Checksum;
  }

  lemma FieldsLie(header: Buffer, p: Buffer, m: Buffer, u: Buffer, g: Buffer, z: Buffer, t: Buffer)
    requires |p| == 100 && |m| == 8 && |u| == 8 && |g| == 8 && |z| == 12 && |t| == 12
    requires |header| == 512 && header[..148] == p + m + u + g + z + t
    ensures header[100..108] == m && header[108..116] == u && header[116..124] == g && header[136..148] == t
  {
    var front := header[..148];
    assert front[100..108] == m && front[108..116] == u && front[116..124] == g && front[136..148] == t;
    assert header[100..108] == front[100..108] && header[108..116] == front[108..116];
    assert header[116..124] == front[116..124] && header[136..148] == front[136..148];
  }

  lemma NumbersWritten(name: Buffer, typeflag: Byte, size: nat)
    requires |name| <= 100 && size <= MAX_FIELD_SIZE && |Header(name, typeflag, size)| == 512
    ensures var header := Header(name, typeflag, size);
            && States(header[100..108], 420) && States(header[108..116], 0) && States(header[116..124], 0)
            && States(header[136..148], 0)
  {
    var header := Header(name, typeflag, size);
    EveryFieldFits(size);
    FrontWidth(name, size);
    hide OctalField, ReadTarNumber, States, ChecksumField, Back, Sum;
    var (p, m, o, z, t) :=
      (Padded(name, 100), OctalField(420, 8), OctalField(0, 8), OctalField(size, 12), OctalField(0, 12));
    assert header[..148] == Front(name, size) == p + m + o + o + z + t;
    hide Header, Front, Padded;
    FieldsLie(header, p, m, o, o, z, t);
    OctalFieldReadsBack(420, 8);
    OctalFieldReadsBack(0, 8);
    OctalFieldReadsBack(0, 12);
    NumberIsStated(m, 420);
    NumberIsStated(o, 0);
    NumberIsStated(t, 0);
  }

  lemma TextWritten(name: Buffer, typeflag: Byte, size: nat)
    requires |name| <= 100 && size <= MAX_FIELD_SIZE && |Header(name, typeflag, size)| == 512
    ensures var header := Header(name, typeflag, size);
            && header[..|name|] == name
            && forall i | |name| <= i < 100 || 157 <= i < 257 || 265 <= i < 512 :: header[i] == 0
  {
    var header, front, back := Header(name, typeflag, size), Front(name, size), Back(typeflag);
    FrontWidth(name, size);
    BackWidth(typeflag);
    hide OctalField, ChecksumField, Sum;
    assert header[..148] == front && header[156..] == back;
    assert forall i | 0 <= i < 100 :: front[i] == Padded(name, 100)[i];
    assert forall i | 0 <= i < 148 :: header[i] == front[i];
    assert forall i | 0 <= i < 356 :: header[156 + i] == back[i];
    assert forall i | 1 <= i < 101 || 109 <= i < 356 :: back[i] == 0;
  }

  // ---------------------------------------------------------------------
  // Extended records.

  datatype Attribute = Attribute(key: Buffer, value: Buffer, text: Buffer)

  /** "length key=value" and a newline, where the length counts the whole text. */
  predicate IsRecord(a: Attribute) {
    && a.key != [] && IsAscii(a.key) && EQUALS !in a.key && |a.text| <= MAX_SAFE_INTEGER
    && a.text == Digits(10, |a.text|) + [SPACE] + a.key + [EQUALS] + a.value + [NEWLINE]
  }

  predicate AllRecords(attributes: seq<Attribute>) {
    forall i | 0 <= i < |attributes| :: IsRecord(attributes[i])
  }

  function Texts(attributes: seq<Attribute>): Buffer {
    if attributes == [] then [] else attributes[0].text + Texts(attributes[1..])
  }

  /** The records put over what was there, later ones over earlier ones. */
  function Collected(attributes: seq<Attribute>, records: Records): Records {
    if attributes == [] then records
    else Collected(attributes[1..], records[attributes[0].key := attributes[0].value])
  }

  lemma SpaceAt(payload: Buffer, cursor: nat, digits: Buffer)
    requires cursor + |digits| < |payload| && payload[cursor..cursor + |digits|] == digits
    requires AllDigits(10, digits) && payload[cursor + |digits|] == SPACE
    ensures IndexOf(payload, SPACE, cursor) == cursor + |digits|
  {
    forall i | cursor <= i < cursor + |digits|
      ensures payload[i] != SPACE
    {
      assert payload[i] == digits[i - cursor] && IsDigit(10, digits[i - cursor]);
    }
  }

  lemma EqualsAt(key: Buffer, value: Buffer)
    requires key != [] && EQUALS !in key
    ensures var body := key + [EQUALS] + value;
            IndexOf(body, EQUALS, 0) == |key| && body[..|key|] == key && body[|key| + 1..] == value
  {
    var body := key + [EQUALS] + value;
    assert body[|key|] == EQUALS && forall i | 0 <= i < |key| :: body[i] == key[i];
  }

  /** The four parts of a record, found in the payload it lies in. */
  lemma PartsLie(payload: Buffer, cursor: nat, digits: Buffer, body: Buffer)
    requires var text := digits + [SPACE] + body + [NEWLINE];
             cursor + |text| <= |payload| && payload[cursor..cursor + |text|] == text
    ensures var space, end := cursor + |digits|, cursor + |digits| + 1 + |body|;
            && payload[cursor..space] == digits && payload[space] == SPACE
            && payload[space + 1..end] == body && payload[end] == NEWLINE
  {
    var text := digits + [SPACE] + body + [NEWLINE];
    var space, end := cursor + |digits|, cursor + |digits| + 1 + |body|;
    forall i | 0 <= i < |text|
      ensures payload[cursor + i] == text[i]
    {
      assert payload[cursor..cursor + |text|][i] == payload[cursor + i];
    }
    forall i | 0 <= i < |digits|
      ensures payload[cursor + i] == digits[i]
    {
      assert text[i] == digits[i];
    }
    forall i | 0 <= i < |body|
      ensures payload[space + 1 + i] == body[i]
    {
      assert text[|digits| + 1 + i] == body[i];
    }
    assert text[|digits|] == SPACE && text[|text| - 1] == NEWLINE;
  }

  lemma PartsMake(payload: Buffer, cursor: nat, space: nat, end: nat)
    requires cursor <= space < end < |payload| && payload[space] == SPACE && payload[end] == NEWLINE
    ensures payload[cursor..end + 1] == payload[cursor..space] + [SPACE] + payload[space + 1..end] + [NEWLINE]
  {
  }

  lemma PartsAreRead(payload: Buffer, cursor: nat, digits: Buffer, key: Buffer, value: Buffer, length: nat)
    requires var body := key + [EQUALS] + value; var end := cursor + |digits| + 1 + |body|;
             && cursor + |digits| < end < |payload| && length == end + 1 - cursor && length <= MAX_SAFE_INTEGER
             && IndexOf(payload, SPACE, cursor) == cursor + |digits| && payload[cursor..cursor + |digits|] == digits
             && payload[cursor + |digits| + 1..end] == body && payload[end] == NEWLINE
             && IndexOf(body, EQUALS, 0) == |key| && body[..|key|] == key && body[|key| + 1..] == value
    requires IsAscii(digits) && digits != [] && digits[0] != ZERO
    requires AllDigits(10, digits) && Value(10, digits) == length
    requires key != [] && IsAscii(key)
    ensures ReadRecord(payload, cursor) == Ok(Record(key, value, length))
  {
    hide IndexOf, Value, IsAscii, AllDigits;
  }

  lemma RecordIsRead(payload: Buffer, cursor: nat, a: Attribute)
    requires IsRecord(a) && cursor + |a.text| <= |payload| && payload[cursor..cursor + |a.text|] == a.text
    ensures cursor < |payload| && ReadRecord(payload, cursor) == Ok(Record(a.key, a.value, |a.text|))
  {
    var digits, body := Digits(10, |a.text|), a.key + [EQUALS] + a.value;
    DigitsReadBack(10, |a.text|);
    assert a.text == digits + [SPACE] + body + [NEWLINE];
    hide *;
    DigitsAreAscii(digits);
    PartsLie(payload, cursor, digits, body);
    SpaceAt(payload, cursor, digits);
    RecordKey(a);
    EqualsAt(a.key, a.value);
    PartsAreRead(payload, cursor, digits, a.key, a.value, |a.text|);
  }

  lemma RecordKey(a: Attribute)
    requires IsRecord(a)
    ensures a.key != [] && IsAscii(a.key) && EQUALS !in a.key && |a.text| <= MAX_SAFE_INTEGER
  {
  }

  lemma DigitsAreAscii(digits: Buffer)
    requires AllDigits(10, digits)
    ensures IsAscii(digits)
  {
    assert forall i | 0 <= i < |digits| :: IsDigit(10, digits[i]);
  }

  lemma ReadIsARecord(payload: Buffer, cursor: nat)
    requires cursor < |payload| && ReadRecord(payload, cursor).Ok?
    ensures var Record(key, value, length) := ReadRecord(payload, cursor).value;
            IsRecord(Attribute(key, value, payload[cursor..cursor + length]))
  {
    hide IsRecord;
    var Record(key, value, length) := ReadRecord(payload, cursor).value;
    var space := IndexOf(payload, SPACE, cursor);
    var end := cursor + length - 1;
    var body := payload[space + 1..end];
    var equals := IndexOf(body, EQUALS, 0);
    assert key == body[..equals] && value == body[equals + 1..] && body[equals] == EQUALS;
    assert forall i | 0 <= i < equals :: body[i] != EQUALS;
    PartsMake(payload, cursor, space, end);
    hide ReadRecord, Value, IndexOf;
    MadeRecord(payload[cursor..space], body, equals, payload[cursor..end + 1]);
  }

  lemma MadeRecord(digits: Buffer, body: Buffer, equals: nat, text: Buffer)
    requires text == digits + [SPACE] + body + [NEWLINE] && |text| <= MAX_SAFE_INTEGER
    requires digits != [] && AllDigits(10, digits) && digits[0] != ZERO && Value(10, digits) == |text|
    requires 0 < equals < |body| && body[equals] == EQUALS && (forall i | 0 <= i < equals :: body[i] != EQUALS)
    requires IsAscii(body[..equals])
    ensures IsRecord(Attribute(body[..equals], body[equals + 1..], text))
  {
    DigitsOfValue(10, digits);
    hide Digits, Value;
    assert body == body[..equals] + [EQUALS] + body[equals + 1..];
  }

  lemma FirstText(payload: Buffer, cursor: nat, text: Buffer, rest: Buffer)
    requires cursor <= |payload| && payload[cursor..] == text + rest
    ensures cursor + |text| <= |payload| && payload[cursor..cursor + |text|] == text
    ensures payload[cursor + |text|..] == rest
  {
    var tail := payload[cursor..];
    assert payload[cursor..cursor + |text|] == tail[..|text|] && payload[cursor + |text|..] == tail[|text|..];
  }

  lemma RestAreRecords(attributes: seq<Attribute>)
    requires AllRecords(attributes) && attributes != []
    ensures IsRecord(attributes[0]) && AllRecords(attributes[1..])
  {
    hide IsRecord;
  }

  lemma OneRecordMore(payload: Buffer, cursor: nat, record: Record, records: Records)
    requires cursor < |payload| && ReadRecord(payload, cursor) == Ok(record)
    ensures ReadRecords(payload, cursor, records) == ReadRecords(payload, cursor + record.length, Put(records, record))
  {
    hide ReadRecord;
  }

  lemma {:induction false} RecordsAreCollected(
      payload: Buffer, cursor: nat, attributes: seq<Attribute>, records: Records)
    requires cursor <= |payload| && AllRecords(attributes) && payload[cursor..] == Texts(attributes)
    ensures ReadRecords(payload, cursor, records) == Ok(Collected(attributes, records))
    decreases |attributes|
  {
    hide ReadRecord, IsRecord, AllRecords;
    if attributes == [] {
      assert |payload[cursor..]| == 0;
    } else {
      var a, rest := attributes[0], attributes[1..];
      RestAreRecords(attributes);
      assert Collected(attributes, records) == Collected(rest, records[a.key := a.value]);
      FirstText(payload, cursor, a.text, Texts(rest));
      hide *;
      RecordIsRead(payload, cursor, a);
      OneRecordMore(payload, cursor, Record(a.key, a.value, |a.text|), records);
      PutIs(records, Record(a.key, a.value, |a.text|));
      RecordsAreCollected(payload, cursor + |a.text|, rest, records[a.key := a.value]);
    }
  }

  lemma PutIs(records: Records, record: Record)
    ensures Put(records, record) == records[record.key := record.value]
  {
  }

  lemma {:induction false} ReadsAreRecords(payload: Buffer, cursor: nat, records: Records)
    returns (attributes: seq<Attribute>)
    requires cursor <= |payload| && ReadRecords(payload, cursor, records).Ok?
    ensures AllRecords(attributes) && payload[cursor..] == Texts(attributes)
    decreases |payload| - cursor
  {
    attributes := [];
    hide ReadRecord, IsRecord;
    if cursor < |payload| {
      ReadIsARecord(payload, cursor);
      var record := ReadRecord(payload, cursor).value;
      var next := cursor + record.length;
      var rest := ReadsAreRecords(payload, next, Put(records, record));
      var a := Attribute(record.key, record.value, payload[cursor..next]);
      attributes := [a] + rest;
      assert attributes[1..] == rest && payload[cursor..] == payload[cursor..next] + payload[next..];
    }
  }

  /** A payload is accepted exactly when it is a list of records. */
  lemma PayloadIsRecords(payload: Buffer)
    ensures ReadRecords(payload, 0, map[]).Ok? <==>
              exists attributes :: AllRecords(attributes) && payload == Texts(attributes)
  {
    assert payload[0..] == payload;
    if ReadRecords(payload, 0, map[]).Ok? {
      var attributes := ReadsAreRecords(payload, 0, map[]);
    }
    if attributes :| AllRecords(attributes) && payload == Texts(attributes) {
      RecordsAreCollected(payload, 0, attributes, map[]);
    }
  }

  lemma {:induction false} CollectedOver(attributes: seq<Attribute>, below: Records, records: Records)
    ensures below + Collected(attributes, records) == Collected(attributes, below + records)
    decreases |attributes|
  {
    if attributes != [] {
      var a := attributes[0];
      assert (below + records)[a.key := a.value] == below + records[a.key := a.value];
      CollectedOver(attributes[1..], below, records[a.key := a.value]);
    }
  }

  // ---------------------------------------------------------------------
  // Items of an archive.

  /** An extended header with its records, for all later members or for the next; or a file. */
  datatype Item =
    | Extended(header: Buffer, global: bool, attributes: seq<Attribute>)
    | File(header: Buffer, name: Buffer, prefix: Buffer, bytes: Buffer)

  /** The attributes in force. */
  datatype Scope = Scope(local: Records, global: Records)

  const NO_ATTRIBUTES := Scope(map[], map[])

  /** One for the next member goes before one for all. */
  function InForce(scope: Scope, key: Buffer): Option<Buffer> {
    if key in scope.local then Some(scope.local[key])
    else if key in scope.global then Some(scope.global[key])
    else None
  }

  /** The text at the front of the field, ended by a NUL unless it fills it. */
  predicate HoldsText(field: Buffer, text: Buffer) {
    && text <= field && (forall i | 0 <= i < |text| :: text[i] != NUL)
    && (|text| < |field| ==> field[|text|] == NUL)
  }

  function PayloadOf(item: Item): Buffer {
    if item.Extended? then Texts(item.attributes) else item.bytes
  }

  /** The header says what follows it; a size in force goes before the header's own. */
  ghost predicate Fits(item: Item, scope: Scope) {
    match item
    case Extended(header, global, attributes) =>
      IsUstar(header, if global then GLOBAL else EXTENDED, |Texts(attributes)|) && AllRecords(attributes)
    case File(header, name, prefix, bytes) =>
      && |header| == 512 && HoldsText(header[..100], name) && HoldsText(header[345..500], prefix)
      && match InForce(scope, SIZE_KEY)
         case None => IsUstar(header, REGULAR, |bytes|)
         case Some(text) => (exists size :: IsUstar(header, REGULAR, size)) && text == Digits(10, |bytes|)
  }

  /** Header, payload and padding lie at the offset. */
  predicate LiesAt(archive: Buffer, offset: nat, item: Item) {
    && InBounds(archive, offset) && offset + Extent(item) <= |archive|
    && PaddedSize(|PayloadOf(item)|) <= MAX_SAFE_INTEGER
    && |item.header| == 512 && archive[offset..offset + 512] == item.header
    && archive[offset + 512..offset + 512 + |PayloadOf(item)|] == PayloadOf(item)
  }

  function Extent(item: Item): nat {
    512 + PaddedSize(|PayloadOf(item)|)
  }

  /** A path in force, else the header's name below its prefix if it has one; less any byte order mark. */
  function PathOf(item: Item, scope: Scope): Buffer
    requires item.File?
  {
    match InForce(scope, PATH_KEY)
    case Some(path) => DropBom(path)
    case None =>
      if DropBom(item.prefix) == [] then DropBom(item.name) else DropBom(item.prefix) + [SLASH] + DropBom(item.name)
  }

  predicate IsText(item: Item, scope: Scope)
    requires item.File?
  {
    match InForce(scope, PATH_KEY)
    case Some(path) => WellFormedUtf8(path)
    case None => item.name != [] && WellFormedUtf8(item.name) && WellFormedUtf8(item.prefix)
  }

  /** A file has a safe path that the caller accepts and no file before it has. */
  predicate IsNamed(item: Item, scope: Scope, seen: seq<Member>, accepts: PathCheck) {
    item.File? ==>
      && IsText(item, scope) && IsArchivePath(PathOf(item, scope))
      && accepts(PathOf(item, scope)) && !Contains(seen, PathOf(item, scope))
  }

  function ScopeAfter(item: Item, scope: Scope): Scope {
    match item
    case Extended(_, true, attributes) => scope.(global := Collected(attributes, scope.global))
    case Extended(_, false, attributes) => scope.(local := Collected(attributes, scope.local))
    case File(_, _, _, _) => scope.(local := map[])
  }

  /** The member a file stands for. */
  function OwnMembers(item: Item, scope: Scope): seq<Member> {
    if item.File? then [Member(PathOf(item, scope), item.bytes)] else []
  }

  /** Two blocks of zeros at least, and zeros to the end. */
  predicate Terminated(archive: Buffer, offset: nat) {
    && InBounds(archive, offset) && offset + 1024 <= |archive|
    && forall i | offset <= i < |archive| :: archive[i] == 0
  }

  /** The archive from `offset` on is these items and a terminator. */
  ghost predicate IsArchiveOf(
      archive: Buffer, offset: nat, items: seq<Item>, scope: Scope, seen: seq<Member>, accepts: PathCheck)
    decreases |items|
  {
    if items == [] then Terminated(archive, offset) && scope.local == map[]
    else
      var item := items[0];
      && LiesAt(archive, offset, item) && Fits(item, scope) && IsNamed(item, scope, seen, accepts)
      && IsArchiveOf(archive, offset + Extent(item), items[1..], ScopeAfter(item, scope),
                     seen + OwnMembers(item, scope), accepts)
  }

  /** The members the files stand for. */
  function Members(items: seq<Item>, scope: Scope): seq<Member>
    decreases |items|
  {
    if items == [] then [] else OwnMembers(items[0], scope) + Members(items[1..], ScopeAfter(items[0], scope))
  }

  // ---------------------------------------------------------------------
  // One item, one turn.

  function ScopeOf(state: ParseState): Scope {
    Scope(state.localPax, state.globalPax)
  }

  function StateAfter(state: ParseState, item: Item): ParseState {
    var scope := ScopeAfter(item, ScopeOf(state));
    ParseState(state.offset + Extent(item), state.entries + OwnMembers(item, ScopeOf(state)), scope.local, scope.global)
  }

  lemma TextIsTrimmed(field: Buffer, text: Buffer)
    ensures HoldsText(field, text) <==> TrimNul(field) == text
  {
    var nul := IndexOf(field, NUL, 0);
    if HoldsText(field, text) {
      assert forall i | 0 <= i < |text| :: field[i] == text[i];
    }
  }

  /** The two ways a member's path is found are one. */
  lemma PathIsFound(item: Item, scope: Scope)
    requires item.File? && |item.header| == 512
    requires HoldsText(item.header[..100], item.name) && HoldsText(item.header[345..500], item.prefix)
    ensures var path := MemberPath(scope.global + scope.local, item.header);
            && (path.Ok? && IsArchivePath(path.value) <==> IsText(item, scope) && IsArchivePath(PathOf(item, scope)))
            && (path.Ok? ==> path.value == PathOf(item, scope))
  {
    TextIsTrimmed(item.header[..100], item.name);
    TextIsTrimmed(item.header[345..500], item.prefix);
    hide WellFormedUtf8, TrimNul, HoldsText;
    EmptyIsNoPath();
    hide IsArchivePath;
    AttributesMerge(scope, PATH_KEY);
  }

  lemma EmptyIsNoPath()
    ensures !IsArchivePath([]) && WellFormedUtf8([])
  {
    assert Sequences.Split([], SLASH)[0] == [];
  }

  lemma AttributesMerge(scope: Scope, key: Buffer)
    ensures var merged := scope.global + scope.local;
            InForce(scope, key) == if key in merged then Some(merged[key]) else None
  {
  }

  /** A size is a numeral without leading zeros. */
  lemma SizeIsStated(text: Buffer, n: nat)
    ensures text == Digits(10, n) && n <= MAX_SAFE_INTEGER <==>
              && IsAscii(text) && text != [] && AllDigits(10, text) && !(text[0] == ZERO && |text| > 1)
              && Value(10, text) <= MAX_SAFE_INTEGER && Value(10, text) == n
  {
    if text == Digits(10, n) {
      DigitsReadBack(10, n);
      DigitsAreAscii(text);
    }
    if text != [] && AllDigits(10, text) && !(text[0] == ZERO && |text| > 1) {
      DigitsOfValue(10, text);
    }
    hide Value;
  }

  lemma SizeIsFound(scope: Scope, headerSize: nat, n: nat)
    requires headerSize <= MAX_SAFE_INTEGER
    ensures MemberSize(scope.global + scope.local, headerSize) == Ok(n) <==>
              match InForce(scope, SIZE_KEY)
              case None => n == headerSize
              case Some(text) => text == Digits(10, n) && n <= MAX_SAFE_INTEGER
  {
    AttributesMerge(scope, SIZE_KEY);
    if size :| InForce(scope, SIZE_KEY) == Some(size) { SizeIsStated(size, n); }
    hide Digits, Value;
  }

  function TypeOf(header: Buffer): Byte
    requires |header| == 512
  {
    if header[156] == 0 then REGULAR else header[156]
  }

  lemma UstarIsChecked(header: Buffer, size: nat)
    requires |header| == 512
    ensures IsUstar(header, TypeOf(header), size) <==>
              CheckSum(header).Ok? && CheckMagic(header).Ok? && ReadTarNumber(header[124..136]) == Ok(size)
    ensures header[257..265] == MAGIC ==> !IsZeroBlock(header)
    ensures forall typeflag | IsUstar(header, typeflag, size) && typeflag != 0 :: TypeOf(header) == typeflag
  {
    HeaderIsChecked(header);
    NumberIsStated(header[124..136], size);
    hide CheckSum, CheckMagic, ReadTarNumber, States, Checksum;
    if header[257..265] == MAGIC {
      assert header[257] == header[257..265][0] == 117;
    }
  }

  lemma PayloadLies(archive: Buffer, offset: nat, item: Item)
    requires LiesAt(archive, offset, item)
    ensures InBounds(archive, offset) && offset < |archive| && BlockAt(archive, offset) == item.header
    ensures InBounds(archive, offset + 512)
    ensures ReadPayload(archive, offset + 512, |PayloadOf(item)|) == Ok(PayloadOf(item))
  {
    hide PayloadOf;
    AlignedSum(offset, PaddedSize(|PayloadOf(item)|));
  }

  lemma PayloadMakes(archive: Buffer, offset: nat, size: nat, item: Item)
    requires InBounds(archive, offset) && offset < |archive| && item.header == BlockAt(archive, offset)
    requires InBounds(archive, offset + 512) && ReadPayload(archive, offset + 512, size) == Ok(PayloadOf(item))
    ensures |PayloadOf(item)| == size && LiesAt(archive, offset, item)
  {
    hide PayloadOf;
  }

  lemma PayloadIsCollected(payload: Buffer, attributes: seq<Attribute>, below: Records)
    requires AllRecords(attributes) && payload == Texts(attributes)
    ensures ReadRecords(payload, 0, map[]).Ok?
    ensures below + ReadRecords(payload, 0, map[]).value == Collected(attributes, below)
  {
    hide *;
    assert payload[0..] == payload;
    RecordsAreCollected(payload, 0, attributes, map[]);
    CollectedOver(attributes, below, map[]);
    NothingBelow(below);
  }

  lemma PayloadIsPut(archive: Buffer, state: ParseState, global: bool, size: nat, payload: Buffer)
    requires InBounds(archive, state.offset) && state.offset < |archive| && InBounds(archive, state.offset + 512)
    requires ReadPayload(archive, state.offset + 512, size) == Ok(payload) && ReadRecords(payload, 0, map[]).Ok?
    ensures var next, records := state.offset + 512 + PaddedSize(size), ReadRecords(payload, 0, map[]).value;
            ReadExtended(archive, state, global, size)
            == More(if global then state.(offset := next, globalPax := state.globalPax + records)
                    else state.(offset := next, localPax := state.localPax + records))
  {
    hide ReadPayload, ReadRecords, InBounds, PaddedSize;
  }

  lemma ExtendedIsRead(archive: Buffer, state: ParseState, item: Item)
    requires item.Extended? && AllRecords(item.attributes)
    requires LiesAt(archive, state.offset, item) && InBounds(archive, state.offset) && state.offset < |archive|
    ensures ReadExtended(archive, state, item.global, |PayloadOf(item)|) == More(StateAfter(state, item))
  {
    hide LiesAt, ReadRecords, ReadPayload, Collected, Texts, PaddedSize, InBounds, AllRecords, BlockAt, ReadExtended;
    PayloadLies(archive, state.offset, item);
    PayloadIsCollected(PayloadOf(item), item.attributes, state.localPax);
    PayloadIsCollected(PayloadOf(item), item.attributes, state.globalPax);
    PayloadIsPut(archive, state, item.global, |PayloadOf(item)|, PayloadOf(item));
  }

  lemma NothingBelow(records: Records)
    ensures records + map[] == records
  {
  }

  lemma StatedOnce(header: Buffer, size: nat, other: nat)
    requires IsUstar(header, REGULAR, size) && IsUstar(header, REGULAR, other)
    ensures size == other
  {
    NumberIsStated(header[124..136], size);
    NumberIsStated(header[124..136], other);
  }

  lemma SizeInForce(item: Item, scope: Scope, size: nat)
    requires item.File? && Fits(item, scope) && IsUstar(item.header, REGULAR, size) && |item.bytes| <= MAX_SAFE_INTEGER
    ensures MemberSize(scope.global + scope.local, size) == Ok(|item.bytes|)
  {
    hide IsUstar, HoldsText, MemberSize;
    UstarSize(item.header, size);
    SizeIsFound(scope, size, |item.bytes|);
    if InForce(scope, SIZE_KEY).None? { StatedOnce(item.header, size, |item.bytes|); }
  }

  lemma UstarSize(header: Buffer, size: nat)
    requires IsUstar(header, REGULAR, size)
    ensures size <= MAX_SAFE_INTEGER
  {
  }

  lemma FileIsRead(archive: Buffer, state: ParseState, item: Item, size: nat, accepts: PathCheck)
    requires item.File? && LiesAt(archive, state.offset, item) && Fits(item, ScopeOf(state))
    requires InBounds(archive, state.offset) && state.offset < |archive| && IsUstar(item.header, REGULAR, size)
    ensures var turn := ReadMember(archive, state, item.header, size, accepts);
            if IsNamed(item, ScopeOf(state), state.entries, accepts) then turn == More(StateAfter(state, item))
            else turn.Failed?
  {
    hide IsUstar, HoldsText, ReadPayload, MemberPath, MemberSize, IsArchivePath, PathOf, IsText, PaddedSize;
    hide InBounds, BlockAt;
    PathIsFound(item, ScopeOf(state));
    SizeInForce(item, ScopeOf(state), size);
    PayloadLies(archive, state.offset, item);
    hide LiesAt, Fits;
  }

  /** An item in its place is one turn of the loop; a file without a name to go by ends it. */
  lemma ItemIsATurn(archive: Buffer, state: ParseState, item: Item, accepts: PathCheck)
    requires LiesAt(archive, state.offset, item) && Fits(item, ScopeOf(state))
    ensures InBounds(archive, state.offset) && state.offset < |archive|
    ensures var turn := ReadBlock(archive, state, accepts);
            if IsNamed(item, ScopeOf(state), state.entries, accepts) then turn == More(StateAfter(state, item))
            else turn.Failed?
  {
    PayloadLies(archive, state.offset, item);
    hide LiesAt, ReadPayload, ReadExtended, ReadMember, CheckSum, CheckMagic, ReadTarNumber, StateAfter, IsNamed;
    hide IsUstar;
    hide InBounds, BlockAt, PayloadOf, IsZeroBlock, HoldsText, InForce;
    if item.Extended? {
      UstarIsChecked(item.header, |Texts(item.attributes)|);
      ExtendedIsRead(archive, state, item);
    } else {
      var size :| IsUstar(item.header, REGULAR, size);
      UstarIsChecked(item.header, size);
      FileIsRead(archive, state, item, size, accepts);
    }
  }

  lemma ExtendedIsMade(archive: Buffer, state: ParseState, header: Buffer, size: nat, global: bool) returns (item: Item)
    requires InBounds(archive, state.offset) && state.offset < |archive| && header == BlockAt(archive, state.offset)
    requires ReadExtended(archive, state, global, size).More?
    requires IsUstar(header, if global then GLOBAL else EXTENDED, size)
    ensures LiesAt(archive, state.offset, item) && Fits(item, ScopeOf(state)) && item.Extended?
  {
    hide LiesAt, ReadPayload, ReadRecords, IsUstar, InBounds, BlockAt, Texts, AllRecords;
    NextIsInBounds(archive, state.offset);
    var payload := ReadPayload(archive, state.offset + 512, size).value;
    var attributes := ReadsAreRecords(payload, 0, map[]);
    assert payload[0..] == payload;
    item := Extended(header, global, attributes);
    PayloadMakes(archive, state.offset, size, item);
  }

  lemma NextIsInBounds(archive: Buffer, offset: nat)
    requires InBounds(archive, offset) && offset < |archive|
    ensures InBounds(archive, offset + 512)
  {
  }

  lemma FileIsMade(archive: Buffer, state: ParseState, header: Buffer, size: nat, accepts: PathCheck)
    returns (item: Item)
    requires InBounds(archive, state.offset) && state.offset < |archive| && header == BlockAt(archive, state.offset)
    requires ReadMember(archive, state, header, size, accepts).More? && IsUstar(header, REGULAR, size)
    ensures LiesAt(archive, state.offset, item) && Fits(item, ScopeOf(state)) && item.File?
  {
    hide LiesAt, ReadPayload, IsUstar, InBounds, BlockAt, HoldsText, MemberPath, MemberSize, IsArchivePath;
    hide TrimNul, Contains;
    NextIsInBounds(archive, state.offset);
    UstarSize(header, size);
    var stated := MemberSize(state.globalPax + state.localPax, size).value;
    var bytes := ReadPayload(archive, state.offset + 512, stated).value;
    var name, prefix := TrimNul(header[..100]), TrimNul(header[345..500]);
    TextIsTrimmed(header[..100], name);
    TextIsTrimmed(header[345..500], prefix);
    item := File(header, name, prefix, bytes);
    PayloadMakes(archive, state.offset, stated, item);
    SizeIsFound(ScopeOf(state), size, stated);
  }

  /** And whatever takes the loop one turn further is an item in its place, and named if it is a file. */
  lemma TurnIsAnItem(archive: Buffer, state: ParseState, accepts: PathCheck) returns (item: Item)
    requires InBounds(archive, state.offset) && state.offset < |archive| && ReadBlock(archive, state, accepts).More?
    ensures LiesAt(archive, state.offset, item) && Fits(item, ScopeOf(state))
    ensures IsNamed(item, ScopeOf(state), state.entries, accepts)
    ensures ReadBlock(archive, state, accepts) == More(StateAfter(state, item))
  {
    hide LiesAt, ReadPayload, ReadExtended, ReadMember, CheckSum, CheckMagic, ReadTarNumber, StateAfter, IsNamed;
    hide IsUstar;
    hide InBounds, BlockAt, Fits, IsZeroBlock;
    var header := BlockAt(archive, state.offset);
    var size := ReadTarNumber(header[124..136]).value;
    UstarIsChecked(header, size);
    if TypeOf(header) == REGULAR {
      item := FileIsMade(archive, state, header, size, accepts);
    } else {
      item := ExtendedIsMade(archive, state, header, size, TypeOf(header) == GLOBAL);
    }
    ItemIsATurn(archive, state, item, accepts);
  }

  lemma EndIsATurn(archive: Buffer, state: ParseState, accepts: PathCheck)
    requires InBounds(archive, state.offset) && state.offset < |archive|
    ensures var turn := ReadBlock(archive, state, accepts);
            && (turn.Done? <==> Terminated(archive, state.offset) && state.localPax == map[])
            && (turn.Done? ==> turn.entries == state.entries)
  {
    hide ReadHeaded;
    var block := BlockAt(archive, state.offset);
    if Terminated(archive, state.offset) {
      assert IsZeroBlock(block) && IsZeroBlock(archive[state.offset + 512..state.offset + 1024]);
    }
    HeadedIsNeverDone(archive, state, block, accepts);
    if ReadBlock(archive, state, accepts).Done? {
      ZerosMeet(archive, state.offset);
    }
  }

  lemma HeadedIsNeverDone(archive: Buffer, state: ParseState, header: Buffer, accepts: PathCheck)
    requires InBounds(archive, state.offset) && state.offset < |archive| && |header| == BLOCK_SIZE
    ensures !ReadHeaded(archive, state, header, accepts).Done?
  {
    SameHeaded(archive, archive, state, header, accepts);
  }

  lemma ZerosMeet(archive: Buffer, offset: nat)
    requires offset + 1024 <= |archive| && IsZeroBlock(archive[offset..offset + 512])
    requires IsZeroBlock(archive[offset + 512..offset + 1024])
    requires forall i | offset + 1024 <= i < |archive| :: archive[i] == 0
    ensures forall i | offset <= i < |archive| :: archive[i] == 0
  {
    forall i | offset <= i < offset + 1024
      ensures archive[i] == 0
    {
      if i < offset + 512 { assert archive[offset..offset + 512][i - offset] == 0; }
      else { assert archive[offset + 512..offset + 1024][i - offset - 512] == 0; }
    }
  }

  // ---------------------------------------------------------------------
  // The whole archive.

  lemma {:induction false} ItemsAreParsed(archive: Buffer, state: ParseState, items: seq<Item>, accepts: PathCheck)
    requires IsArchiveOf(archive, state.offset, items, ScopeOf(state), state.entries, accepts)
    ensures InBounds(archive, state.offset)
    ensures ParseFrom(archive, state, accepts) == Ok(state.entries + Members(items, ScopeOf(state)))
    decreases |items|
  {
    hide ReadBlock, LiesAt, Fits, IsNamed, PathOf, Terminated;
    if items == [] {
      TerminatorLies(archive, state.offset);
      EndIsATurn(archive, state, accepts);
      assert state.entries + [] == state.entries;
    } else {
      ItemIsATurn(archive, state, items[0], accepts);
      MembersAdd(state, items);
      ItemsAreParsed(archive, StateAfter(state, items[0]), items[1..], accepts);
    }
  }

  lemma MembersAdd(state: ParseState, items: seq<Item>)
    requires items != []
    ensures var next := StateAfter(state, items[0]);
            next.entries + Members(items[1..], ScopeOf(next)) == state.entries + Members(items, ScopeOf(state))
  {
    hide PathOf, Extent;
    var item, scope := items[0], ScopeOf(state);
    var rest := Members(items[1..], ScopeAfter(item, scope));
    assert Members(items, scope) == OwnMembers(item, scope) + rest;
    hide Members, ScopeAfter;
    assert state.entries + OwnMembers(item, scope) + rest == state.entries + (OwnMembers(item, scope) + rest);
  }

  lemma TerminatorLies(archive: Buffer, offset: nat)
    requires Terminated(archive, offset)
    ensures InBounds(archive, offset) && offset < |archive|
  {
  }

  lemma {:induction false} ParsedIsItems(archive: Buffer, state: ParseState, accepts: PathCheck)
    returns (items: seq<Item>)
    requires InBounds(archive, state.offset) && ParseFrom(archive, state, accepts).Ok?
    ensures IsArchiveOf(archive, state.offset, items, ScopeOf(state), state.entries, accepts)
    decreases |archive| - state.offset
  {
    hide ReadBlock, LiesAt, Fits, IsNamed, Terminated;
    items := [];
    EndIsATurn(archive, state, accepts);
    if ReadBlock(archive, state, accepts).More? {
      var item := TurnIsAnItem(archive, state, accepts);
      var rest := ParsedIsItems(archive, StateAfter(state, item), accepts);
      items := [item] + rest;
      assert items[1..] == rest;
    }
  }

  /**
   * The archives that parse are exactly those made of items, whatever tool wrote
   * them, and they parse to the members the items stand for.
   */
  lemma ParseIsExact(archive: Buffer, members: seq<Member>, accepts: PathCheck)
    ensures Parse(archive, accepts) == Ok(members) <==>
              exists items ::
                IsArchiveOf(archive, 0, items, NO_ATTRIBUTES, [], accepts) && Members(items, NO_ATTRIBUTES) == members
  {
    hide ParseFrom, IsArchiveOf, Members;
    assert forall found: seq<Member> :: START.entries + found == found;
    if Parse(archive, accepts) == Ok(members) {
      var items := ParsedIsItems(archive, START, accepts);
      ItemsAreParsed(archive, START, items, accepts);
    }
    if items :| IsArchiveOf(archive, 0, items, NO_ATTRIBUTES, [], accepts) && Members(items, NO_ATTRIBUTES) == members {
      ItemsParse(archive, items, accepts);
    }
  }

  lemma ItemsParse(archive: Buffer, items: seq<Item>, accepts: PathCheck)
    requires IsArchiveOf(archive, 0, items, NO_ATTRIBUTES, [], accepts)
    ensures Parse(archive, accepts) == Ok(Members(items, NO_ATTRIBUTES))
  {
    ArchiveIsNotEmpty(archive, items, accepts);
    hide ParseFrom, IsArchiveOf, Members;
    ItemsAreParsed(archive, START, items, accepts);
    assert START.entries + Members(items, NO_ATTRIBUTES) == Members(items, NO_ATTRIBUTES);
  }

  lemma ArchiveIsNotEmpty(archive: Buffer, items: seq<Item>, accepts: PathCheck)
    requires IsArchiveOf(archive, 0, items, NO_ATTRIBUTES, [], accepts)
    ensures archive != [] && Aligned(|archive|)
  {
  }

  /** A plain file is named by its header: its name, below its prefix if it has one. */
  lemma PlainFileParses(
      archive: Buffer, header: Buffer, name: Buffer, prefix: Buffer, bytes: Buffer, accepts: PathCheck)
    requires IsUstar(header, REGULAR, |bytes|) && HoldsText(header[..100], name) && HoldsText(header[345..500], prefix)
    requires LiesAt(archive, 0, File(header, name, prefix, bytes))
    requires Terminated(archive, Extent(File(header, name, prefix, bytes)))
    requires name != [] && WellFormedUtf8(name) && WellFormedUtf8(prefix) && !(BOM <= name) && !(BOM <= prefix)
    requires var path := if prefix == [] then name else prefix + [SLASH] + name; IsArchivePath(path) && accepts(path)
    ensures var path := if prefix == [] then name else prefix + [SLASH] + name;
            Parse(archive, accepts) == Ok([Member(path, bytes)])
  {
    var item := File(header, name, prefix, bytes);
    NoneInForce();
    assert |header| == 512;
    hide LiesAt, Terminated, IsUstar, HoldsText, WellFormedUtf8, IsArchivePath, Extent, InForce, Parse;
    assert PathOf(item, NO_ATTRIBUTES) == if prefix == [] then name else prefix + [SLASH] + name;
    assert Fits(item, NO_ATTRIBUTES);
    assert !Contains([], PathOf(item, NO_ATTRIBUTES)) && IsText(item, NO_ATTRIBUTES);
    hide *;
    OneItem(archive, item, accepts);
    ItemsParse(archive, [item], accepts);
  }

  lemma NoneInForce()
    ensures InForce(NO_ATTRIBUTES, PATH_KEY).None? && InForce(NO_ATTRIBUTES, SIZE_KEY).None?
  {
  }

  lemma OneItem(archive: Buffer, item: Item, accepts: PathCheck)
    requires LiesAt(archive, 0, item) && Fits(item, NO_ATTRIBUTES) && IsNamed(item, NO_ATTRIBUTES, [], accepts)
    requires item.File? && Terminated(archive, Extent(item))
    ensures IsArchiveOf(archive, 0, [item], NO_ATTRIBUTES, [], accepts)
    ensures Members([item], NO_ATTRIBUTES) == OwnMembers(item, NO_ATTRIBUTES)
  {
    hide LiesAt, Fits, IsNamed, Terminated, Extent, OwnMembers;
    MembersOf(item, [], NO_ATTRIBUTES);
    assert ([item] + [])[1..] == [] && [item] + [] == [item];
  }

  lemma MembersOf(item: Item, rest: seq<Item>, scope: Scope)
    ensures Members([item] + rest, scope) == OwnMembers(item, scope) + Members(rest, ScopeAfter(item, scope))
  {
    hide OwnMembers, ScopeAfter;
    assert ([item] + rest)[1..] == rest;
  }

  /** A path attribute goes before the header's name, and one for the next member alone before one for all. */
  lemma PathAttributesOverride(
      archive: Buffer, shared: Attribute, own: Attribute, header0: Buffer, header1: Buffer, one: Item, two: Item,
      accepts: PathCheck)
    requires shared.key == own.key == PATH_KEY && one.File? && two.File?
    requires !(BOM <= shared.value) && !(BOM <= own.value)
    requires IsArchiveOf(archive, 0, [Extended(header0, true, [shared]), Extended(header1, false, [own]), one, two],
                         NO_ATTRIBUTES, [], accepts)
    ensures Parse(archive, accepts) == Ok([Member(own.value, one.bytes), Member(shared.value, two.bytes)])
  {
    hide IsArchiveOf, Members, Parse;
    var all, next := Extended(header0, true, [shared]), Extended(header1, false, [own]);
    var s1, s2 := Scope(map[], map[PATH_KEY := shared.value]),
                  Scope(map[PATH_KEY := own.value], map[PATH_KEY := shared.value]);
    ItemsParse(archive, [all, next, one, two], accepts);
    MembersOf(all, [next, one, two], NO_ATTRIBUTES);
    MembersOf(next, [one, two], s1);
    MembersOf(one, [two], s2);
    MembersOf(two, [], s1);
    assert [all] + [next, one, two] == [all, next, one, two] && [next] + [one, two] == [next, one, two];
    assert [one] + [two] == [one, two] && [two] + [] == [two];
    OneCollected(shared, map[]);
    OneCollected(own, map[]);
    hide Collected;
    assert ScopeAfter(all, NO_ATTRIBUTES) == s1 && ScopeAfter(next, s1) == s2 && ScopeAfter(one, s2) == s1;
    NoItemsNoMembers(ScopeAfter(two, s1));
    assert OwnMembers(one, s2) == [Member(own.value, one.bytes)];
    assert OwnMembers(two, s1) == [Member(shared.value, two.bytes)];
    assert OwnMembers(one, s2) + (OwnMembers(two, s1) + []) == OwnMembers(one, s2) + OwnMembers(two, s1);
    assert Members([one, two], s2) == [Member(own.value, one.bytes), Member(shared.value, two.bytes)];
    assert [] + ([] + Members([one, two], s2)) == Members([one, two], s2);
  }

  lemma OneCollected(a: Attribute, records: Records)
    ensures Collected([a], records) == records[a.key := a.value]
  {
    assert [a][1..] == [];
  }

  lemma NoItemsNoMembers(scope: Scope)
    ensures Members([], scope) == []
  {
  }
}
