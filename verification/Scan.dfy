/**
 * src/sync/paths.ts and src/validation.ts: what a target reports about its
 * files, read back into mounts and paths. Unicode normalisation and the UTF-8
 * length of a path are taken as given functions.
 */
module Scan {
  import opened Prelude
  import opened Sequences

  const NUL := '\0'
  const MAX_PATH_BYTES := 1024

  datatype Unicode = Unicode(normalize: string -> string, utf8Length: string -> nat)

  // ---------------------------------------------------------------------
  // Paths.

  predicate HasDoubleSlash(s: string) {
    exists i | 0 <= i < |s| - 1 :: s[i] == '/' && s[i + 1] == '/'
  }

  predicate IsDots(segment: string) {
    segment == "." || segment == ".."
  }

  predicate IsStep(segment: string) {
    segment != "" && !IsDots(segment)
  }

  /** The checks in the order they are made. */
  function ValidatePath(path: string, unicode: Unicode): Option<string> {
    var p := unicode.normalize(path);
    if p == "" || p[0] != '/' || NUL in p then None
    else if p == "/" then None
    else if HasDoubleSlash(p) then None
    else if p[|p| - 1] == '/' then None
    else if exists i | 0 <= i < |Split(p[1..], '/')| :: IsDots(Split(p[1..], '/')[i]) then None
    else if unicode.utf8Length(p) > MAX_PATH_BYTES then None
    else Some(p)
  }

  /** A slash, then names separated by single slashes, none of them a dot name. */
  predicate IsKernelPath(p: string) {
    && p != "" && p[0] == '/' && NUL !in p
    && forall i | 0 <= i < |Split(p[1..], '/')| :: IsStep(Split(p[1..], '/')[i])
  }

  predicate LaterEmpty(pieces: seq<string>) {
    exists i | 1 <= i < |pieces| :: pieces[i] == ""
  }

  predicate EndsOrDoubles(s: string) {
    (s != "" && s[|s| - 1] == '/') || HasDoubleSlash(s)
  }

  /** Past the first piece, an empty one is a doubled or a final slash. */
  lemma {:induction false} LaterPieces(s: string)
    ensures LaterEmpty(Split(s, '/')) <==> EndsOrDoubles(s)
  {
    if s != "" {
      LaterPieces(s[1..]);
      var rest, all := Split(s[1..], '/'), Split(s, '/');
      TailSlashes(s);
      if s[0] == '/' {
        assert all == [""] + rest;
        assert LaterEmpty(all) <==> rest[0] == "" || LaterEmpty(rest) by { Shifted(rest); }
        FirstPiece(s[1..]);
      } else {
        SameLater(all, rest);
      }
    }
  }

  lemma Shifted(rest: seq<string>)
    requires rest != []
    ensures LaterEmpty([""] + rest) <==> rest[0] == "" || LaterEmpty(rest)
  {
    var all := [""] + rest;
    if rest[0] == "" { assert all[1] == ""; }
    if LaterEmpty(rest) {
      var i :| 1 <= i < |rest| && rest[i] == "";
      assert all[i + 1] == "";
    }
    if LaterEmpty(all) {
      var i :| 1 <= i < |all| && all[i] == "";
      assert rest[i - 1] == "";
    }
  }

  lemma SameLater(all: seq<string>, rest: seq<string>)
    requires |all| == |rest| && forall i | 1 <= i < |all| :: all[i] == rest[i]
    ensures LaterEmpty(all) <==> LaterEmpty(rest)
  {
  }

  lemma TailSlashes(s: string)
    requires s != ""
    ensures EndsOrDoubles(s) <==>
            EndsOrDoubles(s[1..]) || (s[0] == '/' && (s[1..] == "" || s[1] == '/'))
  {
    if |s| > 1 {
      var t := s[1..];
      assert t[|t| - 1] == s[|s| - 1];
      if HasDoubleSlash(s) {
        var i :| 0 <= i < |s| - 1 && s[i] == '/' && s[i + 1] == '/';
        if i > 0 { assert t[i - 1] == '/' && t[i] == '/'; }
      }
      if HasDoubleSlash(t) {
        var i :| 0 <= i < |t| - 1 && t[i] == '/' && t[i + 1] == '/';
        assert s[i + 1] == '/' && s[i + 2] == '/';
      }
    }
  }

  lemma FirstPiece(s: string)
    ensures Split(s, '/')[0] == "" <==> s == "" || s[0] == '/'
  {
  }

  /** The syntax checks, one after another, come to this: only kernel paths pass. */
  lemma ValidPathsAreKernelPaths(path: string, unicode: Unicode)
    ensures var p := unicode.normalize(path);
            ValidatePath(path, unicode) ==
            if IsKernelPath(p) && unicode.utf8Length(p) <= 1024 then Some(p) else None
  {
    var p := unicode.normalize(path);
    if p != "" && p[0] == '/' {
      var s := p[1..];
      var pieces := Split(s, '/');
      FirstPiece(s);
      LaterPieces(s);
      TailSlashes(p);
      assert LaterEmpty(pieces) || pieces[0] == "" <==> exists i | 0 <= i < |pieces| :: pieces[i] == "";
      assert p == "/" <==> s == "";
      hide Split;
      if forall i | 0 <= i < |pieces| :: IsStep(pieces[i]) {
        assert forall i | 0 <= i < |pieces| :: pieces[i] != "" && !IsDots(pieces[i]);
      }
    }
  }

  // ---------------------------------------------------------------------
  // Records.

  datatype ScanRecord = ScanRecord(mountKey: string, path: string, sha: string)

  predicate IsHexSha(s: string) {
    |s| == 64 && forall i | 0 <= i < 64 :: ('0' <= s[i] <= '9') || ('a' <= s[i] <= 'f')
  }

  /** The mount and path a file below the mirror root stands for; none when it escapes every mount. */
  function ResolveMirrorRecord(relative: string, mirrorDirs: map<string, string>, unicode: Unicode)
    : Option<(string, string)>
  {
    var segments := Split(relative, '/');
    if |segments| < 2 || exists i | 0 <= i < |segments| :: !IsStep(segments[i]) then None
    else if segments[0] !in mirrorDirs then None
    else
      var path := ValidatePath("/" + Join(segments[1..], '/'), unicode);
      if path.Some? then Some((mirrorDirs[segments[0]], path.value)) else None
  }

  function ReadRecord(raw: string, mirrorDirs: map<string, string>, unicode: Unicode): Option<ScanRecord> {
    if |raw| < 67 || !IsHexSha(raw[..64]) || raw[64..66] != "  " then None
    else
      var resolved := ResolveMirrorRecord(raw[66..], mirrorDirs, unicode);
      if resolved.Some? then Some(ScanRecord(resolved.value.0, resolved.value.1, raw[..64])) else None
  }

  /** Every record or none. */
  ghost predicate Reads(
    output: string, mirrorDirs: map<string, string>, unicode: Unicode, r: Result<seq<ScanRecord>, string>)
  {
    if output == "" then r == Ok([])
    else if output[|output| - 1] != NUL then r == Err(output)
    else ReadsAll(Split(output[..|output| - 1], NUL), mirrorDirs, unicode, r)
  }

  ghost predicate ReadsAll(
    raws: seq<string>, mirrorDirs: map<string, string>, unicode: Unicode, r: Result<seq<ScanRecord>, string>)
  {
    match r
    case Ok(records) =>
      |records| == |raws| && forall i | 0 <= i < |raws| :: ReadRecord(raws[i], mirrorDirs, unicode) == Some(records[i])
    case Err(raw) => raw in raws && ReadRecord(raw, mirrorDirs, unicode) == None
  }

  method ParseScanRecords(output: string, mirrorDirs: map<string, string>, unicode: Unicode)
    returns (r: Result<seq<ScanRecord>, string>)
    ensures Reads(output, mirrorDirs, unicode, r)
  {
    if output == "" { return Ok([]); }
    if output[|output| - 1] != NUL { return Err(output); }
    var raws := Split(output[..|output| - 1], NUL);
    var records := [];
    hide ReadRecord, Split;
    for i := 0 to |raws|
      invariant |records| == i
      invariant forall k | 0 <= k < i :: ReadRecord(raws[k], mirrorDirs, unicode) == Some(records[k])
    {
      var read := ReadRecord(raws[i], mirrorDirs, unicode);
      if read.None? {
        assert raws[i] in raws;
        return Err(raws[i]);
      }
      records := records + [read.value];
    }
    return Ok(records);
  }

  // ---------------------------------------------------------------------
  // What a target prints.

  /** A file as the target lists it: its mount's directory, its path below it, its digest. */
  datatype Listed = Listed(dir: string, path: string, sha: string)

  /** One line of the scan: the digest, two blanks, the file's place below the root. */
  function PrintRecord(file: Listed): string {
    file.sha + "  " + file.dir + file.path
  }

  /** A file the engine's own layout allows: a known directory, a normal path, a digest. */
  predicate IsPrintable(file: Listed, mirrorDirs: map<string, string>, unicode: Unicode) {
    && file.dir in mirrorDirs && IsStep(file.dir) && '/' !in file.dir && NUL !in file.dir
    && IsKernelPath(file.path)
    && unicode.normalize(file.path) == file.path && unicode.utf8Length(file.path) <= MAX_PATH_BYTES
    && IsHexSha(file.sha)
  }

  function Expected(file: Listed, mirrorDirs: map<string, string>): ScanRecord
    requires file.dir in mirrorDirs
  {
    ScanRecord(mirrorDirs[file.dir], file.path, file.sha)
  }

  lemma PrintedReadsBack(file: Listed, mirrorDirs: map<string, string>, unicode: Unicode)
    requires IsPrintable(file, mirrorDirs, unicode)
    ensures ReadRecord(PrintRecord(file), mirrorDirs, unicode) == Some(Expected(file, mirrorDirs))
  {
    var raw := PrintRecord(file);
    assert raw[..64] == file.sha && raw[64..66] == "  ";
    assert raw[66..] == file.dir + file.path;
    MirrorPathReadsBack(file.dir, file.path, mirrorDirs, unicode);
    SlashAloneHasNoName(file.path);
  }

  lemma SlashAloneHasNoName(path: string)
    requires IsKernelPath(path)
    ensures |path| >= 2
  {
    assert |path| == 1 ==> path[1..] == "" && !IsStep(Split(path[1..], '/')[0]);
  }

  lemma MirrorPathReadsBack(dir: string, path: string, mirrorDirs: map<string, string>, unicode: Unicode)
    requires dir in mirrorDirs && IsStep(dir) && '/' !in dir
    requires IsKernelPath(path) && unicode.normalize(path) == path && unicode.utf8Length(path) <= MAX_PATH_BYTES
    ensures ResolveMirrorRecord(dir + path, mirrorDirs, unicode) == Some((mirrorDirs[dir], path))
  {
    var rest := path[1..];
    assert path == "/" + rest;
    assert dir + path == dir + ['/'] + rest;
    SplitAt(dir, rest, '/');
    JoinOfSplit(rest, '/');
    var segments := Split(dir + path, '/');
    assert segments == [dir] + Split(rest, '/') && segments[1..] == Split(rest, '/');
    ValidPathsAreKernelPaths(path, unicode);
  }

  function PrintScan(files: seq<Listed>): string {
    if files == [] then "" else PrintRecord(files[0]) + [NUL] + PrintScan(files[1..])
  }

  predicate AllPrintable(files: seq<Listed>, mirrorDirs: map<string, string>, unicode: Unicode) {
    forall i | 0 <= i < |files| :: IsPrintable(files[i], mirrorDirs, unicode)
  }

  lemma {:induction false} PrintedScanSplits(files: seq<Listed>, mirrorDirs: map<string, string>, unicode: Unicode)
    requires files != [] && AllPrintable(files, mirrorDirs, unicode)
    ensures var output := PrintScan(files);
            && output != "" && output[|output| - 1] == NUL
            && |Split(output[..|output| - 1], NUL)| == |files|
            && forall i | 0 <= i < |files| :: Split(output[..|output| - 1], NUL)[i] == PrintRecord(files[i])
  {
    var raw, output := PrintRecord(files[0]), PrintScan(files);
    assert IsPrintable(files[0], mirrorDirs, unicode);
    assert NUL !in raw;
    if |files| == 1 {
      assert PrintScan(files[1..]) == "";
      assert output[..|output| - 1] == raw && raw + [] == raw;
      SplitPrepend(raw, [], NUL);
    } else {
      PrintedScanSplits(files[1..], mirrorDirs, unicode);
      var rest := PrintScan(files[1..]);
      assert output == raw + [NUL] + rest;
      assert output[..|output| - 1] == raw + [NUL] + rest[..|rest| - 1];
      SplitAt(raw, rest[..|rest| - 1], NUL);
    }
  }

  /** A scan of any number of such files reads back as exactly their mounts, paths and digests, in order. */
  lemma ScanReadsBack(
      files: seq<Listed>, mirrorDirs: map<string, string>, unicode: Unicode, r: Result<seq<ScanRecord>, string>)
    requires AllPrintable(files, mirrorDirs, unicode) && Reads(PrintScan(files), mirrorDirs, unicode, r)
    ensures r.Ok? && |r.value| == |files|
    ensures forall i | 0 <= i < |files| ::
              files[i].dir in mirrorDirs && r.value[i] == Expected(files[i], mirrorDirs)
  {
    hide AllPrintable, PrintScan, Split, ReadsAs, ReadsAll;
    if files != [] {
      PrintedScanReads(files, mirrorDirs, unicode);
      AllRead(files, Split(PrintScan(files)[..|PrintScan(files)| - 1], NUL), mirrorDirs, unicode, r);
    } else {
      assert PrintScan(files) == "" by { PrintNothing(files); }
    }
  }

  lemma PrintNothing(none: seq<Listed>)
    requires none == []
    ensures PrintScan(none) == ""
  {
  }

  lemma PrintedScanReads(files: seq<Listed>, mirrorDirs: map<string, string>, unicode: Unicode)
    requires files != [] && AllPrintable(files, mirrorDirs, unicode)
    ensures var output := PrintScan(files);
            && output != "" && output[|output| - 1] == NUL
            && |Split(output[..|output| - 1], NUL)| == |files|
            && forall i | 0 <= i < |files| ::
                 ReadsAs(Split(output[..|output| - 1], NUL)[i], files[i], mirrorDirs, unicode)
  {
    PrintedScanSplits(files, mirrorDirs, unicode);
    hide PrintScan, Split, PrintRecord, ReadRecord;
    forall i | 0 <= i < |files|
      ensures ReadsAs(PrintRecord(files[i]), files[i], mirrorDirs, unicode)
    {
      assert IsPrintable(files[i], mirrorDirs, unicode);
      PrintedReadsBack(files[i], mirrorDirs, unicode);
    }
  }

  predicate ReadsAs(raw: string, file: Listed, mirrorDirs: map<string, string>, unicode: Unicode) {
    file.dir in mirrorDirs && ReadRecord(raw, mirrorDirs, unicode) == Some(Expected(file, mirrorDirs))
  }

  lemma AllRead(
      files: seq<Listed>, raws: seq<string>, mirrorDirs: map<string, string>, unicode: Unicode,
      r: Result<seq<ScanRecord>, string>)
    requires |raws| == |files| && forall i | 0 <= i < |raws| :: ReadsAs(raws[i], files[i], mirrorDirs, unicode)
    requires ReadsAll(raws, mirrorDirs, unicode, r)
    ensures r.Ok? && |r.value| == |files|
    ensures forall i | 0 <= i < |files| ::
              files[i].dir in mirrorDirs && r.value[i] == Expected(files[i], mirrorDirs)
  {
    hide ReadRecord;
  }

  /** A digest, two blanks, a known directory and a path of plain names below it that is valid. */
  ghost predicate IsRecordOf(
    raw: string, record: ScanRecord, dir: string, rest: string, mirrorDirs: map<string, string>, unicode: Unicode)
  {
    && raw == record.sha + "  " + dir + "/" + rest && IsHexSha(record.sha)
    && dir in mirrorDirs && mirrorDirs[dir] == record.mountKey && IsStep(dir) && '/' !in dir
    && (forall i | 0 <= i < |Split(rest, '/')| :: IsStep(Split(rest, '/')[i]))
    && ValidatePath("/" + rest, unicode) == Some(record.path)
  }

  /** A place below the root resolves exactly when it is a known directory with such a path below it. */
  lemma ResolvedIsPlaced(
      dir: string, rest: string, mirrorDirs: map<string, string>, unicode: Unicode, mountKey: string, path: string)
    requires '/' !in dir
    ensures ResolveMirrorRecord(dir + "/" + rest, mirrorDirs, unicode) == Some((mountKey, path)) <==>
              && dir in mirrorDirs && mirrorDirs[dir] == mountKey && IsStep(dir)
              && (forall i | 0 <= i < |Split(rest, '/')| :: IsStep(Split(rest, '/')[i]))
              && ValidatePath("/" + rest, unicode) == Some(path)
  {
    var tail := Split(rest, '/');
    var segments := Split(dir + "/" + rest, '/');
    SplitAt(dir, rest, '/');
    JoinOfSplit(rest, '/');
    assert segments == [dir] + tail && segments[1..] == tail && Join(tail, '/') == rest;
    hide Split, Join, ValidatePath, IsStep;
    assert segments[0] == dir && forall i | 0 <= i < |tail| :: segments[i + 1] == tail[i];
  }

  lemma ResolvedHasSlash(relative: string, mirrorDirs: map<string, string>, unicode: Unicode)
      returns (dir: string, rest: string)
    requires ResolveMirrorRecord(relative, mirrorDirs, unicode).Some?
    ensures relative == dir + "/" + rest && '/' !in dir
  {
    var segments := Split(relative, '/');
    JoinOfSplit(relative, '/');
    dir, rest := segments[0], Join(segments[1..], '/');
  }

  /** A record is accepted exactly when it is one. */
  lemma RecordIsPlaced(raw: string, record: ScanRecord, mirrorDirs: map<string, string>, unicode: Unicode)
    ensures ReadRecord(raw, mirrorDirs, unicode) == Some(record) <==>
              exists dir, rest :: IsRecordOf(raw, record, dir, rest, mirrorDirs, unicode)
  {
    hide ResolveMirrorRecord, ValidatePath, Split, IsStep;
    if ReadRecord(raw, mirrorDirs, unicode) == Some(record) {
      assert ResolveMirrorRecord(raw[66..], mirrorDirs, unicode) == Some((record.mountKey, record.path));
      var dir, rest := ResolvedHasSlash(raw[66..], mirrorDirs, unicode);
      ResolvedIsPlaced(dir, rest, mirrorDirs, unicode, record.mountKey, record.path);
      assert raw == raw[..64] + raw[64..66] + raw[66..];
      assert record.sha + "  " + (dir + "/" + rest) == record.sha + "  " + dir + "/" + rest;
      assert record.sha == raw[..64];
      assert raw == record.sha + "  " + dir + "/" + rest;
      assert forall i | 0 <= i < |Split(rest, '/')| :: IsStep(Split(rest, '/')[i]);
      assert IsRecordOf(raw, record, dir, rest, mirrorDirs, unicode);
    }
    if dir, rest :| IsRecordOf(raw, record, dir, rest, mirrorDirs, unicode) {
      ResolvedIsPlaced(dir, rest, mirrorDirs, unicode, record.mountKey, record.path);
      assert raw[..64] == record.sha && raw[64..66] == "  " && raw[66..] == dir + "/" + rest;
    }
  }

  /** Whatever a target prints, an accepted record names a file strictly inside a known mount. */
  lemma AcceptedRecordsAreInside(
      output: string, mirrorDirs: map<string, string>, unicode: Unicode, r: Result<seq<ScanRecord>, string>)
    requires Reads(output, mirrorDirs, unicode, r) && r.Ok?
    ensures forall record | record in r.value ::
              IsKernelPath(record.path) && record.mountKey in mirrorDirs.Values && IsHexSha(record.sha)
  {
    forall i | 0 <= i < |r.value|
      ensures IsKernelPath(r.value[i].path) && r.value[i].mountKey in mirrorDirs.Values && IsHexSha(r.value[i].sha)
    {
      var raw := Split(output[..|output| - 1], NUL)[i];
      assert ReadRecord(raw, mirrorDirs, unicode) == Some(r.value[i]);
      ValidPathsAreKernelPaths("/" + Join(Split(raw[66..], '/')[1..], '/'), unicode);
    }
  }

  // ---------------------------------------------------------------------
  // Directory names.

  predicate IsKeyChar(c: char) {
    ('a' <= c <= 'z') || ('0' <= c <= '9')
  }

  predicate IsMountKey(key: string) {
    && 1 <= |key| <= 64 && IsKeyChar(key[0])
    && forall i | 0 <= i < |key| :: IsKeyChar(key[i]) || key[i] in {':', '.', '_', '-'}
  }

  /** Every `:` becomes `%3A`. */
  function EncodeColons(s: string): string {
    if s == "" then "" else (if s[0] == ':' then "%3A" else [s[0]]) + EncodeColons(s[1..])
  }

  /** Every `%3A`, from the left, becomes `:`. */
  function DecodeColons(s: string): string {
    if s == "" then ""
    else if |s| >= 3 && s[..3] == "%3A" then ":" + DecodeColons(s[3..])
    else [s[0]] + DecodeColons(s[1..])
  }

  function MirrorDirName(key: string): Option<string> {
    if IsMountKey(key) then Some(EncodeColons(key)) else None
  }

  function MountKeyForMirrorDir(dir: string): Option<string> {
    var decoded := DecodeColons(dir);
    if '%' in decoded || !IsMountKey(decoded) then None else Some(decoded)
  }

  lemma {:induction false} DecodeOfEncode(s: string)
    requires '%' !in s
    ensures DecodeColons(EncodeColons(s)) == s
  {
    if s != "" {
      DecodeOfEncode(s[1..]);
      var rest, all := EncodeColons(s[1..]), EncodeColons(s);
      assert s == [s[0]] + s[1..];
      if s[0] == ':' {
        assert all == "%3A" + rest;
        assert all[..3] == "%3A" && all[3..] == rest;
      } else {
        assert all == [s[0]] + rest;
        assert all[0] == s[0] && s[0] in s && all[1..] == rest;
      }
    }
  }

  lemma {:induction false} EncodeOfDecode(s: string)
    ensures ':' !in s && '%' !in DecodeColons(s) ==> EncodeColons(DecodeColons(s)) == s
    ensures ':' !in EncodeColons(DecodeColons(s))
  {
    if s == "" {
    } else if |s| >= 3 && s[..3] == "%3A" {
      EncodeOfDecode(s[3..]);
      assert DecodeColons(s)[1..] == DecodeColons(s[3..]);
      assert s == s[..3] + s[3..];
    } else {
      EncodeOfDecode(s[1..]);
      assert DecodeColons(s)[1..] == DecodeColons(s[1..]);
      assert s == [s[0]] + s[1..];
    }
  }

  /** A mount key survives its directory name. */
  lemma MountKeyReadsBack(key: string)
    requires IsMountKey(key)
    ensures MirrorDirName(key).Some? && MountKeyForMirrorDir(MirrorDirName(key).value) == Some(key)
  {
    assert '%' !in key;
    DecodeOfEncode(key);
  }

  /** A directory name survives its mount key exactly when no colon stands in it. */
  lemma DirNameReadsBack(dir: string)
    requires MountKeyForMirrorDir(dir).Some?
    ensures MirrorDirName(MountKeyForMirrorDir(dir).value) == Some(dir) <==> ':' !in dir
  {
    EncodeOfDecode(dir);
  }
}
