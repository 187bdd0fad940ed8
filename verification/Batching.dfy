/**
 * src/sync/engine.ts: how files are grouped into bounded calls to the target,
 * going out and coming back. A file cannot be split.
 */
module Batching {
  import opened Prelude

  const MAX_BATCH_PAYLOAD_BYTES := 33554432

  /** The size a target claims for a file, if it claims one. */
  datatype Claim = Unclaimed | NotFinite | Claimed(size: int)

  /** A file already loaded, its bytes written as characters, or one to be fetched. */
  datatype File = Loaded(path: string, bytes: string) | Wanted(path: string, claim: Claim)

  /** What a file counts for. A claim is a hint, so a bad one counts for nothing. */
  function Size(file: File): nat {
    match file
    case Loaded(_, bytes) => |bytes|
    case Wanted(_, Claimed(size)) => if size > 0 then size else 0
    case Wanted(_, _) => 0
  }

  function Total(files: seq<File>): nat {
    if files == [] then 0 else Total(files[..|files| - 1]) + Size(files[|files| - 1])
  }

  function Concat(chunks: seq<seq<File>>): seq<File> {
    if chunks == [] then [] else Concat(chunks[..|chunks| - 1]) + chunks[|chunks| - 1]
  }

  /** `next` may join the files before it: they stay within the bound and the last of them left room. */
  predicate Fits(before: seq<File>, next: File) {
    && before != []
    && Total(before) + Size(next) <= MAX_BATCH_PAYLOAD_BYTES
    && Size(before[|before| - 1]) < MAX_BATCH_PAYLOAD_BYTES
  }

  ghost predicate IsChunk(chunk: seq<File>) {
    chunk != [] && forall i | 0 < i < |chunk| :: Fits(chunk[..i], chunk[i])
  }

  /** Every file joins the chunk before it exactly when it may. */
  ghost predicate Greedy(chunks: seq<seq<File>>) {
    && (forall i | 0 <= i < |chunks| :: IsChunk(chunks[i]))
    && forall i | 0 < i < |chunks| :: chunks[i] != [] && !Fits(chunks[i - 1], chunks[i][0])
  }

  // ---------------------------------------------------------------------
  // What the rule comes to.

  lemma {:induction false} TotalOfConcat(a: seq<File>, b: seq<File>)
    ensures Total(a + b) == Total(a) + Total(b)
  {
    if b == [] {
      assert a + b == a;
    } else {
      assert (a + b)[..|a + b| - 1] == a + b[..|b| - 1];
      TotalOfConcat(a, b[..|b| - 1]);
    }
  }

  lemma OneCallMore(calls: seq<seq<File>>, chunk: seq<File>)
    ensures Concat(calls + [chunk]) == Concat(calls) + chunk
  {
    assert (calls + [chunk])[..|calls|] == calls;
  }

  lemma OneMoreTotal(chunk: seq<File>, file: File)
    ensures Total(chunk + [file]) == Total(chunk) + Size(file)
  {
    assert (chunk + [file])[..|chunk|] == chunk;
  }

  /** A call carries at most the bound, or one file that alone exceeds it. */
  lemma ChunkIsBounded(chunk: seq<File>)
    requires IsChunk(chunk)
    ensures Total(chunk) <= MAX_BATCH_PAYLOAD_BYTES || |chunk| == 1
  {
    if |chunk| > 1 {
      var i := |chunk| - 1;
      assert Fits(chunk[..i], chunk[i]);
    }
  }

  /** The bytes a call sends, one file's after another's. */
  function Payload(files: seq<File>): string {
    if files == [] then ""
    else
      var last := files[|files| - 1];
      Payload(files[..|files| - 1]) + if last.Loaded? then last.bytes else ""
  }

  /** The bytes that come back for a call. */
  function Arrived(got: map<string, string>, files: seq<File>): string {
    if files == [] then ""
    else
      var last := files[|files| - 1];
      Arrived(got, files[..|files| - 1]) + if last.path in got then got[last.path] else ""
  }

  /** The target has told the size of the file it now sends. */
  predicate IsHonest(got: map<string, string>, file: File) {
    file.Wanted? && file.path in got && file.claim == Claimed(|got[file.path]|)
  }

  lemma {:induction false} PayloadIsCounted(files: seq<File>)
    requires forall f | f in files :: f.Loaded?
    ensures |Payload(files)| == Total(files)
  {
    if files != [] {
      assert forall f | f in files[..|files| - 1] :: f in files;
      PayloadIsCounted(files[..|files| - 1]);
    }
  }

  lemma {:induction false} ArrivalsAreCounted(got: map<string, string>, files: seq<File>)
    requires forall f | f in files :: IsHonest(got, f)
    ensures |Arrived(got, files)| == Total(files)
  {
    if files != [] {
      assert forall f | f in files[..|files| - 1] :: f in files;
      ArrivalsAreCounted(got, files[..|files| - 1]);
      assert IsHonest(got, files[|files| - 1]);
    }
  }

  /** No call for more than one file sends more than 32 MiB of content, or brings back more from an honest target. */
  lemma ContentIsBounded(chunk: seq<File>, got: map<string, string>)
    requires IsChunk(chunk) && |chunk| > 1
    ensures (forall f | f in chunk :: f.Loaded?) ==> |Payload(chunk)| <= 32 * 1024 * 1024
    ensures (forall f | f in chunk :: IsHonest(got, f)) ==> |Arrived(got, chunk)| <= 32 * 1024 * 1024
  {
    ChunkIsBounded(chunk);
    if forall f | f in chunk :: f.Loaded? { PayloadIsCounted(chunk); }
    if forall f | f in chunk :: IsHonest(got, f) { ArrivalsAreCounted(got, chunk); }
  }

  /** A file of the bound or more ends its call, after at most empty files, and those only if it is exactly the bound. */
  lemma FullFileEndsItsCall(chunk: seq<File>, i: nat)
    requires IsChunk(chunk) && i < |chunk| && Size(chunk[i]) >= MAX_BATCH_PAYLOAD_BYTES
    ensures i == |chunk| - 1 && Total(chunk[..i]) == 0
    ensures i > 0 ==> Size(chunk[i]) == MAX_BATCH_PAYLOAD_BYTES
  {
    forall j | 0 <= j < |chunk| - 1
      ensures Size(chunk[j]) < MAX_BATCH_PAYLOAD_BYTES
    {
      assert Fits(chunk[..j + 1], chunk[j + 1]);
      assert chunk[..j + 1][j] == chunk[j];
    }
    if i > 0 { assert Fits(chunk[..i], chunk[i]); }
  }

  /** Two neighbouring calls together carry at least the bound. */
  lemma NeighboursFill(chunks: seq<seq<File>>, i: nat)
    requires Greedy(chunks) && 0 < i < |chunks|
    ensures Total(chunks[i - 1]) + Total(chunks[i]) >= MAX_BATCH_PAYLOAD_BYTES
  {
    var left, right := chunks[i - 1], chunks[i];
    assert IsChunk(left) && IsChunk(right);
    assert !Fits(left, right[0]);
    assert right == right[..1] + right[1..] && left == left[..|left| - 1] + left[|left| - 1..];
    TotalOfConcat(right[..1], right[1..]);
    assert right[..1][..0] == [];
    assert Total(right[..1]) == Size(right[0]);
  }

  lemma GreedyPrefix(chunks: seq<seq<File>>, n: nat)
    requires Greedy(chunks) && n <= |chunks|
    ensures Greedy(chunks[..n])
  {
  }

  lemma TotalOfTwoMore(chunks: seq<seq<File>>, left: seq<File>, right: seq<File>)
    ensures Total(Concat(chunks + [left] + [right]))
            == Total(Concat(chunks)) + Total(left) + Total(right)
  {
    hide Total, Concat;
    OneCallMore(chunks, left);
    OneCallMore(chunks + [left], right);
    TotalOfConcat(Concat(chunks) + left, right);
    TotalOfConcat(Concat(chunks), left);
  }

  lemma {:induction false} PairsFill(chunks: seq<seq<File>>, pairs: nat)
    requires Greedy(chunks) && |chunks| == pairs + pairs
    ensures pairs * MAX_BATCH_PAYLOAD_BYTES <= Total(Concat(chunks))
  {
    hide Greedy, Total, Concat;
    if pairs > 0 {
      var n := |chunks|;
      var rest := chunks[..n - 2];
      GreedyPrefix(chunks, n - 2);
      NeighboursFill(chunks, n - 1);
      assert chunks == rest + [chunks[n - 2]] + [chunks[n - 1]];
      TotalOfTwoMore(rest, chunks[n - 2], chunks[n - 1]);
      PairsFill(rest, pairs - 1);
    }
  }

  /** All but at most one of the calls pair up. */
  lemma HalfFill(chunks: seq<seq<File>>, pairs: nat)
    requires Greedy(chunks) && pairs + pairs <= |chunks| <= pairs + pairs + 1
    ensures pairs * MAX_BATCH_PAYLOAD_BYTES <= Total(Concat(chunks))
  {
    hide Greedy, Total, Concat;
    if |chunks| == pairs + pairs {
      PairsFill(chunks, pairs);
    } else {
      var even, odd := chunks[..pairs + pairs], chunks[pairs + pairs];
      GreedyPrefix(chunks, pairs + pairs);
      PairsFill(even, pairs);
      assert chunks == even + [odd];
      OneCallMore(even, odd);
      TotalOfConcat(Concat(even), odd);
    }
  }

  /** The number of calls is within a constant of the bytes sent. */
  lemma CallsAreBounded(chunks: seq<seq<File>>)
    requires Greedy(chunks)
    ensures |chunks| <= 2 * Total(Concat(chunks)) / MAX_BATCH_PAYLOAD_BYTES + 1
  {
    hide Greedy, Total, Concat;
    HalfFill(chunks, |chunks| / 2);
  }

  /** The grouping without its last file. */
  function Dropped(chunks: seq<seq<File>>): seq<seq<File>>
    requires chunks != [] && chunks[|chunks| - 1] != []
  {
    var n := |chunks| - 1;
    var last := chunks[n];
    if |last| == 1 then chunks[..n] else chunks[..n] + [last[..|last| - 1]]
  }

  lemma ShorterIsChunk(chunk: seq<File>)
    requires IsChunk(chunk) && |chunk| > 1
    ensures IsChunk(chunk[..|chunk| - 1])
    ensures Fits(chunk[..|chunk| - 1], chunk[|chunk| - 1])
  {
    var shorter := chunk[..|chunk| - 1];
    forall i | 0 < i < |shorter|
      ensures Fits(shorter[..i], shorter[i])
    {
      assert shorter[..i] == chunk[..i];
      assert Fits(chunk[..i], chunk[i]);
    }
  }

  lemma DroppedIsGreedy(chunks: seq<seq<File>>)
    requires Greedy(chunks) && chunks != []
    ensures chunks[|chunks| - 1] != [] && Greedy(Dropped(chunks))
  {
    var n := |chunks| - 1;
    var last, rest := chunks[n], Dropped(chunks);
    assert IsChunk(last);
    GreedyPrefix(chunks, n);
    if |last| > 1 {
      ShorterIsChunk(last);
      hide IsChunk, Fits;
      forall i | 0 < i < |rest|
        ensures rest[i] != [] && !Fits(rest[i - 1], rest[i][0])
      {
        assert !Fits(chunks[i - 1], chunks[i][0]);
      }
    }
  }

  lemma DroppedConcat(chunks: seq<seq<File>>)
    requires chunks != [] && chunks[|chunks| - 1] != []
    ensures var last := chunks[|chunks| - 1];
            Concat(chunks) == Concat(Dropped(chunks)) + [last[|last| - 1]]
  {
    var n := |chunks| - 1;
    var last, rest := chunks[n], Dropped(chunks);
    assert last == last[..|last| - 1] + [last[|last| - 1]];
    if |last| > 1 { assert rest[..n] == chunks[..n]; }
  }

  /** The last file is where the rule puts it. */
  lemma DroppedDecides(chunks: seq<seq<File>>)
    requires Greedy(chunks) && chunks != []
    ensures chunks[|chunks| - 1] != []
    ensures var last, rest := chunks[|chunks| - 1], Dropped(chunks);
            if rest != [] && Fits(rest[|rest| - 1], last[|last| - 1])
            then chunks == rest[..|rest| - 1] + [rest[|rest| - 1] + [last[|last| - 1]]]
            else chunks == rest + [[last[|last| - 1]]]
  {
    var n := |chunks| - 1;
    var last, rest := chunks[n], Dropped(chunks);
    assert IsChunk(last);
    assert n > 0 ==> !Fits(chunks[n - 1], last[0]);
    if |last| > 1 { ShorterIsChunk(last); }
    hide IsChunk, Greedy, Fits;
    if |last| > 1 {
      assert last == last[..|last| - 1] + [last[|last| - 1]];
      assert rest[..n] == chunks[..n] && chunks == chunks[..n] + [last];
    } else {
      assert last == [last[0]] && chunks == chunks[..n] + [last];
    }
  }

  lemma LastFile(chunks: seq<seq<File>>)
    requires Greedy(chunks) && chunks != []
    ensures chunks[|chunks| - 1] != [] && Greedy(Dropped(chunks))
    ensures var last, rest := chunks[|chunks| - 1], Dropped(chunks);
            && Concat(chunks) == Concat(rest) + [last[|last| - 1]]
            && (if rest != [] && Fits(rest[|rest| - 1], last[|last| - 1])
                then chunks == rest[..|rest| - 1] + [rest[|rest| - 1] + [last[|last| - 1]]]
                else chunks == rest + [[last[|last| - 1]]])
  {
    DroppedIsGreedy(chunks);
    DroppedConcat(chunks);
    DroppedDecides(chunks);
  }

  /** Any two groupings of the same files under the rule are the same grouping. */
  lemma {:induction false} GreedyIsUnique(a: seq<seq<File>>, b: seq<seq<File>>)
    requires Greedy(a) && Greedy(b) && Concat(a) == Concat(b)
    ensures a == b
    decreases |Concat(a)|
  {
    if a != [] { LastFile(a); }
    if b != [] { LastFile(b); }
    hide Greedy, Fits, Dropped;
    if a != [] && b != [] {
      var n := |Concat(a)| - 1;
      assert Concat(Dropped(a)) == Concat(a)[..n] == Concat(Dropped(b));
      GreedyIsUnique(Dropped(a), Dropped(b));
    }
  }

  // ---------------------------------------------------------------------
  // The loop.

  /** Calls already made and the chunk still open, with its running byte count. */
  ghost predicate Open(
    done: seq<File>, calls: seq<seq<File>>, chunk: seq<File>, chunkBytes: nat)
  {
    && Concat(calls) + chunk == done
    && chunkBytes == Total(chunk)
    && Greedy(calls)
    && (chunk == [] && calls != [] ==>
          var last := calls[|calls| - 1];
          last != [] && Size(last[|last| - 1]) >= MAX_BATCH_PAYLOAD_BYTES)
    && (chunk != [] ==>
          Greedy(calls + [chunk]) && Size(chunk[|chunk| - 1]) < MAX_BATCH_PAYLOAD_BYTES)
  }

  lemma OneChunkMore(calls: seq<seq<File>>, chunk: seq<File>)
    requires Greedy(calls) && IsChunk(chunk)
    requires calls != [] ==> !Fits(calls[|calls| - 1], chunk[0])
    ensures Greedy(calls + [chunk])
  {
  }

  lemma OneFileMore(chunk: seq<File>, file: File)
    requires IsChunk(chunk) && Fits(chunk, file)
    ensures IsChunk(chunk + [file])
  {
    var longer := chunk + [file];
    forall i | 0 < i < |longer|
      ensures Fits(longer[..i], longer[i])
    {
      assert longer[..i] == chunk[..i];
      assert i < |chunk| ==> Fits(chunk[..i], chunk[i]);
      assert i == |chunk| ==> chunk[..i] == chunk;
    }
  }

  /** The same state once nothing keeps `file` out of the open chunk. */
  ghost predicate Ready(
    done: seq<File>, calls: seq<seq<File>>, chunk: seq<File>, chunkBytes: nat, file: File)
  {
    && Concat(calls) + chunk == done
    && chunkBytes == Total(chunk)
    && Greedy(calls)
    && if chunk == [] then calls != [] ==> !Fits(calls[|calls| - 1], file)
       else Greedy(calls + [chunk]) && Fits(chunk, file)
  }

  predicate Overflows(chunk: seq<File>, chunkBytes: nat, file: File) {
    chunk != [] && chunkBytes + Size(file) > MAX_BATCH_PAYLOAD_BYTES
  }

  lemma LastIsChunk(calls: seq<seq<File>>, chunk: seq<File>)
    requires Greedy(calls + [chunk])
    ensures IsChunk(chunk)
  {
    assert (calls + [chunk])[|calls|] == chunk;
  }

  lemma NothingTaken(none: seq<File>)
    requires none == []
    ensures Open(none, [], [], 0)
  {
  }

  lemma RoomIsLeft(
    done: seq<File>, calls: seq<seq<File>>, chunk: seq<File>, chunkBytes: nat, file: File)
    requires Open(done, calls, chunk, chunkBytes) && !Overflows(chunk, chunkBytes, file)
    ensures Ready(done, calls, chunk, chunkBytes, file)
  {
  }

  lemma FlushMakesRoom(
    done: seq<File>, calls: seq<seq<File>>, chunk: seq<File>, chunkBytes: nat, file: File)
    requires Open(done, calls, chunk, chunkBytes) && Overflows(chunk, chunkBytes, file)
    ensures Ready(done, calls + [chunk], [], 0, file) && IsChunk(chunk)
  {
    OneCallMore(calls, chunk);
    LastIsChunk(calls, chunk);
  }

  lemma TakeKeepsGreedy(calls: seq<seq<File>>, chunk: seq<File>, file: File)
    requires Greedy(calls)
    requires if chunk == [] then calls != [] ==> !Fits(calls[|calls| - 1], file)
             else Greedy(calls + [chunk]) && Fits(chunk, file)
    ensures Greedy(calls + [chunk + [file]]) && IsChunk(chunk + [file])
  {
    if chunk == [] {
      assert chunk + [file] == [file];
    } else {
      LastIsChunk(calls, chunk);
      OneFileMore(chunk, file);
      assert calls != [] ==> !Fits((calls + [chunk])[|calls| - 1], (calls + [chunk])[|calls|][0]);
    }
    OneChunkMore(calls, chunk + [file]);
  }

  lemma {:induction false} EmptyFilesOnly(files: seq<File>)
    ensures Total(files) == 0 <==> forall i | 0 <= i < |files| :: Size(files[i]) == 0
  {
    if files != [] {
      var n := |files| - 1;
      EmptyFilesOnly(files[..n]);
      assert forall i | 0 <= i < n :: files[..n][i] == files[i];
    }
  }

  /** What one more file makes of a grouping: it joins the last call when it fits there. */
  function Extended(calls: seq<seq<File>>, file: File): seq<seq<File>> {
    var n := |calls| - 1;
    if calls != [] && Fits(calls[n], file) then calls[..n] + [calls[n] + [file]] else calls + [[file]]
  }

  lemma ExtendedIsGreedy(calls: seq<seq<File>>, file: File)
    requires Greedy(calls)
    ensures Greedy(Extended(calls, file)) && Concat(Extended(calls, file)) == Concat(calls) + [file]
  {
    var n := |calls| - 1;
    if calls != [] && Fits(calls[n], file) {
      assert calls == calls[..n] + [calls[n]];
      GreedyPrefix(calls, n);
      TakeKeepsGreedy(calls[..n], calls[n], file);
      OneCallMore(calls[..n], calls[n]);
      OneCallMore(calls[..n], calls[n] + [file]);
    } else {
      TakeKeepsGreedy(calls, [], file);
      assert [] + [file] == [file];
      OneCallMore(calls, [file]);
    }
  }

  /** A file of exactly the bound shares a call exactly when the files before it left a call of empty files open. */
  lemma FullFileShares(calls: seq<seq<File>>, file: File, more: seq<seq<File>>)
    requires Greedy(calls) && Greedy(more) && Concat(more) == Concat(calls) + [file]
    requires Size(file) == MAX_BATCH_PAYLOAD_BYTES
    ensures var n := |calls| - 1;
            if calls != [] && forall i | 0 <= i < |calls[n]| :: Size(calls[n][i]) == 0
            then more == calls[..n] + [calls[n] + [file]]
            else more == calls + [[file]]
  {
    var n := |calls| - 1;
    ExtendedIsGreedy(calls, file);
    GreedyIsUnique(more, Extended(calls, file));
    if calls != [] {
      assert IsChunk(calls[n]);
      EmptyFilesOnly(calls[n]);
    }
    hide Greedy, IsChunk, Concat;
  }

  /** The file stays in the open chunk, or fills a call that is made at once. */
  lemma TakeKeepsOpen(
    done: seq<File>, calls: seq<seq<File>>, chunk: seq<File>, chunkBytes: nat, file: File)
    requires Ready(done, calls, chunk, chunkBytes, file)
    ensures IsChunk(chunk + [file])
    ensures if Size(file) >= MAX_BATCH_PAYLOAD_BYTES then Open(done + [file], calls + [chunk + [file]], [], 0)
            else Open(done + [file], calls, chunk + [file], chunkBytes + Size(file))
  {
    TakeKeepsGreedy(calls, chunk, file);
    OneMoreTotal(chunk, file);
    OneCallMore(calls, chunk + [file]);
    assert Concat(calls) + (chunk + [file]) == Concat(calls) + chunk + [file];
    hide Greedy, IsChunk, Total, Concat, Fits;
  }

  /** The last flush. */
  lemma FlushIsGreedy(done: seq<File>, calls: seq<seq<File>>, chunk: seq<File>, chunkBytes: nat)
    requires Open(done, calls, chunk, chunkBytes)
    ensures chunk == [] ==> Greedy(calls) && Concat(calls) == done
    ensures chunk != [] ==>
              Greedy(calls + [chunk]) && Concat(calls + [chunk]) == done && IsChunk(chunk)
  {
    OneCallMore(calls, chunk);
    if chunk != [] { LastIsChunk(calls, chunk); }
  }

  /** A target without the batch verb is given one file a call. */
  method WriteEach(files: seq<File>) returns (calls: seq<seq<File>>)
    ensures Concat(calls) == files
    ensures |calls| == |files| && forall i | 0 <= i < |files| :: calls[i] == [files[i]]
  {
    calls := [];
    for i := 0 to |files|
      invariant |calls| == i && Concat(calls) == files[..i]
      invariant forall j | 0 <= j < i :: calls[j] == [files[j]]
    {
      OneCallMore(calls, [files[i]]);
      calls := calls + [[files[i]]];
    }
    assert files[..|files|] == files;
  }

  lemma TakenOneMore(files: seq<File>, i: nat)
    requires i < |files|
    ensures files[..i + 1] == files[..i] + [files[i]]
  {
  }

  lemma TakenAll(files: seq<File>)
    ensures files[..|files|] == files
  {
  }

  /** One turn of the loop: flush if the file would overflow, take it, flush if it fills a call. */
  method Push(
      ghost done: seq<File>, calls0: seq<seq<File>>, chunk0: seq<File>, chunkBytes0: nat, file: File)
    returns (calls: seq<seq<File>>, chunk: seq<File>, chunkBytes: nat)
    requires Open(done, calls0, chunk0, chunkBytes0)
    ensures Open(done + [file], calls, chunk, chunkBytes)
  {
    hide Open, Ready, Greedy, Concat, Total, IsChunk, Fits;
    calls, chunk, chunkBytes := calls0, chunk0, chunkBytes0;
    if chunk != [] && chunkBytes + Size(file) > MAX_BATCH_PAYLOAD_BYTES {
      FlushMakesRoom(done, calls, chunk, chunkBytes, file);
      calls, chunk, chunkBytes := calls + [chunk], [], 0;
    } else {
      RoomIsLeft(done, calls, chunk, chunkBytes, file);
    }
    TakeKeepsOpen(done, calls, chunk, chunkBytes, file);
    chunk, chunkBytes := chunk + [file], chunkBytes + Size(file);
    if Size(file) >= MAX_BATCH_PAYLOAD_BYTES {
      calls, chunk, chunkBytes := calls + [chunk], [], 0;
    }
  }

  /** The batched calls made to the target, in order. */
  method WriteFilesBatched(files: seq<File>) returns (calls: seq<seq<File>>)
    ensures Concat(calls) == files && Greedy(calls)
  {
    calls := [];
    var chunk: seq<File>, chunkBytes: nat := [], 0;
    hide Open, Greedy, Concat, Total, IsChunk, Fits;
    NothingTaken(files[..0]);
    for i := 0 to |files|
      invariant Open(files[..i], calls, chunk, chunkBytes)
    {
      calls, chunk, chunkBytes := Push(files[..i], calls, chunk, chunkBytes, files[i]);
      TakenOneMore(files, i);
    }
    TakenAll(files);
    FlushIsGreedy(files, calls, chunk, chunkBytes);
    if chunk != [] { calls := calls + [chunk]; }
  }

  /** A chunk handed to the loop above is sent as the one call it already is. */
  lemma ChunkIsOneCall(chunk: seq<File>, calls: seq<seq<File>>)
    requires IsChunk(chunk) && Greedy(calls) && Concat(calls) == chunk
    ensures calls == [chunk]
  {
    OneCallMore([], chunk);
    assert [] + [chunk] == [chunk] && [] + chunk == chunk;
    OneChunkMore([], chunk);
    GreedyIsUnique(calls, [chunk]);
  }

  method Flush(calls0: seq<seq<File>>, recorded0: seq<File>, chunk: seq<File>)
    returns (calls: seq<seq<File>>, recorded: seq<File>)
    requires chunk != [] && IsChunk(chunk) && recorded0 == Concat(calls0)
    ensures calls == calls0 + [chunk] && recorded == Concat(calls)
  {
    OneCallMore(calls0, chunk);
    hide IsChunk, Greedy, Concat;
    var issued := WriteFilesBatched(chunk);
    ChunkIsOneCall(chunk, issued);
    calls, recorded := calls0 + issued, recorded0 + chunk;
  }

  /** The same turn, where a flush hands the chunk on and records its files. */
  method Request(
      ghost done: seq<File>, calls0: seq<seq<File>>, recorded0: seq<File>,
      chunk0: seq<File>, chunkBytes0: nat, file: File)
    returns (calls: seq<seq<File>>, recorded: seq<File>, chunk: seq<File>, chunkBytes: nat)
    requires Open(done, calls0, chunk0, chunkBytes0) && recorded0 == Concat(calls0)
    ensures Open(done + [file], calls, chunk, chunkBytes) && recorded == Concat(calls)
  {
    hide Open, Ready, Greedy, Concat, Total, IsChunk, Fits;
    calls, recorded, chunk, chunkBytes := calls0, recorded0, chunk0, chunkBytes0;
    if chunk != [] && chunkBytes + Size(file) > MAX_BATCH_PAYLOAD_BYTES {
      FlushMakesRoom(done, calls, chunk, chunkBytes, file);
      calls, recorded := Flush(calls, recorded, chunk);
      chunk, chunkBytes := [], 0;
    } else {
      RoomIsLeft(done, calls, chunk, chunkBytes, file);
    }
    TakeKeepsOpen(done, calls, chunk, chunkBytes, file);
    chunk, chunkBytes := chunk + [file], chunkBytes + Size(file);
    if Size(file) >= MAX_BATCH_PAYLOAD_BYTES {
      calls, recorded := Flush(calls, recorded, chunk);
      chunk, chunkBytes := [], 0;
    }
  }

  /**
   * Branch files go to the target chunk by chunk, each chunk through the loop
   * above, and its files are recorded only once its call has returned.
   */
  method MaterializeRequests(files: seq<File>) returns (calls: seq<seq<File>>, recorded: seq<File>)
    ensures Concat(calls) == files && Greedy(calls)
    ensures recorded == files
  {
    calls, recorded := [], [];
    var chunk: seq<File>, chunkBytes: nat := [], 0;
    NothingTaken(files[..0]);
    assert Concat(calls) == recorded;
    hide Open, Greedy, Concat, Total, IsChunk, Fits;
    for i := 0 to |files|
      invariant Open(files[..i], calls, chunk, chunkBytes)
      invariant recorded == Concat(calls)
    {
      calls, recorded, chunk, chunkBytes := Request(files[..i], calls, recorded, chunk, chunkBytes, files[i]);
      TakenOneMore(files, i);
    }
    TakenAll(files);
    FlushIsGreedy(files, calls, chunk, chunkBytes);
    if chunk != [] { calls, recorded := Flush(calls, recorded, chunk); }
  }

  // ---------------------------------------------------------------------
  // Fetching.

  function Names(files: seq<File>): seq<string> {
    seq(|files|, i requires 0 <= i < |files| => files[i].path)
  }

  /** What a target answers to a call for some paths. */
  type Answer = seq<string> -> map<string, string>

  predicate IsAnswered(answer: Answer, chunk: seq<File>) {
    forall name | name in Names(chunk) :: name in answer(Names(chunk))
  }

  /** The answers to the calls, restricted to what each asked for, later calls over earlier ones. */
  function Fetched(answer: Answer, calls: seq<seq<File>>): map<string, string> {
    if calls == [] then map[]
    else
      var chunk := calls[|calls| - 1];
      Fetched(answer, calls[..|calls| - 1]) + Restricted(answer(Names(chunk)), Names(chunk))
  }

  function Restricted(got: map<string, string>, names: seq<string>): map<string, string> {
    map name | name in names && name in got :: got[name]
  }

  lemma RestrictedOneMore(all: map<string, string>, got: map<string, string>, names: seq<string>, i: nat)
    requires i < |names| && names[i] in got
    ensures all + Restricted(got, names[..i + 1]) == (all + Restricted(got, names[..i]))[names[i] := got[names[i]]]
  {
    assert names[..i + 1] == names[..i] + [names[i]];
  }

  lemma FetchedOneMore(answer: Answer, calls: seq<seq<File>>, chunk: seq<File>)
    ensures Fetched(answer, calls + [chunk])
            == Fetched(answer, calls) + Restricted(answer(Names(chunk)), Names(chunk))
    ensures IsAnswered(answer, chunk) <==>
            forall i | 0 <= i < |Names(chunk)| :: Names(chunk)[i] in answer(Names(chunk))
  {
    assert (calls + [chunk])[..|calls|] == calls;
  }

  lemma NoneRestricted(all: map<string, string>, got: map<string, string>, names: seq<string>)
    requires names == []
    ensures all + Restricted(got, names) == all
  {
  }

  /** The files of one call: each must have come back. */
  method ReadChunk(answer: Answer, calls0: seq<seq<File>>, fetched0: map<string, string>, chunk: seq<File>)
    returns (missing: Option<string>, fetched: map<string, string>)
    requires fetched0 == Fetched(answer, calls0)
    ensures missing.None? <==> IsAnswered(answer, chunk)
    ensures missing.None? ==> fetched == Fetched(answer, calls0 + [chunk])
    ensures missing.Some? ==> missing.value in Names(chunk) && missing.value !in answer(Names(chunk))
  {
    var names := Names(chunk);
    var got := answer(names);
    fetched := fetched0;
    FetchedOneMore(answer, calls0, chunk);
    NoneRestricted(fetched0, got, names[..0]);
    hide Names, Fetched, Restricted, IsAnswered;
    for i := 0 to |names|
      invariant forall k | 0 <= k < i :: names[k] in got
      invariant fetched == fetched0 + Restricted(got, names[..i])
    {
      if names[i] !in got { return Some(names[i]), fetched; }
      RestrictedOneMore(fetched0, got, names, i);
      fetched := fetched[names[i] := got[names[i]]];
    }
    assert names[..|names|] == names;
    return None, fetched;
  }

  ghost predicate AllAnswered(answer: Answer, calls: seq<seq<File>>) {
    forall i | 0 <= i < |calls| :: IsAnswered(answer, calls[i])
  }

  /** The calls made and what came back, or the first file that did not and the call that asked for it. */
  datatype Reading =
    | Reading(calls: seq<seq<File>>, fetched: map<string, string>)
    | Missing(path: string, chunk: seq<File>)

  ghost predicate Sound(answer: Answer, reading: Reading) {
    match reading
    case Reading(calls, fetched) => AllAnswered(answer, calls) && fetched == Fetched(answer, calls)
    case Missing(path, chunk) => path in Names(chunk) && path !in answer(Names(chunk))
  }

  /** A flush of the read loop. */
  method FlushRead(answer: Answer, reading: Reading, chunk: seq<File>) returns (next: Reading)
    requires Sound(answer, reading) && reading.Reading?
    ensures Sound(answer, next)
    ensures next.Reading? ==> next.calls == reading.calls + [chunk]
  {
    var missing, fetched := ReadChunk(answer, reading.calls, reading.fetched, chunk);
    hide Fetched, IsAnswered;
    if missing.Some? { return Missing(missing.value, chunk); }
    return Reading(reading.calls + [chunk], fetched);
  }

  /** One turn of the read loop; a failed flush ends it. */
  method Fetch(
      answer: Answer, ghost done: seq<File>, reading: Reading, chunk0: seq<File>, chunkBytes0: nat, file: File)
    returns (next: Reading, chunk: seq<File>, chunkBytes: nat)
    requires Sound(answer, reading) && reading.Reading? && Open(done, reading.calls, chunk0, chunkBytes0)
    ensures Sound(answer, next)
    ensures next.Reading? ==> Open(done + [file], next.calls, chunk, chunkBytes)
  {
    hide Open, Ready, Greedy, Concat, Total, IsChunk, Fits, Sound;
    next, chunk, chunkBytes := reading, chunk0, chunkBytes0;
    if chunk != [] && chunkBytes + Size(file) > MAX_BATCH_PAYLOAD_BYTES {
      FlushMakesRoom(done, next.calls, chunk, chunkBytes, file);
      next := FlushRead(answer, next, chunk);
      if next.Missing? { return; }
      chunk, chunkBytes := [], 0;
    } else {
      RoomIsLeft(done, next.calls, chunk, chunkBytes, file);
    }
    TakeKeepsOpen(done, next.calls, chunk, chunkBytes, file);
    chunk, chunkBytes := chunk + [file], chunkBytes + Size(file);
    if Size(file) >= MAX_BATCH_PAYLOAD_BYTES {
      next := FlushRead(answer, next, chunk);
      if next.Missing? { return; }
      chunk, chunkBytes := [], 0;
    }
  }

  /** Files fetched in calls grouped by claimed size: every one of them, or none. */
  method ReadFilesBatched(requests: seq<File>, answer: Answer) returns (next: Reading)
    ensures Sound(answer, next)
    ensures next.Reading? ==> Greedy(next.calls) && Concat(next.calls) == requests
  {
    next := Reading([], map[]);
    var chunk: seq<File>, chunkBytes: nat := [], 0;
    NothingTaken(requests[..0]);
    assert Sound(answer, next);
    hide Open, Greedy, Concat, Total, IsChunk, Fits, Sound;
    for i := 0 to |requests|
      invariant next.Reading? && Sound(answer, next)
      invariant Open(requests[..i], next.calls, chunk, chunkBytes)
    {
      next, chunk, chunkBytes := Fetch(answer, requests[..i], next, chunk, chunkBytes, requests[i]);
      if next.Missing? { return; }
      TakenOneMore(requests, i);
    }
    TakenAll(requests);
    FlushIsGreedy(requests, next.calls, chunk, chunkBytes);
    if chunk != [] { next := FlushRead(answer, next, chunk); }
  }

  lemma NamesOfConcat(a: seq<File>, b: seq<File>, name: string)
    ensures name in Names(a + b) <==> name in Names(a) || name in Names(b)
  {
    if name in Names(a) {
      var i :| 0 <= i < |a| && Names(a)[i] == name;
      assert Names(a + b)[i] == name;
    }
    if name in Names(b) {
      var i :| 0 <= i < |b| && Names(b)[i] == name;
      assert Names(a + b)[|a| + i] == name;
    }
    if name in Names(a + b) {
      var i :| 0 <= i < |a + b| && Names(a + b)[i] == name;
      assert if i < |a| then Names(a)[i] == name else Names(b)[i - |a|] == name;
    }
  }

  /** A reading that completes holds exactly the requested paths: no answer can shrink a capture. */
  lemma {:induction false} FetchedIsComplete(answer: Answer, calls: seq<seq<File>>)
    requires AllAnswered(answer, calls)
    ensures forall name :: name in Fetched(answer, calls) <==> name in Names(Concat(calls))
  {
    if calls != [] {
      var before, chunk := calls[..|calls| - 1], calls[|calls| - 1];
      assert IsAnswered(answer, chunk);
      FetchedIsComplete(answer, before);
      forall name
        ensures name in Fetched(answer, calls) <==> name in Names(Concat(calls))
      {
        NamesOfConcat(Concat(before), chunk, name);
      }
    }
  }
}
