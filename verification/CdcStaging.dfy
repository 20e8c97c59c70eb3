/** The two chunkers of src/core.cpp, the two-pass `chunk_and_hash_file_core` and the fused
    single-pass `stage_cdc_core_parts_only`, around the one automaton `CdcCutter`. */
module CdcStaging {
  import opened Sha256Fips
  import opened Cdc
  import opened ObjectStore

  ghost function LargestPower(avg: nat, k: nat): positive {
    if k == 0 || Power(k) <= avg then Power(k) else LargestPower(avg, k - 1)
  }

  /** The largest power of two not above `avg`, or 1. */
  ghost function MaskSize(avg: nat): positive { LargestPower(avg, 62) }

  lemma {:induction false} LargestPowerIs(avg: nat, k: nat, n: nat)
    requires k <= n && (k == 0 || Power(k) <= avg) && 2 * Power(k) > avg
    ensures LargestPower(avg, n) == Power(k)
    decreases n
  {
    if k < n {
      PowerGrows(k + 1, n);
      LargestPowerIs(avg, k, n - 1);
    }
  }

  /** The constructor's loop. */
  method MaskLoop(avg: nat) returns (pow2: nat)
    requires avg < TWO64 / 2
    ensures pow2 == MaskSize(avg)
  {
    pow2 := 1;
    ghost var k := 0;
    Power63();
    while pow2 * 2 % TWO64 <= avg
      invariant pow2 == Power(k) && k < 63 && (k == 0 || pow2 <= avg)
      decreases 63 - k
    {
      PowerGrows(k + 1, 63);
      pow2 := pow2 * 2 % TWO64;
      k := k + 1;
    }
    LargestPowerIs(avg, k, 62);
  }

  /** CdcCutter: `fed` is every byte fed so far. */
  class Cutter {
    const p: Params
    const fileSize: nat
    const lastValidCutPos: nat
    var hash: nat
    var chunkStart: nat
    var pos: nat
    ghost var fed: seq<byte>

    ghost predicate Valid()
      reads this
    {
      lastValidCutPos == LastValidCut(p, fileSize) &&
      chunkStart <= pos == |fed| && hash == GearHash(p.gear, fed[chunkStart..])
    }

    /** The mask comes from the largest power of two not above the average. The loop does not end for
        averages from 2^63 on (see `Cdc.MaskLoopEndsIff`). */
    constructor (min: nat, avg: nat, max: nat, gear: byte -> nat, fileSize: nat)
      requires avg < TWO64 / 2
      ensures Valid() && fed == [] && chunkStart == 0
      ensures this.fileSize == fileSize && p == Params(MaskSize(avg), min, max, gear)
    {
      var pow2 := MaskLoop(avg);
      p := Params(pow2, min, max, gear);
      this.fileSize := fileSize;
      lastValidCutPos := if fileSize > min then fileSize - min else 0;
      hash, chunkStart, pos := 0, 0, 0;
      fed := [];
    }

    /** Feeds one byte; true exactly when a chunk ends right after it. */
    method Feed(b: byte) returns (cut: bool)
      requires Valid()
      modifies this
      ensures Valid() && fed == old(fed) + [b]
      ensures cut == CutAt(p, fileSize, old(chunkStart), pos, GearHash(p.gear, fed[old(chunkStart)..]))
      ensures chunkStart == if cut then pos else old(chunkStart)
    {
      hash := (2 * hash + p.gear(b)) % TWO64;
      fed := fed + [b];
      assert fed[chunkStart..][..|fed| - 1 - chunkStart] == old(fed[chunkStart..]);
      pos := pos + 1;
      var sizeSoFar := pos - chunkStart;
      var enoughLeft := fileSize - pos >= p.min;
      var boundary := hash % p.pow2 == 0 && sizeSoFar >= p.min && sizeSoFar < p.max;
      var overflow := sizeSoFar >= p.max;
      var lastChance := pos == lastValidCutPos && sizeSoFar >= p.min && sizeSoFar + p.min > p.max;
      if (boundary || overflow || lastChance) && enoughLeft && pos < fileSize {
        chunkStart := pos;
        hash := 0;
        return true;
      }
      return false;
    }
  }

  // ---------- what both chunkers compute ----------

  predicate BadSizes(min: nat, avg: nat, max: nat) { min == 0 || avg < min || max < avg }

  ghost function ParamsOf(min: nat, avg: nat, max: nat, gear: byte -> nat): Params {
    Params(MaskSize(avg), min, max, gear)
  }

  /** No cut of the current chunk between its start and `pos`. */
  ghost predicate Uncut(p: Params, data: seq<byte>, start: nat, pos: nat)
    requires start <= pos <= |data|
  {
    forall q :: start < q <= pos ==> !Cut(p, data, start, q)
  }

  /** The automaton over a prefix of the file it was built for. */
  ghost predicate Follows(cutter: Cutter, data: seq<byte>)
    reads cutter
  {
    cutter.Valid() && cutter.fileSize == |data| && cutter.pos <= |data| && cutter.fed == data[..cutter.pos] &&
    Uncut(cutter.p, data, cutter.chunkStart, cutter.pos)
  }

  lemma EndIs(p: Params, data: seq<byte>, start: nat, e: nat)
    requires start < e <= |data| && Uncut(p, data, start, e - 1) && (e == |data| || Cut(p, data, start, e))
    ensures End(p, data, start) == e
  {
    var n := End(p, data, start);
    assert n < |data| ==> Cut(p, data, start, n);
  }

  /** One step of the automaton over the file. */
  method Advance(cutter: Cutter, ghost data: seq<byte>, b: byte) returns (cut: bool)
    requires Follows(cutter, data) && cutter.pos < |data| && b == data[cutter.pos]
    modifies cutter
    ensures Follows(cutter, data) && cutter.pos == old(cutter.pos) + 1
    ensures cut <==> Cut(cutter.p, data, old(cutter.chunkStart), cutter.pos)
    ensures cut ==> cutter.pos < |data| && End(cutter.p, data, old(cutter.chunkStart)) == cutter.pos
    ensures cutter.chunkStart == if cut then cutter.pos else old(cutter.chunkStart)
  {
    ghost var start := cutter.chunkStart;
    cut := cutter.Feed(b);
    assert data[..cutter.pos] == data[..cutter.pos - 1] + [b];
    assert cutter.fed[start..] == data[start..cutter.pos];
    if cut {
      EndIs(cutter.p, data, start, cutter.pos);
    }
  }

  // ---------- the two-pass chunker ----------

  datatype ChunkResult = ChunkResult(hash: string, size: nat, offset: nat)

  ghost function ResultsOf(chunks: seq<Chunk>, hash: Digest): (r: seq<ChunkResult>)
    ensures |r| == |chunks|
    ensures forall i :: 0 <= i < |chunks| ==>
      r[i] == ChunkResult(hash(chunks[i].content), |chunks[i].content|, chunks[i].offset)
  {
    seq(|chunks|, i requires 0 <= i < |chunks| =>
      ChunkResult(hash(chunks[i].content), |chunks[i].content|, chunks[i].offset))
  }

  /** The offsets so far: all but the last begin finished chunks, the last begins the current one. */
  ghost predicate Found(p: Params, data: seq<byte>, offsets: seq<nat>, start: nat)
    requires start <= |data|
  {
    |offsets| > 0 && offsets[|offsets| - 1] == start &&
    Offsets(p, data, 0) == offsets[..|offsets| - 1] + Offsets(p, data, start)
  }

  lemma Regroup(xs: seq<nat>, ys: seq<nat>)
    requires |xs| > 0 && |ys| > 0
    ensures xs[..|xs| - 1] + ([xs[|xs| - 1]] + ys) == (xs + [ys[0]])[..|xs|] + ys
  {
  }

  lemma FoundNext(p: Params, data: seq<byte>, offsets: seq<nat>, start: nat)
    requires start <= |data| && Found(p, data, offsets, start) && End(p, data, start) < |data|
    ensures Found(p, data, offsets + [End(p, data, start)], End(p, data, start))
  {
    var e := End(p, data, start);
    Regroup(offsets, Offsets(p, data, e));
  }

  lemma FoundAll(p: Params, data: seq<byte>, offsets: seq<nat>, start: nat)
    requires start <= |data| && Found(p, data, offsets, start) && End(p, data, start) == |data|
    ensures offsets == Offsets(p, data, 0)
  {
    assert Offsets(p, data, start) == [start];
  }

  method FeedAll(cutter: Cutter, ghost content: seq<byte>, buffer: seq<byte>, found: seq<nat>)
    returns (offsets: seq<nat>)
    requires Follows(cutter, content) && Found(cutter.p, content, found, cutter.chunkStart)
    requires cutter.pos + |buffer| <= |content| && buffer == content[cutter.pos..cutter.pos + |buffer|]
    modifies cutter
    ensures Follows(cutter, content) && Found(cutter.p, content, offsets, cutter.chunkStart)
    ensures cutter.pos == old(cutter.pos) + |buffer|
  {
    offsets := found;
    for i := 0 to |buffer|
      invariant cutter.pos == old(cutter.pos) + i && Follows(cutter, content)
      invariant Found(cutter.p, content, offsets, cutter.chunkStart)
    {
      ghost var start := cutter.chunkStart;
      var cut := Advance(cutter, content, buffer[i]);
      if cut {
        FoundNext(cutter.p, content, offsets, start);
        offsets := offsets + [cutter.pos];
      }
    }
  }

  /** At the end of the file the current chunk is the last one. */
  lemma LastChunk(cutter: Cutter, data: seq<byte>)
    requires Follows(cutter, data) && cutter.pos == |data|
    ensures End(cutter.p, data, cutter.chunkStart) == |data|
  {
  }

  /** Pass 1: the beginnings of all chunks. */
  method FindOffsets(content: seq<byte>, min: nat, avg: nat, max: nat, gear: byte -> nat, readBuf: positive)
    returns (offsets: seq<nat>)
    requires avg < TWO64 / 2
    ensures offsets == Offsets(ParamsOf(min, avg, max, gear), content, 0)
  {
    offsets := [0];
    var cutter := new Cutter(min, avg, max, gear, |content|);
    var file := new Input(content);
    while file.good
      invariant file.at == cutter.pos && file.content == content && Follows(cutter, content)
      invariant Found(cutter.p, content, offsets, cutter.chunkStart)
      invariant !file.good ==> file.at == |content|
      decreases |content| - file.at, if file.good then 1 else 0
    {
      var buffer := file.Read(readBuf);
      offsets := FeedAll(cutter, content, buffer, offsets);
    }
    LastChunk(cutter, content);
    FoundAll(cutter.p, content, offsets, cutter.chunkStart);
  }

  /** Pass 2, one task: the digest of one range, read in pieces. */
  method HashRange(content: seq<byte>, start: nat, end: nat, hash: Digest, bufSize: positive) returns (text: string)
    requires start <= end <= |content|
    ensures text == hash(content[start..end])
  {
    var sha := new Hashing(hash);
    var file := new Input(content);
    file.at := start;
    var remaining := end - start;
    while remaining > 0
      invariant remaining == end - file.at && start <= file.at <= end && file.content == content
      invariant sha.fed == content[start..file.at] && sha.hash == hash
    {
      var piece := file.Read(if bufSize < remaining then bufSize else remaining);
      sha.Update(piece);
      remaining := remaining - |piece|;
    }
    text := sha.HexDigest();
  }

  predicate IsAt(chunk: Chunk, offsets: seq<nat>, data: seq<byte>, i: nat)
    requires i < |offsets|
  {
    var e := if i + 1 < |offsets| then offsets[i + 1] else |data|;
    offsets[i] <= e <= |data| && chunk == Chunk(offsets[i], data[offsets[i]..e])
  }

  /** Each chunk is the range from its offset to the next, the last one to the end of the file. */
  ghost predicate AreAt(chunks: seq<Chunk>, offsets: seq<nat>, data: seq<byte>) {
    |chunks| == |offsets| && forall i: nat :: i < |chunks| ==> IsAt(chunks[i], offsets, data, i)
  }

  lemma {:induction false} ChunksAtOffsets(p: Params, data: seq<byte>, start: nat)
    requires start <= |data|
    ensures AreAt(Chunks(p, data, start), Offsets(p, data, start), data)
    decreases |data| - start
  {
    var e := End(p, data, start);
    var chunks, offsets := Chunks(p, data, start), Offsets(p, data, start);
    if e < |data| {
      ChunksAtOffsets(p, data, e);
      forall i: nat | 0 < i < |chunks| ensures IsAt(chunks[i], offsets, data, i) {
        assert IsAt(chunks[1..][i - 1], offsets[1..], data, i - 1);
      }
    }
  }

  /** Pass 2: hash each range independently. */
  method HashAll(content: seq<byte>, offsets: seq<nat>, hash: Digest, readBuf: positive, ghost chunks: seq<Chunk>)
    returns (results: seq<ChunkResult>)
    requires AreAt(chunks, offsets, content)
    ensures results == ResultsOf(chunks, hash)
  {
    results := [];
    for i := 0 to |offsets|
      invariant |results| == i && forall j :: 0 <= j < i ==> results[j] == ResultsOf(chunks, hash)[j]
    {
      var start := offsets[i];
      var end := if i + 1 < |offsets| then offsets[i + 1] else |content|;
      assert IsAt(chunks[i], offsets, content, i);
      var text := HashRange(content, start, end, hash, readBuf);
      results := results + [ChunkResult(text, end - start, start)];
    }
  }

  /** chunk_and_hash_file_core */
  method ChunkAndHash(content: seq<byte>, min: nat, avg: nat, max: nat, gear: byte -> nat, hash: Digest,
                      readBuf: positive)
    returns (r: Result<seq<ChunkResult>>)
    requires avg < TWO64 / 2
    ensures r == if BadSizes(min, avg, max) then Err(InvalidChunkSizes)
                 else Ok(ResultsOf(Chunks(ParamsOf(min, avg, max, gear), content, 0), hash))
  {
    if min == 0 || avg < min || max < avg {
      return Err(InvalidChunkSizes);
    }
    var offsets := FindOffsets(content, min, avg, max, gear, readBuf);
    ghost var p := ParamsOf(min, avg, max, gear);
    ChunksAtOffsets(p, content, 0);
    var results := HashAll(content, offsets, hash, readBuf, Chunks(p, content, 0));
    return Ok(results);
  }

  // ---------- the fused chunker ----------

  ghost function PartOf(chunks: seq<Chunk>, hash: Digest, objects: Objects, i: nat): StagedPart
    requires i < |chunks|
  {
    var c := chunks[i];
    StagedPart(hash(c.content), hash(c.content), |c.content|, c.offset, IsNew(objects, hash, Contents(chunks), i))
  }

  /** The parts of a fully staged file: the results of the two-pass chunker, with what was new in the store. */
  ghost function PartsOf(chunks: seq<Chunk>, hash: Digest, objects: Objects): (parts: seq<StagedPart>)
    ensures |parts| == |chunks|
    ensures forall i :: 0 <= i < |chunks| ==> parts[i] == PartOf(chunks, hash, objects, i)
  {
    seq(|chunks|, i requires 0 <= i < |chunks| => PartOf(chunks, hash, objects, i))
  }

  lemma OneMoreChunk(done: seq<Chunk>, c: Chunk, hash: Digest, objects: Objects)
    ensures Contents(done + [c]) == Contents(done) + [c.content]
    ensures PutAll(objects, hash, Contents(done + [c])) == Put(PutAll(objects, hash, Contents(done)), hash, c.content)
    ensures PartsOf(done + [c], hash, objects) == PartsOf(done, hash, objects) +
      [StagedPart(hash(c.content), hash(c.content), |c.content|, c.offset,
                  hash(c.content) !in PutAll(objects, hash, Contents(done)))]
    ensures BytesWritten(objects, hash, Contents(done + [c])) == BytesWritten(objects, hash, Contents(done)) +
      if hash(c.content) in PutAll(objects, hash, Contents(done)) then 0 else |c.content|
  {
    var more := Contents(done + [c]);
    assert more == Contents(done) + [c.content];
    assert more[..|done|] == Contents(done);
    forall i | 0 <= i < |done|
      ensures PartOf(done + [c], hash, objects, i) == PartOf(done, hash, objects, i)
    {
      assert more[..i] == Contents(done)[..i];
    }
  }

  /** The state of a staging run: `done` chunks have been flushed. */
  class Staging {
    const directory: Directory
    const chunkSha: Hashing
    var chunkBuffer: seq<byte>
    var chunkOffset: nat
    var bytesWritten: nat
    var parts: seq<StagedPart>
    ghost const before: Objects
    ghost const tempsBefore: map<nat, seq<byte>>
    ghost var done: seq<Chunk>

    ghost predicate Valid()
      reads this, directory, chunkSha
    {
      chunkSha.hash == directory.hash && chunkSha.fed == chunkBuffer &&
      parts == PartsOf(done, directory.hash, before) &&
      directory.objects == PutAll(before, directory.hash, Contents(done)) && directory.temps == tempsBefore &&
      bytesWritten == BytesWritten(before, directory.hash, Contents(done))
    }

    constructor (directory: Directory)
      ensures Valid() && fresh(chunkSha) && this.directory == directory && before == directory.objects
      ensures done == [] && chunkBuffer == [] && chunkOffset == 0 && tempsBefore == directory.temps
    {
      this.directory := directory;
      chunkSha := new Hashing(directory.hash);
      chunkBuffer, chunkOffset, bytesWritten, parts, done := [], 0, 0, [], [];
      before, tempsBefore := directory.objects, directory.temps;
    }

    /** A contiguous run of bytes into the current chunk. */
    method Append(run: seq<byte>)
      requires Valid()
      modifies this`chunkBuffer, chunkSha
      ensures Valid() && chunkBuffer == old(chunkBuffer) + run
    {
      chunkSha.Update(run);
      chunkBuffer := chunkBuffer + run;
    }

    /** flush_chunk: publish the current chunk and start the next. */
    method Flush() returns (ok: bool)
      requires Valid()
      modifies this, directory, chunkSha
      ensures directory.temps == tempsBefore
      ensures !ok ==> directory.objects == old(directory.objects) && done == old(done) && !directory.reliable
      ensures ok ==> Valid() && chunkBuffer == []
      ensures ok ==> done == old(done) + [Chunk(old(chunkOffset), old(chunkBuffer))]
      ensures ok ==> chunkOffset == old(chunkOffset) + |old(chunkBuffer)|
    {
      var text := chunkSha.HexDigest();
      var r := directory.Publish(text, chunkBuffer);
      ok := r.Ok?;
      if ok {
        PushPart(text, r.value);
        chunkSha.Reset();
      }
    }

    /** The bookkeeping after a chunk has been published. */
    method PushPart(text: string, written: bool)
      requires text == directory.hash(chunkBuffer) && parts == PartsOf(done, directory.hash, before)
      requires written == (text !in PutAll(before, directory.hash, Contents(done)))
      requires directory.objects == Put(PutAll(before, directory.hash, Contents(done)), directory.hash, chunkBuffer)
      requires bytesWritten == BytesWritten(before, directory.hash, Contents(done))
      modifies this
      ensures done == old(done) + [Chunk(old(chunkOffset), old(chunkBuffer))]
      ensures chunkBuffer == [] && chunkOffset == old(chunkOffset) + |old(chunkBuffer)|
      ensures parts == PartsOf(done, directory.hash, before)
      ensures directory.objects == PutAll(before, directory.hash, Contents(done))
      ensures bytesWritten == BytesWritten(before, directory.hash, Contents(done))
    {
      ghost var chunk := Chunk(chunkOffset, chunkBuffer);
      OneMoreChunk(done, chunk, directory.hash, before);
      if written {
        bytesWritten := bytesWritten + |chunkBuffer|;
      }
      parts := parts + [StagedPart(text, text, |chunkBuffer|, chunkOffset, written)];
      chunkOffset := chunkOffset + |chunkBuffer|;
      done := done + [chunk];
      chunkBuffer := [];
    }
  }

  /** The run so far: flushed chunks first, then the rest of the file from the current chunk on. */
  ghost predicate Linked(p: Params, data: seq<byte>, done: seq<Chunk>, start: nat)
    requires start <= |data|
  {
    Chunks(p, data, 0) == done + Chunks(p, data, start)
  }

  lemma Reassociate(xs: seq<Chunk>, x: Chunk, ys: seq<Chunk>)
    ensures xs + ([x] + ys) == (xs + [x]) + ys
  {
  }

  lemma LinkedNext(p: Params, data: seq<byte>, done: seq<Chunk>, start: nat)
    requires start <= |data| && Linked(p, data, done, start)
    ensures var e := End(p, data, start);
      if e < |data| then Linked(p, data, done + [Chunk(start, data[start..e])], e)
      else Chunks(p, data, 0) == done + [Chunk(start, data[start..e])]
  {
    var e := End(p, data, start);
    if e < |data| {
      Reassociate(done, Chunk(start, data[start..e]), Chunks(p, data, e));
    }
  }

  /** The current chunk began at `start`, and everything up to `upTo` is in the hashes and buffers. */
  ghost predicate Filled(p: Params, staging: Staging, whole: Hashing, data: seq<byte>, start: nat, upTo: nat)
    reads staging, staging.directory, staging.chunkSha, whole
  {
    staging.Valid() && start <= upTo <= |data| && staging.chunkSha != whole &&
    whole.hash == staging.directory.hash && whole.fed == data[..upTo] &&
    staging.chunkOffset == start && staging.chunkBuffer == data[start..upTo] &&
    Linked(p, data, staging.done, start)
  }

  /** Only a failing file system stops a run; it leaves the objects of the first chunks and no temporary file. */
  ghost predicate PartlyStaged(directory: Directory, before: Objects, temps: map<nat, seq<byte>>, chunks: seq<Chunk>)
    reads directory
  {
    !directory.reliable && directory.temps == temps &&
    exists n :: 0 <= n <= |chunks| && directory.objects == PutAll(before, directory.hash, Contents(chunks[..n]))
  }

  /** A contiguous run of bytes goes to both hashes and to the buffer. */
  method PassRun(staging: Staging, whole: Hashing, run: seq<byte>, ghost p: Params, ghost data: seq<byte>,
                 ghost start: nat, ghost upTo: nat)
    requires Filled(p, staging, whole, data, start, upTo)
    requires upTo + |run| <= |data| && run == data[upTo..upTo + |run|]
    modifies staging`chunkBuffer, staging.chunkSha, whole
    ensures Filled(p, staging, whole, data, start, upTo + |run|)
  {
    assert data[..upTo + |run|] == data[..upTo] + run;
    assert data[start..upTo + |run|] == data[start..upTo] + run;
    whole.Update(run);
    staging.Append(run);
  }

  /** A chunk is complete. */
  method EndChunk(staging: Staging, whole: Hashing, ghost p: Params, ghost data: seq<byte>, ghost start: nat,
                  ghost e: nat)
    returns (ok: bool)
    requires start <= |data| && e == End(p, data, start) && Filled(p, staging, whole, data, start, e)
    modifies staging, staging.directory, staging.chunkSha
    ensures ok && e < |data| ==> Filled(p, staging, whole, data, e, e)
    ensures ok && e == |data| ==> staging.Valid() && staging.done == Chunks(p, data, 0)
    ensures !ok ==> PartlyStaged(staging.directory, staging.before, staging.tempsBefore, Chunks(p, data, 0))
  {
    LinkedNext(p, data, staging.done, start);
    ghost var done := staging.done;
    assert Chunks(p, data, 0)[..|done|] == done;
    ok := staging.Flush();
  }

  lemma SliceOfSlice(s: seq<byte>, t: seq<byte>, base: nat, i: nat, j: nat)
    requires i <= j <= |t| && base + |t| <= |s| && t == s[base..base + |t|]
    ensures t[i..j] == s[base + i..base + j]
  {
    forall k | i <= k < j
      ensures t[k] == s[base + k]
    {
    }
  }

  /** The rest of a chunk, and its end. */
  method StageCut(staging: Staging, whole: Hashing, run: seq<byte>, ghost p: Params, ghost data: seq<byte>,
                  ghost start: nat,
                  ghost upTo: nat, ghost e: nat) returns (ok: bool)
    requires start <= |data| && e == End(p, data, start) < |data|
    requires upTo + |run| == e && run == data[upTo..e] && Filled(p, staging, whole, data, start, upTo)
    modifies staging, staging.directory, staging.chunkSha, whole
    ensures ok ==> Filled(p, staging, whole, data, e, e)
    ensures !ok ==> PartlyStaged(staging.directory, staging.before, staging.tempsBefore, Chunks(p, data, 0))
  {
    PassRun(staging, whole, run, p, data, start, upTo);
    ok := EndChunk(staging, whole, p, data, start, e);
  }

  /** One byte of a read buffer; a cut passes the run up to it on and ends the chunk. */
  method StageByte(cutter: Cutter, staging: Staging, whole: Hashing, buffer: seq<byte>, i: nat, runStart: nat,
                   ghost data: seq<byte>, ghost base: nat)
    returns (newRunStart: nat, ok: bool)
    requires Follows(cutter, data) && cutter.pos == base + i
    requires runStart <= i < |buffer| && base + |buffer| <= |data| && buffer == data[base..base + |buffer|]
    requires Filled(cutter.p, staging, whole, data, cutter.chunkStart, base + runStart)
    modifies cutter, staging, staging.directory, staging.chunkSha, whole
    ensures Follows(cutter, data) && cutter.pos == base + i + 1
    ensures newRunStart <= i + 1
    ensures ok ==> Filled(cutter.p, staging, whole, data, cutter.chunkStart, base + newRunStart)
    ensures !ok ==> PartlyStaged(staging.directory, staging.before, staging.tempsBefore, Chunks(cutter.p, data, 0))
  {
    ghost var start := cutter.chunkStart;
    var cut := Advance(cutter, data, buffer[i]);
    newRunStart, ok := runStart, true;
    if cut {
      SliceOfSlice(data, buffer, base, runStart, i + 1);
      newRunStart := i + 1;
      ok := StageCut(staging, whole, buffer[runStart..i + 1], cutter.p, data, start, base + runStart, base + i + 1);
    }
  }

  method StageRuns(cutter: Cutter, staging: Staging, whole: Hashing, buffer: seq<byte>, ghost data: seq<byte>)
    returns (runStart: nat, ok: bool)
    requires Follows(cutter, data) && Filled(cutter.p, staging, whole, data, cutter.chunkStart, cutter.pos)
    requires cutter.pos + |buffer| <= |data| && buffer == data[cutter.pos..cutter.pos + |buffer|]
    modifies cutter, staging, staging.directory, staging.chunkSha, whole
    ensures Follows(cutter, data) && cutter.pos <= old(cutter.pos) + |buffer| && runStart <= |buffer|
    ensures ok ==> Filled(cutter.p, staging, whole, data, cutter.chunkStart, old(cutter.pos) + runStart)
    ensures ok ==> cutter.pos == old(cutter.pos) + |buffer|
    ensures !ok ==> PartlyStaged(staging.directory, staging.before, staging.tempsBefore, Chunks(cutter.p, data, 0))
  {
    ghost var base := cutter.pos;
    runStart, ok := 0, true;
    var i := 0;
    while ok && i < |buffer|
      invariant 0 <= runStart <= i <= |buffer|
      invariant Follows(cutter, data) && cutter.pos == base + i
      invariant ok ==> Filled(cutter.p, staging, whole, data, cutter.chunkStart, base + runStart)
      invariant !ok ==> PartlyStaged(staging.directory, staging.before, staging.tempsBefore, Chunks(cutter.p, data, 0))
    {
      runStart, ok := StageByte(cutter, staging, whole, buffer, i, runStart, data, base);
      i := i + 1;
    }
  }

  /** One read buffer: runs between cuts are passed on whole. */
  method StageBuffer(cutter: Cutter, staging: Staging, whole: Hashing, buffer: seq<byte>, ghost data: seq<byte>)
    returns (ok: bool)
    requires Follows(cutter, data) && Filled(cutter.p, staging, whole, data, cutter.chunkStart, cutter.pos)
    requires cutter.pos + |buffer| <= |data| && buffer == data[cutter.pos..cutter.pos + |buffer|]
    modifies cutter, staging, staging.directory, staging.chunkSha, whole
    ensures Follows(cutter, data) && cutter.pos <= old(cutter.pos) + |buffer|
    ensures ok ==> Filled(cutter.p, staging, whole, data, cutter.chunkStart, cutter.pos)
    ensures ok ==> cutter.pos == old(cutter.pos) + |buffer|
    ensures !ok ==> PartlyStaged(staging.directory, staging.before, staging.tempsBefore, Chunks(cutter.p, data, 0))
  {
    ghost var base := cutter.pos;
    var runStart;
    runStart, ok := StageRuns(cutter, staging, whole, buffer, data);
    if ok && runStart < |buffer| {
      SliceOfSlice(data, buffer, base, runStart, |buffer|);
      PassRun(staging, whole, buffer[runStart..], cutter.p, data, cutter.chunkStart, base + runStart);
    }
  }

  /** What a successful run has done: for every buffer size the parts are the chunks of the two-pass
      chunker, the whole hash is the file's, and the store has received the chunks. */
  ghost predicate Staged(directory: Directory, before: Objects, temps: map<nat, seq<byte>>, content: seq<byte>,
                         chunks: seq<Chunk>, result: StageResult)
    reads directory
  {
    result.wholeHash == directory.hash(content) &&
    result.parts == PartsOf(chunks, directory.hash, before) &&
    result.bytesWritten == BytesWritten(before, directory.hash, Contents(chunks)) &&
    directory.objects == PutAll(before, directory.hash, Contents(chunks)) &&
    directory.temps == temps
  }

  method StageReads(content: seq<byte>, cutter: Cutter, staging: Staging, whole: Hashing, readBuf: positive)
    returns (ok: bool)
    requires Follows(cutter, content) && cutter.pos == 0 && Filled(cutter.p, staging, whole, content, 0, 0)
    requires cutter.chunkStart == 0
    modifies cutter, staging, staging.directory, staging.chunkSha, whole
    ensures ok ==> Follows(cutter, content) && cutter.pos == |content|
    ensures ok ==> Filled(cutter.p, staging, whole, content, cutter.chunkStart, |content|)
    ensures !ok ==> PartlyStaged(staging.directory, staging.before, staging.tempsBefore, Chunks(cutter.p, content, 0))
  {
    var file := new Input(content);
    ok := true;
    var more := true;
    while file.good && more && ok
      invariant file.content == content && (ok ==> file.at == cutter.pos) && Follows(cutter, content)
      invariant ok ==> Filled(cutter.p, staging, whole, content, cutter.chunkStart, cutter.pos)
      invariant !ok ==> PartlyStaged(staging.directory, staging.before, staging.tempsBefore,
        Chunks(cutter.p, content, 0))
      invariant file.at <= |content| && (!file.good || !more ==> file.at == |content|)
      decreases |content| - file.at, if file.good then 1 else 0, if more then 1 else 0
    {
      var buffer := file.Read(readBuf);
      more := |buffer| > 0;
      if more {
        ok := StageBuffer(cutter, staging, whole, buffer, content);
      }
    }
  }

  /** The read loop, and the final chunk: whatever is left after the last cut. */
  method StageChunks(content: seq<byte>, cutter: Cutter, staging: Staging, whole: Hashing, readBuf: positive)
    returns (ok: bool)
    requires Follows(cutter, content) && cutter.pos == 0 && Filled(cutter.p, staging, whole, content, 0, 0)
    modifies cutter, staging, staging.directory, staging.chunkSha, whole
    ensures ok ==> staging.Valid() && staging.done == Chunks(cutter.p, content, 0) && whole.fed == content
    ensures !ok ==> PartlyStaged(staging.directory, staging.before, staging.tempsBefore, Chunks(cutter.p, content, 0))
  {
    ok := StageReads(content, cutter, staging, whole, readBuf);
    if ok {
      LastChunk(cutter, content);
      ok := EndChunk(staging, whole, cutter.p, content, cutter.chunkStart, |content|);
    }
  }

  /** stage_cdc_core_parts_only: cut, hash and publish in one pass. */
  method StageCdc(content: seq<byte>, directory: Directory, min: nat, avg: nat, max: nat, gear: byte -> nat,
                  readBuf: positive)
    returns (r: Result<StageResult>)
    requires avg < TWO64 / 2
    modifies directory
    ensures BadSizes(min, avg, max) ==> r == Err(InvalidChunkSizes) && unchanged(directory)
    ensures r.Ok? ==> Staged(directory, old(directory.objects), old(directory.temps), content,
                             Chunks(ParamsOf(min, avg, max, gear), content, 0), r.value)
    ensures r == Err(Io) || r.Ok? || BadSizes(min, avg, max)
    ensures directory.reliable && !BadSizes(min, avg, max) ==> r.Ok?
    ensures r == Err(Io) ==> PartlyStaged(directory, old(directory.objects), old(directory.temps),
                                          Chunks(ParamsOf(min, avg, max, gear), content, 0))
  {
    if min == 0 || avg < min || max < avg {
      return Err(InvalidChunkSizes);
    }
    var cutter := new Cutter(min, avg, max, gear, |content|);
    var whole := new Hashing(directory.hash);
    var staging := new Staging(directory);
    var ok := StageChunks(content, cutter, staging, whole, readBuf);
    if !ok {
      return Err(Io);
    }
    var wholeHash := whole.HexDigest();
    return Ok(StageResult(wholeHash, staging.parts, staging.bytesWritten));
  }

  // ---------- what a staged file is good for ----------

  function Forget(part: StagedPart): ChunkResult { ChunkResult(part.hash, part.size, part.offset) }

  function Forgotten(parts: seq<StagedPart>): (r: seq<ChunkResult>)
    ensures |r| == |parts| && forall i :: 0 <= i < |parts| ==> r[i] == Forget(parts[i])
  {
    seq(|parts|, i requires 0 <= i < |parts| => Forget(parts[i]))
  }

  lemma FusedRefinesTwoPass(chunks: seq<Chunk>, hash: Digest, objects: Objects)
    ensures Forgotten(PartsOf(chunks, hash, objects)) == ResultsOf(chunks, hash)
  {
  }

  /** Reading every part of a staged file back, in order, gives the file. */
  lemma StagedFileReadsBack(p: Params, content: seq<byte>, hash: Digest, objects: Objects)
    requires NoCollision(objects, hash, Contents(Chunks(p, content, 0)))
    ensures var contents := Contents(Chunks(p, content, 0));
      var after := PutAll(objects, hash, contents);
      (forall i :: 0 <= i < |contents| ==> hash(contents[i]) in after) &&
      Concat(seq(|contents|, i requires 0 <= i < |contents| => after[hash(contents[i])])) == content
  {
    var contents := Contents(Chunks(p, content, 0));
    var after := PutAll(objects, hash, contents);
    forall i | 0 <= i < |contents|
      ensures hash(contents[i]) in after && after[hash(contents[i])] == contents[i]
    {
      ReadBack(objects, hash, contents, i);
    }
    assert seq(|contents|, i requires 0 <= i < |contents| => after[hash(contents[i])]) == contents;
    ChunksTile(p, content, 0);
  }

  lemma {:induction false} ChunksWithinCap(p: Params, data: seq<byte>, start: nat)
    requires Valid(p) && start <= |data| && 2 * p.min <= p.max + 1
    ensures forall c <- Chunks(p, data, start) :: |c.content| <= p.max
    decreases |data| - start
  {
    ChunkBounds(p, data, start);
    if End(p, data, start) < |data| {
      ChunksWithinCap(p, data, End(p, data, start));
    }
  }

  function TotalSize(parts: seq<StagedPart>): nat { if parts == [] then 0 else parts[0].size + TotalSize(parts[1..]) }

  lemma {:induction false} SizesAddUp(parts: seq<StagedPart>, contents: seq<seq<byte>>)
    requires |parts| == |contents| && forall i :: 0 <= i < |parts| ==> parts[i].size == |contents[i]|
    ensures TotalSize(parts) == |Concat(contents)|
  {
    if parts != [] {
      SizesAddUp(parts[1..], contents[1..]);
    }
  }

  /** The part sizes add up to the file size. */
  lemma PartsCoverFile(p: Params, content: seq<byte>, hash: Digest, objects: Objects)
    ensures TotalSize(PartsOf(Chunks(p, content, 0), hash, objects)) == |content|
  {
    var chunks := Chunks(p, content, 0);
    ChunksTile(p, content, 0);
    SizesAddUp(PartsOf(chunks, hash, objects), Contents(chunks));
  }

  lemma PartSize(p: Params, content: seq<byte>, hash: Digest, objects: Objects, part: StagedPart) returns (c: Chunk)
    requires part in PartsOf(Chunks(p, content, 0), hash, objects)
    ensures c in Chunks(p, content, 0) && part.size == |c.content|
  {
    var chunks := Chunks(p, content, 0);
    var i :| 0 <= i < |chunks| && part == PartsOf(chunks, hash, objects)[i];
    c := chunks[i];
  }

  lemma PartBounds(p: Params, content: seq<byte>, hash: Digest, objects: Objects, part: StagedPart)
    requires Valid(p) && 2 * p.min <= p.max + 1 && part in PartsOf(Chunks(p, content, 0), hash, objects)
    ensures part.size <= p.max && (|content| >= p.min ==> part.size >= p.min)
  {
    var c := PartSize(p, content, hash, objects, part);
    ChunksWithinCap(p, content, 0);
    FloorIffLongEnough(p, content, 0);
  }

  /** The documented bounds on every part: the cap for every file, the floor for every file of at least the
      minimal size. */
  lemma StagedSizes(min: nat, avg: nat, max: nat, gear: byte -> nat, content: seq<byte>, hash: Digest, objects: Objects)
    requires !BadSizes(min, avg, max) && 2 * min <= max + 1
    ensures forall part <- PartsOf(Chunks(ParamsOf(min, avg, max, gear), content, 0), hash, objects) ::
      part.size <= max && (|content| >= min ==> part.size >= min)
  {
    var p := ParamsOf(min, avg, max, gear);
    forall part | part in PartsOf(Chunks(p, content, 0), hash, objects)
      ensures part.size <= max && (|content| >= min ==> part.size >= min)
    {
      PartBounds(p, content, hash, objects, part);
    }
  }

  // ---------- the two chunkers side by side ----------

  /** Both chunkers on one file, with any buffer sizes: they reject the same sizes, the fused one fails otherwise
      only with the file system, and when it returns, its parts are the other's results in order. */
  method ChunkBothWays(content: seq<byte>, directory: Directory, min: nat, avg: nat, max: nat, gear: byte -> nat,
                       twoPassBuf: positive, fusedBuf: positive)
    returns (twoPass: Result<seq<ChunkResult>>, fused: Result<StageResult>)
    requires avg < TWO64 / 2
    modifies directory
    ensures twoPass.Err? <==> fused == Err(InvalidChunkSizes)
    ensures directory.reliable ==> (twoPass.Ok? <==> fused.Ok?)
    ensures fused.Ok? ==> twoPass == Ok(Forgotten(fused.value.parts))
    ensures fused.Ok? ==> fused.value.wholeHash == directory.hash(content) && TotalSize(fused.value.parts) == |content|
  {
    twoPass := ChunkAndHash(content, min, avg, max, gear, directory.hash, twoPassBuf);
    ghost var before := directory.objects;
    fused := StageCdc(content, directory, min, avg, max, gear, fusedBuf);
    FusedRefinesTwoPass(Chunks(ParamsOf(min, avg, max, gear), content, 0), directory.hash, before);
    PartsCoverFile(ParamsOf(min, avg, max, gear), content, directory.hash, before);
  }
}
