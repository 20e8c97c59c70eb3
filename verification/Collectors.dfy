/** The three users of the windowed collector in src/core.cpp: the tree hash of a file, the layers of a
    safetensors file and the chunks of a cut file. */
module Collectors {
  import opened Sha256Fips
  import opened ObjectStore
  import opened Window
  import Cdc
  import CdcStaging
  import Safetensors

  // ---------- the tree hash ----------

  const PARALLEL_MIN_CHUNKS := 8

  function Count(size: nat, chunkSize: nat): nat
    requires chunkSize > 0
  {
    (size + chunkSize - 1) / chunkSize
  }

  function Piece(data: seq<byte>, chunkSize: nat, i: nat): seq<byte> {
    var offset := i * chunkSize;
    if offset <= |data| then data[offset..if chunkSize <= |data| - offset then offset + chunkSize else |data|] else []
  }

  function Pieces(data: seq<byte>, chunkSize: nat): seq<seq<byte>>
    requires chunkSize > 0
  {
    seq(Count(|data|, chunkSize), (i: nat) => Piece(data, chunkSize, i))
  }

  /** Where the i-th range starts, and, past the last one, where the file ends. */
  function Start(size: nat, chunkSize: nat, i: nat): (start: nat)
    ensures start <= size
  {
    if i * chunkSize <= size then i * chunkSize else size
  }

  lemma LastRange(size: nat, chunkSize: nat)
    requires chunkSize > 0
    ensures Start(size, chunkSize, Count(size, chunkSize)) == size
    ensures Count(size, chunkSize) > 0 ==> (Count(size, chunkSize) - 1) * chunkSize < size
  {
    var n := Count(size, chunkSize);
    assert n * chunkSize <= size + chunkSize - 1 < n * chunkSize + chunkSize;
    if n > 0 { assert (n - 1) * chunkSize == n * chunkSize - chunkSize; }
  }

  lemma Monotone(i: nat, j: nat, c: nat)
    requires i <= j
    ensures i * c <= j * c
  {
  }

  lemma PieceIsRange(data: seq<byte>, chunkSize: nat, i: nat)
    requires chunkSize > 0 && i < Count(|data|, chunkSize)
    ensures var start, end := Start(|data|, chunkSize, i), Start(|data|, chunkSize, i + 1);
      start < end <= start + chunkSize && Piece(data, chunkSize, i) == data[start..end] &&
      (i + 1 < Count(|data|, chunkSize) ==> end == start + chunkSize)
  {
    var n := Count(|data|, chunkSize);
    LastRange(|data|, chunkSize);
    Monotone(i, n - 1, chunkSize);
    assert (i + 1) * chunkSize == i * chunkSize + chunkSize;
    if i + 1 < n { Monotone(i + 1, n - 1, chunkSize); }
  }

  lemma {:induction false} PiecesFrom(data: seq<byte>, chunkSize: nat, i: nat)
    requires chunkSize > 0 && i <= Count(|data|, chunkSize)
    ensures Cdc.Concat(Pieces(data, chunkSize)[i..]) == data[Start(|data|, chunkSize, i)..]
    decreases Count(|data|, chunkSize) - i
  {
    var ps, start := Pieces(data, chunkSize), Start(|data|, chunkSize, i);
    if i < |ps| {
      var end := Start(|data|, chunkSize, i + 1);
      PieceIsRange(data, chunkSize, i);
      PiecesFrom(data, chunkSize, i + 1);
      assert ps[i..][1..] == ps[i + 1..] && ps[i..][0] == Piece(data, chunkSize, i);
      assert data[start..end] + data[end..] == data[start..];
    } else {
      LastRange(|data|, chunkSize);
    }
  }

  /** The ranges of the chunk tasks partition the file: in order and without gaps they are the file,
      none is empty, and all but the last are exactly chunkSize long. */
  lemma PiecesTile(data: seq<byte>, chunkSize: nat)
    requires chunkSize > 0
    ensures Cdc.Concat(Pieces(data, chunkSize)) == data
    ensures var ps := Pieces(data, chunkSize);
      forall i :: 0 <= i < |ps| ==> 0 < |ps[i]| <= chunkSize && (i < |ps| - 1 ==> |ps[i]| == chunkSize)
  {
    var ps := Pieces(data, chunkSize);
    forall i | 0 <= i < |ps| ensures 0 < |ps[i]| <= chunkSize && (i < |ps| - 1 ==> |ps[i]| == chunkSize) {
      PieceIsRange(data, chunkSize, i);
    }
    PiecesFrom(data, chunkSize, 0);
    assert ps[0..] == ps && Start(|data|, chunkSize, 0) == 0 && data[0..] == data;
  }

  /** The text of a string as the bytes that `update` receives. */
  function Bytes(text: string): (b: seq<byte>)
    ensures |b| == |text|
    ensures forall i :: 0 <= i < |text| ==> b[i] == (text[i] as int % 256) as byte
  {
    seq(|text|, i requires 0 <= i < |text| => (text[i] as int % 256) as byte)
  }

  /** The value hash_file_parallel promises: the file's own digest below eight chunks, otherwise the digest of
      the chunk digests in file order. */
  function TreeHash(hash: Digest, data: seq<byte>, chunkSize: nat): (h: string)
    requires chunkSize > 0
    ensures |data| < 8 * chunkSize ==> h == hash(data)
  {
    if |data| < PARALLEL_MIN_CHUNKS * chunkSize then hash(data)
    else
      var ps := Pieces(data, chunkSize);
      hash(Bytes(Cdc.Concat(seq(|ps|, i requires 0 <= i < |ps| => hash(ps[i])))))
  }

  /** `opens` says which tasks can open the file. */
  function TreeJob(hash: Digest, data: seq<byte>, chunkSize: nat, pool: nat, opens: nat -> bool): Job<string>
    requires chunkSize > 0
  {
    var threads := if pool > 1 then pool else 1;
    Job(Count(|data|, chunkSize), if threads < 4 then threads else 4, true,
        i => hash(Piece(data, chunkSize, i)), (i: nat) => !opens(i))
  }

  function Texts(results: seq<Task<string>>): seq<string>
    requires forall i :: 0 <= i < |results| ==> results[i].Done?
  {
    seq(|results|, i requires 0 <= i < |results| => results[i].value)
  }

  /** Whatever the pool size and the schedule, a tree hash that returns has the promised value, and never
      more than four chunks are in memory. It throws only when its last task has ended, and without a crash only if a
      task cannot open the file. */
  lemma TreeHashAgrees(hash: Digest, data: seq<byte>, chunkSize: nat, pool: nat, opens: nat -> bool,
                       s: State<string>, steps: seq<Step>)
    requires chunkSize > 0 && |data| >= 8 * chunkSize
    requires Init(TreeJob(hash, data, chunkSize, pool, opens), s)
    requires Possible(TreeJob(hash, data, chunkSize, pool, opens), s, steps)
    ensures var r := After(TreeJob(hash, data, chunkSize, pool, opens), s, steps);
      r.next - |r.results| <= 4 &&
      (r.consumer == Returned ==>
        (forall i :: 0 <= i < |r.results| ==> r.results[i].Done?) &&
        hash(Bytes(Cdc.Concat(Texts(r.results)))) == TreeHash(hash, data, chunkSize)) &&
      (r.consumer == Raised ==> Idle(r)) && (r.consumer == Raised && !r.crashed ==> exists i :: !opens(i))
  {
    var job := TreeJob(hash, data, chunkSize, pool, opens);
    var r := After(job, s, steps);
    RunIsComplete(job, s, steps);
    InitInv(job, s);
    RaisedIsIdle(job, s, steps);
    if r.consumer == Returned {
      var ps := Pieces(data, chunkSize);
      assert Texts(r.results) == seq(|ps|, i requires 0 <= i < |ps| => hash(ps[i]));
    }
  }

  // ---------- layers and chunks ----------

  /** All tasks are enqueued before the first result is taken, and an exception waits for nobody. */
  function CollectAll<T>(n: nat, value: nat -> T, fails: nat -> bool): Job<T> {
    Job(n, if n > 0 then n else 1, false, value, fails)
  }

  function LayerJob(layers: seq<Safetensors.Layer>, content: seq<byte>, hash: Digest, opens: nat -> bool)
    : Job<Safetensors.LayerResult>
  {
    CollectAll(|layers|,
      (i: nat) => if i < |layers| then Safetensors.ResultOf(layers[i], content, hash)
        else Safetensors.LayerResult("", "", 0, 0),
      (i: nat) => !opens(i) || (i < |layers| && !Safetensors.Readable(content, layers[i])))
  }

  function LayerResults(results: seq<Task<Safetensors.LayerResult>>): seq<Safetensors.LayerResult> {
    seq(|results|, i requires 0 <= i < |results| =>
      if results[i].Done? then results[i].value else Safetensors.LayerResult("", "", 0, 0))
  }

  /** Whatever the schedule, the concurrent collection of the layers answers as the sequential one: it returns the
      same list, and throws exactly where that one reports a truncated layer, tasks that cannot open the file and
      crashes apart. */
  lemma LayersCollected(layers: seq<Safetensors.Layer>, content: seq<byte>, hash: Digest, opens: nat -> bool,
                        s: State<Safetensors.LayerResult>, steps: seq<Step>)
    requires Init(LayerJob(layers, content, hash, opens), s) &&
      Possible(LayerJob(layers, content, hash, opens), s, steps)
    ensures var r := After(LayerJob(layers, content, hash, opens), s, steps);
      (r.consumer == Returned ==>
        (forall i :: 0 <= i < |r.results| ==> r.results[i].Done?) &&
        Safetensors.Hashed(layers, content, hash) == Ok(LayerResults(r.results))) &&
      (r.consumer == Raised && !r.crashed && (forall i :: opens(i)) ==>
        Safetensors.Hashed(layers, content, hash) == Err(Truncated))
  {
    var job := LayerJob(layers, content, hash, opens);
    var r := After(job, s, steps);
    RunIsComplete(job, s, steps);
    if r.consumer == Returned {
      forall l <- layers ensures Safetensors.Readable(content, l) {
        var i :| 0 <= i < |layers| && layers[i] == l;
        assert !job.fails(i);
      }
      assert LayerResults(r.results) == Safetensors.ResultsOf(layers, content, hash);
    } else if r.consumer == Raised && !r.crashed && (forall i :: opens(i)) {
      var i: nat :| i < job.n && job.fails(i);
      assert layers[i] in layers;
    }
  }

  function AllDone<T>(values: seq<T>): seq<Task<T>> { seq(|values|, i requires 0 <= i < |values| => Done(values[i])) }

  predicate InRange(c: Cdc.Chunk, now: seq<byte>) { c.offset + |c.content| <= |now| }

  /** The second pass reads the file as it is `now`. */
  function ChunkJob(chunks: seq<Cdc.Chunk>, now: seq<byte>, hash: Digest,
                    opens: nat -> bool): Job<CdcStaging.ChunkResult> {
    CollectAll(|chunks|,
      (i: nat) =>
        if i < |chunks| && InRange(chunks[i], now) then
          CdcStaging.ChunkResult(hash(now[chunks[i].offset..chunks[i].offset + |chunks[i].content|]),
            |chunks[i].content|, chunks[i].offset)
        else CdcStaging.ChunkResult("", 0, 0),
      (i: nat) => !opens(i) || (i < |chunks| && !InRange(chunks[i], now)))
  }

  /** Over the unchanged file every range is there, and holds the chunk. */
  lemma UnchangedJob(p: Cdc.Params, content: seq<byte>, hash: Digest, opens: nat -> bool)
    ensures var chunks := Cdc.Chunks(p, content, 0);
      var job := ChunkJob(chunks, content, hash, opens);
      Values(job) == AllDone(CdcStaging.ResultsOf(chunks, hash)) &&
      forall i: nat :: i < job.n ==> job.fails(i) == !opens(i)
  {
    var chunks := Cdc.Chunks(p, content, 0);
    forall i: nat | i < |chunks|
      ensures InRange(chunks[i], content)
      ensures chunks[i].content == content[chunks[i].offset..chunks[i].offset + |chunks[i].content|]
    {
      Cdc.ChunksAreSlices(p, content, 0, chunks[i]);
    }
  }

  /** Whatever the schedule, over a file that has not changed the collection of the chunks returns the sequential
      list, and throws only if a task cannot open the file or crashes; over one that has become too short for some
      chunk it never returns. */
  lemma ChunksCollected(p: Cdc.Params, content: seq<byte>, now: seq<byte>, hash: Digest, opens: nat -> bool,
                        s: State<CdcStaging.ChunkResult>, steps: seq<Step>)
    requires Init(ChunkJob(Cdc.Chunks(p, content, 0), now, hash, opens), s)
    requires Possible(ChunkJob(Cdc.Chunks(p, content, 0), now, hash, opens), s, steps)
    ensures var chunks := Cdc.Chunks(p, content, 0);
      var r := After(ChunkJob(chunks, now, hash, opens), s, steps);
      (r.consumer == Returned ==> forall c <- chunks :: InRange(c, now)) &&
      (r.consumer == Returned && now == content ==> r.results == AllDone(CdcStaging.ResultsOf(chunks, hash))) &&
      (r.consumer == Raised && !r.crashed && now == content ==> exists i :: !opens(i))
  {
    var chunks := Cdc.Chunks(p, content, 0);
    var job := ChunkJob(chunks, now, hash, opens);
    var r := After(job, s, steps);
    RunIsComplete(job, s, steps);
    if r.consumer == Returned {
      forall c <- chunks ensures InRange(c, now) {
        var i :| 0 <= i < |chunks| && chunks[i] == c;
        assert !job.fails(i);
      }
    }
    if now == content {
      UnchangedJob(p, content, hash, opens);
    }
  }
}
