/** Content-defined chunking: where `CdcCutter` of src/core.cpp cuts a file, stated without
    the automaton, and what follows for sizes, restarts, appends and edits. */
module Cdc {
  import opened Sha256Fips

  type positive = n: nat | n > 0 witness 1

  /** The cutter's constants. The mask is one less than the power of two `pow2`, so masking takes the
      remainder by `pow2`. `gear` is the table of 256 values; any table will do. */
  datatype Params = Params(pow2: positive, min: nat, max: nat, gear: byte -> nat)

  /** The sizes that pass the argument check, as far as the cutter depends on it. */
  predicate Valid(p: Params) { 0 < p.min <= p.max }

  // ---------- the rolling hash ----------

  /** hash = (hash << 1) + GEAR[byte], in 64 bits. */
  function Roll(hash: nat, g: nat): nat { (2 * hash + g) % TWO64 }

  /** The hash after the bytes since the last cut. */
  function GearHash(gear: byte -> nat, s: seq<byte>): nat {
    if s == [] then 0 else Roll(GearHash(gear, s[..|s| - 1]), gear(s[|s| - 1]))
  }

  // ---------- the cut decision ----------

  /** The last position that leaves a whole minimal chunk behind it. */
  function LastValidCut(p: Params, size: nat): nat { if size > p.min then size - p.min else 0 }

  predicate Boundary(p: Params, sofar: nat, hash: nat) { hash % p.pow2 == 0 && p.min <= sofar < p.max }

  predicate LastChance(p: Params, size: nat, pos: nat, sofar: nat) {
    pos == LastValidCut(p, size) && sofar >= p.min && sofar + p.min > p.max
  }

  /** Whether a chunk that began at `start` ends at `pos`, in a file of `size` bytes. */
  predicate CutAt(p: Params, size: nat, start: nat, pos: nat, hash: nat)
    requires start <= pos
  {
    var sofar := pos - start;
    (Boundary(p, sofar, hash) || sofar >= p.max || LastChance(p, size, pos, sofar)) &&
    size >= pos + p.min && pos < size
  }

  predicate Cut(p: Params, data: seq<byte>, start: nat, pos: nat)
    requires start <= pos <= |data|
  {
    CutAt(p, |data|, start, pos, GearHash(p.gear, data[start..pos]))
  }

  /** The first cut at or after `pos` of the chunk that began at `start`, or the end of the file. */
  function NextCut(p: Params, data: seq<byte>, start: nat, pos: nat): (e: nat)
    requires start <= pos <= |data|
    ensures pos <= e <= |data|
    ensures e < |data| ==> Cut(p, data, start, e)
    ensures forall q :: pos <= q < e ==> !Cut(p, data, start, q)
    decreases |data| - pos
  {
    if pos == |data| || Cut(p, data, start, pos) then pos else NextCut(p, data, start, pos + 1)
  }

  /** Where the chunk that begins at `start` ends. */
  function End(p: Params, data: seq<byte>, start: nat): (e: nat)
    requires start <= |data|
    ensures start <= e <= |data| && (start < |data| ==> start < e)
  {
    if start == |data| then start else NextCut(p, data, start, start + 1)
  }

  /** The chunk beginnings from `start` on; a file that never cuts, even an empty one, has one chunk. */
  function Offsets(p: Params, data: seq<byte>, start: nat): (offsets: seq<nat>)
    requires start <= |data|
    ensures |offsets| > 0 && offsets[0] == start
    ensures forall i :: 0 <= i < |offsets| ==> start <= offsets[i] <= |data|
    decreases |data| - start
  {
    var e := End(p, data, start);
    [start] + if e < |data| then Offsets(p, data, e) else []
  }

  datatype Chunk = Chunk(offset: nat, content: seq<byte>)

  /** The chunks from a beginning on. */
  function Chunks(p: Params, data: seq<byte>, start: nat): (chunks: seq<Chunk>)
    requires start <= |data|
    ensures |chunks| > 0
    decreases |data| - start
  {
    var e := End(p, data, start);
    [Chunk(start, data[start..e])] + if e < |data| then Chunks(p, data, e) else []
  }

  function Contents(chunks: seq<Chunk>): (s: seq<seq<byte>>)
    ensures |s| == |chunks| && forall i :: 0 <= i < |chunks| ==> s[i] == chunks[i].content
  {
    seq(|chunks|, i requires 0 <= i < |chunks| => chunks[i].content)
  }

  function Concat<T>(s: seq<seq<T>>): seq<T> {
    if s == [] then [] else s[0] + Concat(s[1..])
  }

  /** The chunks tile the file: in order and without gaps they are the file. */
  lemma {:induction false} ChunksTile(p: Params, data: seq<byte>, start: nat)
    requires start <= |data|
    ensures Concat(Contents(Chunks(p, data, start))) == data[start..]
    decreases |data| - start
  {
    var e, chunks := End(p, data, start), Chunks(p, data, start);
    if e < |data| {
      ChunksTile(p, data, e);
      assert Contents(chunks)[1..] == Contents(Chunks(p, data, e));
    } else {
      assert Contents(chunks)[1..] == [];
    }
  }

  /** Every chunk is the stretch of the file that its offset and size name. */
  lemma {:induction false} ChunksAreSlices(p: Params, data: seq<byte>, start: nat, c: Chunk)
    requires start <= |data| && c in Chunks(p, data, start)
    ensures 0 <= c.offset && c.offset + |c.content| <= |data| && c.content == data[c.offset..c.offset + |c.content|]
    decreases |data| - start
  {
    var e, chunks := End(p, data, start), Chunks(p, data, start);
    if e < |data| && c != chunks[0] {
      assert chunks == [chunks[0]] + Chunks(p, data, e);
      ChunksAreSlices(p, data, e, c);
    }
  }

  // ---------- chunk sizes ----------

  /** How long a chunk can be: every chunk but the last is between the bounds and leaves a minimal
      chunk behind; the last one exceeds the cap exactly when what is left is longer than the cap
      and too short to be cut in two. */
  lemma ChunkBounds(p: Params, data: seq<byte>, start: nat)
    requires Valid(p) && start <= |data|
    ensures var e := End(p, data, start);
      e < |data| ==> p.min <= e - start <= p.max && p.min <= |data| - e
    ensures var e := End(p, data, start);
      e - start > p.max <==> p.max < |data| - start < 2 * p.min
  {
    var e, rest := End(p, data, start), |data| - start;
    if start + p.max < e {
      assert !Cut(p, data, start, start + p.max);
    }
    if rest > p.max && rest >= 2 * p.min {
      var q := if start + p.max + p.min <= |data| then start + p.max else |data| - p.min;
      assert Cut(p, data, start, q);
    }
  }

  /** Every chunk of every file is within the cap if and only if two minimal chunks exceed it by at
      most one. The argument check does not test this. */
  lemma CapIffParams(p: Params)
    requires Valid(p)
    ensures (forall data: seq<byte>, start: nat | start <= |data| :: End(p, data, start) - start <= p.max)
       <==> 2 * p.min <= p.max + 1
  {
    forall data: seq<byte>, start: nat | start <= |data| && 2 * p.min <= p.max + 1
      ensures End(p, data, start) - start <= p.max
    {
      ChunkBounds(p, data, start);
    }
    if 2 * p.min > p.max + 1 {
      var data := Zeros(2 * p.min - 1);
      ChunkBounds(p, data, 0);
      assert End(p, data, 0) - 0 > p.max;
    }
  }

  /** The floor: all chunks from a beginning on are at least minimal exactly when that much is left. */
  lemma {:induction false} FloorIffLongEnough(p: Params, data: seq<byte>, start: nat)
    requires Valid(p) && start <= |data|
    ensures (forall c <- Chunks(p, data, start) :: |c.content| >= p.min) <==> |data| - start >= p.min
    decreases |data| - start
  {
    ChunkBounds(p, data, start);
    var e := End(p, data, start);
    assert Chunk(start, data[start..e]) in Chunks(p, data, start);
    if e < |data| {
      FloorIffLongEnough(p, data, e);
    }
  }

  /** Without a content boundary a cut falls only at the cap, or where leaving the rest whole would exceed it. */
  lemma ForcedCutOnlyWhenNeeded(p: Params, data: seq<byte>, start: nat)
    requires Valid(p) && start <= |data| && End(p, data, start) < |data|
    requires !Boundary(p, End(p, data, start) - start, GearHash(p.gear, data[start..End(p, data, start)]))
    ensures |data| - start > p.max
    ensures End(p, data, start) == start + p.max || End(p, data, start) == |data| - p.min
  {
    ChunkBounds(p, data, start);
  }

  // ---------- restart and resynchronisation ----------

  lemma {:induction false} NextCutRestarts(p: Params, data: seq<byte>, start: nat, base: nat, pos: nat)
    requires base <= start <= pos <= |data|
    ensures NextCut(p, data, start, pos) == base + NextCut(p, data[base..], start - base, pos - base)
    decreases |data| - pos
  {
    assert data[base..][start - base..pos - base] == data[start..pos];
    if pos < |data| && !Cut(p, data, start, pos) {
      NextCutRestarts(p, data, start, base, pos + 1);
    }
  }

  lemma EndRestarts(p: Params, data: seq<byte>, start: nat, base: nat)
    requires base <= start <= |data|
    ensures End(p, data, start) == base + End(p, data[base..], start - base)
  {
    if start < |data| {
      NextCutRestarts(p, data, start, base, start + 1);
    }
  }

  function Moved(chunks: seq<Chunk>, distance: nat): (r: seq<Chunk>)
    ensures |r| == |chunks|
    ensures forall i :: 0 <= i < |chunks| ==> r[i] == Chunk(chunks[i].offset + distance, chunks[i].content)
  {
    seq(|chunks|, i requires 0 <= i < |chunks| => Chunk(chunks[i].offset + distance, chunks[i].content))
  }

  lemma MovedSplits(first: Chunk, rest: seq<Chunk>, distance: nat)
    ensures Moved([first] + rest, distance) == [Chunk(first.offset + distance, first.content)] + Moved(rest, distance)
  {
  }

  /** After any cut the cutter behaves as if the rest were a file of its own. */
  lemma {:induction false} Restart(p: Params, data: seq<byte>, start: nat, base: nat)
    requires base <= start <= |data|
    ensures Chunks(p, data, start) == Moved(Chunks(p, data[base..], start - base), base)
    decreases |data| - start
  {
    EndRestarts(p, data, start, base);
    var e := End(p, data, start);
    var tail := data[base..];
    var first := Chunk(start - base, data[start..e]);
    assert tail[start - base..e - base] == data[start..e];
    if e < |data| {
      Restart(p, data, e, base);
      MovedSplits(first, Chunks(p, tail, e - base), base);
      assert Chunks(p, tail, start - base) == [first] + Chunks(p, tail, e - base);
      assert Chunks(p, data, start) == [Chunk(start, data[start..e])] + Chunks(p, data, e);
    } else {
      MovedSplits(first, [], base);
      assert Chunks(p, tail, start - base) == [first] + [];
      assert Chunks(p, data, start) == [Chunk(start, data[start..e])] + [];
    }
  }

  /** Two files that share a suffix beginning at a chunk in both are chunked identically from there on. */
  lemma Resynchronise(p: Params, a: seq<byte>, b: seq<byte>, i: nat, j: nat)
    requires i <= |a| && j <= |b| && a[i..] == b[j..]
    ensures var x, y := Chunks(p, a, i), Chunks(p, b, j);
      |x| == |y| && forall n :: 0 <= n < |x| ==> x[n].content == y[n].content && x[n].offset - i == y[n].offset - j
  {
    Restart(p, a, i, i);
    Restart(p, b, j, j);
  }

  // ---------- append stability ----------

  /** A chunk begins at `pos`, when chunking from `start`. */
  ghost predicate Begins(p: Params, data: seq<byte>, start: nat, pos: nat)
    requires start <= |data|
  {
    exists c <- Chunks(p, data, start) :: c.offset == pos
  }

  lemma SameRange(a: seq<byte>, b: seq<byte>, k: nat, i: nat, j: nat)
    requires i <= j <= k <= |a| && k <= |b| && a[..k] == b[..k]
    ensures a[i..j] == b[i..j]
  {
    forall n | i <= n < j ensures a[n] == b[n] { assert a[..k][n] == b[..k][n]; }
  }

  lemma {:induction false} SameNextCut(p: Params, a: seq<byte>, b: seq<byte>, k: nat, start: nat, pos: nat)
    requires k <= |a| && k <= |b| && a[..k] == b[..k]
    requires start <= pos <= |a| && pos <= |b|
    ensures var e := NextCut(p, a, start, pos);
      e <= k && e + p.min < |a| && e + p.min < |b| ==> NextCut(p, b, start, pos) == e
    decreases |a| - pos
  {
    if pos <= k && pos + p.min < |a| && pos + p.min < |b| {
      SameRange(a, b, k, start, pos);
      if !Cut(p, a, start, pos) {
        SameNextCut(p, a, b, k, start, pos + 1);
      }
    }
  }

  lemma {:induction false} BeginsNoEarlier(p: Params, data: seq<byte>, start: nat, pos: nat)
    requires start <= |data| && Begins(p, data, start, pos)
    ensures start <= pos
    decreases |data| - start
  {
    var e := End(p, data, start);
    if pos != start && e < |data| {
      BeginsNoEarlier(p, data, e, pos);
    }
  }

  lemma {:induction false} BeginsCarriesOver(p: Params, a: seq<byte>, b: seq<byte>, k: nat, start: nat, pos: nat)
    requires k <= |a| && k <= |b| && a[..k] == b[..k]
    requires start <= |a| && start <= |b| && pos <= k && pos + p.min < |a| && pos + p.min < |b|
    requires Begins(p, a, start, pos)
    ensures Begins(p, b, start, pos)
    decreases |a| - start
  {
    if start == pos {
      assert Chunks(p, b, start)[0].offset == pos;
    } else {
      var e := End(p, a, start);
      BeginsNoEarlier(p, a, e, pos);
      SameNextCut(p, a, b, k, start, start + 1);
      BeginsCarriesOver(p, a, b, k, e, pos);
      var c :| c in Chunks(p, b, e) && c.offset == pos;
      assert c in Chunks(p, b, start);
    }
  }

  /** Two files that agree on their first k bytes begin chunks at the same places up to k, except
      where one of the files is about to end. */
  lemma AppendStable(p: Params, a: seq<byte>, b: seq<byte>, k: nat, pos: nat)
    requires k <= |a| && k <= |b| && a[..k] == b[..k]
    requires pos <= k && pos + p.min < |a| && pos + p.min < |b|
    ensures Begins(p, a, 0, pos) <==> Begins(p, b, 0, pos)
  {
    if Begins(p, a, 0, pos) {
      BeginsCarriesOver(p, a, b, k, 0, pos);
    }
    if Begins(p, b, 0, pos) {
      BeginsCarriesOver(p, b, a, k, 0, pos);
    }
  }

  // ---------- locality of the rolling hash ----------

  function Power(k: nat): (p: nat)
    ensures p > 0
  {
    if k == 0 then 1 else 2 * Power(k - 1)
  }

  lemma {:induction false} PowerAdds(i: nat, j: nat)
    ensures Power(i + j) == Power(i) * Power(j)
  {
    if i > 0 {
      PowerAdds(i - 1, j);
    }
  }

  lemma Power64()
    ensures Power(64) == TWO64
  {
    assert Power(4) == 16 && Power(8) == 16 * Power(4);
    PowerAdds(8, 8);
    PowerAdds(16, 16);
    PowerAdds(32, 32);
  }

  lemma NonzeroMultiple(m: int, d: int)
    requires m > 0 && d != 0
    ensures m * d >= m || m * d <= -m
  {
  }

  lemma RemainderUnique(x: nat, m: nat, q: nat, r: nat)
    requires r < m && x == m * q + r
    ensures x % m == r
  {
    var d := x / m - q;
    assert m * d == r - x % m;
    if d != 0 {
      NonzeroMultiple(m, d);
    }
  }

  lemma RemainderOfSum(a: nat, m: nat, q: nat)
    requires m > 0
    ensures (a + m * q) % m == a % m
  {
    assert a + m * q == m * (a / m + q) + a % m;
    RemainderUnique(a + m * q, m, a / m + q, a % m);
  }

  lemma RemainderOfRemainder(a: nat, m: nat, c: nat)
    requires m > 0 && c > 0
    ensures a % (m * c) % m == a % m
  {
    var q := a / (m * c);
    assert a == a % (m * c) + m * (c * q);
    RemainderOfSum(a % (m * c), m, c * q);
  }

  lemma RollKeepsLowBits(x: nat, y: nat, g: nat, p: nat)
    requires p > 0 && x % p == y % p
    ensures (2 * x + g) % (2 * p) == (2 * y + g) % (2 * p)
  {
    RemainderOfSum(2 * (x % p) + g, 2 * p, x / p);
    RemainderOfSum(2 * (y % p) + g, 2 * p, y / p);
    assert 2 * x + g == 2 * (x % p) + g + 2 * p * (x / p);
    assert 2 * y + g == 2 * (y % p) + g + 2 * p * (y / p);
  }

  /** The same in 64-bit arithmetic, for a mask of k bits. */
  lemma RollKeepsMaskedBits(x: nat, y: nat, g: nat, k: nat)
    requires 0 < k <= 64 && x % Power(k - 1) == y % Power(k - 1)
    ensures (2 * x + g) % TWO64 % Power(k) == (2 * y + g) % TWO64 % Power(k)
  {
    RollKeepsLowBits(x, y, g, Power(k - 1));
    Power64();
    PowerAdds(k, 64 - k);
    RemainderOfRemainder(2 * x + g, Power(k), Power(64 - k));
    RemainderOfRemainder(2 * y + g, Power(k), Power(64 - k));
  }

  function Suffix(s: seq<byte>, k: nat): seq<byte> { if |s| <= k then s else s[|s| - k..] }

  /** Under a mask of k low bits the hash sees only the last k bytes: the boundary test depends on
      content near the position, not on where the chunk began. */
  lemma {:induction false} HashIsLocal(gear: byte -> nat, s: seq<byte>, k: nat)
    requires k <= 64
    ensures GearHash(gear, s) % Power(k) == GearHash(gear, Suffix(s, k)) % Power(k)
  {
    if k > 0 && |s| > k {
      var t, u, g := s[..|s| - 1], Suffix(s, k), gear(s[|s| - 1]);
      var x, y := GearHash(gear, t), GearHash(gear, Suffix(t, k - 1));
      HashIsLocal(gear, t, k - 1);
      assert u[..k - 1] == Suffix(t, k - 1) && u[k - 1] == s[|s| - 1];
      RollKeepsMaskedBits(x, y, g, k);
    }
  }

  // ---------- the rolling hash as one sum ----------

  /** Every byte's gear value, doubled once for each byte that follows it. */
  function GearSum(gear: byte -> nat, s: seq<byte>): nat {
    if s == [] then 0 else gear(s[0]) * Power(|s| - 1) + GearSum(gear, s[1..])
  }

  lemma {:induction false} GearSumNext(gear: byte -> nat, s: seq<byte>, b: byte)
    ensures GearSum(gear, s + [b]) == 2 * GearSum(gear, s) + gear(b)
  {
    if s == [] {
      assert Power(0) == 1 && GearSum(gear, ([b])[1..]) == 0;
    } else {
      var g, p := gear(s[0]), Power(|s| - 1);
      GearSumNext(gear, s[1..], b);
      assert (s + [b])[1..] == s[1..] + [b] && Power(|s|) == 2 * p;
      assert g * (2 * p) == 2 * (g * p);
    }
  }

  lemma DoubledRemainder(x: nat, g: nat)
    ensures (2 * (x % TWO64) + g) % TWO64 == (2 * x + g) % TWO64
  {
    RemainderOfSum(2 * (x % TWO64) + g, TWO64, 2 * (x / TWO64));
  }

  /** The rolling hash of a chunk is one weighted sum of the gear values of its bytes, in 64 bits. */
  lemma {:induction false} GearHashIsSum(gear: byte -> nat, s: seq<byte>)
    ensures GearHash(gear, s) == GearSum(gear, s) % TWO64
  {
    if s != [] {
      var t, b := s[..|s| - 1], s[|s| - 1];
      GearHashIsSum(gear, t);
      GearSumNext(gear, t, b);
      DoubledRemainder(GearSum(gear, t), gear(b));
      assert s == t + [b];
    }
  }

  // ---------- the size of the mask ----------

  /** The variable pow2 of the constructor after n iterations, in 64 bits. */
  ghost function Doubled(n: nat): nat {
    if n == 0 then 1 else 2 * Doubled(n - 1) % TWO64
  }

  lemma {:induction false} PowerGrows(i: nat, j: nat)
    requires i <= j
    ensures Power(i) <= Power(j)
    decreases j
  {
    if i < j {
      PowerGrows(i, j - 1);
    }
  }

  lemma Power63()
    ensures 2 * Power(63) == TWO64
  {
    Power64();
  }

  lemma {:induction false} DoubledIs(n: nat, top: nat)
    requires 2 * Power(top) == TWO64
    ensures Doubled(n) == if n <= top then Power(n) else 0
  {
    if n > 0 {
      DoubledIs(n - 1, top);
      if n <= top {
        PowerGrows(n, top);
        assert 2 * Power(n - 1) < TWO64;
      }
    }
  }

  /** The constructor's loop ends if and only if the average is below 2^63. */
  lemma MaskLoopEndsIff(avg: nat)
    requires avg < TWO64
    ensures (exists n: nat :: 2 * Doubled(n) % TWO64 > avg) <==> avg < TWO64 / 2
  {
    Power63();
    DoubledIs(63, 63);
    assert 2 * Doubled(62) % TWO64 == Doubled(63);
    forall n: nat
      ensures 2 * Doubled(n) % TWO64 <= TWO64 / 2
    {
      DoubledIs(n + 1, 63);
      if n + 1 < 64 {
        PowerGrows(n + 1, 63);
      }
    }
  }
}
