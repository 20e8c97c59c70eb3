/** The streaming hasher of src/sha256.cpp. */
module Sha256Stream {
  import opened Sha256Fips
  import Sha256Scalar
  import Sha256ShaNi

  datatype Backend = Scalar | ShaNi

  type Kernel = (seq<word>, seq<byte>) -> seq<word>

  /** One application of the compression function to the words of a state. */
  ghost predicate StepAt(kernel: Kernel, h: seq<word>, block: seq<byte>) {
    |h| == 8 && |block| == 64 ==> kernel(h, block) == Words(Compress(FromWords(h), block))
  }

  ghost predicate Compresses(kernel: Kernel) {
    forall h: seq<word>, block: seq<byte> {:trigger StepAt(kernel, h, block)} :: StepAt(kernel, h, block)
  }

  ghost predicate Extends(chain: seq<byte> -> seq<word>, kernel: Kernel, s: seq<byte>, block: seq<byte>) {
    chain(s + block) == kernel(chain(s), block)
  }

  /** `kernel` is the compression function, and `chain` maps every whole number of blocks to the state that
      follows them. */
  ghost predicate Chains(chain: seq<byte> -> seq<word>, kernel: Kernel) {
    Compresses(kernel) && chain([]) == Words(Initial()) &&
    forall s: seq<byte>, block: seq<byte> {:trigger Extends(chain, kernel, s, block)} |
      |s| % 64 == 0 && |block| == 64 :: Extends(chain, kernel, s, block)
  }

  ghost function CompressWords(h: seq<word>, block: seq<byte>): seq<word> {
    if |h| == 8 && |block| == 64 then Words(Compress(FromWords(h), block)) else []
  }

  ghost function ChainWords(s: seq<byte>): seq<word> {
    if |s| % 64 == 0 then Words(Chain(Initial(), s)) else []
  }

  lemma ChainWordsChains()
    ensures Chains(ChainWords, CompressWords)
  {
    forall s: seq<byte>, block: seq<byte> | |s| % 64 == 0 && |block| == 64
      ensures Extends(ChainWords, CompressWords, s, block)
    {
      ChainAppend(Initial(), s, block);
    }
  }

  /** The state after s. */
  ghost predicate IsChain(chain: seq<byte> -> seq<word>, s: seq<byte>) {
    |s| % 64 == 0 && chain(s) == Words(Chain(Initial(), s))
  }

  lemma StepIsChain(chain: seq<byte> -> seq<word>, kernel: Kernel, s: seq<byte>, block: seq<byte>)
    requires Chains(chain, kernel) && |block| == 64 && IsChain(chain, s)
    ensures IsChain(chain, s + block)
  {
    ChainAppend(Initial(), s, block);
    assert Extends(chain, kernel, s, block) && StepAt(kernel, chain(s), block);
  }

  /** What holds of nothing and is kept by one more block holds of whole numbers of blocks. */
  lemma {:induction false} BlockInduction(p: seq<byte> -> bool, s: seq<byte>)
    requires |s| % 64 == 0 && p([])
    requires forall t: seq<byte>, block: seq<byte> {:trigger t + block} | |t| % 64 == 0 && |block| == 64 && p(t) ::
      p(t + block)
    ensures p(s)
    decreases |s|
  {
    if s != [] {
      var t, block := s[..|s| - 64], s[|s| - 64..];
      BlockInduction(p, t);
      assert t + block == s;
    }
  }

  /** There is only one such function on whole numbers of blocks. */
  lemma ChainsIsChain(chain: seq<byte> -> seq<word>, kernel: Kernel, s: seq<byte>)
    requires Chains(chain, kernel) && |s| % 64 == 0
    ensures IsChain(chain, s)
  {
    var p := (t: seq<byte>) => IsChain(chain, t);
    forall t: seq<byte>, block: seq<byte> | |t| % 64 == 0 && |block| == 64 && p(t) ensures p(t + block) {
      StepIsChain(chain, kernel, t, block);
    }
    BlockInduction(p, s);
  }

  /** The bit count, big-endian, in the last eight bytes of a block. */
  method PutLength(block: array<byte>, bitlen: nat)
    requires block.Length == 64
    modifies block
    ensures block[..56] == old(block[..56]) && block[56..] == BigEndianBytes(bitlen, 8)
  {
    var x: nat := bitlen;
    for i := 0 to 8
      invariant block[..64 - i] == old(block[..64 - i])
      invariant BigEndianBytes(bitlen, 8) == BigEndianBytes(x, 8 - i) + block[64 - i..]
    {
      block[63 - i] := (x % 256) as byte;
      x := x / 256;
      assert block[63 - i..] == [block[63 - i]] + block[64 - i..];
    }
  }

  lemma ShortPad(fed: seq<byte>, done: seq<byte>, tail: seq<byte>)
    requires fed == done + tail && |done| % 64 == 0 && |tail| < 56
    ensures done + (tail + ([0x80] + Zeros(55 - |tail|))) == fed + [0x80] + Zeros(ZeroCount(|fed|))
  {
    assert ZeroCount(|fed|) == 55 - |tail|;
  }

  lemma LongPad(fed: seq<byte>, n: nat)
    requires 56 <= n < 64 && |fed| % 64 == n
    ensures fed + [0x80] + Zeros(63 - n) + Zeros(56) == fed + [0x80] + Zeros(ZeroCount(|fed|))
  {
    assert Zeros(63 - n) + Zeros(56) == Zeros(ZeroCount(|fed|));
  }

  lemma OneMoreBlock(n: nat)
    requires n % 64 == 0
    ensures (Bits(n) + 512) % TWO64 == Bits(n + 64) && (n + 64) % 64 == 0
  {
    BitsAdd(n, 64);
  }

  lemma Regroup(a: seq<byte>, b: seq<byte>, c: seq<byte>, d: seq<byte>)
    ensures ((a + b) + c) + d == a + ((b + c) + d)
  {
  }

  lemma Joined(done: seq<byte>, last: seq<byte>, m: seq<byte>, one: seq<byte>, zeros: seq<byte>, length: seq<byte>)
    requires |last| == 64 && last[56..] == length && done + last[..56] == m + one + zeros
    ensures done + last == m + (one + zeros + length)
  {
    assert last == last[..56] + length;
    assert done + (last[..56] + length) == (done + last[..56]) + length;
    Regroup(m, one, zeros, length);
  }

  lemma PaddedParts(m: seq<byte>, done: seq<byte>, last: seq<byte>)
    requires |last| == 64 && last[56..] == BigEndianBytes(Bits(|m|), 8)
    requires done + last[..56] == m + [0x80] + Zeros(ZeroCount(|m|))
    ensures done + last == m + Padding(|m|)
  {
    Joined(done, last, m, [0x80], Zeros(ZeroCount(|m|)), BigEndianBytes(Bits(|m|), 8));
  }

  lemma ChainsIsHash(chain: seq<byte> -> seq<word>, kernel: Kernel, m: seq<byte>)
    requires Chains(chain, kernel)
    ensures chain(m + Padding(|m|)) == Words(Hash(m))
  {
    ChainsIsChain(chain, kernel, m + Padding(|m|));
  }

  /** 24 - i * 8 */
  function ShiftAt(i: nat): word { if i == 0 then 24 else if i == 1 then 16 else if i == 2 then 8 else 0 }

  lemma ShiftIsByte(w: word, i: nat, shift: word)
    requires i < 4 && shift == ShiftAt(i)
    ensures ((w >> shift) & 0xff) as byte == WordByte(w, i)
  {
  }

  /** Class SHA256: `fed` is everything passed to Update so far, `done` the part already compressed. */
  class Hasher {
    const data: array<byte>
    var datalen: nat
    var bitlen: nat
    const state: array<word>
    const backend: Backend
    ghost var fed: seq<byte>
    ghost var done: seq<byte>
    ghost const chain: seq<byte> -> seq<word>
    ghost const kernel: Kernel

    /** The state has absorbed exactly `done`, and the bit count is `count`. */
    ghost predicate AbsorbedWith(count: nat)
      reads this, state
    {
      state.Length == 8 && |done| % 64 == 0 && state[..] == chain(done) && bitlen == count
    }

    ghost predicate Absorbed()
      reads this, state
    {
      AbsorbedWith(Bits(|done|))
    }

    ghost predicate Valid()
      reads this, data, state
    {
      data.Length == 64 && datalen < 64 && Absorbed() && fed == done + data[..datalen]
    }

    /** What the two ghost functions mean; the constructor establishes it once and for all. */
    ghost predicate Chained() { Chains(chain, kernel) }

    constructor (backend: Backend)
      ensures Valid() && fed == [] && fresh(data) && fresh(state) && Chained()
    {
      this.backend := backend;
      data := new byte[64];
      datalen, bitlen := 0, 0;
      state := new word[8];
      fed, done := [], [];
      chain, kernel := ChainWords, CompressWords;
      new;
      ChainWordsChains();
      Sha256Scalar.Store(state, Initial());
    }

    /** transform(): block_fn(state, data). */
    method Transform()
      requires data.Length == 64 && state.Length == 8
      modifies state
      ensures state[..] == Words(Compress(FromWords(old(state[..])), data[..]))
    {
      if backend == ShaNi {
        Sha256ShaNi.Blocks(state, data[..]);
      } else {
        Sha256Scalar.Blocks(state, data[..]);
      }
    }

    method TransformByKernel()
      requires Compresses(kernel) && data.Length == 64 && state.Length == 8
      modifies state
      ensures state[..] == kernel(old(state[..]), data[..])
    {
      assert StepAt(kernel, state[..], data[..]);
      Transform();
    }

    method TransformChained()
      requires Chained()
      requires data.Length == 64 && state.Length == 8 && |done| % 64 == 0 && state[..] == chain(done)
      modifies state
      ensures state[..] == chain(done + data[..])
    {
      assert Extends(chain, kernel, done, data[..]);
      TransformByKernel();
    }

    /** transform() on a full buffer. */
    method AbsorbData()
      requires Chained() && data.Length == 64 && AbsorbedWith(bitlen)
      modifies this`done, state
      ensures AbsorbedWith(bitlen) && done == old(done) + data[..] && data[..] == old(data[..])
    {
      TransformChained();
      assert |data[..]| == 64;
      done := done + data[..];
    }

    /** transform() on a full buffer, together with the bit count. */
    method Absorb()
      requires Chained() && data.Length == 64 && Absorbed()
      modifies this`bitlen, this`done, state
      ensures Absorbed() && done == old(done) + data[..]
    {
      OneMoreBlock(|done|);
      AbsorbData();
      bitlen := (bitlen + 512) % TWO64;
    }

    /** memcpy(data + at, src, |src|) */
    method CopyIn(at: nat, src: seq<byte>)
      requires data.Length == 64 && at + |src| <= 64
      modifies data
      ensures data[..] == old(data[..at]) + src + old(data[at + |src|..])
    {
      forall k | 0 <= k < |src| {
        data[at + k] := src[k];
      }
    }

    /** One whole block straight from the caller's buffer. */
    method AbsorbBlock(block: seq<byte>)
      requires Valid() && Chained() && datalen == 0 && |block| == 64
      modifies this`bitlen, this`fed, this`done, data, state
      ensures Valid() && fed == old(fed) + block
    {
      CopyIn(0, block);
      assert data[..] == block;
      Absorb();
      fed := fed + block;
    }

    /** Appends to the message, whatever the split into calls. */
    method Update(dataIn: seq<byte>)
      requires Valid() && Chained()
      modifies this`datalen, this`bitlen, this`fed, this`done, data, state
      ensures Valid() && fed == old(fed) + dataIn
    {
      var i := 0;
      if datalen > 0 {
        i := TopUp(dataIn);
      }
      i := AbsorbBlocks(dataIn, i);
      if i < |dataIn| {
        Keep(dataIn[i..]);
      }
    }

    /** The second phase: whole blocks. */
    method AbsorbBlocks(dataIn: seq<byte>, from: nat) returns (i: nat)
      requires Valid() && Chained() && from <= |dataIn| && (datalen > 0 ==> from == |dataIn|)
      modifies this`bitlen, this`fed, this`done, data, state
      ensures Valid() && from <= i <= |dataIn| < i + 64 && fed == old(fed) + dataIn[from..i]
      ensures datalen > 0 ==> i == |dataIn|
    {
      i := from;
      while |dataIn| - i >= 64
        invariant from <= i <= |dataIn| && Valid() && fed == old(fed) + dataIn[from..i]
        invariant datalen > 0 ==> i == |dataIn|
      {
        assert dataIn[from..i + 64] == dataIn[from..i] + dataIn[i..i + 64];
        AbsorbBlock(dataIn[i..i + 64]);
        i := i + 64;
      }
    }

    /** The last phase: less than a block is kept for later. */
    method Keep(rest: seq<byte>)
      requires Valid() && datalen == 0 && |rest| < 64
      modifies this`datalen, this`fed, data
      ensures Valid() && fed == old(fed) + rest
    {
      CopyIn(0, rest);
      datalen := |rest|;
      fed := fed + rest;
      assert data[..datalen] == rest;
    }

    /** The first phase of Update: fill a pending partial block. */
    method TopUp(dataIn: seq<byte>) returns (i: nat)
      requires Valid() && Chained() && datalen > 0
      modifies this`datalen, this`bitlen, this`fed, this`done, data, state
      ensures Valid() && i <= |dataIn| && fed == old(fed) + dataIn[..i]
      ensures datalen > 0 ==> i == |dataIn|
    {
      i := if 64 - datalen < |dataIn| then 64 - datalen else |dataIn|;
      CopyIn(datalen, dataIn[..i]);
      datalen := datalen + i;
      fed := fed + dataIn[..i];
      assert fed == done + data[..datalen];
      if datalen == 64 {
        Absorb();
        datalen := 0;
      }
    }

    /** Writes the one bit, the zero bits and, when they do not leave room for it, a block of their own. */
    method Pad()
      requires Valid() && Chained()
      modifies this`bitlen, this`done, data, state
      ensures AbsorbedWith(old(bitlen)) && done + data[..56] == fed + [0x80] + Zeros(ZeroCount(|fed|))
    {
      if datalen < 56 {
        FillUp(55 - datalen);
      } else {
        PadBlock();
        ClearBlock();
        LongPad(fed, datalen);
      }
    }

    /** memset(data, 0, 56) */
    method ClearBlock()
      requires data.Length == 64
      modifies data
      ensures data[..56] == Zeros(56)
    {
      CopyIn(0, Zeros(56));
    }

    /** The one bit and n zero bytes, where they leave room for the length. */
    method FillUp(n: nat)
      requires Valid() && datalen + 1 + n == 56
      modifies data
      ensures Absorbed() && done + data[..56] == fed + [0x80] + Zeros(ZeroCount(|fed|))
    {
      CopyIn(datalen, [0x80] + Zeros(n));
      assert data[..56] == old(data[..datalen]) + ([0x80] + Zeros(n));
      ShortPad(fed, done, old(data[..datalen]));
    }

    method PadBlock()
      requires Valid() && Chained() && 56 <= datalen
      modifies this`done, data, state
      ensures AbsorbedWith(bitlen) && done == fed + [0x80] + Zeros(63 - datalen)
    {
      CopyIn(datalen, [0x80] + Zeros(63 - datalen));
      assert data[..] == old(data[..datalen]) + ([0x80] + Zeros(63 - datalen));
      AbsorbData();
      Regroup(old(done), old(data[..datalen]), [0x80], Zeros(63 - datalen));
    }

    /** Everything digest() does before reading the state. */
    method Finish()
      requires Valid() && Chained()
      modifies this`bitlen, this`done, data, state
      ensures state[..] == chain(fed + Padding(|fed|))
    {
      ghost var whole := |done|;
      Pad();
      BitsAdd(whole, datalen);
      bitlen := (bitlen + datalen * 8) % TWO64;
      PutLength(data, bitlen);
      PaddedParts(fed, done, data[..]);
      TransformChained();
    }

    /** digest(): the hash of everything fed. The object is spent afterwards. */
    method Digest() returns (digest: seq<byte>)
      requires Valid() && Chained()
      modifies this`bitlen, this`done, data, state
      ensures digest == DigestBytes(Hash(fed)) && BytesOf(digest, Words(Hash(fed)))
    {
      Finish();
      ChainsIsHash(chain, kernel, fed);
      digest := StateBytes(Hash(fed));
      DigestBytesAreWords(Hash(fed));
    }

    /** Byte i of every word of the state. */
    method ByteColumn(hash: array<byte>, i: nat, shift: word)
      requires state.Length == 8 && hash.Length == 32 && i < 4 && shift == ShiftAt(i)
      modifies hash
      ensures forall k :: 0 <= k < 32 ==> hash[k] == if k % 4 == i then WordByte(state[k / 4], i) else old(hash[k])
    {
      for t := 0 to 8
        invariant forall k :: 0 <= k < 32 ==>
          hash[k] == if k % 4 == i && k / 4 < t then WordByte(state[k / 4], i) else old(hash[k])
      {
        ShiftIsByte(state[t], i, shift);
        hash[i + 4 * t] := ((state[t] >> shift) & 0x000000ff) as byte;
      }
    }

    /** The state, most significant byte of each word first. */
    method StateBytes(ghost v: Vars) returns (digest: seq<byte>)
      requires state[..] == Words(v)
      ensures digest == DigestBytes(v)
    {
      var hash := new byte[32];
      var shift: word := 24;
      for i := 0 to 4
        invariant i < 4 ==> shift == ShiftAt(i)
        invariant forall k :: 0 <= k < 32 && k % 4 < i ==> hash[k] == WordByte(state[k / 4], k % 4)
      {
        ByteColumn(hash, i, shift);
        shift := shift - 8;
      }
      digest := hash[..];
    }
  }

  lemma HighDigit(b: byte)
    ensures b >> 4 < 16 && b & 0x0f < 16 && (b >> 4) & 0xf == b >> 4
  {
  }

  /** SHA256::toString, from its own table of digits. */
  method ToString(digest: seq<byte>) returns (text: string)
    requires |digest| == 32
    ensures text == Hex(digest)
    ensures forall i :: 0 <= i < 32 ==>
      16 * DigitValue(text[2 * i]) + DigitValue(text[2 * i + 1]) == digest[i] as nat
  {
    var hex := "0123456789abcdef";
    var out := new char[64];
    for i := 0 to 32
      invariant out[..2 * i] == Hex(digest[..i])
    {
      out[2 * i] := hex[(digest[i] >> 4) as nat];
      out[2 * i + 1] := hex[(digest[i] & 0x0f) as nat];
      HighDigit(digest[i]);
      assert out[..2 * (i + 1)] == out[..2 * i] + Digits(digest[i]);
      assert digest[..i + 1][..i] == digest[..i];
    }
    assert digest[..32] == digest && out[..64] == out[..];
    text := out[..];
    forall i | 0 <= i < 32 ensures 16 * DigitValue(text[2 * i]) + DigitValue(text[2 * i + 1]) == digest[i] as nat {
      HexMeans(digest, i);
    }
  }

  method HexDigestOf(sha: Hasher) returns (text: string)
    requires sha.Valid() && sha.Chained()
    modifies sha`bitlen, sha`done, sha.data, sha.state
    ensures text == HexDigest(sha.fed)
  {
    var digest := sha.Digest();
    text := ToString(digest);
  }

  method FeedSplit(sha: Hasher, data: seq<byte>, splits: seq<nat>)
    requires sha.Valid() && sha.Chained() && sha.fed == []
    modifies sha, sha.data, sha.state
    ensures sha.Valid() && sha.fed == data
  {
    var pos := 0;
    for i := 0 to |splits|
      invariant 0 <= pos <= |data| && sha.Valid() && sha.fed == data[..pos]
    {
      if pos >= |data| {
        break;
      }
      var take := if splits[i] < |data| - pos then splits[i] else |data| - pos;
      sha.Update(data[pos..pos + take]);
      pos := pos + take;
    }
    if pos < |data| {
      sha.Update(data[pos..]);
    }
  }

  /** hash_bytes_split: any sequence of update calls gives the digest of the whole message. */
  method HashBytesSplit(data: seq<byte>, splits: seq<nat>, backend: Backend) returns (text: string)
    ensures text == HexDigest(data)
  {
    var sha := new Hasher(backend);
    FeedSplit(sha, data, splits);
    text := HexDigestOf(sha);
  }
}
