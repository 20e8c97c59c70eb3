/** The x86 SHA-NI kernel of src/sha256_shani.cpp, on 128-bit registers of four lanes
    (`l0` is bits 31:0). The seven intrinsics follow Intel's instruction descriptions. */
module Sha256ShaNi {
  import opened Sha256Fips

  // ---------- the intrinsics ----------

  datatype M128 = M128(l0: word, l1: word, l2: word, l3: word)

  /** Lane `i & 3`. */
  function Lane(x: M128, sel: byte): word {
    var i := sel & 3;
    if i == 0 then x.l0 else if i == 1 then x.l1 else if i == 2 then x.l2 else x.l3
  }

  /** _mm_add_epi32 */
  function AddEpi32(x: M128, y: M128): M128 {
    M128(Add(x.l0, y.l0), Add(x.l1, y.l1), Add(x.l2, y.l2), Add(x.l3, y.l3))
  }

  /** _mm_shuffle_epi32: two bits of `imm` choose the source of each lane. */
  function ShuffleEpi32(x: M128, imm: byte): M128 {
    M128(Lane(x, imm), Lane(x, imm >> 2), Lane(x, imm >> 4), Lane(x, imm >> 6))
  }

  /** _mm_alignr_epi8, (hi:lo) >> 8 * bytes, for byte counts that are whole lanes. */
  function AlignrEpi8(hi: M128, lo: M128, bytes: nat): M128
    requires bytes % 4 == 0 && bytes <= 16
  {
    if bytes == 0 then lo
    else if bytes == 4 then M128(lo.l1, lo.l2, lo.l3, hi.l0)
    else if bytes == 8 then M128(lo.l2, lo.l3, hi.l0, hi.l1)
    else if bytes == 12 then M128(lo.l3, hi.l0, hi.l1, hi.l2)
    else hi
  }

  /** The 16-bit halves of a lane, each taken from `y` when its bit of `imm` is set. */
  function BlendLane(x: word, y: word, lowFromY: bool, highFromY: bool): word {
    (if lowFromY then y & 0xFFFF else x & 0xFFFF) | (if highFromY then y & 0xFFFF0000 else x & 0xFFFF0000)
  }

  /** _mm_blend_epi16 */
  function BlendEpi16(x: M128, y: M128, imm: byte): M128 {
    M128(BlendLane(x.l0, y.l0, imm & 1 != 0, imm & 2 != 0), BlendLane(x.l1, y.l1, imm & 4 != 0, imm & 8 != 0),
         BlendLane(x.l2, y.l2, imm & 16 != 0, imm & 32 != 0), BlendLane(x.l3, y.l3, imm & 64 != 0, imm & 128 != 0))
  }

  /** Byte `k` (0 to 3) of a word, lowest first. */
  function ByteOfWord(w: word, k: byte): byte {
    ((if k == 0 then w else if k == 1 then w >> 8 else if k == 2 then w >> 16 else w >> 24) & 0xFF) as byte
  }

  /** Byte `j % 16` of a register. */
  function ByteOf(x: M128, j: byte): byte {
    ByteOfWord(if j & 12 == 0 then x.l0 else if j & 12 == 4 then x.l1 else if j & 12 == 8 then x.l2 else x.l3, j & 3)
  }

  function LittleEndian(b0: byte, b1: byte, b2: byte, b3: byte): word {
    BigEndian(b3, b2, b1, b0)
  }

  /** One lane of _mm_shuffle_epi8: each byte of the mask selects a byte, or zero when its top bit is set. */
  function ShuffleLane(x: M128, mask: word): word {
    var m0, m1 := (mask & 0xFF) as byte, ((mask >> 8) & 0xFF) as byte;
    var m2, m3 := ((mask >> 16) & 0xFF) as byte, ((mask >> 24) & 0xFF) as byte;
    LittleEndian(if m0 & 0x80 == 0 then ByteOf(x, m0) else 0, if m1 & 0x80 == 0 then ByteOf(x, m1) else 0,
                 if m2 & 0x80 == 0 then ByteOf(x, m2) else 0, if m3 & 0x80 == 0 then ByteOf(x, m3) else 0)
  }

  /** _mm_shuffle_epi8 */
  function ShuffleEpi8(x: M128, mask: M128): M128 {
    M128(ShuffleLane(x, mask.l0), ShuffleLane(x, mask.l1), ShuffleLane(x, mask.l2), ShuffleLane(x, mask.l3))
  }

  /** _mm_set_epi64x */
  function SetEpi64x(hi: bv64, lo: bv64): M128 {
    M128((lo & 0xFFFFFFFF) as word, (lo >> 32) as word, (hi & 0xFFFFFFFF) as word, (hi >> 32) as word)
  }

  /** _mm_loadu_si128 from bytes. */
  function LoadBytes(b: seq<byte>, i: nat): M128
    requires i + 16 <= |b|
  {
    M128(LittleEndian(b[i], b[i + 1], b[i + 2], b[i + 3]), LittleEndian(b[i + 4], b[i + 5], b[i + 6], b[i + 7]),
         LittleEndian(b[i + 8], b[i + 9], b[i + 10], b[i + 11]),
           LittleEndian(b[i + 12], b[i + 13], b[i + 14], b[i + 15]))
  }

  /** _mm_loadu_si128 from 32-bit words. */
  function LoadWords(s: seq<word>, i: nat): M128
    requires i + 4 <= |s|
  {
    M128(s[i], s[i + 1], s[i + 2], s[i + 3])
  }

  /** One iteration inside SHA256RNDS2. */
  function RndsStep(v: Vars, wk: word): Vars {
    var t := Add(Add(Add(Ch(v.e, v.f, v.g), BigSigma1(v.e)), wk), v.h);
    Vars(Add(Add(t, Maj(v.a, v.b, v.c)), BigSigma0(v.a)), v.a, v.b, v.c, Add(t, v.d), v.e, v.f, v.g)
  }

  /** _mm_sha256rnds2_epu32: `cdgh` holds C, D, G, H and `abef` holds A, B, E, F, highest lane first. */
  function Sha256Rnds2(cdgh: M128, abef: M128, wk: M128): M128 {
    var v := Vars(abef.l3, abef.l2, cdgh.l3, cdgh.l2, abef.l1, abef.l0, cdgh.l1, cdgh.l0);
    var r := RndsStep(RndsStep(v, wk.l0), wk.l1);
    M128(r.f, r.e, r.b, r.a)
  }

  /** _mm_sha256msg1_epu32 */
  function Sha256Msg1(x: M128, y: M128): M128 {
    M128(Add(x.l0, SmallSigma0(x.l1)), Add(x.l1, SmallSigma0(x.l2)),
         Add(x.l2, SmallSigma0(x.l3)), Add(x.l3, SmallSigma0(y.l0)))
  }

  /** _mm_sha256msg2_epu32: the two upper lanes use the two lower results. */
  function Sha256Msg2(x: M128, y: M128): M128 {
    var w16 := Add(x.l0, SmallSigma1(y.l2));
    var w17 := Add(x.l1, SmallSigma1(y.l3));
    M128(w16, w17, Add(x.l2, SmallSigma1(w16)), Add(x.l3, SmallSigma1(w17)))
  }

  // ---------- what the registers hold ----------

  function Abef(v: Vars): M128 { M128(v.f, v.e, v.b, v.a) }
  function Cdgh(v: Vars): M128 { M128(v.h, v.g, v.d, v.c) }

  /** Words t .. t+3 of a schedule. */
  ghost function Four(w: seq<word>, t: nat): M128
    requires t + 4 <= |w|
  {
    M128(w[t], w[t + 1], w[t + 2], w[t + 3])
  }

  /** A run of the algorithm on one block: the schedule, its half-made groups, and the
      working variables before each round and after the last. */
  datatype Run = Run(w: seq<word>, folded: seq<M128>, vars: seq<Vars>)

  /** Word t obeys the recurrence of the message schedule. */
  ghost predicate Extends(w: seq<word>, t: nat)
    requires 16 <= t < |w|
  {
    w[t] == Add(Add(Add(SmallSigma1(w[t - 2]), w[t - 7]), SmallSigma0(w[t - 15])), w[t - 16])
  }

  /** Half-made group t: words t .. t+3, each with small sigma 0 of its successor added. */
  ghost predicate Folds(run: Run, t: nat)
    requires t + 8 <= |run.w| && t < |run.folded|
  {
    run.folded[t] == Sha256Msg1(Four(run.w, t), Four(run.w, t + 4))
  }

  ghost predicate Advances(run: Run, k: seq<word>, n: nat)
    requires n + 1 < |run.vars| && n < |k| && n < |run.w|
  {
    run.vars[n + 1] == Round(run.vars[n], k[n], run.w[n])
  }

  ghost predicate IsRun(run: Run, k: seq<word>) {
    |k| == 64 && |run.w| == 64 && |run.folded| == 57 && |run.vars| == 65 &&
    (forall t: nat {:trigger Extends(run.w, t)} | 16 <= t < 64 :: Extends(run.w, t)) &&
    (forall t: nat {:trigger Folds(run, t)} | t < 57 :: Folds(run, t)) &&
    (forall n: nat {:trigger Advances(run, k, n)} | n < 64 :: Advances(run, k, n))
  }

  // ---------- the arithmetic of one step ----------

  lemma RoundSum(h: word, s: word, c: word, k: word, w: word)
    ensures Add(Add(Add(c, s), Add(w, k)), h) == Add(Add(Add(Add(h, s), c), k), w)
  {
    calc {
      Add(Add(Add(c, s), Add(w, k)), h);
      { AddComm(Add(Add(c, s), Add(w, k)), h); }
      Add(h, Add(Add(c, s), Add(w, k)));
      { AddAssoc(h, Add(c, s), Add(w, k)); }
      Add(Add(h, Add(c, s)), Add(w, k));
      { AddComm(c, s); AddAssoc(h, s, c); }
      Add(Add(Add(h, s), c), Add(w, k));
      { AddComm(w, k); AddAssoc(Add(Add(h, s), c), k, w); }
      Add(Add(Add(Add(h, s), c), k), w);
    }
  }

  /** The iteration inside SHA256RNDS2, fed w + k, is one round of FIPS 180-4. */
  lemma RndsStepIsRound(v: Vars, k: word, w: word)
    ensures RndsStep(v, Add(w, k)) == Round(v, k, w)
  {
    var t := Add(Add(Add(Add(v.h, BigSigma1(v.e)), Ch(v.e, v.f, v.g)), k), w);
    RoundSum(v.h, BigSigma1(v.e), Ch(v.e, v.f, v.g), k, w);
    AddComm(t, v.d);
    AddAssoc(t, Maj(v.a, v.b, v.c), BigSigma0(v.a));
    AddComm(BigSigma0(v.a), Maj(v.a, v.b, v.c));
  }

  lemma Rnds2IsTwoRounds(v: Vars, k0: word, w0: word, k1: word, w1: word, wk: M128)
    requires wk.l0 == Add(w0, k0) && wk.l1 == Add(w1, k1)
    ensures Sha256Rnds2(Cdgh(v), Abef(v), wk) == Abef(Round(Round(v, k0, w0), k1, w1))
    ensures Abef(v) == Cdgh(Round(Round(v, k0, w0), k1, w1))
  {
    RndsStepIsRound(v, k0, w0);
    RndsStepIsRound(Round(v, k0, w0), k1, w1);
  }

  /** Schedule word t, in the order of additions the extension uses. */
  lemma ExtendSum(w16: word, s0: word, w7: word, s1: word)
    ensures Add(Add(Add(w16, s0), w7), s1) == Add(Add(Add(s1, w7), s0), w16)
  {
    calc {
      Add(Add(Add(w16, s0), w7), s1);
      { AddComm(Add(Add(w16, s0), w7), s1); }
      Add(s1, Add(Add(w16, s0), w7));
      { AddComm(Add(w16, s0), w7); AddAssoc(s1, w7, Add(w16, s0)); }
      Add(Add(s1, w7), Add(w16, s0));
      { AddComm(w16, s0); AddAssoc(Add(s1, w7), s0, w16); }
      Add(Add(Add(s1, w7), s0), w16);
    }
  }

  lemma ScheduleWord(w: seq<word>, t: nat)
    requires 16 <= t < |w| && Extends(w, t)
    ensures Add(Add(Add(w[t - 16], SmallSigma0(w[t - 15])), w[t - 7]), SmallSigma1(w[t - 2])) == w[t]
  {
    ExtendSum(w[t - 16], SmallSigma0(w[t - 15]), w[t - 7], SmallSigma1(w[t - 2]));
  }

  /** One macro extension: a half-made group becomes the next four schedule words. */
  lemma ExtendIsSchedule(run: Run, k: seq<word>, t: nat)
    requires IsRun(run, k) && t + 20 <= 64
    ensures Sha256Msg2(AddEpi32(run.folded[t], AlignrEpi8(Four(run.w, t + 12), Four(run.w, t + 8), 4)),
      Four(run.w, t + 12))
         == Four(run.w, t + 16)
  {
    assert Folds(run, t);
    assert Extends(run.w, t + 16) && Extends(run.w, t + 17) && Extends(run.w, t + 18) && Extends(run.w, t + 19);
    ScheduleWord(run.w, t + 16);
    ScheduleWord(run.w, t + 17);
    ScheduleWord(run.w, t + 18);
    ScheduleWord(run.w, t + 19);
  }

  // ---------- bytes in, words out ----------

  const MASK := SetEpi64x(0x0c0d0e0f08090a0b, 0x0405060700010203)

  lemma LittleEndianBytes(b0: byte, b1: byte, b2: byte, b3: byte)
    ensures var w := LittleEndian(b0, b1, b2, b3);
      ByteOfWord(w, 0) == b0 && ByteOfWord(w, 1) == b1 && ByteOfWord(w, 2) == b2 && ByteOfWord(w, 3) == b3
  {
  }

  lemma LoadedBytes(m: seq<byte>, i: nat, x: M128)
    requires i + 16 <= |m| && x == LoadBytes(m, i)
    ensures ByteOf(x, 0) == m[i] && ByteOf(x, 1) == m[i + 1] && ByteOf(x, 2) == m[i + 2] && ByteOf(x, 3) == m[i + 3]
    ensures ByteOf(x, 4) == m[i + 4] && ByteOf(x, 5) == m[i + 5] && ByteOf(x, 6) == m[i + 6] && ByteOf(x, 7) == m[i + 7]
    ensures ByteOf(x, 8) == m[i + 8] && ByteOf(x, 9) == m[i + 9] && ByteOf(x, 10) == m[i + 10] &&
      ByteOf(x, 11) == m[i + 11]
    ensures ByteOf(x, 12) == m[i + 12] && ByteOf(x, 13) == m[i + 13] && ByteOf(x, 14) == m[i + 14] &&
      ByteOf(x, 15) == m[i + 15]
  {
    LittleEndianBytes(m[i], m[i + 1], m[i + 2], m[i + 3]);
    LittleEndianBytes(m[i + 4], m[i + 5], m[i + 6], m[i + 7]);
    LittleEndianBytes(m[i + 8], m[i + 9], m[i + 10], m[i + 11]);
    LittleEndianBytes(m[i + 12], m[i + 13], m[i + 14], m[i + 15]);
  }

  lemma ShuffledLanes(x: M128)
    ensures ShuffleLane(x, 0x00010203) == BigEndian(ByteOf(x, 0), ByteOf(x, 1), ByteOf(x, 2), ByteOf(x, 3))
    ensures ShuffleLane(x, 0x04050607) == BigEndian(ByteOf(x, 4), ByteOf(x, 5), ByteOf(x, 6), ByteOf(x, 7))
    ensures ShuffleLane(x, 0x08090a0b) == BigEndian(ByteOf(x, 8), ByteOf(x, 9), ByteOf(x, 10), ByteOf(x, 11))
    ensures ShuffleLane(x, 0x0c0d0e0f) == BigEndian(ByteOf(x, 12), ByteOf(x, 13), ByteOf(x, 14), ByteOf(x, 15))
  {
  }

  /** The byte shuffle turns sixteen loaded bytes into four big-endian words. */
  lemma ShuffledLoad(m: seq<byte>, i: nat)
    requires i + 16 <= |m|
    ensures ShuffleEpi8(LoadBytes(m, i), MASK)
         == M128(BigEndian(m[i], m[i + 1], m[i + 2], m[i + 3]), BigEndian(m[i + 4], m[i + 5], m[i + 6], m[i + 7]),
                 BigEndian(m[i + 8], m[i + 9], m[i + 10], m[i + 11]),
                   BigEndian(m[i + 12], m[i + 13], m[i + 14], m[i + 15]))
  {
    var x := LoadBytes(m, i);
    ShuffledLanes(x);
    LoadedBytes(m, i, x);
  }

  // ---------- packing the state ----------

  lemma BlendWholeLane(x: word, y: word)
    ensures BlendLane(x, y, false, false) == x
    ensures BlendLane(x, y, true, true) == y
  {
  }

  lemma BlendF0(x: M128, y: M128)
    ensures BlendEpi16(x, y, 0xF0) == M128(BlendLane(x.l0, y.l0, false, false), BlendLane(x.l1, y.l1, false, false),
                                           BlendLane(x.l2, y.l2, true, true), BlendLane(x.l3, y.l3, true, true))
  {
  }

  /** A blend by 0xF0 takes the two upper lanes from `y`. */
  lemma BlendUpper(x: M128, y: M128, r: M128)
    requires r == BlendEpi16(x, y, 0xF0)
    ensures r.l0 == x.l0 && r.l1 == x.l1 && r.l2 == y.l2 && r.l3 == y.l3
  {
    BlendF0(x, y);
    BlendWholeLane(x.l0, y.l0);
    BlendWholeLane(x.l1, y.l1);
    BlendWholeLane(x.l2, y.l2);
    BlendWholeLane(x.l3, y.l3);
  }

  method Blend(x: M128, y: M128) returns (r: M128)
    ensures r == M128(x.l0, x.l1, y.l2, y.l3)
  {
    r := BlendEpi16(x, y, 0xF0);
    BlendUpper(x, y, r);
  }

  method Pack(state0: M128, state1: M128, ghost v: Vars) returns (abef: M128, cdgh: M128)
    requires state0 == M128(v.a, v.b, v.c, v.d) && state1 == M128(v.e, v.f, v.g, v.h)
    ensures abef == Abef(v) && cdgh == Cdgh(v)
  {
    var tmp := ShuffleEpi32(state0, 0xB1);
    cdgh := ShuffleEpi32(state1, 0x1B);
    abef := AlignrEpi8(tmp, cdgh, 8);
    cdgh := Blend(cdgh, tmp);
  }

  method Unpack(abef: M128, cdgh: M128, ghost v: Vars) returns (state0: M128, state1: M128)
    requires abef == Abef(v) && cdgh == Cdgh(v)
    ensures state0 == M128(v.a, v.b, v.c, v.d) && state1 == M128(v.e, v.f, v.g, v.h)
  {
    var tmp := ShuffleEpi32(abef, 0x1B);
    state1 := ShuffleEpi32(cdgh, 0xB1);
    state0 := Blend(tmp, state1);
    state1 := AlignrEpi8(state1, tmp, 8);
  }

  // ---------- the two macros ----------

  /** AV_SHA_RND: four rounds on the packed state. */
  method FourRounds(state0: M128, state1: M128, msgWord: M128, k: seq<word>, kOff: nat, ghost run: Run)
    returns (abef: M128, cdgh: M128)
    requires IsRun(run, k) && kOff + 4 <= 64
    requires state0 == Abef(run.vars[kOff]) && state1 == Cdgh(run.vars[kOff]) && msgWord == Four(run.w, kOff)
    ensures abef == Abef(run.vars[kOff + 4]) && cdgh == Cdgh(run.vars[kOff + 4])
  {
    ghost var w := run.w;
    var msg := AddEpi32(msgWord, LoadWords(k, kOff));
    assert Advances(run, k, kOff) && Advances(run, k, kOff + 1);
    Rnds2IsTwoRounds(run.vars[kOff], k[kOff], w[kOff], k[kOff + 1], w[kOff + 1], msg);
    cdgh := Sha256Rnds2(state1, state0, msg);
    msg := ShuffleEpi32(msg, 0x0E);
    assert Advances(run, k, kOff + 2) && Advances(run, k, kOff + 3);
    Rnds2IsTwoRounds(run.vars[kOff + 2], k[kOff + 2], w[kOff + 2], k[kOff + 3], w[kOff + 3], msg);
    abef := Sha256Rnds2(state0, cdgh, msg);
  }

  /** AV_SHA_EXTEND: the next four schedule words. */
  method Extend(dst: M128, prev: M128, cur: M128, ghost k: seq<word>, ghost t: nat, ghost run: Run) returns (r: M128)
    requires IsRun(run, k) && t + 20 <= 64
    requires dst == run.folded[t] && prev == Four(run.w, t + 8) && cur == Four(run.w, t + 12)
    ensures r == Four(run.w, t + 16)
  {
    ExtendIsSchedule(run, k, t);
    var tmp2 := AlignrEpi8(cur, prev, 4);
    r := AddEpi32(dst, tmp2);
    r := Sha256Msg2(r, cur);
  }

  /** The step between them: a consumed group, folded with its successor. */
  method Fold(used: M128, cur: M128, ghost k: seq<word>, ghost t: nat, ghost run: Run) returns (r: M128)
    requires IsRun(run, k) && t + 8 <= 64
    requires used == Four(run.w, t) && cur == Four(run.w, t + 4)
    ensures r == run.folded[t]
  {
    assert Folds(run, t);
    r := Sha256Msg1(used, cur);
  }

  /** Groups 0 to 3. Afterwards the next four schedule words and three schedule groups in progress are loaded. */
  method FirstGroups(abef: M128, cdgh: M128, m0: M128, m1: M128, m2: M128, m3: M128, k: seq<word>, ghost run: Run)
    returns (s0: M128, s1: M128, msg0: M128, msg1: M128, msg2: M128, msg3: M128)
    requires IsRun(run, k)
    requires abef == Abef(run.vars[0]) && cdgh == Cdgh(run.vars[0])
    requires m0 == Four(run.w, 0) && m1 == Four(run.w, 4) && m2 == Four(run.w, 8) && m3 == Four(run.w, 12)
    ensures s0 == Abef(run.vars[16]) && s1 == Cdgh(run.vars[16])
    ensures msg0 == Four(run.w, 16) && msg1 == run.folded[4] && msg2 == run.folded[8] && msg3 == Four(run.w, 12)
  {
    s0, s1, msg0, msg1, msg2, msg3 := abef, cdgh, m0, m1, m2, m3;
    // group 0
    s0, s1 := FourRounds(s0, s1, msg0, k, 0, run);
    // group 1
    s0, s1 := FourRounds(s0, s1, msg1, k, 4, run);
    msg0 := Fold(msg0, msg1, k, 0, run);
    // group 2
    s0, s1 := FourRounds(s0, s1, msg2, k, 8, run);
    msg1 := Fold(msg1, msg2, k, 4, run);
    // group 3
    msg0 := Extend(msg0, msg2, msg3, k, 0, run);
    s0, s1 := FourRounds(s0, s1, msg3, k, 12, run);
    msg2 := Fold(msg2, msg3, k, 8, run);
  }

  /** Groups 4 to 7 (kOff == 16) and groups 8 to 11 (kOff == 32), which the source writes out one after the other. */
  method MiddleGroups(abef: M128, cdgh: M128, m0: M128, m1: M128, m2: M128, m3: M128, k: seq<word>, kOff: nat,
                      ghost run: Run)
    returns (s0: M128, s1: M128, msg0: M128, msg1: M128, msg2: M128, msg3: M128)
    requires IsRun(run, k) && 16 <= kOff <= 32
    requires abef == Abef(run.vars[kOff]) && cdgh == Cdgh(run.vars[kOff])
    requires m0 == Four(run.w, kOff) && m1 == run.folded[kOff - 12] && m2 == run.folded[kOff - 8] &&
      m3 == Four(run.w, kOff - 4)
    ensures s0 == Abef(run.vars[kOff + 16]) && s1 == Cdgh(run.vars[kOff + 16])
    ensures msg0 == Four(run.w, kOff + 16) && msg1 == run.folded[kOff + 4]
    ensures msg2 == run.folded[kOff + 8] && msg3 == Four(run.w, kOff + 12)
  {
    s0, s1, msg0, msg1, msg2, msg3 := abef, cdgh, m0, m1, m2, m3;
    // groups 4 and 8
    msg1 := Extend(msg1, msg3, msg0, k, kOff - 12, run);
    s0, s1 := FourRounds(s0, s1, msg0, k, kOff, run);
    msg3 := Fold(msg3, msg0, k, kOff - 4, run);
    // groups 5 and 9
    msg2 := Extend(msg2, msg0, msg1, k, kOff - 8, run);
    s0, s1 := FourRounds(s0, s1, msg1, k, kOff + 4, run);
    msg0 := Fold(msg0, msg1, k, kOff, run);
    // groups 6 and 10
    msg3 := Extend(msg3, msg1, msg2, k, kOff - 4, run);
    s0, s1 := FourRounds(s0, s1, msg2, k, kOff + 8, run);
    msg1 := Fold(msg1, msg2, k, kOff + 4, run);
    // groups 7 and 11
    msg0 := Extend(msg0, msg2, msg3, k, kOff, run);
    s0, s1 := FourRounds(s0, s1, msg3, k, kOff + 12, run);
    msg2 := Fold(msg2, msg3, k, kOff + 8, run);
  }

  /** Groups 12 to 15. */
  method LastGroups(abef: M128, cdgh: M128, m0: M128, m1: M128, m2: M128, m3: M128, k: seq<word>, ghost run: Run)
    returns (s0: M128, s1: M128)
    requires IsRun(run, k)
    requires abef == Abef(run.vars[48]) && cdgh == Cdgh(run.vars[48])
    requires m0 == Four(run.w, 48) && m1 == run.folded[36] && m2 == run.folded[40] && m3 == Four(run.w, 44)
    ensures s0 == Abef(run.vars[64]) && s1 == Cdgh(run.vars[64])
  {
    s0, s1 := abef, cdgh;
    var msg0, msg1, msg2, msg3 := m0, m1, m2, m3;
    // group 12
    msg1 := Extend(msg1, msg3, msg0, k, 36, run);
    s0, s1 := FourRounds(s0, s1, msg0, k, 48, run);
    msg3 := Fold(msg3, msg0, k, 44, run);
    // group 13
    msg2 := Extend(msg2, msg0, msg1, k, 40, run);
    s0, s1 := FourRounds(s0, s1, msg1, k, 52, run);
    // group 14
    msg3 := Extend(msg3, msg1, msg2, k, 44, run);
    s0, s1 := FourRounds(s0, s1, msg2, k, 56, run);
    // group 15
    s0, s1 := FourRounds(s0, s1, msg3, k, 60, run);
  }

  // ---------- the kernel ----------

  /** The kernel's own copy of the round constants. */
  const KX: seq<word> := (
    ([0x428a2f98, 0x71374491, 0xb5c0fbcf, 0xe9b5dba5, 0x3956c25b, 0x59f111f1, 0x923f82a4, 0xab1c5ed5] +
     [0xd807aa98, 0x12835b01, 0x243185be, 0x550c7dc3, 0x72be5d74, 0x80deb1fe, 0x9bdc06a7, 0xc19bf174]) +
    ([0xe49b69c1, 0xefbe4786, 0x0fc19dc6, 0x240ca1cc, 0x2de92c6f, 0x4a7484aa, 0x5cb0a9dc, 0x76f988da] +
     [0x983e5152, 0xa831c66d, 0xb00327c8, 0xbf597fc7, 0xc6e00bf3, 0xd5a79147, 0x06ca6351, 0x14292967])
  ) + (
    ([0x27b70a85, 0x2e1b2138, 0x4d2c6dfc, 0x53380d13, 0x650a7354, 0x766a0abb, 0x81c2c92e, 0x92722c85] +
     [0xa2bfe8a1, 0xa81a664b, 0xc24b8b70, 0xc76c51a3, 0xd192e819, 0xd6990624, 0xf40e3585, 0x106aa070]) +
    ([0x19a4c116, 0x1e376c08, 0x2748774c, 0x34b0bcb5, 0x391c0cb3, 0x4ed8aa4a, 0x5b9cca4f, 0x682e6ff3] +
     [0x748f82ee, 0x78a5636f, 0x84c87814, 0x8cc70208, 0x90befffa, 0xa4506ceb, 0xbef9a3f7, 0xc67178f2])
  )

  lemma SameConstants()
    ensures |K| == 64 && KX == K
  {
  }

  /** The run that FIPS 180-4 describes for block `m` and chaining value `h`. */
  ghost function RunOf(h: Vars, k: seq<word>, m: seq<byte>): (run: Run)
    requires |m| == 64 && |k| == 64
    ensures |run.w| == 64 && forall t: nat :: t < 64 ==> run.w[t] == W(m, t)
    ensures |run.folded| == 57 && forall t: nat :: t < 57 ==> Folds(run, t)
    ensures |run.vars| == 65 && forall n: nat :: n < 65 ==> run.vars[n] == Rounds(h, k, m, n)
  {
    var w := seq(64, t requires 0 <= t < 64 => W(m, t));
    Run(w, seq(57, t requires 0 <= t < 57 => Sha256Msg1(Four(w, t), Four(w, t + 4))),
        seq(65, n requires 0 <= n < 65 => Rounds(h, k, m, n)))
  }

  lemma RunOfIsRun(h: Vars, k: seq<word>, m: seq<byte>)
    requires |m| == 64 && |k| == 64
    ensures IsRun(RunOf(h, k, m), k)
  {
    var run := RunOf(h, k, m);
    forall t: nat | 16 <= t < 64
      ensures Extends(run.w, t)
    {
    }
    forall n: nat | n < 64
      ensures Advances(run, k, n)
    {
      assert run.vars[n + 1] == Rounds(h, k, m, n + 1);
    }
  }

  lemma LoadedMessage(m: seq<byte>, w: seq<word>, t: nat)
    requires |m| == 64 && t <= 12 && |w| == 64
    requires forall i: nat :: i < 64 ==> w[i] == W(m, i)
    ensures ShuffleEpi8(LoadBytes(m, 4 * t), MASK) == Four(w, t)
  {
    ShuffledLoad(m, 4 * t);
  }

  method LoadMessage(block: seq<byte>, ghost w: seq<word>) returns (msg0: M128, msg1: M128, msg2: M128, msg3: M128)
    requires |block| == 64 && |w| == 64
    requires forall i: nat :: i < 64 ==> w[i] == W(block, i)
    ensures msg0 == Four(w, 0) && msg1 == Four(w, 4) && msg2 == Four(w, 8) && msg3 == Four(w, 12)
  {
    LoadedMessage(block, w, 0);
    LoadedMessage(block, w, 4);
    LoadedMessage(block, w, 8);
    LoadedMessage(block, w, 12);
    msg0 := ShuffleEpi8(LoadBytes(block, 0), MASK);
    msg1 := ShuffleEpi8(LoadBytes(block, 16), MASK);
    msg2 := ShuffleEpi8(LoadBytes(block, 32), MASK);
    msg3 := ShuffleEpi8(LoadBytes(block, 48), MASK);
  }

  lemma AddPacked(x: Vars, y: Vars)
    ensures AddEpi32(Abef(x), Abef(y)) == Abef(AddVars(y, x))
    ensures AddEpi32(Cdgh(x), Cdgh(y)) == Cdgh(AddVars(y, x))
  {
    AddComm(x.a, y.a); AddComm(x.b, y.b); AddComm(x.c, y.c); AddComm(x.d, y.d);
    AddComm(x.e, y.e); AddComm(x.f, y.f); AddComm(x.g, y.g); AddComm(x.h, y.h);
  }

  method Store(state: array<word>, state0: M128, state1: M128, ghost v: Vars)
    requires state.Length == 8
    requires state0 == M128(v.a, v.b, v.c, v.d) && state1 == M128(v.e, v.f, v.g, v.h)
    modifies state
    ensures state[..] == Words(v)
  {
    state[0], state[1], state[2], state[3] := state0.l0, state0.l1, state0.l2, state0.l3;
    state[4], state[5], state[6], state[7] := state1.l0, state1.l1, state1.l2, state1.l3;
  }

  method BlocksWith(state: array<word>, block: seq<byte>, k: seq<word>)
    requires state.Length == 8 && |block| == 64 && |k| == 64
    modifies state
    ensures state[..] == Words(CompressWith(k, FromWords(old(state[..])), block))
  {
    ghost var h := FromWords(state[..]);
    ghost var run := RunOf(h, k, block);
    RunOfIsRun(h, k, block);
    var state0 := M128(state[0], state[1], state[2], state[3]);
    var state1 := M128(state[4], state[5], state[6], state[7]);
    state0, state1 := Pack(state0, state1, h);
    var abefSave, cdghSave := state0, state1;
    var msg0, msg1, msg2, msg3 := LoadMessage(block, run.w);
    state0, state1, msg0, msg1, msg2, msg3 := FirstGroups(state0, state1, msg0, msg1, msg2, msg3, k, run);
    state0, state1, msg0, msg1, msg2, msg3 := MiddleGroups(state0, state1, msg0, msg1, msg2, msg3, k, 16, run);
    state0, state1, msg0, msg1, msg2, msg3 := MiddleGroups(state0, state1, msg0, msg1, msg2, msg3, k, 32, run);
    state0, state1 := LastGroups(state0, state1, msg0, msg1, msg2, msg3, k, run);
    AddPacked(run.vars[64], h);
    ghost var sum := AddVars(h, run.vars[64]);
    state0 := AddEpi32(state0, abefSave);
    state1 := AddEpi32(state1, cdghSave);
    state0, state1 := Unpack(state0, state1, sum);
    Store(state, state0, state1, sum);
  }

  /** The accelerated kernel computes exactly what the scalar kernel computes. */
  method Blocks(state: array<word>, block: seq<byte>)
    requires state.Length == 8 && |block| == 64
    modifies state
    ensures state[..] == Words(Compress(FromWords(old(state[..])), block))
  {
    SameConstants();
    ghost var h := FromWords(state[..]);
    BlocksWith(state, block, KX);
    assert Compress(h, block) == CompressWith(K, h, block);
  }
}
