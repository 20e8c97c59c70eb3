/** SHA-256 as FIPS 180-4 defines it: the reference every kernel and the streaming
    hasher are proved against.

    All additions of 32-bit words go through `Add`, so that proofs need no more of
    addition than `AddAssoc` and `AddComm`. */
module Sha256Fips {
  type byte = bv8
  type word = bv32

  // ---------- words (section 4.1.2) ----------

  function Add(x: word, y: word): word { x + y }

  function Ch(x: word, y: word, z: word): word { (x & y) ^ (!x & z) }
  function Maj(x: word, y: word, z: word): word { (x & y) ^ (x & z) ^ (y & z) }
  function BigSigma0(x: word): word { x.RotateRight(2) ^ x.RotateRight(13) ^ x.RotateRight(22) }
  function BigSigma1(x: word): word { x.RotateRight(6) ^ x.RotateRight(11) ^ x.RotateRight(25) }
  function SmallSigma0(x: word): word { x.RotateRight(7) ^ x.RotateRight(18) ^ (x >> 3) }
  function SmallSigma1(x: word): word { x.RotateRight(17) ^ x.RotateRight(19) ^ (x >> 10) }

  /** Ch takes the bits of y where x has a one and the bits of z elsewhere. */
  lemma ChChooses(x: word, y: word, z: word)
    ensures Ch(x, y, z) & x == y & x && Ch(x, y, z) & !x == z & !x
  {
  }

  /** Maj takes the bits that at least two of the three words have. */
  lemma MajIsMajority(x: word, y: word, z: word)
    ensures Maj(x, y, z) == (x & y) | (x & z) | (y & z)
  {
  }

  lemma AddDef(x: word, y: word)
    ensures Add(x, y) == x + y
  {
  }

  lemma AddComm(x: word, y: word)
    ensures Add(x, y) == Add(y, x)
  {
  }

  lemma AddAssoc(x: word, y: word, z: word)
    ensures Add(Add(x, y), z) == Add(x, Add(y, z))
  {
    AddDef(x, y);
    AddDef(y, z);
    AddDef(x + y, z);
    AddDef(x, y + z);
  }

  // ---------- constants (sections 4.2.2 and 5.3.3) ----------

  const K0: seq<word> := [
    0x428a2f98, 0x71374491, 0xb5c0fbcf, 0xe9b5dba5, 0x3956c25b, 0x59f111f1, 0x923f82a4, 0xab1c5ed5
  ]
  const K1: seq<word> := [
    0xd807aa98, 0x12835b01, 0x243185be, 0x550c7dc3, 0x72be5d74, 0x80deb1fe, 0x9bdc06a7, 0xc19bf174
  ]
  const K2: seq<word> := [
    0xe49b69c1, 0xefbe4786, 0x0fc19dc6, 0x240ca1cc, 0x2de92c6f, 0x4a7484aa, 0x5cb0a9dc, 0x76f988da
  ]
  const K3: seq<word> := [
    0x983e5152, 0xa831c66d, 0xb00327c8, 0xbf597fc7, 0xc6e00bf3, 0xd5a79147, 0x06ca6351, 0x14292967
  ]
  const K4: seq<word> := [
    0x27b70a85, 0x2e1b2138, 0x4d2c6dfc, 0x53380d13, 0x650a7354, 0x766a0abb, 0x81c2c92e, 0x92722c85
  ]
  const K5: seq<word> := [
    0xa2bfe8a1, 0xa81a664b, 0xc24b8b70, 0xc76c51a3, 0xd192e819, 0xd6990624, 0xf40e3585, 0x106aa070
  ]
  const K6: seq<word> := [
    0x19a4c116, 0x1e376c08, 0x2748774c, 0x34b0bcb5, 0x391c0cb3, 0x4ed8aa4a, 0x5b9cca4f, 0x682e6ff3
  ]
  const K7: seq<word> := [
    0x748f82ee, 0x78a5636f, 0x84c87814, 0x8cc70208, 0x90befffa, 0xa4506ceb, 0xbef9a3f7, 0xc67178f2
  ]

  const K: seq<word> := ((K0 + K1) + (K2 + K3)) + ((K4 + K5) + (K6 + K7))

  // the first 64 prime numbers
  const P0: seq<nat> := [2, 3, 5, 7, 11, 13, 17, 19]
  const P1: seq<nat> := [23, 29, 31, 37, 41, 43, 47, 53]
  const P2: seq<nat> := [59, 61, 67, 71, 73, 79, 83, 89]
  const P3: seq<nat> := [97, 101, 103, 107, 109, 113, 127, 131]
  const P4: seq<nat> := [137, 139, 149, 151, 157, 163, 167, 173]
  const P5: seq<nat> := [179, 181, 191, 193, 197, 199, 211, 223]
  const P6: seq<nat> := [227, 229, 233, 239, 241, 251, 257, 263]
  const P7: seq<nat> := [269, 271, 277, 281, 283, 293, 307, 311]

  const PRIMES: seq<nat> := ((P0 + P1) + (P2 + P3)) + ((P4 + P5) + (P6 + P7))

  const TWO32: nat := 0x1_0000_0000

  predicate CubeBetween(x: nat, y: nat) { x * x * x <= y < (x + 1) * (x + 1) * (x + 1) }

  /** The first 32 bits of the fractional part of the cube root of n. */
  ghost predicate IsCubeRoot(k: word, n: nat) {
    exists whole: nat :: CubeBetween(whole * TWO32 + k as nat, n * TWO32 * TWO32 * TWO32)
  }

  lemma CubeRootWitness(k: word, n: nat, whole: nat)
    requires CubeBetween(whole * TWO32 + k as nat, n * TWO32 * TWO32 * TWO32)
    ensures IsCubeRoot(k, n)
  {
  }

  ghost predicate AreCubeRoots(ks: seq<word>, ns: seq<nat>) {
    |ks| == |ns| && forall i :: 0 <= i < |ks| ==> IsCubeRoot(ks[i], ns[i])
  }

  lemma CubeRoots0()
    ensures AreCubeRoots(K0, P0)
  {
    CubeRootWitness(0x428a2f98, 2, 1);
    CubeRootWitness(0x71374491, 3, 1);
    CubeRootWitness(0xb5c0fbcf, 5, 1);
    CubeRootWitness(0xe9b5dba5, 7, 1);
    CubeRootWitness(0x3956c25b, 11, 2);
    CubeRootWitness(0x59f111f1, 13, 2);
    CubeRootWitness(0x923f82a4, 17, 2);
    CubeRootWitness(0xab1c5ed5, 19, 2);
  }

  lemma CubeRoots1()
    ensures AreCubeRoots(K1, P1)
  {
    CubeRootWitness(0xd807aa98, 23, 2);
    CubeRootWitness(0x12835b01, 29, 3);
    CubeRootWitness(0x243185be, 31, 3);
    CubeRootWitness(0x550c7dc3, 37, 3);
    CubeRootWitness(0x72be5d74, 41, 3);
    CubeRootWitness(0x80deb1fe, 43, 3);
    CubeRootWitness(0x9bdc06a7, 47, 3);
    CubeRootWitness(0xc19bf174, 53, 3);
  }

  lemma CubeRoots2()
    ensures AreCubeRoots(K2, P2)
  {
    CubeRootWitness(0xe49b69c1, 59, 3);
    CubeRootWitness(0xefbe4786, 61, 3);
    CubeRootWitness(0x0fc19dc6, 67, 4);
    CubeRootWitness(0x240ca1cc, 71, 4);
    CubeRootWitness(0x2de92c6f, 73, 4);
    CubeRootWitness(0x4a7484aa, 79, 4);
    CubeRootWitness(0x5cb0a9dc, 83, 4);
    CubeRootWitness(0x76f988da, 89, 4);
  }

  lemma CubeRoots3()
    ensures AreCubeRoots(K3, P3)
  {
    CubeRootWitness(0x983e5152, 97, 4);
    CubeRootWitness(0xa831c66d, 101, 4);
    CubeRootWitness(0xb00327c8, 103, 4);
    CubeRootWitness(0xbf597fc7, 107, 4);
    CubeRootWitness(0xc6e00bf3, 109, 4);
    CubeRootWitness(0xd5a79147, 113, 4);
    CubeRootWitness(0x06ca6351, 127, 5);
    CubeRootWitness(0x14292967, 131, 5);
  }

  lemma CubeRoots4()
    ensures AreCubeRoots(K4, P4)
  {
    CubeRootWitness(0x27b70a85, 137, 5);
    CubeRootWitness(0x2e1b2138, 139, 5);
    CubeRootWitness(0x4d2c6dfc, 149, 5);
    CubeRootWitness(0x53380d13, 151, 5);
    CubeRootWitness(0x650a7354, 157, 5);
    CubeRootWitness(0x766a0abb, 163, 5);
    CubeRootWitness(0x81c2c92e, 167, 5);
    CubeRootWitness(0x92722c85, 173, 5);
  }

  lemma CubeRoots5()
    ensures AreCubeRoots(K5, P5)
  {
    CubeRootWitness(0xa2bfe8a1, 179, 5);
    CubeRootWitness(0xa81a664b, 181, 5);
    CubeRootWitness(0xc24b8b70, 191, 5);
    CubeRootWitness(0xc76c51a3, 193, 5);
    CubeRootWitness(0xd192e819, 197, 5);
    CubeRootWitness(0xd6990624, 199, 5);
    CubeRootWitness(0xf40e3585, 211, 5);
    CubeRootWitness(0x106aa070, 223, 6);
  }

  lemma CubeRoots6()
    ensures AreCubeRoots(K6, P6)
  {
    CubeRootWitness(0x19a4c116, 227, 6);
    CubeRootWitness(0x1e376c08, 229, 6);
    CubeRootWitness(0x2748774c, 233, 6);
    CubeRootWitness(0x34b0bcb5, 239, 6);
    CubeRootWitness(0x391c0cb3, 241, 6);
    CubeRootWitness(0x4ed8aa4a, 251, 6);
    CubeRootWitness(0x5b9cca4f, 257, 6);
    CubeRootWitness(0x682e6ff3, 263, 6);
  }

  lemma CubeRoots7()
    ensures AreCubeRoots(K7, P7)
  {
    CubeRootWitness(0x748f82ee, 269, 6);
    CubeRootWitness(0x78a5636f, 271, 6);
    CubeRootWitness(0x84c87814, 277, 6);
    CubeRootWitness(0x8cc70208, 281, 6);
    CubeRootWitness(0x90befffa, 283, 6);
    CubeRootWitness(0xa4506ceb, 293, 6);
    CubeRootWitness(0xbef9a3f7, 307, 6);
    CubeRootWitness(0xc67178f2, 311, 6);
  }

  lemma RootsJoin(ks: seq<word>, ns: seq<nat>, ls: seq<word>, ms: seq<nat>)
    requires AreCubeRoots(ks, ns) && AreCubeRoots(ls, ms)
    ensures AreCubeRoots(ks + ls, ns + ms)
  {
  }

  /** Where the 64 constants come from: section 4.2.2 takes them from the cube roots of the first primes. */
  lemma ConstantsAreCubeRoots()
    ensures AreCubeRoots(K, PRIMES) && |K| == 64
  {
    CubeRoots0();
    CubeRoots1();
    RootsJoin(K0, P0, K1, P1);
    CubeRoots2();
    CubeRoots3();
    RootsJoin(K2, P2, K3, P3);
    RootsJoin(K0 + K1, P0 + P1, K2 + K3, P2 + P3);
    CubeRoots4();
    CubeRoots5();
    RootsJoin(K4, P4, K5, P5);
    CubeRoots6();
    CubeRoots7();
    RootsJoin(K6, P6, K7, P7);
    RootsJoin(K4 + K5, P4 + P5, K6 + K7, P6 + P7);
    RootsJoin((K0 + K1) + (K2 + K3), (P0 + P1) + (P2 + P3), (K4 + K5) + (K6 + K7), (P4 + P5) + (P6 + P7));
  }

  predicate SquareBetween(x: nat, y: nat) { x * x <= y < (x + 1) * (x + 1) }

  /** The first 32 bits of the fractional part of the square root of n. */
  ghost predicate IsSquareRoot(h: word, n: nat) {
    exists whole: nat :: SquareBetween(whole * TWO32 + h as nat, n * TWO32 * TWO32)
  }

  lemma SquareRootWitness(h: word, n: nat, whole: nat)
    requires SquareBetween(whole * TWO32 + h as nat, n * TWO32 * TWO32)
    ensures IsSquareRoot(h, n)
  {
  }

  datatype Vars = Vars(a: word, b: word, c: word, d: word, e: word, f: word, g: word, h: word)

  function Initial(): Vars {
    Vars(0x6a09e667, 0xbb67ae85, 0x3c6ef372, 0xa54ff53a, 0x510e527f, 0x9b05688c, 0x1f83d9ab, 0x5be0cd19)
  }

  // ---------- one block (section 6.2.2) ----------

  /** Four bytes as a big-endian word (section 3.1). */
  function BigEndian(b0: byte, b1: byte, b2: byte, b3: byte): word {
    ((b0 as word) << 24) | ((b1 as word) << 16) | ((b2 as word) << 8) | (b3 as word)
  }

  /** Word t of the message schedule. */
  function W(m: seq<byte>, t: nat): word
    requires |m| == 64
  {
    if t < 16 then BigEndian(m[4 * t], m[4 * t + 1], m[4 * t + 2], m[4 * t + 3])
    else Add(Add(Add(SmallSigma1(W(m, t - 2)), W(m, t - 7)), SmallSigma0(W(m, t - 15))), W(m, t - 16))
  }

  /** One iteration of step 3. */
  function Round(v: Vars, k: word, w: word): Vars {
    var t1 := Add(Add(Add(Add(v.h, BigSigma1(v.e)), Ch(v.e, v.f, v.g)), k), w);
    var t2 := Add(BigSigma0(v.a), Maj(v.a, v.b, v.c));
    Vars(Add(t1, t2), v.a, v.b, v.c, Add(v.d, t1), v.e, v.f, v.g)
  }

  /** The working variables after n rounds. */
  function Rounds(v: Vars, k: seq<word>, m: seq<byte>, n: nat): Vars
    requires |m| == 64 && n <= |k|
  {
    if n == 0 then v else Round(Rounds(v, k, m, n - 1), k[n - 1], W(m, n - 1))
  }

  /** Step 4: the next intermediate hash value. */
  function AddVars(x: Vars, y: Vars): Vars {
    Vars(Add(x.a, y.a), Add(x.b, y.b), Add(x.c, y.c), Add(x.d, y.d),
         Add(x.e, y.e), Add(x.f, y.f), Add(x.g, y.g), Add(x.h, y.h))
  }

  function CompressWith(k: seq<word>, h: Vars, m: seq<byte>): Vars
    requires |m| == 64
  {
    AddVars(h, Rounds(h, k, m, |k|))
  }

  function Compress(h: Vars, m: seq<byte>): Vars
    requires |m| == 64
  {
    CompressWith(K, h, m)
  }

  /** The eight words of the state array the kernels update in place. */
  function Words(v: Vars): seq<word> { [v.a, v.b, v.c, v.d, v.e, v.f, v.g, v.h] }

  function FromWords(s: seq<word>): Vars
    requires |s| == 8
  {
    Vars(s[0], s[1], s[2], s[3], s[4], s[5], s[6], s[7])
  }

  /** Section 5.3.3: the initial words come from the square roots of the first eight primes. */
  lemma InitialAreSquareRoots()
    ensures var h := Words(Initial()); |h| == 8 && forall i :: 0 <= i < 8 ==> IsSquareRoot(h[i], P0[i])
  {
    SquareRootWitness(0x6a09e667, 2, 1);
    SquareRootWitness(0xbb67ae85, 3, 1);
    SquareRootWitness(0x3c6ef372, 5, 2);
    SquareRootWitness(0xa54ff53a, 7, 2);
    SquareRootWitness(0x510e527f, 11, 3);
    SquareRootWitness(0x9b05688c, 13, 3);
    SquareRootWitness(0x1f83d9ab, 17, 4);
    SquareRootWitness(0x5be0cd19, 19, 4);
  }

  // ---------- messages (sections 5.1.1 and 6.2) ----------

  const TWO64: nat := 0x1_0000_0000_0000_0000

  /** The n low-order bytes of a number, most significant first. */
  function BigEndianBytes(x: nat, n: nat): (b: seq<byte>)
    ensures |b| == n
  {
    if n == 0 then [] else BigEndianBytes(x / 256, n - 1) + [(x % 256) as byte]
  }

  function Zeros(n: nat): (z: seq<byte>)
    ensures |z| == n && forall i :: 0 <= i < n ==> z[i] == 0
  {
    seq(n, _ => 0)
  }

  /** The least number of zero bytes that, after the one bit and before the length, fills a block. */
  function ZeroCount(n: nat): (z: nat)
    ensures z < 64 && (n + 1 + z + 8) % 64 == 0
  {
    var r := n % 64;
    if r <= 55 then 55 - r else 119 - r
  }

  /** The length in bits of n bytes, as a 64-bit counter holds it. */
  function Bits(n: nat): (b: nat)
    ensures b < TWO64
  {
    8 * n % TWO64
  }

  lemma BitsAdd(n: nat, m: nat)
    ensures (Bits(n) + 8 * m) % TWO64 == Bits(n + m)
  {
  }

  /** What follows a message of n bytes: a one bit, as few zero bits as make the length a
      multiple of 512, and the length in bits. A length of 2^64 bits or more, for which the
      standard defines no digest, is reduced modulo 2^64. */
  function Padding(n: nat): (p: seq<byte>)
    ensures (n + |p|) % 64 == 0 && 9 <= |p| <= 72
  {
    [0x80] + Zeros(ZeroCount(n)) + BigEndianBytes(Bits(n), 8)
  }

  /** Chaining the compression function over a padded message. */
  function Chain(h: Vars, s: seq<byte>): Vars
    requires |s| % 64 == 0
  {
    if s == [] then h else Compress(Chain(h, s[..|s| - 64]), s[|s| - 64..])
  }

  function Hash(m: seq<byte>): Vars { Chain(Initial(), m + Padding(|m|)) }

  lemma ChainAppend(h: Vars, s: seq<byte>, b: seq<byte>)
    requires |s| % 64 == 0 && |b| == 64
    ensures (|s| + 64) % 64 == 0
    ensures Chain(h, s + b) == Compress(Chain(h, s), b)
  {
    assert (s + b)[..|s|] == s && (s + b)[|s|..] == b;
  }

  // ---------- digests as bytes and as text ----------

  lemma ChainOne(h: Vars, b: seq<byte>)
    requires |b| == 64
    ensures Chain(h, b) == Compress(h, b)
  {
    ChainAppend(h, [], b);
    assert [] + b == b;
  }

  /** Byte i of a word, most significant first. */
  function WordByte(w: word, i: nat): byte
    requires i < 4
  {
    ((if i == 0 then w >> 24 else if i == 1 then w >> 16 else if i == 2 then w >> 8 else w) & 0xFF) as byte
  }

  function DigestBytes(v: Vars): (d: seq<byte>)
    ensures |d| == 32
  {
    seq(32, i requires 0 <= i < 32 => WordByte(Words(v)[i / 4], i % 4))
  }

  /** The bytes of a word, put together again. */
  lemma WordFromBytes(w: word, b0: byte, b1: byte, b2: byte, b3: byte)
    requires b0 == WordByte(w, 0) && b1 == WordByte(w, 1) && b2 == WordByte(w, 2) && b3 == WordByte(w, 3)
    ensures BigEndian(b0, b1, b2, b3) == w
  {
  }

  /** The 32 bytes are the eight words, each most significant byte first. */
  ghost predicate BytesOf(d: seq<byte>, words: seq<word>) {
    |words| == 8 && |d| == 32 &&
    forall k :: 0 <= k < 8 ==> words[k] == BigEndian(d[4 * k], d[4 * k + 1], d[4 * k + 2], d[4 * k + 3])
  }

  lemma DigestByte(v: Vars, k: nat, j: nat)
    requires k < 8 && j < 4
    ensures DigestBytes(v)[4 * k + j] == WordByte(Words(v)[k], j)
  {
    assert (4 * k + j) / 4 == k && (4 * k + j) % 4 == j;
  }

  lemma DigestWord(v: Vars, d: seq<byte>, k: nat)
    requires d == DigestBytes(v) && k < 8
    ensures BigEndian(d[4 * k], d[4 * k + 1], d[4 * k + 2], d[4 * k + 3]) == Words(v)[k]
  {
    DigestByte(v, k, 0);
    DigestByte(v, k, 1);
    DigestByte(v, k, 2);
    DigestByte(v, k, 3);
    WordFromBytes(Words(v)[k], d[4 * k], d[4 * k + 1], d[4 * k + 2], d[4 * k + 3]);
  }

  lemma DigestBytesAreWords(v: Vars)
    ensures BytesOf(DigestBytes(v), Words(v))
  {
    forall k | 0 <= k < 8
      ensures var d := DigestBytes(v); Words(v)[k] == BigEndian(d[4 * k], d[4 * k + 1], d[4 * k + 2], d[4 * k + 3])
    {
      DigestWord(v, DigestBytes(v), k);
    }
  }

  const HEX := "0123456789abcdef"

  function Digits(b: byte): string { [HEX[((b >> 4) & 0xf) as nat], HEX[(b & 0xf) as nat]] }

  function Hex(d: seq<byte>): (s: string)
    ensures |s| == 2 * |d|
  {
    if d == [] then "" else Hex(d[..|d| - 1]) + Digits(d[|d| - 1])
  }

  /** The value of a lower-case hexadecimal digit. */
  function DigitValue(c: char): nat {
    if '0' <= c <= '9' then c as nat - '0' as nat else if 'a' <= c <= 'f' then c as nat - 'a' as nat + 10 else 16
  }

  lemma DigitsMean(b: byte)
    ensures DigitValue(Digits(b)[0]) < 16 && DigitValue(Digits(b)[1]) < 16
    ensures 16 * DigitValue(Digits(b)[0]) + DigitValue(Digits(b)[1]) == b as nat
  {
  }

  /** Digit by digit, the text is the bytes in base sixteen, in lower case. */
  lemma {:induction false} HexMeans(d: seq<byte>, i: nat)
    requires i < |d|
    ensures DigitValue(Hex(d)[2 * i]) < 16 && DigitValue(Hex(d)[2 * i + 1]) < 16
    ensures 16 * DigitValue(Hex(d)[2 * i]) + DigitValue(Hex(d)[2 * i + 1]) == d[i] as nat
  {
    var n := |d| - 1;
    if i < n {
      HexMeans(d[..n], i);
    } else {
      DigitsMean(d[n]);
    }
  }

  lemma DigitsInjective(a: byte, b: byte)
    requires Digits(a) == Digits(b)
    ensures a == b
  {
    assert Digits(a)[0] == Digits(b)[0] && Digits(a)[1] == Digits(b)[1];
  }

  /** The text form loses nothing: different digests have different names. */
  lemma {:induction false} HexInjective(a: seq<byte>, b: seq<byte>)
    requires Hex(a) == Hex(b)
    ensures a == b
  {
    assert |a| == |b|;
    if a != [] {
      var n := |a| - 1;
      assert Hex(a) == Hex(a[..n]) + Digits(a[n]) && Hex(b) == Hex(b[..n]) + Digits(b[n]);
      assert Hex(a)[..2 * n] == Hex(a[..n]) && Hex(b)[..2 * n] == Hex(b[..n]);
      assert Hex(a)[2 * n..] == Digits(a[n]) && Hex(b)[2 * n..] == Digits(b[n]);
      HexInjective(a[..n], b[..n]);
      DigitsInjective(a[n], b[n]);
      assert a == a[..n] + [a[n]] && b == b[..n] + [b[n]];
    }
  }

  /** The name an object with content `m` has in the store: SHA-256 in lower-case hexadecimal. */
  function HexDigest(m: seq<byte>): string { Hex(DigestBytes(Hash(m))) }
}
