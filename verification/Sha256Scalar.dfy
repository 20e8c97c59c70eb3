/** The portable kernel of src/sha256_backend.cpp. */
module Sha256Scalar {
  import opened Sha256Fips

  // ---------- the macros, expanded ----------

  function ChMacro(x: word, y: word, z: word): word { (x & y) ^ (!x & z) }
  function MajMacro(x: word, y: word, z: word): word { (x & y) ^ (x & z) ^ (y & z) }
  function Ep0(x: word): word { ((x >> 2) | (x << 30)) ^ ((x >> 13) | (x << 19)) ^ ((x >> 22) | (x << 10)) }
  function Ep1(x: word): word { ((x >> 6) | (x << 26)) ^ ((x >> 11) | (x << 21)) ^ ((x >> 25) | (x << 7)) }
  function Sig0(x: word): word { ((x >> 7) | (x << 25)) ^ ((x >> 18) | (x << 14)) ^ (x >> 3) }
  function Sig1(x: word): word { ((x >> 17) | (x << 15)) ^ ((x >> 19) | (x << 13)) ^ (x >> 10) }

  /** The macros are the functions of section 4.1.2. */
  lemma RoundMacros(x: word, y: word, z: word)
    ensures Ep0(x) == BigSigma0(x) && Ep1(x) == BigSigma1(x)
    ensures ChMacro(x, y, z) == Ch(x, y, z) && MajMacro(x, y, z) == Maj(x, y, z)
  {
  }

  lemma ScheduleMacros(x: word)
    ensures Sig0(x) == SmallSigma0(x) && Sig1(x) == SmallSigma1(x)
  {
  }

  // ---------- the kernel ----------

  method Store(state: array<word>, v: Vars)
    requires state.Length == 8
    modifies state
    ensures state[..] == Words(v)
  {
    state[0], state[1], state[2], state[3] := v.a, v.b, v.c, v.d;
    state[4], state[5], state[6], state[7] := v.e, v.f, v.g, v.h;
  }

  /** The full 64-word schedule. */
  method Schedule(block: seq<byte>) returns (w: array<word>)
    requires |block| == 64
    ensures fresh(w) && w.Length == 64
    ensures forall t: nat :: t < 64 ==> w[t] == W(block, t)
  {
    w := new word[64];
    for i := 0 to 16
      invariant forall t: nat :: t < i ==> w[t] == W(block, t)
    {
      w[i] := BigEndian(block[4 * i], block[4 * i + 1], block[4 * i + 2], block[4 * i + 3]);
    }
    for i := 16 to 64
      invariant forall t: nat :: t < i ==> w[t] == W(block, t)
    {
      ScheduleMacros(w[i - 15]);
      ScheduleMacros(w[i - 2]);
      w[i] := Add(Add(Add(Sig1(w[i - 2]), w[i - 7]), Sig0(w[i - 15])), w[i - 16]);
    }
  }

  /** The 64 rounds over eight local variables. */
  method RunRounds(v0: Vars, k: seq<word>, block: seq<byte>, w: array<word>) returns (v: Vars)
    requires |block| == 64 && |k| == 64 && w.Length == 64
    requires forall t: nat :: t < 64 ==> w[t] == W(block, t)
    ensures v == Rounds(v0, k, block, 64)
  {
    var a, b, c, d, e, f, g, h := v0.a, v0.b, v0.c, v0.d, v0.e, v0.f, v0.g, v0.h;
    for i := 0 to 64
      invariant Vars(a, b, c, d, e, f, g, h) == Rounds(v0, k, block, i)
    {
      assert w[i] == W(block, i);
      RoundMacros(a, b, c);
      RoundMacros(e, f, g);
      var t1 := Add(Add(Add(Add(h, Ep1(e)), ChMacro(e, f, g)), k[i]), w[i]);
      var t2 := Add(Ep0(a), MajMacro(a, b, c));
      h := g;
      g := f;
      f := e;
      e := Add(d, t1);
      d := c;
      c := b;
      b := a;
      a := Add(t1, t2);
    }
    v := Vars(a, b, c, d, e, f, g, h);
  }

  method BlocksWith(state: array<word>, block: seq<byte>, k: seq<word>)
    requires state.Length == 8 && |block| == 64 && |k| == 64
    modifies state
    ensures state[..] == Words(CompressWith(k, FromWords(old(state[..])), block))
  {
    var w := Schedule(block);
    var v := RunRounds(FromWords(state[..]), k, block, w);
    Store(state, AddVars(FromWords(state[..]), v));
  }

  /** Compresses one block into `state`, as section 6.2.2 of FIPS 180-4 prescribes. */
  method Blocks(state: array<word>, block: seq<byte>)
    requires state.Length == 8 && |block| == 64
    modifies state
    ensures state[..] == Words(Compress(FromWords(old(state[..])), block))
  {
    ghost var h := FromWords(state[..]);
    BlocksWith(state, block, K);
    assert |K| == 64;
    assert Compress(h, block) == CompressWith(K, h, block);
  }
}
