/** Choosing a SHA-256 kernel (src/sha256_backend.cpp) and overriding the choice (src/sha256.cpp). */
module Sha256Backend {
  import opened Sha256Fips
  import opened Sha256Stream
  import Sha256Scalar
  import Sha256ShaNi

  // ---------- the self-test ----------

  lemma ShortBits(n: nat)
    requires n <= 55
    ensures Bits(n) == n * 8
  {
  }

  lemma Halves(block: seq<byte>, n: nat)
    requires n <= |block|
    ensures block == block[..n] + block[n..]
  {
  }

  lemma ShortPadded(msg: seq<byte>, block: seq<byte>)
    requires |block| == 64 && block[56..] == BigEndianBytes(Bits(|msg|), 8)
    requires block[..56] == msg + [0x80] + Zeros(ZeroCount(|msg|))
    ensures block == msg + Padding(|msg|)
  {
    Halves(block, 56);
    Regroup(msg, [0x80], Zeros(ZeroCount(|msg|)), BigEndianBytes(Bits(|msg|), 8));
  }

  /** The message, the one bit, and zeros. */
  method OneBit(msg: seq<byte>) returns (block: array<byte>)
    requires |msg| <= 55
    ensures fresh(block) && block.Length == 64 && block[..56] == msg + [0x80] + Zeros(ZeroCount(|msg|))
  {
    block := new byte[64](i => 0);
    for i := 0 to |msg|
      invariant block[..i] == msg[..i] && forall j :: i <= j < 64 ==> block[j] == 0
    {
      block[i] := msg[i];
    }
    block[|msg|] := 0x80;
  }

  /** pad_single_block: for a message that leaves room for the length, its one padded block. */
  method PadSingleBlock(msg: seq<byte>) returns (block: array<byte>)
    requires |msg| <= 55
    ensures fresh(block) && block[..] == msg + Padding(|msg|)
  {
    block := OneBit(msg);
    ShortBits(|msg|);
    PutLength(block, |msg| * 8);
    assert block[..][..56] == block[..56] && block[..][56..] == block[56..];
    ShortPadded(msg, block[..]);
  }

  /** The self-test's single kernel call computes the whole digest of a short message. */
  lemma OneBlockIsWholeHash(msg: seq<byte>)
    requires |msg| <= 55
    ensures |msg + Padding(|msg|)| == 64 && Compress(Initial(), msg + Padding(|msg|)) == Hash(msg)
  {
    assert |msg + Padding(|msg|)| == 64;
    ChainOne(Initial(), msg + Padding(|msg|));
  }

  // ---------- choosing a backend ----------

  const SCALAR := "scalar"
  const SHA_NI := "sha-ni"
  const ARM := "arm-sha2"

  /** What the processor has, and which kernels pass their self-test. */
  datatype Machine = Machine(shaNi: bool, arm: bool, scalarOk: bool, shaNiOk: bool, armOk: bool)

  predicate Usable(name: string, m: Machine) {
    (name == SHA_NI && m.shaNi && m.shaNiOk) || (name == ARM && m.arm && m.armOk) || (name == SCALAR && m.scalarOk)
  }

  /** The order of preference. */
  function Speed(name: string): nat { if name == SHA_NI then 2 else if name == ARM then 1 else 0 }

  /** sha256_pick_backend: the forced name if it is usable, else the fastest usable one, else scalar. */
  function Pick(want: string, m: Machine): (name: string)
    ensures name == SCALAR || Usable(name, m)
    ensures Usable(want, m) ==> name == want
    ensures !Usable(want, m) ==> forall other :: Usable(other, m) ==> Speed(other) <= Speed(name)
  {
    if want == SCALAR && m.scalarOk then SCALAR
    else if want == SHA_NI && m.shaNi && m.shaNiOk then SHA_NI
    else if want == ARM && m.arm && m.armOk then ARM
    else if m.shaNi && m.shaNiOk then SHA_NI
    else if m.arm && m.armOk then ARM
    else SCALAR
  }

  predicate SetOk(want: string, m: Machine) { want == "" || want == "auto" || want == Pick(want, m) }

  class Selection {
    var name: string
    var ready: bool

    constructor ()
      ensures name == SCALAR && !ready
    {
      name, ready := SCALAR, false;
    }

    /** ensure_backend_ready: resolved once, from the environment. */
    method EnsureReady(env: string, m: Machine)
      modifies this
      ensures ready && name == if old(ready) then old(name) else Pick(env, m)
    {
      if !ready {
        name, ready := Pick(env, m), true;
      }
    }

    /** SHA256::set_backend stores what it resolved even when it reports failure. */
    method SetBackend(want: string, m: Machine) returns (ok: bool)
      modifies this
      ensures ready && ok == SetOk(want, m) && name == Pick(want, m)
    {
      var resolved := Pick(want, m);
      ok := want == "" || want == "auto" || want == resolved;
      name, ready := resolved, true;
    }
  }

  /** src/sha256.h promises that a refused name leaves the current backend unchanged. It does so exactly if the
      current backend is the one automatic detection would choose. */
  lemma RefusedNameLeavesBackendIff(current: string, want: string, m: Machine)
    requires !SetOk(want, m)
    ensures Pick(want, m) == current <==> current == Pick("auto", m)
  {
  }

  /** A pinned scalar backend and a misspelt name, on a processor with working SHA extensions. */
  lemma RefusedNameMayChangeBackend()
    ensures var m := Machine(true, false, true, true, false);
      Pick(SCALAR, m) == SCALAR && !SetOk("shani", m) && Pick("shani", m) == SHA_NI
  {
  }
}
