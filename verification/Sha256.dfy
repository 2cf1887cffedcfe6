/** SHA-256 (FIPS 180-4): the streaming implementation against the standard's padding, message
    schedule and rounds. */
module Sha256 {
  import opened Bits
  import opened BlockHash
  import opened Nonlinear

  const BLOCK: nat := 64

  // ---- the standard ----

  /** Addition modulo 2^32, under a name that proofs can hide. */
  function Plus(x: bv32, y: bv32): bv32 {
    x + y
  }

  function Ch(x: bv32, y: bv32, z: bv32): bv32 {
    (x & y) ^ (!x & z)
  }

  function Maj(x: bv32, y: bv32, z: bv32): bv32 {
    ((x & y) ^ (x & z)) ^ (y & z)
  }

  function BigSigma0(x: bv32): bv32 {
    (((x >> 2) | (x << 30)) ^ ((x >> 13) | (x << 19))) ^ ((x >> 22) | (x << 10))
  }

  function BigSigma1(x: bv32): bv32 {
    (((x >> 6) | (x << 26)) ^ ((x >> 11) | (x << 21))) ^ ((x >> 25) | (x << 7))
  }

  function SmallSigma0(x: bv32): bv32 {
    (((x >> 7) | (x << 25)) ^ ((x >> 18) | (x << 14))) ^ (x >> 3)
  }

  function SmallSigma1(x: bv32): bv32 {
    (((x >> 17) | (x << 15)) ^ ((x >> 19) | (x << 13))) ^ (x >> 10)
  }

  function K(): (k: seq<bv32>)
    ensures |k| == 64
  {
    [0x428a2f98, 0x71374491, 0xb5c0fbcf, 0xe9b5dba5, 0x3956c25b, 0x59f111f1, 0x923f82a4, 0xab1c5ed5,
     0xd807aa98, 0x12835b01, 0x243185be, 0x550c7dc3, 0x72be5d74, 0x80deb1fe, 0x9bdc06a7, 0xc19bf174]
    + [0xe49b69c1, 0xefbe4786, 0x0fc19dc6, 0x240ca1cc, 0x2de92c6f, 0x4a7484aa, 0x5cb0a9dc, 0x76f988da,
       0x983e5152, 0xa831c66d, 0xb00327c8, 0xbf597fc7, 0xc6e00bf3, 0xd5a79147, 0x06ca6351, 0x14292967]
    + [0x27b70a85, 0x2e1b2138, 0x4d2c6dfc, 0x53380d13, 0x650a7354, 0x766a0abb, 0x81c2c92e, 0x92722c85,
       0xa2bfe8a1, 0xa81a664b, 0xc24b8b70, 0xc76c51a3, 0xd192e819, 0xd6990624, 0xf40e3585, 0x106aa070]
    + [0x19a4c116, 0x1e376c08, 0x2748774c, 0x34b0bcb5, 0x391c0cb3, 0x4ed8aa4a, 0x5b9cca4f, 0x682e6ff3,
       0x748f82ee, 0x78a5636f, 0x84c87814, 0x8cc70208, 0x90befffa, 0xa4506ceb, 0xbef9a3f7, 0xc67178f2]
  }

  function InitialHash(): (h: seq<bv32>)
    ensures |h| == 8
  {
    [0x6a09e667, 0xbb67ae85, 0x3c6ef372, 0xa54ff53a, 0x510e527f, 0x9b05688c, 0x1f83d9ab, 0x5be0cd19]
  }

  function Load32(s: Octets): bv32
    requires |s| == 4
  {
    ((((s[0] as bv32) << 24) | ((s[1] as bv32) << 16)) | ((s[2] as bv32) << 8)) | (s[3] as bv32)
  }

  function Store32(x: bv32): (s: Octets)
    ensures |s| == 4
  {
    [((x >> 24) & 0xff) as bv8, ((x >> 16) & 0xff) as bv8, ((x >> 8) & 0xff) as bv8, (x & 0xff) as bv8]
  }

  /** The message schedule of section 6.2.2, step 1. */
  function W(block: Octets, t: nat): bv32
    requires |block| == BLOCK
  {
    if t < 16 then Load32(block[4 * t..4 * t + 4])
    else Plus(Plus(Plus(SmallSigma1(W(block, t - 2)), W(block, t - 7)), SmallSigma0(W(block, t - 15))), W(block, t - 16))
  }

  /** The eight working variables. */
  datatype Vars = Vars(a: bv32, b: bv32, c: bv32, d: bv32, e: bv32, f: bv32, g: bv32, h: bv32)

  /** One round of section 6.2.2, step 3. */
  function Round(v: Vars, k: bv32, w: bv32): Vars {
    var t1 := Plus(Plus(Plus(Plus(v.h, BigSigma1(v.e)), Ch(v.e, v.f, v.g)), k), w);
    var t2 := Plus(BigSigma0(v.a), Maj(v.a, v.b, v.c));
    Vars(Plus(t1, t2), v.a, v.b, v.c, Plus(v.d, t1), v.e, v.f, v.g)
  }

  function Rounds(v: Vars, block: Octets, t: nat): Vars
    requires |block| == BLOCK && t <= 64
  {
    if t == 0 then v else Round(Rounds(v, block, t - 1), K()[t - 1], W(block, t - 1))
  }

  function VarsOf(h: seq<bv32>): Vars
    requires |h| == 8
  {
    Vars(h[0], h[1], h[2], h[3], h[4], h[5], h[6], h[7])
  }

  function AddVars(h: seq<bv32>, v: Vars): (r: seq<bv32>)
    requires |h| == 8
    ensures |r| == 8
  {
    [Plus(h[0], v.a), Plus(h[1], v.b), Plus(h[2], v.c), Plus(h[3], v.d), Plus(h[4], v.e), Plus(h[5], v.f), Plus(h[6], v.g), Plus(h[7], v.h)]
  }

  /** The compression function. */
  function Step(h: seq<bv32>, block: Octets): (r: seq<bv32>) {
    if |h| == 8 && |block| == BLOCK then AddVars(h, Rounds(VarsOf(h), block, 64)) else h
  }

  /** The byte of a 64-bit counter at a shift. */
  function CountByte(bits: U64, i: nat): bv8
    requires i < 8
  {
    var b: nat := bits / Pow2(56 - 8 * i) % 0x100;
    b as bv8
  }

  /** The length in bits, modulo 2^64, big-endian. */
  function LengthTail(length: nat): (r: Octets)
    ensures |r| == 8
  {
    seq(8, i requires 0 <= i < 8 => CountByte(8 * length % 0x1_0000_0000_0000_0000, i))
  }

  /** The hash of a message: fold the padded message's blocks (sections 5.1.1 and 6.2). */
  function Digest(message: Octets): (h: seq<bv32>) {
    Fold(Step, BLOCK, InitialHash(), message + Padding(BLOCK, LengthTail(|message|), |message|))
  }

  function Output(h: seq<bv32>): Octets
    requires |h| == 8
  {
    Store32(h[0]) + Store32(h[1]) + Store32(h[2]) + Store32(h[3]) + Store32(h[4]) + Store32(h[5]) + Store32(h[6]) + Store32(h[7])
  }

  // ---- compression ----

  lemma {:induction false} RoundsNext(v: Vars, block: Octets, t: nat)
    requires |block| == BLOCK && t < 64
    ensures Rounds(v, block, t + 1) == Round(Rounds(v, block, t), K()[t], W(block, t))
    ensures Rounds(v, block, 0) == v
  {
    hide Round, K, W;
  }

  /** The message schedule, in an array of 64 words. */
  method Schedule(block: Octets, w: array<bv32>)
    requires |block| == BLOCK && w.Length == 64
    modifies w
    ensures forall t :: 0 <= t < 64 ==> w[t] == W(block, t)
  {
    hide Load32, SmallSigma0, SmallSigma1, Plus;
    for i := 0 to 16
      invariant forall t :: 0 <= t < i ==> w[t] == W(block, t)
    {
      w[i] := Load32(block[4 * i..4 * i + 4]);
    }
    for i := 16 to 64
      invariant forall t :: 0 <= t < i ==> w[t] == W(block, t)
    {
      w[i] := Plus(Plus(Plus(SmallSigma1(w[i - 2]), w[i - 7]), SmallSigma0(w[i - 15])), w[i - 16]);
    }
  }

  method Compress(state: array<bv32>, block: Octets)
    requires state.Length == 8 && |block| == BLOCK
    modifies state
    ensures state[..] == Step(old(state[..]), block)
  {
    hide W, K, Round, Rounds, AddVars;
    var w := new bv32[64];
    Schedule(block, w);
    ghost var start := VarsOf(state[..]);
    var v := Vars(state[0], state[1], state[2], state[3], state[4], state[5], state[6], state[7]);
    RoundsNext(start, block, 0);
    for i := 0 to 64
      invariant v == Rounds(start, block, i) && state[..] == old(state[..]) && forall t :: 0 <= t < 64 ==> w[t] == W(block, t)
    {
      RoundsNext(start, block, i);
      v := Round(v, K()[i], w[i]);
    }
    AddInto(state, v);
  }

  method AddInto(state: array<bv32>, v: Vars)
    requires state.Length == 8
    modifies state
    ensures state[..] == AddVars(old(state[..]), v)
  {
    hide Plus;
    state[0], state[1], state[2], state[3], state[4], state[5], state[6], state[7] :=
      Plus(state[0], v.a), Plus(state[1], v.b), Plus(state[2], v.c), Plus(state[3], v.d),
      Plus(state[4], v.e), Plus(state[5], v.f), Plus(state[6], v.g), Plus(state[7], v.h);
  }

  // ---- the streaming context ----

  class Context {
    const state: array<bv32>
    const buffer: array<bv8>
    var bufferLen: nat
    var bitCount: U64
    ghost var message: Octets

    predicate Shaped() {
      state.Length == 8 && buffer.Length == BLOCK
    }

    /** The context holds what absorbing the message so far leaves. */
    ghost predicate Valid()
      reads this, state, buffer
    {
      Shaped() && bufferLen < BLOCK
      && Stream(state[..], buffer[..bufferLen]) == Absorb(Step, BLOCK, Stream(InitialHash(), []), message)
      && bitCount == 8 * |message| % 0x1_0000_0000_0000_0000
    }

    constructor ()
      ensures Valid() && message == [] && fresh(state) && fresh(buffer)
    {
      hide Step, InitialHash, Absorb;
      state := new bv32[8](i requires 0 <= i < 8 => InitialHash()[i]);
      buffer := new bv8[64](i => 0);
      bufferLen, bitCount, message := 0, 0, [];
      new;
      assert state[..] == InitialHash();
      assert buffer[..0] == [];
      AbsorbShort(Step, BLOCK, Stream(InitialHash(), []), []);
    }

    /** Put bytes behind those already in the buffer. */
    method Fill(data: Octets)
      requires Shaped() && bufferLen + |data| <= BLOCK
      modifies this`bufferLen, buffer
      ensures bufferLen == old(bufferLen) + |data| && buffer[..bufferLen] == old(buffer[..bufferLen]) + data
    {
      forall i | 0 <= i < |data| { buffer[bufferLen + i] := data[i]; }
      bufferLen := bufferLen + |data|;
    }

    /** Top up an unfinished block; compress it when it is full. */
    method TopUp(data: Octets, ghost target: Stream<seq<bv32>>) returns (rest: Octets)
      requires Shaped() && bufferLen < BLOCK && Absorb(Step, BLOCK, Stream(state[..], buffer[..bufferLen]), data) == target
      modifies this`bufferLen, state, buffer
      ensures bufferLen < BLOCK && Absorb(Step, BLOCK, Stream(state[..], buffer[..bufferLen]), rest) == target
      ensures bufferLen == 0 || rest == []
    {
      hide Absorb, Step;
      rest := data;
      if bufferLen > 0 {
        var need := 64 - bufferLen;
        var take := if |data| < need then |data| else need;
        Feed(state[..], buffer[..bufferLen], data[..take], data[take..]);
        assert data == data[..take] + data[take..];
        Fill(data[..take]);
        rest := data[take..];
        if bufferLen == 64 {
          FullBlock(state[..], buffer[..bufferLen], rest);
          assert buffer[..bufferLen] == buffer[..];
          Compress(state, buffer[..]);
          bufferLen := 0;
          assert buffer[..bufferLen] == [];
        }
      }
    }

    /** The full blocks of the data. */
    method CompressBlocks(data: Octets, ghost target: Stream<seq<bv32>>) returns (rest: Octets)
      requires Shaped() && bufferLen < BLOCK && Absorb(Step, BLOCK, Stream(state[..], buffer[..bufferLen]), data) == target
      requires bufferLen == 0 || data == []
      modifies state
      ensures |rest| < BLOCK && Absorb(Step, BLOCK, Stream(state[..], buffer[..bufferLen]), rest) == target
      ensures bufferLen == 0 || rest == []
    {
      hide Absorb, Step;
      rest := data;
      while |rest| >= 64
        invariant Absorb(Step, BLOCK, Stream(state[..], buffer[..bufferLen]), rest) == target && (bufferLen == 0 || rest == [])
      {
        var block, later := rest[..64], rest[64..];
        assert rest == block + later && buffer[..bufferLen] == [] && [] + block == block;
        Feed(state[..], [], block, later);
        FullBlock(state[..], block, later);
        Compress(state, block);
        rest := later;
      }
    }

    method Update(data: Octets)
      requires Valid()
      modifies this, state, buffer
      ensures Valid() && message == old(message) + data
    {
      hide Absorb, Step;
      ghost var s := Absorb(Step, BLOCK, Stream(InitialHash(), []), message);
      ghost var target := Absorb(Step, BLOCK, s, data);
      AbsorbTwice(Step, BLOCK, Stream(InitialHash(), []), message, data);
      CountBits(|message|, |data|);
      bitCount := (bitCount + 8 * |data|) % 0x1_0000_0000_0000_0000;
      var rest := TopUp(data, target);
      rest := CompressBlocks(rest, target);
      if |rest| > 0 {
        Feed(state[..], buffer[..bufferLen], rest, []);
        assert rest + [] == rest;
        Fill(rest);
      }
      Settled(state[..], buffer[..bufferLen]);
      message := message + data;
    }

    /** Compress the block before the last, when the count does not fit behind the mark. */
    method Mark(ghost p: Octets, ghost h: seq<bv32>)
      requires Shaped() && |p| < BLOCK && bufferLen == |p| && buffer[..bufferLen] == p && state[..] == h && |h| == 8
      modifies this`bufferLen, state, buffer
      ensures |p| <= 55 ==> state[..] == h && bufferLen == |p| + 1 && buffer[..bufferLen] == p + [0x80]
      ensures |p| > 55 ==> state[..] == Step(h, p + [0x80] + BlockHash.Zeros(63 - |p|)) && bufferLen == 0
    {
      hide Step;
      Fill([0x80]);
      if bufferLen > 56 {
        var zeros := BlockHash.Zeros(64 - bufferLen);
        Fill(zeros);
        assert buffer[..bufferLen] == buffer[..];
        Compress(state, buffer[..]);
        bufferLen := 0;
      }
    }

    /** Zeros and the count behind the bytes that are there, and the last compression. */
    method Last(ghost q: Octets)
      requires Shaped() && bufferLen == |q| <= 56 && buffer[..bufferLen] == q && bitCount == 8 * |message| % 0x1_0000_0000_0000_0000
      modifies this`bufferLen, state, buffer
      ensures state[..] == Step(old(state[..]), q + BlockHash.Zeros(56 - |q|) + LengthTail(|message|))
    {
      hide Step, CountByte;
      var zeros := BlockHash.Zeros(56 - bufferLen);
      Fill(zeros);
      for i := 0 to 8
        invariant state[..] == old(state[..]) && buffer[..56] == q + zeros && buffer[56..56 + i] == LengthTail(|message|)[..i]
      {
        buffer[56 + i] := CountByte(bitCount, i);
        assert buffer[56..56 + i + 1] == buffer[56..56 + i] + [buffer[56 + i]];
      }
      assert buffer[..] == buffer[..56] + buffer[56..64] && LengthTail(|message|)[..8] == LengthTail(|message|);
      Compress(state, buffer[..]);
    }

    /** Pad, compress the last one or two blocks, and write the hash out. */
    method Final() returns (out: Octets)
      requires Valid()
      modifies this`bufferLen, this`bitCount, state, buffer
      ensures |Digest(message)| == 8 && out == Output(Digest(message))
    {
      hide Absorb, Step, Digest, LengthTail, Output;
      ghost var p, h := buffer[..bufferLen], state[..];
      DigestIs(message, p, h);
      Mark(p, h);
      ghost var q := if |p| > 55 then [] else p + [0x80];
      assert buffer[..bufferLen] == q;
      Last(q);
      out := Output(state[..]);
      bufferLen, bitCount := 0, 0;
    }
  }

  /** Data moves from what is left to what is pending. */
  lemma {:induction false} Feed(h: seq<bv32>, p: Octets, a: Octets, b: Octets)
    ensures Absorb(Step, BLOCK, Stream(h, p), a + b) == Absorb(Step, BLOCK, Stream(h, p + a), b)
  {
    hide Step, Fold, Rest;
    assert p + (a + b) == p + a + b;
  }

  /** A full block can be compressed at once. */
  lemma {:induction false} FullBlock(h: seq<bv32>, p: Octets, rest: Octets)
    requires |p| == BLOCK
    ensures Absorb(Step, BLOCK, Stream(h, p), rest) == Absorb(Step, BLOCK, Stream(Step(h, p), []), rest)
  {
    hide Step;
    var all := p + rest;
    assert all[..BLOCK] == p && all[BLOCK..] == rest && [] + rest == rest;
  }

  lemma {:induction false} Settled(h: seq<bv32>, p: Octets)
    requires |p| < BLOCK
    ensures Absorb(Step, BLOCK, Stream(h, p), []) == Stream(h, p)
  {
    hide Step;
    assert p + [] == p;
  }

  lemma {:induction false} CountBits(m: nat, n: nat)
    ensures (8 * m % 0x1_0000_0000_0000_0000 + 8 * n) % 0x1_0000_0000_0000_0000 == 8 * (m + n) % 0x1_0000_0000_0000_0000
  {
    ModShift(8 * m % 0x1_0000_0000_0000_0000 + 8 * n, 8 * m / 0x1_0000_0000_0000_0000, 0x1_0000_0000_0000_0000);
  }

  lemma {:induction false} PendingShort(message: Octets)
    ensures var s := Absorb(Step, BLOCK, Stream(InitialHash(), []), message);
      |s.pending| == |message| % BLOCK && |s.h| == 8
  {
    hide Step;
    assert [] + message == message;
    RestLength(BLOCK, message);
    FoldKeeps(InitialHash(), message);
  }

  lemma {:induction false} FoldKeeps(h: seq<bv32>, data: Octets)
    requires |h| == 8
    ensures |Fold(Step, BLOCK, h, data)| == 8
    decreases |data|
  {
    hide Rounds;
    if |data| >= BLOCK { FoldKeeps(Step(h, data[..BLOCK]), data[BLOCK..]); }
  }

  /** The padding as it follows k pending bytes. */
  lemma {:induction false} PaddingShape(n: nat, k: nat, tail: Octets)
    requires k == n % BLOCK && |tail| == 8
    ensures Padding(BLOCK, tail, n) == [0x80] + BlockHash.Zeros(if k <= 55 then 55 - k else 119 - k) + tail
  {
    PaddingZeros(BLOCK, 8, n);
  }

  lemma {:induction false} FoldTail(message: Octets, p: Octets, h: seq<bv32>, pad: Octets)
    requires Stream(h, p) == Absorb(Step, BLOCK, Stream(InitialHash(), []), message)
    ensures Fold(Step, BLOCK, InitialHash(), message + pad) == Fold(Step, BLOCK, h, p + pad)
  {
    hide Step, InitialHash, Fold, Rest;
    assert [] + message == message;
    FoldRest(Step, BLOCK, InitialHash(), message, pad);
  }

  /** The padded message ends in the pending bytes and the padding. */
  lemma {:induction false} DigestIs(message: Octets, p: Octets, h: seq<bv32>)
    requires Stream(h, p) == Absorb(Step, BLOCK, Stream(InitialHash(), []), message)
    ensures var tail := LengthTail(|message|);
      && |h| == 8 && |p| < BLOCK && |Digest(message)| == 8
      && (|p| <= 55 ==> Digest(message) == Step(h, p + [0x80] + BlockHash.Zeros(56 - |p + [0x80]|) + tail))
      && (|p| > 55 ==> Digest(message) == Step(Step(h, p + [0x80] + BlockHash.Zeros(63 - |p|)), [] + BlockHash.Zeros(56) + tail))
  {
    hide Step, LengthTail, InitialHash, Fold, Padding, Absorb;
    PendingShort(message);
    var tail, n := LengthTail(|message|), |message|;
    FoldKeeps(InitialHash(), message + Padding(BLOCK, tail, n));
    FoldTail(message, p, h, Padding(BLOCK, tail, n));
    PaddingShape(n, |p|, tail);
    if |p| <= 55 { ShortPadding(h, p, tail); } else { LongPadding(h, p, tail); }
  }

  lemma {:induction false} ShortPadding(h: seq<bv32>, p: Octets, tail: Octets)
    requires |p| <= 55 && |tail| == 8
    ensures Fold(Step, BLOCK, h, p + ([0x80] + BlockHash.Zeros(55 - |p|) + tail)) == Step(h, p + [0x80] + BlockHash.Zeros(56 - |p + [0x80]|) + tail)
  {
    hide Step, Fold;
    var block := p + [0x80] + BlockHash.Zeros(55 - |p|) + tail;
    assert p + ([0x80] + BlockHash.Zeros(55 - |p|) + tail) == block;
    OneBlock(h, block);
  }

  lemma {:induction false} LongPadding(h: seq<bv32>, p: Octets, tail: Octets)
    requires 55 < |p| < BLOCK && |tail| == 8
    ensures Fold(Step, BLOCK, h, p + ([0x80] + BlockHash.Zeros(119 - |p|) + tail))
         == Step(Step(h, p + [0x80] + BlockHash.Zeros(63 - |p|)), [] + BlockHash.Zeros(56) + tail)
  {
    hide Step, Fold;
    var first, second := p + [0x80] + BlockHash.Zeros(63 - |p|), [] + BlockHash.Zeros(56) + tail;
    assert BlockHash.Zeros(119 - |p|) == BlockHash.Zeros(63 - |p|) + BlockHash.Zeros(56);
    assert p + ([0x80] + BlockHash.Zeros(119 - |p|) + tail) == first + second;
    TwoBlocks(h, first, second);
  }

  lemma {:induction false} OneBlock(h: seq<bv32>, block: Octets)
    requires |block| == BLOCK
    ensures Fold(Step, BLOCK, h, block) == Step(h, block)
  {
    hide Step;
    assert block[..BLOCK] == block && block[BLOCK..] == [];
    assert Fold(Step, BLOCK, Step(h, block), []) == Step(h, block);
  }

  lemma {:induction false} TwoBlocks(h: seq<bv32>, a: Octets, b: Octets)
    requires |a| == BLOCK && |b| == BLOCK
    ensures Fold(Step, BLOCK, h, a + b) == Step(Step(h, a), b)
  {
    hide Step;
    assert (a + b)[..BLOCK] == a && (a + b)[BLOCK..] == b;
    OneBlock(Step(h, a), b);
  }

  /** Any split of a message into updates gives the hash of the message. */
  method HashPieces(pieces: seq<Octets>) returns (out: Octets)
    ensures |Digest(Flatten(pieces))| == 8 && out == Output(Digest(Flatten(pieces)))
  {
    hide Digest, Absorb, Step, Output, Flatten;
    NoPieces();
    var ctx := new Context();
    for i := 0 to |pieces|
      invariant ctx.Valid() && ctx.message == Flatten(pieces[..i])
      invariant fresh(ctx) && fresh(ctx.state) && fresh(ctx.buffer)
    {
      FlattenNext(pieces, i);
      ctx.Update(pieces[i]);
    }
    assert pieces[..|pieces|] == pieces;
    out := ctx.Final();
  }

  lemma {:induction false} NoPieces()
    ensures Flatten([]) == []
  {
  }
}
