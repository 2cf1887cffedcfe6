/** Fixed-base scalar multiplication with twin signed combs: the scalar is recoded so that
    every bit stands for plus or minus one. */
module Comb {
  import opened Bits
  import opened Group
  import opened Limbs
  import opened Nonlinear
  import opened SlidingWindow
  import ScalarModL

  /** Plus or minus one. */
  ghost function Sign(bit: int): int {
    2 * bit - 1
  }

  /** The four teeth of a comb at position i of n. */
  ghost function Teeth(n: nat, i: nat): int {
    Sign(Bit(n, i)) + 0x1_00000000 * Sign(Bit(n, i + 32))
    + 0x1_00000000_00000000 * Sign(Bit(n, i + 64)) + 0x1_00000000_00000000_00000000 * Sign(Bit(n, i + 96))
  }

  /** The multiple in entry j of a comb table: the top tooth is one, bit k of j is tooth k. */
  ghost function Entry(j: nat): int {
    0x1_00000000_00000000_00000000 + 0x1_00000000_00000000 * Sign(j / 4 % 2)
    + 0x1_00000000 * Sign(j / 2 % 2) + Sign(j % 2)
  }

  ghost predicate CombTable<G>(g: Group<G>, comb: seq<G>, p: G) {
    |comb| == 8 && forall j :: 0 <= j < 8 ==> comb[j] == Smul(g, Entry(j), p)
  }

  /** The sign and index trick: an entry with the top tooth set, negated or not, gives the four
      signs that the bits ask for. */
  lemma {:induction false} TeethIndex(t: nat, high: nat, index: nat, b0: nat, b1: nat, b2: nat, b3: nat)
    requires b0 <= 1 && b1 <= 1 && b2 <= 1 && b3 <= 1
    requires t == b0 + 2 * b1 + 4 * b2 + 8 * b3 && high == t / 8
    requires index == And(Xor(t, high - 1), 7)
    ensures high == b3 && index < 8
    ensures (if high == 1 then Entry(index) else -Entry(index))
         == Sign(b0) + 0x1_00000000 * Sign(b1)
          + 0x1_00000000_00000000 * Sign(b2) + 0x1_00000000_00000000_00000000 * Sign(b3)
  {
    hide And, Xor;
    SmallPow(3);
    if high == 0 {
      XorOnes(t);
      AndLowMask(-1 - t, 3);
      SplitIndex(index, 1 - b0, 1 - b1, 1 - b2);
    } else {
      XorZero(t);
      AndLowMask(t, 3);
      SplitIndex(index, b0, b1, b2);
    }
  }

  lemma {:induction false} SplitIndex(j: nat, c0: nat, c1: nat, c2: nat)
    requires c0 <= 1 && c1 <= 1 && c2 <= 1 && j == c0 + 2 * c1 + 4 * c2
    ensures j % 2 == c0 && j / 2 % 2 == c1 && j / 4 % 2 == c2
  {
  }

  /** `1 & (((j ^ index) - 1) >> 8)`: one exactly when j is the index. */
  method Select(j: nat, index: nat) returns (select: int)
    requires j < 8 && index < 8
    ensures select == if j == index then 1 else 0
  {
    XorSmall(j, index);
    select := And(1, (Xor(j, index) - 1) / 0x100);
    assert And(1, -1) == 1 && And(1, 0) == 0;
  }

  lemma {:induction false} XorSmall(x: nat, y: nat)
    requires x < 8 && y < 8
    ensures 0 <= Xor(x, y) < 8 && (Xor(x, y) == 0 <==> x == y)
    decreases x
  {
    if x >= 4 || y >= 4 {
      XorTwoBits(x / 2, y / 2);
    } else {
      XorTwoBits(x, y);
    }
  }

  lemma {:induction false} XorTwoBits(x: nat, y: nat)
    requires x < 4 && y < 4
    ensures 0 <= Xor(x, y) < 4 && (Xor(x, y) == 0 <==> x == y)
  {
    assert x / 2 in [0, 1] && y / 2 in [0, 1];
    assert Xor(x / 2, y / 2) == if x / 2 == y / 2 then 0 else 1;
  }

  /** p plus the table entry that the teeth at position i ask for; the table is scanned whole. */
  method LookupAdd<G(!new)>(g: Group<G>, p: G, comb: seq<G>, scalar: seq<U8>, i: nat, ghost base: G) returns (r: G)
    requires IsAbelian(g) && CombTable(g, comb, base) && |scalar| == 32 && i + 96 < 256
    ensures r == g.add(p, Smul(g, Teeth(ByteVal(scalar), i), base))
  {
    hide IsAbelian, Smul, ByteVal, Bit, Entry, And, Xor;
    ghost var n := ByteVal(scalar);
    BitRange(n, i); BitRange(n, i + 32); BitRange(n, i + 64); BitRange(n, i + 96);
    var teeth: U8 := ScalarBit(scalar, i) + 2 * ScalarBit(scalar, i + 32) + 4 * ScalarBit(scalar, i + 64) + 8 * ScalarBit(scalar, i + 96);
    var high := teeth / 8;
    var index := And(Xor(teeth, high - 1), 7);
    AndLowMask(Xor(teeth, high - 1), 3);
    SmallPow(3);
    TeethIndex(teeth, high, index, Bit(n, i), Bit(n, i + 32), Bit(n, i + 64), Bit(n, i + 96));
    var c := g.zero;
    for j := 0 to 8
      invariant index < j ==> c == comb[index]
    {
      var select := Select(j, index);
      if select == 1 { c := comb[j]; }
    }
    SmulNeg(g, Entry(index), base);
    if high != 1 { c := g.neg(c); }
    r := g.add(p, c);
  }

  lemma {:induction false} BitRange(n: nat, i: nat)
    ensures 0 <= Bit(n, i) <= 1
  {
  }

  // ---- what the comb loop accumulates ----

  /** The signed number that bits i to 31 of one 32-bit segment stand for. */
  ghost function Segment(n: nat, base: nat, i: nat): int
    requires i <= 32
  {
    2 * (Shr(n, base + i) - Times(Pow2(32 - i), Shr(n, base + 32))) - (Pow2(32 - i) - 1)
  }

  lemma {:induction false} SegmentStep(n: nat, base: nat, i: nat)
    requires i < 32
    ensures Segment(n, base, i) == 2 * Segment(n, base, i + 1) + Sign(Bit(n, base + i))
  {
    hide Times, Shr, Bit;
    ShrStep(n, base + i);
    assert Pow2(32 - i) == 2 * Pow2(31 - i);
    TimesAdd(Pow2(31 - i), Pow2(31 - i), Shr(n, base + 32));
  }

  /** The multiple of the base point after positions 31 down to i. */
  ghost function Accumulated(n: nat, i: nat): int
    requires i <= 32
  {
    Segment(n, 0, i) + 0x1_00000000 * Segment(n, 32, i)
    + 0x1_00000000_00000000 * Segment(n, 64, i) + 0x1_00000000_00000000_00000000 * Segment(n, 96, i)
    + 0x1_00000000_00000000_00000000_00000000 * Segment(n, 128, i)
    + 0x1_00000000_00000000_00000000_00000000_00000000 * Segment(n, 160, i)
    + 0x1_00000000_00000000_00000000_00000000_00000000_00000000 * Segment(n, 192, i)
    + 0x1_00000000_00000000_00000000_00000000_00000000_00000000_00000000 * Segment(n, 224, i)
  }

  /** Doubling and adding both combs moves one position down. */
  lemma {:induction false} AccumulatedStep(n: nat, i: nat)
    requires i < 32
    ensures Accumulated(n, i) == 2 * Accumulated(n, i + 1) + Teeth(n, i) + 0x1_00000000_00000000_00000000_00000000 * Teeth(n, i + 128)
  {
    hide Segment, Bit, Sign;
    SegmentStep(n, 0, i);
    SegmentStep(n, 32, i);
    SegmentStep(n, 64, i);
    SegmentStep(n, 96, i);
    SegmentStep(n, 128, i);
    SegmentStep(n, 160, i);
    SegmentStep(n, 192, i);
    SegmentStep(n, 224, i);
  }

  lemma {:induction false} AccumulatedStart(n: nat)
    ensures Accumulated(n, 32) == 0
  {
    TimesUnit(Shr(n, 32)); TimesUnit(Shr(n, 64)); TimesUnit(Shr(n, 96)); TimesUnit(Shr(n, 128));
    TimesUnit(Shr(n, 160)); TimesUnit(Shr(n, 192)); TimesUnit(Shr(n, 224)); TimesUnit(Shr(n, 256));
  }

  lemma {:induction false} WholeSegment(n: nat, base: nat)
    ensures Segment(n, base, 0) == 2 * Shr(n, base) - 0x2_0000_0000 * Shr(n, base + 32) - 0xffff_ffff
  {
    Pow2Values();
    TimesIs(Pow2(32), Shr(n, base + 32));
  }

  /** With every bit a sign, the digits of n add up to 2n - (2^256 - 1). */
  lemma {:induction false} AccumulatedEnd(n: nat)
    requires Shr(n, 256) == 0
    ensures Accumulated(n, 0) == 2 * n - 0xffffffff_ffffffff_ffffffff_ffffffff_ffffffff_ffffffff_ffffffff_ffffffff
  {
    hide Segment, Shr;
    ShrStep(n, 0);
    WholeSegment(n, 0);
    WholeSegment(n, 32);
    WholeSegment(n, 64);
    WholeSegment(n, 96);
    WholeSegment(n, 128);
    WholeSegment(n, 160);
    WholeSegment(n, 192);
    WholeSegment(n, 224);
  }

  // ---- the recoded scalar ----

  /** A table of 32 bytes, written as eight words of four. */
  function Table(w0: seq<U8>, w1: seq<U8>, w2: seq<U8>, w3: seq<U8>, w4: seq<U8>, w5: seq<U8>, w6: seq<U8>, w7: seq<U8>): seq<U8> {
    w0 + (w1 + (w2 + (w3 + (w4 + (w5 + (w6 + (w7 + [])))))))
  }

  /** The inverse of 2 among the scalars. */
  method HalfModL() returns (s: seq<U8>)
    ensures |s| == 32 && 2 * ByteVal(s) == ScalarModL.L + 1
  {
    hide ByteVal;
    s := Table(
      [247, 233, 122, 46], [141, 49, 9, 44], [107, 206, 123, 81], [239, 124, 111, 10],
      [0, 0, 0, 0], [0, 0, 0, 0], [0, 0, 0, 0], [0, 0, 0, 8]);
    WordsVal(
      [247, 233, 122, 46], [141, 49, 9, 44], [107, 206, 123, 81], [239, 124, 111, 10],
      [0, 0, 0, 0], [0, 0, 0, 0], [0, 0, 0, 0], [0, 0, 0, 8],
      0x2e7ae9f7, 0x2c09318d, 0x517bce6b, 0xa6f7cef, 0x0, 0x0, 0x0, 0x8000000);
  }

  /** Half of the number with 256 one bits, among the scalars. */
  method HalfOnes() returns (s: seq<U8>)
    ensures |s| == 32 && 2 * ByteVal(s) == 0xffffffff_ffffffff_ffffffff_ffffffff_ffffffff_ffffffff_ffffffff_ffffffff - 15 * ScalarModL.L
  {
    hide ByteVal;
    s := Table(
      [142, 74, 204, 70], [186, 24, 118, 107], [184, 231, 190, 57], [250, 173, 119, 99],
      [255, 255, 255, 255], [255, 255, 255, 255], [255, 255, 255, 255], [255, 255, 255, 7]);
    WordsVal(
      [142, 74, 204, 70], [186, 24, 118, 107], [184, 231, 190, 57], [250, 173, 119, 99],
      [255, 255, 255, 255], [255, 255, 255, 255], [255, 255, 255, 255], [255, 255, 255, 7],
      0x46cc4a8e, 0x6b7618ba, 0x39bee7b8, 0x6377adfa, 0xffffffff, 0xffffffff, 0xffffffff, 0x7ffffff);
  }

  lemma {:induction false} NoBytes()
    ensures ByteVal([]) == 0
  {
  }

  lemma {:induction false} WordsVal(w0: seq<U8>, w1: seq<U8>, w2: seq<U8>, w3: seq<U8>, w4: seq<U8>, w5: seq<U8>, w6: seq<U8>, w7: seq<U8>,
         v0: nat, v1: nat, v2: nat, v3: nat, v4: nat, v5: nat, v6: nat, v7: nat)
    requires |w0| == |w1| == |w2| == |w3| == |w4| == |w5| == |w6| == |w7| == 4
    requires v0 == Load32(w0) && v1 == Load32(w1) && v2 == Load32(w2) && v3 == Load32(w3)
    requires v4 == Load32(w4) && v5 == Load32(w5) && v6 == Load32(w6) && v7 == Load32(w7)
    ensures ByteVal(Table(w0, w1, w2, w3, w4, w5, w6, w7))
         == v0 + 0x1_00000000 * v1 + 0x1_00000000_00000000 * v2 + 0x1_00000000_00000000_00000000 * v3
          + 0x1_00000000_00000000_00000000_00000000 * v4 + 0x1_00000000_00000000_00000000_00000000_00000000 * v5
          + 0x1_00000000_00000000_00000000_00000000_00000000_00000000 * v6
          + 0x1_00000000_00000000_00000000_00000000_00000000_00000000_00000000 * v7
  {
    hide ByteVal, Load32;
    NoBytes();
    Prepend(w7, []);
    Prepend(w6, w7 + []);
    Prepend(w5, w6 + (w7 + []));
    Prepend(w4, w5 + (w6 + (w7 + [])));
    Prepend(w3, w4 + (w5 + (w6 + (w7 + []))));
    Prepend(w2, w3 + (w4 + (w5 + (w6 + (w7 + [])))));
    Prepend(w1, w2 + (w3 + (w4 + (w5 + (w6 + (w7 + []))))));
    Prepend(w0, w1 + (w2 + (w3 + (w4 + (w5 + (w6 + (w7 + [])))))));
  }

  lemma {:induction false} Prepend(w: seq<U8>, rest: seq<U8>)
    requires |w| == 4
    ensures ByteVal(w + rest) == Load32(w) + 0x1_0000_0000 * ByteVal(rest)
  {
    ByteValFour(w + rest);
    assert (w + rest)[..4] == w && (w + rest)[4..] == rest;
  }

  /** The static tables of the scalar recoding. */
  method Constants() returns (half: array<U8>, ones: array<U8>)
    ensures half.Length == ones.Length == 32 && fresh(half) && fresh(ones)
    ensures 2 * ByteVal(half[..]) == ScalarModL.L + 1
    ensures 2 * ByteVal(ones[..]) == 0xffffffff_ffffffff_ffffffff_ffffffff_ffffffff_ffffffff_ffffffff_ffffffff - 15 * ScalarModL.L
  {
    var h := HalfModL();
    var o := HalfOnes();
    half := new U8[32](i requires 0 <= i < 32 => h[i]);
    ones := new U8[32](i requires 0 <= i < 32 => o[i]);
    assert half[..] == h && ones[..] == o;
  }

  /** Twice the recoded scalar, less 2^256 - 1, is the scalar modulo L. */
  lemma {:induction false} Recoded(n: nat, m: nat, half: nat, ones: nat) returns (t: int)
    requires 2 * half == ScalarModL.L + 1 && 2 * ones == 0xffffffff_ffffffff_ffffffff_ffffffff_ffffffff_ffffffff_ffffffff_ffffffff - 15 * ScalarModL.L
    requires m == (n * half + ones) % ScalarModL.L
    ensures 2 * m - 0xffffffff_ffffffff_ffffffff_ffffffff_ffffffff_ffffffff_ffffffff_ffffffff == n + Times(t, ScalarModL.L)
  {
    var l, q := ScalarModL.L, (n * half + ones) / ScalarModL.L;
    assert n * half + ones == l * q + m;
    t := n - 15 - 2 * q;
    assert n * (2 * half) == n * l + n by { Distribute(l, 1, n); }
    assert n * (2 * half) == 2 * (n * half);
    assert t * l == n * l - 15 * l - 2 * (l * q);
  }

  /** p = [scalar]B for every 32-byte scalar, in any group where [L]B is neutral. */
  method ScalarMultBase<G(!new)>(g: Group<G>, B: G, combLow: seq<G>, combHigh: seq<G>, scalar: array<U8>) returns (p: G)
    requires IsAbelian(g) && Smul(g, ScalarModL.L, B) == g.zero && scalar.Length == 32
    requires CombTable(g, combLow, B) && CombTable(g, combHigh, Smul(g, 0x1_00000000_00000000_00000000_00000000, B))
    ensures p == Smul(g, ByteVal(scalar[..]), B)
  {
    hide *;
    var halfModL, halfOnes := Constants();
    // recode the scalar so that each of its bits can be read as a sign
    var s := new U8[32];
    ScalarModL.MulAdd(s, scalar, halfModL, halfOnes);
    ghost var m := ByteVal(s[..]);
    ghost var t := Recoded(ByteVal(scalar[..]), m, ByteVal(halfModL[..]), ByteVal(halfOnes[..]));
    p := CombLoop(g, B, combLow, combHigh, s[..]);
    AddOrder(g, ByteVal(scalar[..]), t, ScalarModL.L, B);
  }

  /** The double-and-add loop over both combs. */
  method CombLoop<G(!new)>(g: Group<G>, B: G, combLow: seq<G>, combHigh: seq<G>, s: seq<U8>) returns (p: G)
    requires IsAbelian(g) && |s| == 32
    requires CombTable(g, combLow, B) && CombTable(g, combHigh, Smul(g, 0x1_00000000_00000000_00000000_00000000, B))
    ensures p == Smul(g, 2 * ByteVal(s) - 0xffffffff_ffffffff_ffffffff_ffffffff_ffffffff_ffffffff_ffffffff_ffffffff, B)
  {
    hide *;
    ghost var m := ByteVal(s);
    ghost var B128 := Smul(g, 0x1_00000000_00000000_00000000_00000000, B);
    p := g.zero;
    SmulOne(g, B);
    Zero(g, g.zero);
    AccumulatedStart(m);
    CombStep(g, m, 31, B);
    p := LookupAdd(g, p, combLow, s, 31, B);
    p := LookupAdd(g, p, combHigh, s, 31 + 128, B128);
    for i := 31 downto 0
      invariant p == Smul(g, Accumulated(m, i), B)
    {
      CombStep(g, m, i, B);
      p := g.add(p, p);
      p := LookupAdd(g, p, combLow, s, i, B);
      p := LookupAdd(g, p, combHigh, s, i + 128, B128);
    }
    BelowPow256(s);
    AccumulatedEnd(m);
  }

  /** One iteration, as multiples of B. */
  lemma {:induction false} CombStep<G(!new)>(g: Group<G>, n: nat, i: nat, B: G)
    requires IsAbelian(g) && i < 32
    ensures var p := Smul(g, Accumulated(n, i + 1), B);
      g.add(g.add(g.add(p, p), Smul(g, Teeth(n, i), B)), Smul(g, Teeth(n, i + 128), Smul(g, 0x1_00000000_00000000_00000000_00000000, B)))
      == Smul(g, Accumulated(n, i), B)
  {
    hide *;
    var a, x, y := Accumulated(n, i + 1), Teeth(n, i), Teeth(n, i + 128);
    SmulAdd(g, a, a, B);
    SmulAdd(g, 2 * a, x, B);
    SmulTimes(g, y, 0x1_00000000_00000000_00000000_00000000, B);
    TimesIs(y, 0x1_00000000_00000000_00000000_00000000);
    SmulAdd(g, 2 * a + x, 0x1_00000000_00000000_00000000_00000000 * y, B);
    AccumulatedStep(n, i);
  }

  lemma {:induction false} BelowPow256(s: seq<U8>)
    requires |s| == 32
    ensures Shr(ByteVal(s), 256) == 0
  {
    ShrBytes(s, 31);
    assert s[31..][1..] == [];
    ShrShr(ByteVal(s), 248, 8);
    ShrByte(s[31], 0);
  }

  /** Multiples that differ by a multiple of the order agree. */
  lemma {:induction false} AddOrder<G(!new)>(g: Group<G>, n: int, t: int, l: int, B: G)
    requires IsAbelian(g) && Smul(g, l, B) == g.zero
    ensures Smul(g, n + Times(t, l), B) == Smul(g, n, B)
  {
    hide *;
    SmulTimes(g, t, l, B);
    SmulAdd(g, n, Times(t, l), B);
    SmulZero(g, t);
    Zero(g, Smul(g, n, B));
  }

  lemma {:induction false} SmulZero<G(!new)>(g: Group<G>, n: int)
    requires IsAbelian(g)
    ensures Smul(g, n, g.zero) == g.zero
    decreases if n < 0 then 1 - n else n
  {
    hide IsAbelian;
    Zero(g, g.zero);
    if n > 0 {
      SmulZero(g, n - 1);
    } else if n < 0 {
      SmulZero(g, -n);
      NegNeg(g, g.zero);
    }
  }
}
