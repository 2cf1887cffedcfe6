/** Arithmetic modulo p = 2^255 - 19 on ten signed limbs of alternately 26 and 25 bits. */
module FieldElement {
  import opened Bits
  import opened Limbs
  import opened Nonlinear

  const P: nat := 0x7fffffff_ffffffff_ffffffff_ffffffff_ffffffff_ffffffff_ffffffff_ffffffed

  /** The number that ten limbs denote: limb i weighs 2^ceil(25.5 i). */
  ghost function Eval(h0: int, h1: int, h2: int, h3: int, h4: int, h5: int, h6: int, h7: int, h8: int, h9: int): int {
    h0
    + 0x4000000 * h1
    + 0x80000_00000000 * h2
    + 0x2000_00000000_00000000 * h3
    + 0x40_00000000_00000000_00000000 * h4
    + 0x1_00000000_00000000_00000000_00000000 * h5
    + 0x2000000_00000000_00000000_00000000_00000000 * h6
    + 0x80000_00000000_00000000_00000000_00000000_00000000 * h7
    + 0x1000_00000000_00000000_00000000_00000000_00000000_00000000 * h8
    + 0x40_00000000_00000000_00000000_00000000_00000000_00000000_00000000 * h9
  }

  ghost function Value(h: seq<int>): int
    requires |h| == 10
  {
    Eval(h[0], h[1], h[2], h[3], h[4], h[5], h[6], h[7], h[8], h[9])
  }

  /** Even limbs at most `even` and odd limbs at most `odd` in magnitude. */
  predicate Within(h: seq<int>, even: int, odd: int) {
    && |h| == 10
    && -even <= h[0] <= even && -odd <= h[1] <= odd
    && -even <= h[2] <= even && -odd <= h[3] <= odd
    && -even <= h[4] <= even && -odd <= h[5] <= odd
    && -even <= h[6] <= even && -odd <= h[7] <= odd
    && -even <= h[8] <= even && -odd <= h[9] <= odd
  }

  /** |h| below 1.1 * 2^25 on even and 1.1 * 2^24 on odd limbs: what a carry leaves. */
  predicate Tight(h: seq<int>) {
    Within(h, 36909875, 18454937)
  }

  /** |h| below 1.65 * 2^26 on even and 1.65 * 2^25 on odd limbs: what a product accepts. */
  predicate Loose(h: seq<int>) {
    Within(h, 110729625, 55364812)
  }

  // ---- carry ----

  /** Accumulators below 2^62, which leave room for a carry. */
  type I62 = x: int | -0x4000_0000_0000_0000 < x < 0x4000_0000_0000_0000

  /** Round to the nearest multiple of 2^26 with an arithmetic shift: the carry and what stays. */
  method Carry26(t: I64) returns (low: I32, c: I64)
    requires t <= 0x7fff_ffff_fdff_ffff
    ensures t == low + 0x400_0000 * c && -0x200_0000 <= low < 0x200_0000
  {
    c := (t + 0x200_0000) / 0x400_0000;
    low := t - c * 0x400_0000;
  }

  /** The same for limbs of 25 bits. */
  method Carry25(t: I64) returns (low: I32, c: I64)
    requires t <= 0x7fff_ffff_feff_ffff
    ensures t == low + 0x200_0000 * c && -0x100_0000 <= low < 0x100_0000
  {
    c := (t + 0x100_0000) / 0x200_0000;
    low := t - c * 0x200_0000;
  }

  /** The carry chain. No 64-bit intermediate overflows, the number changes by a multiple of p,
      and the limbs come out tight. The bound on s0 is the one the code needs: s0 plus 2^25
      must fit as well, which |s0| < 2^63 alone does not give. */
  method CarryChain(s0: I64, s1: I62, s2: I62, s3: I62, s4: I62, s5: I62, s6: I62, s7: I62, s8: I62, s9: I62)
    returns (t0: I64, t1: I64, t2: I64, t3: I64, t4: I64, t5: I64, t6: I64, t7: I64, t8: I64, t9: I64, ghost wrapped: int)
    requires s0 <= 0x7fff_ffff_fdff_ffff
    ensures Tight([t0, t1, t2, t3, t4, t5, t6, t7, t8, t9])
    ensures Eval(s0, s1, s2, s3, s4, s5, s6, s7, s8, s9) == Eval(t0, t1, t2, t3, t4, t5, t6, t7, t8, t9) + 0x7fffffff_ffffffff_ffffffff_ffffffff_ffffffff_ffffffff_ffffffff_ffffffed * wrapped
  {
    t0, t1, t2, t3, t4, t5, t6, t7, t8, t9 := s0, s1, s2, s3, s4, s5, s6, s7, s8, s9;
    var c: I64;
    t0, c := Carry26(t0);  t1 := t1 + c;
    t4, c := Carry26(t4);  t5 := t5 + c;
    t1, c := Carry25(t1);  t2 := t2 + c;
    t5, c := Carry25(t5);  t6 := t6 + c;
    t2, c := Carry26(t2);  t3 := t3 + c;
    t6, c := Carry26(t6);  t7 := t7 + c;
    t3, c := Carry25(t3);  t4 := t4 + c;
    t7, c := Carry25(t7);  t8 := t8 + c;
    t4, c := Carry26(t4);  t5 := t5 + c;
    t8, c := Carry26(t8);  t9 := t9 + c;
    t9, c := Carry25(t9);  t0 := t0 + c * 19;
    wrapped := c;
    t0, c := Carry26(t0);  t1 := t1 + c;
  }

  /** The carry macro: h becomes the carried form of the accumulators. */
  method FeCarry(h: array<I32>, s0: I64, s1: I62, s2: I62, s3: I62, s4: I62, s5: I62, s6: I62, s7: I62, s8: I62, s9: I62)
    requires h.Length == 10 && s0 <= 0x7fff_ffff_fdff_ffff
    modifies h
    ensures Tight(h[..])
    ensures Value(h[..]) % P == Eval(s0, s1, s2, s3, s4, s5, s6, s7, s8, s9) % P
  {
    var t0, t1, t2, t3, t4, t5, t6, t7, t8, t9, wrapped := CarryChain(s0, s1, s2, s3, s4, s5, s6, s7, s8, s9);
    h[0], h[1], h[2], h[3], h[4] := t0, t1, t2, t3, t4;
    h[5], h[6], h[7], h[8], h[9] := t5, t6, t7, t8, t9;
    assert h[..] == [t0, t1, t2, t3, t4, t5, t6, t7, t8, t9];
    CarriedValue(Value(h[..]), Eval(s0, s1, s2, s3, s4, s5, s6, s7, s8, s9), wrapped);
  }

  lemma {:induction false} CarriedValue(v: int, s: int, k: int)
    requires s == v + 0x7fffffff_ffffffff_ffffffff_ffffffff_ffffffff_ffffffff_ffffffff_ffffffed * k
    ensures v % P == s % P
  {
    ModShift(v, k, P);
  }

  // ---- multiplication ----

  /** One 32 by 32 bit product; the bounds leave room to add ten of them, or six of the wider. */
  function Mul(x: I32, y: I32): (r: I62)
    requires -0x1000_0000 <= x <= 0x1000_0000
    ensures r == Times(x, y)
    ensures -0x800_0000_0000_0000 <= r <= 0x800_0000_0000_0000
    ensures -0x800_0000 <= x <= 0x800_0000 ==> -0x400_0000_0000_0000 <= r <= 0x400_0000_0000_0000
  {
    MulAbsBound(x, y, 0x1000_0000, 0x8000_0000);
    if -0x800_0000 <= x <= 0x800_0000 then MulAbsBound(x, y, 0x800_0000, 0x8000_0000); x * y else x * y
  }

  /** Products of a 27-bit and a 32-bit number. */
  type P58 = x: int | -0x400_0000_0000_0000 <= x <= 0x400_0000_0000_0000

  /** Products of a 28-bit and a 32-bit number. */
  type P59 = x: int | -0x800_0000_0000_0000 <= x <= 0x800_0000_0000_0000

  /** Ten products added from left to right in 64 bits. */
  function Sum10(a0: P58, a1: P58, a2: P58, a3: P58, a4: P58, a5: P58, a6: P58, a7: P58, a8: P58, a9: P58): (r: I62)
    ensures r == a0 + a1 + a2 + a3 + a4 + a5 + a6 + a7 + a8 + a9
  {
    var s1: I64 := a0 + a1;
    var s2: I64 := s1 + a2;
    var s3: I64 := s2 + a3;
    var s4: I64 := s3 + a4;
    var s5: I64 := s4 + a5;
    var s6: I64 := s5 + a6;
    var s7: I64 := s6 + a7;
    var s8: I64 := s7 + a8;
    s8 + a9
  }

  /** Up to six wider products added from left to right in 64 bits. */
  function Sum6(a0: P59, a1: P59, a2: P59, a3: P59, a4: P59, a5: P59): (r: I62)
    ensures r == a0 + a1 + a2 + a3 + a4 + a5
  {
    var s1: I64 := a0 + a1;
    var s2: I64 := s1 + a2;
    var s3: I64 := s2 + a3;
    var s4: I64 := s3 + a4;
    s4 + a5
  }

  /** Multiplying a number by one limb distributes over its limbs. */
  lemma {:induction false} Row(f: int, g0: int, g1: int, g2: int, g3: int, g4: int, g5: int, g6: int, g7: int, g8: int, g9: int)
    ensures Times(f, Eval(g0, g1, g2, g3, g4, g5, g6, g7, g8, g9)) == Eval(Times(f, g0), Times(f, g1), Times(f, g2), Times(f, g3),
                                              Times(f, g4), Times(f, g5), Times(f, g6), Times(f, g7),
                                              Times(f, g8), Times(f, g9))
  {
  }

  /** The doubled and the 19-fold limbs that the products use. */
  lemma {:induction false} Scaled(x: int, X: int, g0: int, g1: int, g2: int, g3: int, g4: int, g5: int, g6: int, g7: int, g8: int, g9: int,
         G1: int, G2: int, G3: int, G4: int, G5: int, G6: int, G7: int, G8: int, G9: int)
    requires X == 2 * x
    requires G1 == 19 * g1 && G2 == 19 * g2 && G3 == 19 * g3 && G4 == 19 * g4 && G5 == 19 * g5 &&
             G6 == 19 * g6 && G7 == 19 * g7 && G8 == 19 * g8 && G9 == 19 * g9
    ensures Times(X, g0) == 2 * Times(x, g0)
    ensures Times(X, g1) == 2 * Times(x, g1) && Times(x, G1) == 19 * Times(x, g1) && Times(X, G1) == 38 * Times(x, g1)
    ensures Times(X, g2) == 2 * Times(x, g2) && Times(x, G2) == 19 * Times(x, g2) && Times(X, G2) == 38 * Times(x, g2)
    ensures Times(X, g3) == 2 * Times(x, g3) && Times(x, G3) == 19 * Times(x, g3) && Times(X, G3) == 38 * Times(x, g3)
    ensures Times(X, g4) == 2 * Times(x, g4) && Times(x, G4) == 19 * Times(x, g4) && Times(X, G4) == 38 * Times(x, g4)
    ensures Times(X, g5) == 2 * Times(x, g5) && Times(x, G5) == 19 * Times(x, g5) && Times(X, G5) == 38 * Times(x, g5)
    ensures Times(X, g6) == 2 * Times(x, g6) && Times(x, G6) == 19 * Times(x, g6) && Times(X, G6) == 38 * Times(x, g6)
    ensures Times(X, g7) == 2 * Times(x, g7) && Times(x, G7) == 19 * Times(x, g7) && Times(X, G7) == 38 * Times(x, g7)
    ensures Times(X, g8) == 2 * Times(x, g8) && Times(x, G8) == 19 * Times(x, g8) && Times(X, G8) == 38 * Times(x, g8)
    ensures Times(X, g9) == 2 * Times(x, g9) && Times(x, G9) == 19 * Times(x, g9) && Times(X, G9) == 38 * Times(x, g9)
  {
  }

  lemma {:induction false} EvalAdd(u0: int, u1: int, u2: int, u3: int, u4: int, u5: int, u6: int, u7: int, u8: int, u9: int,
         w0: int, w1: int, w2: int, w3: int, w4: int, w5: int, w6: int, w7: int, w8: int, w9: int)
    ensures Eval(u0 + w0, u1 + w1, u2 + w2, u3 + w3, u4 + w4, u5 + w5, u6 + w6, u7 + w7, u8 + w8, u9 + w9)
         == Eval(u0, u1, u2, u3, u4, u5, u6, u7, u8, u9) + Eval(w0, w1, w2, w3, w4, w5, w6, w7, w8, w9)
  {
  }

  /** The same for the other factor. */
  lemma {:induction false} Column(f0: int, f1: int, f2: int, f3: int, f4: int, f5: int, f6: int, f7: int, f8: int, f9: int, v: int)
    ensures Times(Eval(f0, f1, f2, f3, f4, f5, f6, f7, f8, f9), v)
         == Eval(Times(f0, v), Times(f1, v), Times(f2, v), Times(f3, v), Times(f4, v),
                 Times(f5, v), Times(f6, v), Times(f7, v), Times(f8, v), Times(f9, v))
  {
  }

  /** The rows of the five lower limbs of f, up to a multiple of p. */
  lemma {:induction false} LowRows(f0: int, f1: int, f2: int, f3: int, f4: int,
         g0: int, g1: int, g2: int, g3: int, g4: int, g5: int, g6: int, g7: int, g8: int, g9: int,
         F1: int, F3: int,
         G1: int, G2: int, G3: int, G4: int, G5: int, G6: int, G7: int, G8: int, G9: int,
         t0: int, t1: int, t2: int, t3: int, t4: int, t5: int, t6: int, t7: int, t8: int, t9: int, v: int) returns (k: int)
    requires F1 == 2 * f1 && F3 == 2 * f3 && v == Eval(g0, g1, g2, g3, g4, g5, g6, g7, g8, g9)
    requires G1 == 19 * g1 && G2 == 19 * g2 && G3 == 19 * g3 && G4 == 19 * g4 && G5 == 19 * g5 &&
             G6 == 19 * g6 && G7 == 19 * g7 && G8 == 19 * g8 && G9 == 19 * g9
    requires t0 == Times(f0, g0) + Times(F1, G9) + Times(f2, G8) + Times(F3, G7) + Times(f4, G6)
    requires t1 == Times(f0, g1) + Times(f1, g0) + Times(f2, G9) + Times(f3, G8) + Times(f4, G7)
    requires t2 == Times(f0, g2) + Times(F1, g1) + Times(f2, g0) + Times(F3, G9) + Times(f4, G8)
    requires t3 == Times(f0, g3) + Times(f1, g2) + Times(f2, g1) + Times(f3, g0) + Times(f4, G9)
    requires t4 == Times(f0, g4) + Times(F1, g3) + Times(f2, g2) + Times(F3, g1) + Times(f4, g0)
    requires t5 == Times(f0, g5) + Times(f1, g4) + Times(f2, g3) + Times(f3, g2) + Times(f4, g1)
    requires t6 == Times(f0, g6) + Times(F1, g5) + Times(f2, g4) + Times(F3, g3) + Times(f4, g2)
    requires t7 == Times(f0, g7) + Times(f1, g6) + Times(f2, g5) + Times(f3, g4) + Times(f4, g3)
    requires t8 == Times(f0, g8) + Times(F1, g7) + Times(f2, g6) + Times(F3, g5) + Times(f4, g4)
    requires t9 == Times(f0, g9) + Times(f1, g8) + Times(f2, g7) + Times(f3, g6) + Times(f4, g5)
    ensures Eval(Times(f0, v), Times(f1, v), Times(f2, v), Times(f3, v), Times(f4, v), 0, 0, 0, 0, 0)
         == Eval(t0, t1, t2, t3, t4, t5, t6, t7, t8, t9)
          + 0x7fffffff_ffffffff_ffffffff_ffffffff_ffffffff_ffffffff_ffffffff_ffffffed * k
  {
    hide Times;
    k :=
      0x2 * Times(f1, g9)
      + 0x1 * Times(f2, g8) + 0x4000000 * Times(f2, g9)
      + 0x2 * Times(f3, g7) + 0x4000000 * Times(f3, g8) + 0x100000_00000000 * Times(f3, g9)
      + 0x1 * Times(f4, g6) + 0x4000000 * Times(f4, g7) + 0x80000_00000000 * Times(f4, g8) + 0x2000_00000000_00000000 * Times(f4, g9);
    Row(f0, g0, g1, g2, g3, g4, g5, g6, g7, g8, g9);
    Scaled(f0, 2 * f0, g0, g1, g2, g3, g4, g5, g6, g7, g8, g9, G1, G2, G3, G4, G5, G6, G7, G8, G9);
    Row(f1, g0, g1, g2, g3, g4, g5, g6, g7, g8, g9);
    Scaled(f1, 2 * f1, g0, g1, g2, g3, g4, g5, g6, g7, g8, g9, G1, G2, G3, G4, G5, G6, G7, G8, G9);
    Row(f2, g0, g1, g2, g3, g4, g5, g6, g7, g8, g9);
    Scaled(f2, 2 * f2, g0, g1, g2, g3, g4, g5, g6, g7, g8, g9, G1, G2, G3, G4, G5, G6, G7, G8, G9);
    Row(f3, g0, g1, g2, g3, g4, g5, g6, g7, g8, g9);
    Scaled(f3, 2 * f3, g0, g1, g2, g3, g4, g5, g6, g7, g8, g9, G1, G2, G3, G4, G5, G6, G7, G8, G9);
    Row(f4, g0, g1, g2, g3, g4, g5, g6, g7, g8, g9);
    Scaled(f4, 2 * f4, g0, g1, g2, g3, g4, g5, g6, g7, g8, g9, G1, G2, G3, G4, G5, G6, G7, G8, G9);
  }

  /** The rows of the five upper limbs of f, up to a multiple of p. */
  lemma {:induction false} HighRows(f5: int, f6: int, f7: int, f8: int, f9: int,
         g0: int, g1: int, g2: int, g3: int, g4: int, g5: int, g6: int, g7: int, g8: int, g9: int,
         F5: int, F7: int, F9: int,
         G1: int, G2: int, G3: int, G4: int, G5: int, G6: int, G7: int, G8: int, G9: int,
         t0: int, t1: int, t2: int, t3: int, t4: int, t5: int, t6: int, t7: int, t8: int, t9: int, v: int) returns (k: int)
    requires F5 == 2 * f5 && F7 == 2 * f7 && F9 == 2 * f9 && v == Eval(g0, g1, g2, g3, g4, g5, g6, g7, g8, g9)
    requires G1 == 19 * g1 && G2 == 19 * g2 && G3 == 19 * g3 && G4 == 19 * g4 && G5 == 19 * g5 &&
             G6 == 19 * g6 && G7 == 19 * g7 && G8 == 19 * g8 && G9 == 19 * g9
    requires t0 == Times(F5, G5) + Times(f6, G4) + Times(F7, G3) + Times(f8, G2) + Times(F9, G1)
    requires t1 == Times(f5, G6) + Times(f6, G5) + Times(f7, G4) + Times(f8, G3) + Times(f9, G2)
    requires t2 == Times(F5, G7) + Times(f6, G6) + Times(F7, G5) + Times(f8, G4) + Times(F9, G3)
    requires t3 == Times(f5, G8) + Times(f6, G7) + Times(f7, G6) + Times(f8, G5) + Times(f9, G4)
    requires t4 == Times(F5, G9) + Times(f6, G8) + Times(F7, G7) + Times(f8, G6) + Times(F9, G5)
    requires t5 == Times(f5, g0) + Times(f6, G9) + Times(f7, G8) + Times(f8, G7) + Times(f9, G6)
    requires t6 == Times(F5, g1) + Times(f6, g0) + Times(F7, G9) + Times(f8, G8) + Times(F9, G7)
    requires t7 == Times(f5, g2) + Times(f6, g1) + Times(f7, g0) + Times(f8, G9) + Times(f9, G8)
    requires t8 == Times(F5, g3) + Times(f6, g2) + Times(F7, g1) + Times(f8, g0) + Times(F9, G9)
    requires t9 == Times(f5, g4) + Times(f6, g3) + Times(f7, g2) + Times(f8, g1) + Times(f9, g0)
    ensures Eval(0, 0, 0, 0, 0, Times(f5, v), Times(f6, v), Times(f7, v), Times(f8, v), Times(f9, v))
         == Eval(t0, t1, t2, t3, t4, t5, t6, t7, t8, t9)
          + 0x7fffffff_ffffffff_ffffffff_ffffffff_ffffffff_ffffffff_ffffffff_ffffffed * k
  {
    hide Times;
    k :=
      0x2 * Times(f5, g5) + 0x4000000 * Times(f5, g6) + 0x100000_00000000 * Times(f5, g7) + 0x2000_00000000_00000000 * Times(f5, g8)
      + 0x80_00000000_00000000_00000000 * Times(f5, g9)
      + 0x1 * Times(f6, g4) + 0x4000000 * Times(f6, g5) + 0x80000_00000000 * Times(f6, g6) + 0x2000_00000000_00000000 * Times(f6, g7)
      + 0x40_00000000_00000000_00000000 * Times(f6, g8) + 0x1_00000000_00000000_00000000_00000000 * Times(f6, g9)
      + 0x2 * Times(f7, g3) + 0x4000000 * Times(f7, g4) + 0x100000_00000000 * Times(f7, g5) + 0x2000_00000000_00000000 * Times(f7, g6)
      + 0x80_00000000_00000000_00000000 * Times(f7, g7) + 0x1_00000000_00000000_00000000_00000000 * Times(f7, g8) + 0x4000000_00000000_00000000_00000000_00000000 * Times(f7, g9)
      + 0x1 * Times(f8, g2) + 0x4000000 * Times(f8, g3) + 0x80000_00000000 * Times(f8, g4) + 0x2000_00000000_00000000 * Times(f8, g5)
      + 0x40_00000000_00000000_00000000 * Times(f8, g6) + 0x1_00000000_00000000_00000000_00000000 * Times(f8, g7) + 0x2000000_00000000_00000000_00000000_00000000 * Times(f8, g8) + 0x80000_00000000_00000000_00000000_00000000_00000000 * Times(f8, g9)
      + 0x2 * Times(f9, g1) + 0x4000000 * Times(f9, g2) + 0x100000_00000000 * Times(f9, g3) + 0x2000_00000000_00000000 * Times(f9, g4)
      + 0x80_00000000_00000000_00000000 * Times(f9, g5) + 0x1_00000000_00000000_00000000_00000000 * Times(f9, g6) + 0x4000000_00000000_00000000_00000000_00000000 * Times(f9, g7) + 0x80000_00000000_00000000_00000000_00000000_00000000 * Times(f9, g8)
      + 0x2000_00000000_00000000_00000000_00000000_00000000_00000000 * Times(f9, g9);
    Row(f5, g0, g1, g2, g3, g4, g5, g6, g7, g8, g9);
    Scaled(f5, 2 * f5, g0, g1, g2, g3, g4, g5, g6, g7, g8, g9, G1, G2, G3, G4, G5, G6, G7, G8, G9);
    Row(f6, g0, g1, g2, g3, g4, g5, g6, g7, g8, g9);
    Scaled(f6, 2 * f6, g0, g1, g2, g3, g4, g5, g6, g7, g8, g9, G1, G2, G3, G4, G5, G6, G7, G8, G9);
    Row(f7, g0, g1, g2, g3, g4, g5, g6, g7, g8, g9);
    Scaled(f7, 2 * f7, g0, g1, g2, g3, g4, g5, g6, g7, g8, g9, G1, G2, G3, G4, G5, G6, G7, G8, G9);
    Row(f8, g0, g1, g2, g3, g4, g5, g6, g7, g8, g9);
    Scaled(f8, 2 * f8, g0, g1, g2, g3, g4, g5, g6, g7, g8, g9, G1, G2, G3, G4, G5, G6, G7, G8, G9);
    Row(f9, g0, g1, g2, g3, g4, g5, g6, g7, g8, g9);
    Scaled(f9, 2 * f9, g0, g1, g2, g3, g4, g5, g6, g7, g8, g9, G1, G2, G3, G4, G5, G6, G7, G8, G9);
  }

  /** The ten accumulators denote the product up to a multiple of p. */
  lemma {:induction false} ProductIdentity(f0: int, f1: int, f2: int, f3: int, f4: int, f5: int, f6: int, f7: int, f8: int, f9: int,
         g0: int, g1: int, g2: int, g3: int, g4: int, g5: int, g6: int, g7: int, g8: int, g9: int,
         F1: int, F3: int, F5: int, F7: int, F9: int,
         G1: int, G2: int, G3: int, G4: int, G5: int, G6: int, G7: int, G8: int, G9: int,
         t0: int, t1: int, t2: int, t3: int, t4: int, t5: int, t6: int, t7: int, t8: int, t9: int) returns (k: int)
    requires F1 == 2 * f1 && F3 == 2 * f3 && F5 == 2 * f5 && F7 == 2 * f7 && F9 == 2 * f9
    requires G1 == 19 * g1 && G2 == 19 * g2 && G3 == 19 * g3 && G4 == 19 * g4 && G5 == 19 * g5 &&
             G6 == 19 * g6 && G7 == 19 * g7 && G8 == 19 * g8 && G9 == 19 * g9
    requires t0 == Times(f0, g0) + Times(F1, G9) + Times(f2, G8) + Times(F3, G7) + Times(f4, G6) +
                   Times(F5, G5) + Times(f6, G4) + Times(F7, G3) + Times(f8, G2) + Times(F9, G1)
    requires t1 == Times(f0, g1) + Times(f1, g0) + Times(f2, G9) + Times(f3, G8) + Times(f4, G7) +
                   Times(f5, G6) + Times(f6, G5) + Times(f7, G4) + Times(f8, G3) + Times(f9, G2)
    requires t2 == Times(f0, g2) + Times(F1, g1) + Times(f2, g0) + Times(F3, G9) + Times(f4, G8) +
                   Times(F5, G7) + Times(f6, G6) + Times(F7, G5) + Times(f8, G4) + Times(F9, G3)
    requires t3 == Times(f0, g3) + Times(f1, g2) + Times(f2, g1) + Times(f3, g0) + Times(f4, G9) +
                   Times(f5, G8) + Times(f6, G7) + Times(f7, G6) + Times(f8, G5) + Times(f9, G4)
    requires t4 == Times(f0, g4) + Times(F1, g3) + Times(f2, g2) + Times(F3, g1) + Times(f4, g0) +
                   Times(F5, G9) + Times(f6, G8) + Times(F7, G7) + Times(f8, G6) + Times(F9, G5)
    requires t5 == Times(f0, g5) + Times(f1, g4) + Times(f2, g3) + Times(f3, g2) + Times(f4, g1) +
                   Times(f5, g0) + Times(f6, G9) + Times(f7, G8) + Times(f8, G7) + Times(f9, G6)
    requires t6 == Times(f0, g6) + Times(F1, g5) + Times(f2, g4) + Times(F3, g3) + Times(f4, g2) +
                   Times(F5, g1) + Times(f6, g0) + Times(F7, G9) + Times(f8, G8) + Times(F9, G7)
    requires t7 == Times(f0, g7) + Times(f1, g6) + Times(f2, g5) + Times(f3, g4) + Times(f4, g3) +
                   Times(f5, g2) + Times(f6, g1) + Times(f7, g0) + Times(f8, G9) + Times(f9, G8)
    requires t8 == Times(f0, g8) + Times(F1, g7) + Times(f2, g6) + Times(F3, g5) + Times(f4, g4) +
                   Times(F5, g3) + Times(f6, g2) + Times(F7, g1) + Times(f8, g0) + Times(F9, G9)
    requires t9 == Times(f0, g9) + Times(f1, g8) + Times(f2, g7) + Times(f3, g6) + Times(f4, g5) +
                   Times(f5, g4) + Times(f6, g3) + Times(f7, g2) + Times(f8, g1) + Times(f9, g0)
    ensures Times(Eval(f0, f1, f2, f3, f4, f5, f6, f7, f8, f9), Eval(g0, g1, g2, g3, g4, g5, g6, g7, g8, g9)) == Eval(t0, t1, t2, t3, t4, t5, t6, t7, t8, t9) + 0x7fffffff_ffffffff_ffffffff_ffffffff_ffffffff_ffffffff_ffffffff_ffffffed * k
  {
    hide Times, Eval;
    var v := Eval(g0, g1, g2, g3, g4, g5, g6, g7, g8, g9);
    var u0 := Times(f0, g0) + Times(F1, G9) + Times(f2, G8) + Times(F3, G7) + Times(f4, G6);
    var u1 := Times(f0, g1) + Times(f1, g0) + Times(f2, G9) + Times(f3, G8) + Times(f4, G7);
    var u2 := Times(f0, g2) + Times(F1, g1) + Times(f2, g0) + Times(F3, G9) + Times(f4, G8);
    var u3 := Times(f0, g3) + Times(f1, g2) + Times(f2, g1) + Times(f3, g0) + Times(f4, G9);
    var u4 := Times(f0, g4) + Times(F1, g3) + Times(f2, g2) + Times(F3, g1) + Times(f4, g0);
    var u5 := Times(f0, g5) + Times(f1, g4) + Times(f2, g3) + Times(f3, g2) + Times(f4, g1);
    var u6 := Times(f0, g6) + Times(F1, g5) + Times(f2, g4) + Times(F3, g3) + Times(f4, g2);
    var u7 := Times(f0, g7) + Times(f1, g6) + Times(f2, g5) + Times(f3, g4) + Times(f4, g3);
    var u8 := Times(f0, g8) + Times(F1, g7) + Times(f2, g6) + Times(F3, g5) + Times(f4, g4);
    var u9 := Times(f0, g9) + Times(f1, g8) + Times(f2, g7) + Times(f3, g6) + Times(f4, g5);
    var w0 := Times(F5, G5) + Times(f6, G4) + Times(F7, G3) + Times(f8, G2) + Times(F9, G1);
    var w1 := Times(f5, G6) + Times(f6, G5) + Times(f7, G4) + Times(f8, G3) + Times(f9, G2);
    var w2 := Times(F5, G7) + Times(f6, G6) + Times(F7, G5) + Times(f8, G4) + Times(F9, G3);
    var w3 := Times(f5, G8) + Times(f6, G7) + Times(f7, G6) + Times(f8, G5) + Times(f9, G4);
    var w4 := Times(F5, G9) + Times(f6, G8) + Times(F7, G7) + Times(f8, G6) + Times(F9, G5);
    var w5 := Times(f5, g0) + Times(f6, G9) + Times(f7, G8) + Times(f8, G7) + Times(f9, G6);
    var w6 := Times(F5, g1) + Times(f6, g0) + Times(F7, G9) + Times(f8, G8) + Times(F9, G7);
    var w7 := Times(f5, g2) + Times(f6, g1) + Times(f7, g0) + Times(f8, G9) + Times(f9, G8);
    var w8 := Times(F5, g3) + Times(f6, g2) + Times(F7, g1) + Times(f8, g0) + Times(F9, G9);
    var w9 := Times(f5, g4) + Times(f6, g3) + Times(f7, g2) + Times(f8, g1) + Times(f9, g0);
    var k0 := LowRows(f0, f1, f2, f3, f4, g0, g1, g2, g3, g4, g5, g6, g7, g8, g9, F1, F3, G1, G2, G3, G4, G5, G6, G7, G8, G9,
                      u0, u1, u2, u3, u4, u5, u6, u7, u8, u9, v);
    var k1 := HighRows(f5, f6, f7, f8, f9, g0, g1, g2, g3, g4, g5, g6, g7, g8, g9, F5, F7, F9, G1, G2, G3, G4, G5, G6, G7, G8, G9,
                       w0, w1, w2, w3, w4, w5, w6, w7, w8, w9, v);
    EvalAdd(u0, u1, u2, u3, u4, u5, u6, u7, u8, u9, w0, w1, w2, w3, w4, w5, w6, w7, w8, w9);
    EvalAdd(Times(f0, v), Times(f1, v), Times(f2, v), Times(f3, v), Times(f4, v), 0, 0, 0, 0, 0,
            0, 0, 0, 0, 0, Times(f5, v), Times(f6, v), Times(f7, v), Times(f8, v), Times(f9, v));
    Column(f0, f1, f2, f3, f4, f5, f6, f7, f8, f9, v);
    k := k0 + k1;
  }

  /** h = f * g modulo p, for loosely bounded f and g; h may be f or g. */
  method FeMul(h: array<I32>, f: array<I32>, g: array<I32>)
    requires h.Length == f.Length == g.Length == 10
    requires Loose(f[..]) && Loose(g[..])
    modifies h
    ensures Tight(h[..])
    ensures Value(h[..]) % P == old(Value(f[..]) * Value(g[..])) % P
  {
    var f0: I32, f1: I32, f2: I32, f3: I32, f4: I32 := f[0], f[1], f[2], f[3], f[4];
    var f5: I32, f6: I32, f7: I32, f8: I32, f9: I32 := f[5], f[6], f[7], f[8], f[9];
    var g0: I32, g1: I32, g2: I32, g3: I32, g4: I32 := g[0], g[1], g[2], g[3], g[4];
    var g5: I32, g6: I32, g7: I32, g8: I32, g9: I32 := g[5], g[6], g[7], g[8], g[9];
    var F1: I32, F3: I32, F5: I32, F7: I32, F9: I32 := f1 * 2, f3 * 2, f5 * 2, f7 * 2, f9 * 2;
    var G1: I32, G2: I32, G3: I32, G4: I32, G5: I32 := g1 * 19, g2 * 19, g3 * 19, g4 * 19, g5 * 19;
    var G6: I32, G7: I32, G8: I32, G9: I32 := g6 * 19, g7 * 19, g8 * 19, g9 * 19;
    var t0 := Sum10(Mul(f0, g0), Mul(F1, G9), Mul(f2, G8), Mul(F3, G7), Mul(f4, G6), Mul(F5, G5),
                    Mul(f6, G4), Mul(F7, G3), Mul(f8, G2), Mul(F9, G1));
    var t1 := Sum10(Mul(f0, g1), Mul(f1, g0), Mul(f2, G9), Mul(f3, G8), Mul(f4, G7), Mul(f5, G6),
                    Mul(f6, G5), Mul(f7, G4), Mul(f8, G3), Mul(f9, G2));
    var t2 := Sum10(Mul(f0, g2), Mul(F1, g1), Mul(f2, g0), Mul(F3, G9), Mul(f4, G8), Mul(F5, G7),
                    Mul(f6, G6), Mul(F7, G5), Mul(f8, G4), Mul(F9, G3));
    var t3 := Sum10(Mul(f0, g3), Mul(f1, g2), Mul(f2, g1), Mul(f3, g0), Mul(f4, G9), Mul(f5, G8),
                    Mul(f6, G7), Mul(f7, G6), Mul(f8, G5), Mul(f9, G4));
    var t4 := Sum10(Mul(f0, g4), Mul(F1, g3), Mul(f2, g2), Mul(F3, g1), Mul(f4, g0), Mul(F5, G9),
                    Mul(f6, G8), Mul(F7, G7), Mul(f8, G6), Mul(F9, G5));
    var t5 := Sum10(Mul(f0, g5), Mul(f1, g4), Mul(f2, g3), Mul(f3, g2), Mul(f4, g1), Mul(f5, g0),
                    Mul(f6, G9), Mul(f7, G8), Mul(f8, G7), Mul(f9, G6));
    var t6 := Sum10(Mul(f0, g6), Mul(F1, g5), Mul(f2, g4), Mul(F3, g3), Mul(f4, g2), Mul(F5, g1),
                    Mul(f6, g0), Mul(F7, G9), Mul(f8, G8), Mul(F9, G7));
    var t7 := Sum10(Mul(f0, g7), Mul(f1, g6), Mul(f2, g5), Mul(f3, g4), Mul(f4, g3), Mul(f5, g2),
                    Mul(f6, g1), Mul(f7, g0), Mul(f8, G9), Mul(f9, G8));
    var t8 := Sum10(Mul(f0, g8), Mul(F1, g7), Mul(f2, g6), Mul(F3, g5), Mul(f4, g4), Mul(F5, g3),
                    Mul(f6, g2), Mul(F7, g1), Mul(f8, g0), Mul(F9, G9));
    var t9 := Sum10(Mul(f0, g9), Mul(f1, g8), Mul(f2, g7), Mul(f3, g6), Mul(f4, g5), Mul(f5, g4),
                    Mul(f6, g3), Mul(f7, g2), Mul(f8, g1), Mul(f9, g0));
    ghost var k := ProductIdentity(f0, f1, f2, f3, f4, f5, f6, f7, f8, f9, g0, g1, g2, g3, g4, g5, g6, g7, g8, g9,
                                   F1, F3, F5, F7, F9, G1, G2, G3, G4, G5, G6, G7, G8, G9, t0, t1, t2, t3, t4, t5, t6, t7, t8, t9);
    CarriedValue(Eval(t0, t1, t2, t3, t4, t5, t6, t7, t8, t9), old(Value(f[..]) * Value(g[..])), k);
    FeCarry(h, t0, t1, t2, t3, t4, t5, t6, t7, t8, t9);
  }

  /** The folded products of a square are the products of f with itself. */
  lemma {:induction false} SquareTerms(f0: int, f1: int, f2: int, f3: int, f4: int, f5: int, f6: int, f7: int, f8: int, f9: int)
    ensures Times(f0, f0) + Times(2 * f1, 38 * f9) + Times(2 * f2, 19 * f8) + Times(2 * f3, 38 * f7) +
            Times(2 * f4, 19 * f6) + Times(f5, 38 * f5)
         == Times(f0, f0) + Times(2 * f1, 19 * f9) + Times(f2, 19 * f8) + Times(2 * f3, 19 * f7) +
            Times(f4, 19 * f6) + Times(2 * f5, 19 * f5) + Times(f6, 19 * f4) + Times(2 * f7, 19 * f3) +
            Times(f8, 19 * f2) + Times(2 * f9, 19 * f1)
    ensures Times(2 * f0, f1) + Times(f2, 38 * f9) + Times(2 * f3, 19 * f8) + Times(f4, 38 * f7) +
            Times(2 * f5, 19 * f6)
         == Times(f0, f1) + Times(f1, f0) + Times(f2, 19 * f9) + Times(f3, 19 * f8) + Times(f4, 19 * f7) +
            Times(f5, 19 * f6) + Times(f6, 19 * f5) + Times(f7, 19 * f4) + Times(f8, 19 * f3) +
            Times(f9, 19 * f2)
    ensures Times(2 * f0, f2) + Times(2 * f1, f1) + Times(2 * f3, 38 * f9) + Times(2 * f4, 19 * f8) +
            Times(2 * f5, 38 * f7) + Times(f6, 19 * f6)
         == Times(f0, f2) + Times(2 * f1, f1) + Times(f2, f0) + Times(2 * f3, 19 * f9) + Times(f4, 19 * f8) +
            Times(2 * f5, 19 * f7) + Times(f6, 19 * f6) + Times(2 * f7, 19 * f5) + Times(f8, 19 * f4) +
            Times(2 * f9, 19 * f3)
    ensures Times(2 * f0, f3) + Times(2 * f1, f2) + Times(f4, 38 * f9) + Times(2 * f5, 19 * f8) +
            Times(f6, 38 * f7)
         == Times(f0, f3) + Times(f1, f2) + Times(f2, f1) + Times(f3, f0) + Times(f4, 19 * f9) +
            Times(f5, 19 * f8) + Times(f6, 19 * f7) + Times(f7, 19 * f6) + Times(f8, 19 * f5) +
            Times(f9, 19 * f4)
    ensures Times(2 * f0, f4) + Times(2 * f1, 2 * f3) + Times(f2, f2) + Times(2 * f5, 38 * f9) +
            Times(2 * f6, 19 * f8) + Times(f7, 38 * f7)
         == Times(f0, f4) + Times(2 * f1, f3) + Times(f2, f2) + Times(2 * f3, f1) + Times(f4, f0) +
            Times(2 * f5, 19 * f9) + Times(f6, 19 * f8) + Times(2 * f7, 19 * f7) + Times(f8, 19 * f6) +
            Times(2 * f9, 19 * f5)
    ensures Times(2 * f0, f5) + Times(2 * f1, f4) + Times(2 * f2, f3) + Times(f6, 38 * f9) +
            Times(2 * f7, 19 * f8)
         == Times(f0, f5) + Times(f1, f4) + Times(f2, f3) + Times(f3, f2) + Times(f4, f1) + Times(f5, f0) +
            Times(f6, 19 * f9) + Times(f7, 19 * f8) + Times(f8, 19 * f7) + Times(f9, 19 * f6)
    ensures Times(2 * f0, f6) + Times(2 * f1, 2 * f5) + Times(2 * f2, f4) + Times(2 * f3, f3) +
            Times(2 * f7, 38 * f9) + Times(f8, 19 * f8)
         == Times(f0, f6) + Times(2 * f1, f5) + Times(f2, f4) + Times(2 * f3, f3) + Times(f4, f2) +
            Times(2 * f5, f1) + Times(f6, f0) + Times(2 * f7, 19 * f9) + Times(f8, 19 * f8) +
            Times(2 * f9, 19 * f7)
    ensures Times(2 * f0, f7) + Times(2 * f1, f6) + Times(2 * f2, f5) + Times(2 * f3, f4) + Times(f8, 38 * f9)
         == Times(f0, f7) + Times(f1, f6) + Times(f2, f5) + Times(f3, f4) + Times(f4, f3) + Times(f5, f2) +
            Times(f6, f1) + Times(f7, f0) + Times(f8, 19 * f9) + Times(f9, 19 * f8)
    ensures Times(2 * f0, f8) + Times(2 * f1, 2 * f7) + Times(2 * f2, f6) + Times(2 * f3, 2 * f5) +
            Times(f4, f4) + Times(f9, 38 * f9)
         == Times(f0, f8) + Times(2 * f1, f7) + Times(f2, f6) + Times(2 * f3, f5) + Times(f4, f4) +
            Times(2 * f5, f3) + Times(f6, f2) + Times(2 * f7, f1) + Times(f8, f0) + Times(2 * f9, 19 * f9)
    ensures Times(2 * f0, f9) + Times(2 * f1, f8) + Times(2 * f2, f7) + Times(2 * f3, f6) + Times(f4, 2 * f5)
         == Times(f0, f9) + Times(f1, f8) + Times(f2, f7) + Times(f3, f6) + Times(f4, f5) + Times(f5, f4) +
            Times(f6, f3) + Times(f7, f2) + Times(f8, f1) + Times(f9, f0)
  {
  }

  /** The ten accumulators of the square denote f * f up to a multiple of p. */
  lemma {:induction false} SquareIdentity(f0: int, f1: int, f2: int, f3: int, f4: int, f5: int, f6: int, f7: int, f8: int, f9: int,
                                          t0: int, t1: int, t2: int, t3: int, t4: int, t5: int, t6: int, t7: int, t8: int, t9: int) returns (k: int)
    requires t0 == Times(f0, f0) + Times(2 * f1, 38 * f9) + Times(2 * f2, 19 * f8) + Times(2 * f3, 38 * f7) + Times(2 * f4, 19 * f6) + Times(f5, 38 * f5)
    requires t1 == Times(2 * f0, f1) + Times(f2, 38 * f9) + Times(2 * f3, 19 * f8) + Times(f4, 38 * f7) + Times(2 * f5, 19 * f6)
    requires t2 == Times(2 * f0, f2) + Times(2 * f1, f1) + Times(2 * f3, 38 * f9) + Times(2 * f4, 19 * f8) + Times(2 * f5, 38 * f7) + Times(f6, 19 * f6)
    requires t3 == Times(2 * f0, f3) + Times(2 * f1, f2) + Times(f4, 38 * f9) + Times(2 * f5, 19 * f8) + Times(f6, 38 * f7)
    requires t4 == Times(2 * f0, f4) + Times(2 * f1, 2 * f3) + Times(f2, f2) + Times(2 * f5, 38 * f9) + Times(2 * f6, 19 * f8) + Times(f7, 38 * f7)
    requires t5 == Times(2 * f0, f5) + Times(2 * f1, f4) + Times(2 * f2, f3) + Times(f6, 38 * f9) + Times(2 * f7, 19 * f8)
    requires t6 == Times(2 * f0, f6) + Times(2 * f1, 2 * f5) + Times(2 * f2, f4) + Times(2 * f3, f3) + Times(2 * f7, 38 * f9) + Times(f8, 19 * f8)
    requires t7 == Times(2 * f0, f7) + Times(2 * f1, f6) + Times(2 * f2, f5) + Times(2 * f3, f4) + Times(f8, 38 * f9)
    requires t8 == Times(2 * f0, f8) + Times(2 * f1, 2 * f7) + Times(2 * f2, f6) + Times(2 * f3, 2 * f5) + Times(f4, f4) + Times(f9, 38 * f9)
    requires t9 == Times(2 * f0, f9) + Times(2 * f1, f8) + Times(2 * f2, f7) + Times(2 * f3, f6) + Times(f4, 2 * f5)
    ensures Times(Eval(f0, f1, f2, f3, f4, f5, f6, f7, f8, f9), Eval(f0, f1, f2, f3, f4, f5, f6, f7, f8, f9))
         == Eval(t0, t1, t2, t3, t4, t5, t6, t7, t8, t9) + 0x7fffffff_ffffffff_ffffffff_ffffffff_ffffffff_ffffffff_ffffffff_ffffffed * k
  {
    hide Times, Eval;
    SquareTerms(f0, f1, f2, f3, f4, f5, f6, f7, f8, f9);
    k := ProductIdentity(f0, f1, f2, f3, f4, f5, f6, f7, f8, f9, f0, f1, f2, f3, f4, f5, f6, f7, f8, f9,
                         2 * f1, 2 * f3, 2 * f5, 2 * f7, 2 * f9,
                         19 * f1, 19 * f2, 19 * f3, 19 * f4, 19 * f5, 19 * f6, 19 * f7, 19 * f8, 19 * f9, t0, t1, t2, t3, t4, t5, t6, t7, t8, t9);
  }

  /** h = f * f modulo p, for loosely bounded f; h may be f. */
  method FeSq(h: array<I32>, f: array<I32>)
    requires h.Length == f.Length == 10 && Loose(f[..])
    modifies h
    ensures Tight(h[..])
    ensures Value(h[..]) % P == old(Value(f[..]) * Value(f[..])) % P
  {
    var f0: I32, f1: I32, f2: I32, f3: I32, f4: I32 := f[0], f[1], f[2], f[3], f[4];
    var f5: I32, f6: I32, f7: I32, f8: I32, f9: I32 := f[5], f[6], f[7], f[8], f[9];
    var f0_2: I32, f1_2: I32, f2_2: I32, f3_2: I32 := f0 * 2, f1 * 2, f2 * 2, f3 * 2;
    var f4_2: I32, f5_2: I32, f6_2: I32, f7_2: I32 := f4 * 2, f5 * 2, f6 * 2, f7 * 2;
    var f5_38: I32, f6_19: I32, f7_38: I32, f8_19: I32, f9_38: I32 := f5 * 38, f6 * 19, f7 * 38, f8 * 19, f9 * 38;
    var t0 := Sum6(Mul(f0, f0), Mul(f1_2, f9_38), Mul(f2_2, f8_19), Mul(f3_2, f7_38), Mul(f4_2, f6_19),
                   Mul(f5, f5_38));
    var t1 := Sum6(Mul(f0_2, f1), Mul(f2, f9_38), Mul(f3_2, f8_19), Mul(f4, f7_38), Mul(f5_2, f6_19), 0);
    var t2 := Sum6(Mul(f0_2, f2), Mul(f1_2, f1), Mul(f3_2, f9_38), Mul(f4_2, f8_19), Mul(f5_2, f7_38),
                   Mul(f6, f6_19));
    var t3 := Sum6(Mul(f0_2, f3), Mul(f1_2, f2), Mul(f4, f9_38), Mul(f5_2, f8_19), Mul(f6, f7_38), 0);
    var t4 := Sum6(Mul(f0_2, f4), Mul(f1_2, f3_2), Mul(f2, f2), Mul(f5_2, f9_38), Mul(f6_2, f8_19),
                   Mul(f7, f7_38));
    var t5 := Sum6(Mul(f0_2, f5), Mul(f1_2, f4), Mul(f2_2, f3), Mul(f6, f9_38), Mul(f7_2, f8_19), 0);
    var t6 := Sum6(Mul(f0_2, f6), Mul(f1_2, f5_2), Mul(f2_2, f4), Mul(f3_2, f3), Mul(f7_2, f9_38),
                   Mul(f8, f8_19));
    var t7 := Sum6(Mul(f0_2, f7), Mul(f1_2, f6), Mul(f2_2, f5), Mul(f3_2, f4), Mul(f8, f9_38), 0);
    var t8 := Sum6(Mul(f0_2, f8), Mul(f1_2, f7_2), Mul(f2_2, f6), Mul(f3_2, f5_2), Mul(f4, f4), Mul(f9, f9_38));
    var t9 := Sum6(Mul(f0_2, f9), Mul(f1_2, f8), Mul(f2_2, f7), Mul(f3_2, f6), Mul(f4, f5_2), 0);
    ghost var k := SquareIdentity(f0, f1, f2, f3, f4, f5, f6, f7, f8, f9, t0, t1, t2, t3, t4, t5, t6, t7, t8, t9);
    CarriedValue(Eval(t0, t1, t2, t3, t4, t5, t6, t7, t8, t9), old(Value(f[..]) * Value(f[..])), k);
    FeCarry(h, t0, t1, t2, t3, t4, t5, t6, t7, t8, t9);
  }

  // ---- reading bytes ----

  function Load24(s: seq<U8>): (w: U32)
    requires |s| == 3
    ensures w < 0x100_0000
  {
    var (a: int, b: int, c: int) := (s[0], s[1], s[2]);
    a + b * 0x100 + c * 0x1_0000
  }

  lemma {:induction false} ByteValThree(s: seq<U8>)
    requires |s| >= 3
    ensures ByteVal(s) == Load24(s[..3]) + 0x100_0000 * ByteVal(s[3..])
  {
    assert s[1..][1..] == s[2..] && s[2..][1..] == s[3..];
    assert ByteVal(s[1..]) == s[1] + 0x100 * ByteVal(s[2..]);
    assert ByteVal(s[2..]) == s[2] + 0x100 * ByteVal(s[3..]);
  }

  lemma {:induction false} ByteValSplit4(s: seq<U8>, k: nat)
    requires k + 4 <= |s|
    ensures ByteVal(s[k..]) == Load32(s[k..k + 4]) + 0x1_0000_0000 * ByteVal(s[k + 4..])
  {
    assert s[k..][..4] == s[k..k + 4] && s[k..][4..] == s[k + 4..];
    ByteValFour(s[k..]);
  }

  lemma {:induction false} ByteValSplit3(s: seq<U8>, k: nat)
    requires k + 3 <= |s|
    ensures ByteVal(s[k..]) == Load24(s[k..k + 3]) + 0x100_0000 * ByteVal(s[k + 3..])
  {
    assert s[k..][..3] == s[k..k + 3] && s[k..][3..] == s[k + 3..];
    ByteValThree(s[k..]);
  }

  lemma {:induction false} Ends(s: seq<U8>)
    ensures s[0..] == s && ByteVal(s[|s|..]) == 0
  {
    assert s[|s|..] == [];
  }

  lemma {:induction false} Horner(a0: int, a1: int, a2: int, a3: int, a4: int, a5: int, a6: int, a7: int, a8: int, a9: int,
         r0: int, r1: int, r2: int, r3: int, r4: int, r5: int, r6: int, r7: int, r8: int, r9: int)
    requires r0 == a0 + 0x1_00000000 * r1
    requires r1 == a1 + 0x1000000 * r2
    requires r2 == a2 + 0x1000000 * r3
    requires r3 == a3 + 0x1000000 * r4
    requires r4 == a4 + 0x1000000 * r5
    requires r5 == a5 + 0x1_00000000 * r6
    requires r6 == a6 + 0x1000000 * r7
    requires r7 == a7 + 0x1000000 * r8
    requires r8 == a8 + 0x1000000 * r9
    requires r9 == a9
    ensures r0
         == a0
          + 0x1_00000000 * a1
          + 0x1000000_00000000 * a2
          + 0x10000_00000000_00000000 * a3
          + 0x100_00000000_00000000_00000000 * a4
          + 0x1_00000000_00000000_00000000_00000000 * a5
          + 0x1_00000000_00000000_00000000_00000000_00000000 * a6
          + 0x1000000_00000000_00000000_00000000_00000000_00000000 * a7
          + 0x10000_00000000_00000000_00000000_00000000_00000000_00000000 * a8
          + 0x100_00000000_00000000_00000000_00000000_00000000_00000000_00000000 * a9
  {
  }

  /** The ten pieces of a 32-byte string that the decoder loads. */
  lemma {:induction false} Pieces(s: seq<U8>)
    requires |s| == 32
    ensures ByteVal(s)
         == Load32(s[0..4])
          + 0x1_00000000 * Load24(s[4..7])
          + 0x1000000_00000000 * Load24(s[7..10])
          + 0x10000_00000000_00000000 * Load24(s[10..13])
          + 0x100_00000000_00000000_00000000 * Load24(s[13..16])
          + 0x1_00000000_00000000_00000000_00000000 * Load32(s[16..20])
          + 0x1_00000000_00000000_00000000_00000000_00000000 * Load24(s[20..23])
          + 0x1000000_00000000_00000000_00000000_00000000_00000000 * Load24(s[23..26])
          + 0x10000_00000000_00000000_00000000_00000000_00000000_00000000 * Load24(s[26..29])
          + 0x100_00000000_00000000_00000000_00000000_00000000_00000000_00000000 * Load24(s[29..32])
  {
    hide *;
    Ends(s);
    ByteValSplit4(s, 0);
    ByteValSplit3(s, 4);
    ByteValSplit3(s, 7);
    ByteValSplit3(s, 10);
    ByteValSplit3(s, 13);
    ByteValSplit4(s, 16);
    ByteValSplit3(s, 20);
    ByteValSplit3(s, 23);
    ByteValSplit3(s, 26);
    ByteValSplit3(s, 29);
    Horner(Load32(s[0..4]), Load24(s[4..7]), Load24(s[7..10]), Load24(s[10..13]), Load24(s[13..16]),
           Load32(s[16..20]), Load24(s[20..23]), Load24(s[23..26]), Load24(s[26..29]), Load24(s[29..32]),
           ByteVal(s[0..]), ByteVal(s[4..]), ByteVal(s[7..]), ByteVal(s[10..]), ByteVal(s[13..]),
           ByteVal(s[16..]), ByteVal(s[20..]), ByteVal(s[23..]), ByteVal(s[26..]), ByteVal(s[29..]));
  }

  /** `x & 0x7fffff`, the mask that drops the sign bit of the last piece. */
  method Mask23(x: U32) returns (r: U32)
    ensures r == x % 0x80_0000
  {
    PowTable();
    AndLowMask(x, 23);
    r := And(x, 0x7f_ffff);
  }

  lemma {:induction false} PowTable()
    ensures Pow2(6) == 0x40 && Pow2(7) == 0x80 && Pow2(12) == 0x1000 && Pow2(13) == 0x2000 && Pow2(19) == 0x8_0000
    ensures Pow2(20) == 0x10_0000 && Pow2(23) == 0x80_0000 && Pow2(25) == 0x200_0000 && Pow2(26) == 0x400_0000
  {
    assert Pow2(6) == 0x40;
    Pow2Add(6, 1);
    Pow2Add(6, 6);
    Pow2Add(6, 7);
    Pow2Add(6, 13);
    Pow2Add(7, 13);
    Pow2Add(19, 4);
    Pow2Add(19, 6);
    Pow2Add(13, 13);
  }

  lemma {:induction false} Low255(n: nat, low: nat, w: nat)
    requires low < 0x100_00000000_00000000_00000000_00000000_00000000_00000000_00000000
    requires n == low + 0x100_00000000_00000000_00000000_00000000_00000000_00000000_00000000 * w
    ensures n % 0x80000000_00000000_00000000_00000000_00000000_00000000_00000000_00000000
         == low + 0x100_00000000_00000000_00000000_00000000_00000000_00000000_00000000 * (w % 0x80_0000)
  {
    DivModUnique(n, 0x80000000_00000000_00000000_00000000_00000000_00000000_00000000_00000000, w / 0x80_0000,
                 low + 0x100_00000000_00000000_00000000_00000000_00000000_00000000_00000000 * (w % 0x80_0000));
  }

  /** The ten limbs of the low 255 bits, before carrying. */
  method LoadLimbs(s: seq<U8>) returns (t0: U32, t1: U32, t2: U32, t3: U32, t4: U32, t5: U32, t6: U32, t7: U32, t8: U32, t9: U32)
    requires |s| == 32
    ensures Eval(t0, t1, t2, t3, t4, t5, t6, t7, t8, t9) == ByteVal(s) % 0x80000000_00000000_00000000_00000000_00000000_00000000_00000000_00000000
  {
    hide ByteVal, Load32, Load24;
    t0 := Load32(s[0..4]);
    t1 := Load24(s[4..7]) * 0x40;
    t2 := Load24(s[7..10]) * 0x20;
    t3 := Load24(s[10..13]) * 0x8;
    t4 := Load24(s[13..16]) * 0x4;
    t5 := Load32(s[16..20]);
    t6 := Load24(s[20..23]) * 0x80;
    t7 := Load24(s[23..26]) * 0x20;
    t8 := Load24(s[26..29]) * 0x10;
    var top := Mask23(Load24(s[29..32]));
    t9 := top * 0x4;
    Pieces(s);
    Low255(ByteVal(s), Eval(t0, t1, t2, t3, t4, t5, t6, t7, t8, 0), Load24(s[29..32]));
  }

  /** h = the low 255 bits of s, for every 32-byte s. */
  method FeFromBytes(h: array<I32>, s: seq<U8>)
    requires h.Length == 10 && |s| == 32
    modifies h
    ensures Tight(h[..])
    ensures Value(h[..]) % P == (ByteVal(s) % 0x80000000_00000000_00000000_00000000_00000000_00000000_00000000_00000000) % P
  {
    var t0, t1, t2, t3, t4, t5, t6, t7, t8, t9 := LoadLimbs(s);
    FeCarry(h, t0, t1, t2, t3, t4, t5, t6, t7, t8, t9);
  }

  // ---- writing bytes ----

  /** The weight of limb k, and of 2^255 for k = 10. */
  ghost function LimbWeight(k: nat): (w: nat)
    ensures w > 0
  {
    if k == 0 then 1 else if k % 2 == 1 then 0x400_0000 * LimbWeight(k - 1) else 0x200_0000 * LimbWeight(k - 1)
  }

  /** The number that the low k limbs denote. */
  ghost function Low(t: seq<int>, k: nat): int
    requires k <= |t|
  {
    if k == 0 then 0 else Low(t, k - 1) + Times(LimbWeight(k - 1), t[k - 1])
  }

  lemma {:induction false} LimbWeights()
    ensures LimbWeight(1) == 0x400_0000
    ensures LimbWeight(2) == 0x80000_00000000
    ensures LimbWeight(3) == 0x2000_00000000_00000000
    ensures LimbWeight(4) == 0x40_00000000_00000000_00000000
    ensures LimbWeight(5) == 0x1_00000000_00000000_00000000_00000000
    ensures LimbWeight(6) == 0x2000000_00000000_00000000_00000000_00000000
    ensures LimbWeight(7) == 0x80000_00000000_00000000_00000000_00000000_00000000
    ensures LimbWeight(8) == 0x1000_00000000_00000000_00000000_00000000_00000000_00000000
    ensures LimbWeight(9) == 0x40_00000000_00000000_00000000_00000000_00000000_00000000_00000000
    ensures LimbWeight(10) == 0x80000000_00000000_00000000_00000000_00000000_00000000_00000000_00000000
  {
    assert LimbWeight(0) == 1;
    assert LimbWeight(1) == 0x400_0000 * LimbWeight(0);
    assert LimbWeight(2) == 0x200_0000 * LimbWeight(1);
    assert LimbWeight(3) == 0x400_0000 * LimbWeight(2);
    assert LimbWeight(4) == 0x200_0000 * LimbWeight(3);
    assert LimbWeight(5) == 0x400_0000 * LimbWeight(4);
    assert LimbWeight(6) == 0x200_0000 * LimbWeight(5);
    assert LimbWeight(7) == 0x400_0000 * LimbWeight(6);
    assert LimbWeight(8) == 0x200_0000 * LimbWeight(7);
    assert LimbWeight(9) == 0x400_0000 * LimbWeight(8);
    assert LimbWeight(10) == 0x200_0000 * LimbWeight(9);
  }

  /** All ten limbs make up the number. */
  lemma {:induction false} LowIsValue(t: seq<int>)
    requires |t| == 10
    ensures Low(t, 10) == Value(t)
  {
    LimbWeights();
    assert Low(t, 1) == Low(t, 0) + Times(LimbWeight(0), t[0]);
    assert Low(t, 2) == Low(t, 1) + Times(LimbWeight(1), t[1]);
    assert Low(t, 3) == Low(t, 2) + Times(LimbWeight(2), t[2]);
    assert Low(t, 4) == Low(t, 3) + Times(LimbWeight(3), t[3]);
    assert Low(t, 5) == Low(t, 4) + Times(LimbWeight(4), t[4]);
    assert Low(t, 6) == Low(t, 5) + Times(LimbWeight(5), t[5]);
    assert Low(t, 7) == Low(t, 6) + Times(LimbWeight(6), t[6]);
    assert Low(t, 8) == Low(t, 7) + Times(LimbWeight(7), t[7]);
    assert Low(t, 9) == Low(t, 8) + Times(LimbWeight(8), t[8]);
    assert Low(t, 10) == Low(t, 9) + Times(LimbWeight(9), t[9]);
  }

  /** The low limbs do not see an update above them. */
  lemma {:induction false} LowFrame(t: seq<int>, u: seq<int>, k: nat)
    requires k <= |t| && k <= |u| && t[..k] == u[..k]
    ensures Low(t, k) == Low(u, k)
  {
    if k > 0 {
      assert t[k - 1] == t[..k][k - 1] && u[k - 1] == u[..k][k - 1];
      assert t[..k - 1] == t[..k][..k - 1] && u[..k - 1] == u[..k][..k - 1];
      LowFrame(t, u, k - 1);
    }
  }

  /** One step of a carry through limb k: dividing by the radix moves the quotient up. */
  lemma {:induction false} CarryUp(w: nat, radix: nat, sum: int, q: int, rem: int, limb: int) returns (rem': int)
    requires w > 0 && radix > 0 && sum == Times(w, q) + rem && 0 <= rem < w
    ensures sum + Times(w, limb) == Times(radix * w, (q + limb) / radix) + rem'
    ensures 0 <= rem' < radix * w
  {
    var x := q + limb;
    rem' := rem + w * (x % radix);
    assert w * x == w * q + w * limb;
    Distribute(radix * (x / radix), x % radix, w);
    Assoc(radix, w, x / radix);
    Assoc(radix, x / radix, w);
    MulBound(x % radix, w, radix - 1, w);
    Distribute(radix, -1, w);
  }

  lemma {:induction false} TightAt(t: seq<int>, k: nat)
    requires Tight(t) && k < 10
    ensures k % 2 == 0 ==> -36909875 <= t[k] <= 36909875
    ensures k % 2 == 1 ==> -18454937 <= t[k] <= 18454937
  {
    assert k in [0, 1, 2, 3, 4, 5, 6, 7, 8, 9];
  }

  /** The sign of a tight number, shifted by the correction that the top limb predicts. */
  lemma {:induction false} TopCorrection(t: seq<int>, q0: int)
    requires Tight(t) && q0 == (19 * t[9] + 0x100_0000) / 0x200_0000
    ensures -16 <= q0 < 16
    ensures Value(t) >= 0 ==> 0 <= Value(t) + q0 < 0x80000000_00000000_00000000_00000000_00000000_00000000_00000000_00000000
    ensures Value(t) < 0 ==> -0x80000000_00000000_00000000_00000000_00000000_00000000_00000000_00000000 <= Value(t) + q0 < 0
    ensures -(P as int) < Value(t) < P
  {
    assert t[9] >= 0 ==> q0 >= 0;
    assert t[9] <= 0 ==> q0 <= 0;
    assert t[9] >= 1 ==> Value(t) > 16;
    assert t[9] <= -1 ==> Value(t) < -16;
  }

  lemma {:induction false} FloorOf(v: int, q: int, rem: int)
    requires v == 0x80000000_00000000_00000000_00000000_00000000_00000000_00000000_00000000 * q + rem && 0 <= rem < 0x80000000_00000000_00000000_00000000_00000000_00000000_00000000_00000000
    ensures 0 <= v < 0x80000000_00000000_00000000_00000000_00000000_00000000_00000000_00000000 ==> q == 0 && rem == v
    ensures -0x80000000_00000000_00000000_00000000_00000000_00000000_00000000_00000000 <= v < 0 ==> q == -1
  {
  }

  /** First carry loop of `fe_tobytes`: 0 for a non-negative number and -1 for a negative one. */
  method SignQuotient(t: seq<I32>) returns (q: I32)
    requires Tight(t)
    ensures q == if Value(t) >= 0 then 0 else -1
    ensures -(P as int) < Value(t) < P
  {
    hide Value, LimbWeight, Times;
    TightAt(t, 9);
    q := (19 * t[9] + 0x100_0000) / 0x200_0000;
    ghost var q0, rem := q, 0;
    TopCorrection(t, q0);
    StartCarry(t, q);
    for i := 0 to 5
      invariant -16 <= q <= 16 && 0 <= rem < LimbWeight(2 * i)
      invariant Low(t, 2 * i) + q0 == Times(LimbWeight(2 * i), q) + rem
    {
      TightAt(t, 2 * i);
      TightAt(t, 2 * i + 1);
      NextWeights(i);
      rem := CarryUp(LimbWeight(2 * i), 0x400_0000, Low(t, 2 * i) + q0, q, rem, t[2 * i]);
      q := (q + t[2 * i]) / 0x400_0000;
      rem := CarryUp(LimbWeight(2 * i + 1), 0x200_0000, Low(t, 2 * i + 1) + q0, q, rem, t[2 * i + 1]);
      q := (q + t[2 * i + 1]) / 0x200_0000;
    }
    LowIsValue(t);
    LimbWeights();
    TimesIs(LimbWeight(10), q);
    FloorOf(Value(t) + q0, q, rem);
  }

  lemma {:induction false} StartCarry(t: seq<int>, q: int)
    ensures LimbWeight(0) == 1 && Low(t, 0) + q == Times(LimbWeight(0), q)
  {
  }

  lemma {:induction false} NextWeights(i: nat)
    ensures LimbWeight(2 * i + 1) == 0x400_0000 * LimbWeight(2 * i)
    ensures LimbWeight(2 * i + 2) == 0x200_0000 * LimbWeight(2 * i + 1)
  {
  }

  /** Limbs in their unsigned ranges below limb k. */
  ghost predicate Reduced(t: seq<int>, k: nat)
    requires k <= |t|
  {
    forall j :: 0 <= j < k ==> 0 <= t[j] < if j % 2 == 0 then 0x400_0000 else 0x200_0000
  }

  /** One step of a carry that keeps the remainder in place: limb k is replaced by its residue. */
  lemma {:induction false} CarryInPlace(t: seq<int>, u: seq<int>, k: nat, q: int, radix: nat, limb: int, sum: int)
    requires radix == (if k % 2 == 0 then 0x400_0000 else 0x200_0000)
    requires k < |t| == |u| && u == t[k := (limb + q) % radix]
    requires Reduced(t, k) && Low(t, k) + Times(LimbWeight(k), q) == sum
    ensures Reduced(u, k + 1)
    ensures Low(u, k + 1) + Times(LimbWeight(k + 1), (limb + q) / radix) == sum + Times(LimbWeight(k), limb)
  {
    hide Times;
    assert t[..k] == u[..k];
    LowFrame(t, u, k);
    var w, x := LimbWeight(k), limb + q;
    TimesAdd(limb, q, w);
    TimesAdd(radix * (x / radix), x % radix, w);
    TimesRadix(w, radix, x / radix);
  }

  lemma {:induction false} TimesRadix(w: int, radix: int, x: int)
    ensures Times(w, radix * x) == Times(radix * w, x)
  {
    Assoc(w, radix, x);
  }

  /** The limbs of t below k are reduced, those above are still those of h, and q is what the
      reduced ones carry over. */
  ghost predicate Partway(t: seq<int>, h: seq<int>, k: nat, q: int, added: int)
    requires k <= |t| == |h|
  {
    t[k..] == h[k..] && Reduced(t, k) && Low(t, k) + Times(LimbWeight(k), q) == Low(h, k) + added
  }

  lemma {:induction false} StartPartway(h: seq<int>, q: int)
    requires Tight(h)
    ensures |h| == 10 && Partway(h, h, 0, q, q)
  {
    hide Times;
    StartCarry(h, q);
  }

  lemma {:induction false} CarryOne(t: seq<int>, h: seq<int>, k: nat, q: int, radix: nat, added: int)
    requires radix == (if k % 2 == 0 then 0x400_0000 else 0x200_0000)
    requires k < |t| == |h| && Partway(t, h, k, q, added)
    ensures t[k] == h[k]
    ensures var x := h[k] + q; Partway(t[k := x - x / radix * radix], h, k + 1, x / radix, added)
  {
    hide Times, LimbWeight, Reduced;
    var x := h[k] + q;
    assert t[k] == t[k..][0] && h[k] == h[k..][0];
    var u := t[k := x % radix];
    CarryInPlace(t, u, k, q, radix, h[k], Low(h, k) + added);
    assert u[k + 1..] == t[k..][1..] && h[k + 1..] == h[k..][1..];
  }

  lemma {:induction false} AllCarried(t: seq<int>, h: seq<int>, q: int, added: int)
    requires |t| == |h| == 10 && Partway(t, h, 10, q, added)
    ensures Reduced(t, 10) && Low(t, 10) + Times(LimbWeight(10), q) == Low(h, 10) + added
  {
  }

  /** Second carry loop of `fe_tobytes`: the limbs of v - 19 or v, reduced modulo 2^255. */
  method ReduceLimbs(h: seq<I32>, negative: I32) returns (t: seq<I32>)
    requires Tight(h) && negative == (if Value(h) >= 0 then 0 else -1) && -(P as int) < Value(h) < P
    ensures |t| == 10 && Reduced(t, 10)
    ensures Value(t) == if Value(h) >= 0 then Value(h) else Value(h) + P
  {
    hide Value, LimbWeight, Times, Tight, Partway;
    t := h;
    var q: I32 := negative * 19;
    StartPartway(h, q);
    for i := 0 to 5
      invariant |t| == 10 && -19 <= q <= 19 && Partway(t, h, 2 * i, q, negative * 19)
    {
      TightAt(h, 2 * i);
      TightAt(h, 2 * i + 1);
      CarryOne(t, h, 2 * i, q, 0x400_0000, negative * 19);
      var x: I32 := t[2 * i] + q;
      q := x / 0x400_0000;
      t := t[2 * i := x - q * 0x400_0000];
      CarryOne(t, h, 2 * i + 1, q, 0x200_0000, negative * 19);
      x := t[2 * i + 1] + q;
      q := x / 0x200_0000;
      t := t[2 * i + 1 := x - q * 0x200_0000];
    }
    AllCarried(t, h, q, negative * 19);
    LowIsValue(h);
    LowIsValue(t);
    ReducedRange(t);
    LimbWeights();
    TimesIs(LimbWeight(10), q);
    FloorOf(Value(h) + negative * 19, q, Value(t));
  }

  lemma {:induction false} ReducedRange(t: seq<int>)
    requires |t| == 10 && Reduced(t, 10)
    ensures 0 <= Value(t) < 0x80000000_00000000_00000000_00000000_00000000_00000000_00000000_00000000
  {
    assert forall j :: 0 <= j < 5 ==> 0 <= t[2 * j] < 0x400_0000 && 0 <= t[2 * j + 1] < 0x200_0000;
    assert 0 <= t[0] < 0x400_0000 && 0 <= t[1] < 0x200_0000 && 0 <= t[2] < 0x400_0000 && 0 <= t[3] < 0x200_0000;
    assert 0 <= t[4] < 0x400_0000 && 0 <= t[5] < 0x200_0000 && 0 <= t[6] < 0x400_0000 && 0 <= t[7] < 0x200_0000;
    assert 0 <= t[8] < 0x400_0000 && 0 <= t[9] < 0x200_0000;
  }

  /** `lo | hi << shift` on 32-bit words, where lo fits below the shift. */
  method Pack(lo: U32, hi: U32, shift: nat, radix: nat, rest: nat) returns (w: U32)
    requires radix == Pow2(shift) && radix * rest == 0x1_0000_0000 && lo < radix
    ensures w == lo + radix * (hi % rest)
  {
    ghost var h := hi;
    var shifted: U32 := hi * radix % 0x1_0000_0000;
    assert shifted == radix * (h % rest) by { ShiftedLow(hi, radix, rest); }
    ModShift(0, hi % rest, radix);
    OrDisjoint(lo, shifted, shift);
    Below(lo, hi % rest, radix, rest);
    w := Or(lo, shifted);
  }

  lemma {:induction false} ShiftedLow(hi: nat, radix: nat, rest: nat)
    requires radix > 0 && rest > 0
    ensures hi * radix % (radix * rest) == radix * (hi % rest)
  {
    Distribute(rest * (hi / rest), hi % rest, radix);
    Assoc(radix, rest, hi / rest);
    Below(0, hi % rest, radix, rest);
    DivModUnique(hi * radix, radix * rest, hi / rest, radix * (hi % rest));
  }

  lemma {:induction false} Below(lo: nat, x: nat, radix: nat, rest: nat)
    requires lo < radix && x < rest
    ensures 0 <= lo + radix * x < radix * rest
  {
    MulMono(x, rest - 1, radix);
    Distribute(rest, -1, radix);
    MulSign(radix, x);
  }

  /** The eight words of ten reduced limbs denote the same number. */
  method PackLimbs(t: seq<I32>) returns (w: seq<U32>)
    requires |t| == 10 && Reduced(t, 10)
    ensures |w| == 8 && Val(w) == Value(t)
  {
    hide Val, Pow2, Or;
    LimbRanges(t);
    PowTable();
    var (t0: nat, t1: nat, t2: nat, t3: nat, t4: nat) := (t[0], t[1], t[2], t[3], t[4]);
    var (t5: nat, t6: nat, t7: nat, t8: nat, t9: nat) := (t[5], t[6], t[7], t[8], t[9]);
    var w0 := Pack(t0, t1, 26, 0x400_0000, 0x40);
    var w1 := Pack(t1 / 0x40, t2, 19, 0x8_0000, 0x2000);
    var w2 := Pack(t2 / 0x2000, t3, 13, 0x2000, 0x8_0000);
    var w3 := Pack(t3 / 0x8_0000, t4, 6, 0x40, 0x400_0000);
    var w4 := Pack(t5, t6, 25, 0x200_0000, 0x80);
    var w5 := Pack(t6 / 0x80, t7, 19, 0x8_0000, 0x2000);
    var w6 := Pack(t7 / 0x2000, t8, 12, 0x1000, 0x10_0000);
    var w7 := Pack(t8 / 0x10_0000, t9, 6, 0x40, 0x400_0000);
    w := [w0, w1, w2, w3, w4, w5, w6, w7];
    EightWords(w0, w1, w2, w3, w4, w5, w6, w7);
    PackedValue(t0, t1, t2, t3, t4, t5, t6, t7, t8, t9, w0, w1, w2, w3, w4, w5, w6, w7);
  }

  lemma {:induction false} PackedValue(t0: nat, t1: nat, t2: nat, t3: nat, t4: nat, t5: nat, t6: nat, t7: nat, t8: nat, t9: nat,
         w0: nat, w1: nat, w2: nat, w3: nat, w4: nat, w5: nat, w6: nat, w7: nat)
    requires w0 == t0 + 0x400_0000 * (t1 % 0x40) && w1 == t1 / 0x40 + 0x8_0000 * (t2 % 0x2000)
    requires w2 == t2 / 0x2000 + 0x2000 * (t3 % 0x8_0000) && w3 == t3 / 0x8_0000 + 0x40 * (t4 % 0x400_0000)
    requires w4 == t5 + 0x200_0000 * (t6 % 0x80) && w5 == t6 / 0x80 + 0x8_0000 * (t7 % 0x2000)
    requires w6 == t7 / 0x2000 + 0x1000 * (t8 % 0x10_0000) && w7 == t8 / 0x10_0000 + 0x40 * (t9 % 0x400_0000)
    requires t4 < 0x400_0000 && t9 < 0x400_0000
    ensures w0 + 0x1_0000_0000 * w1 + 0x1_00000000_00000000 * w2
          + 0x1_00000000_00000000_00000000 * w3 + 0x1_00000000_00000000_00000000_00000000 * w4
          + 0x1_00000000_00000000_00000000_00000000_00000000 * w5
          + 0x1_00000000_00000000_00000000_00000000_00000000_00000000 * w6
          + 0x1_00000000_00000000_00000000_00000000_00000000_00000000_00000000 * w7
         == Eval(t0, t1, t2, t3, t4, t5, t6, t7, t8, t9)
  {
  }

  lemma {:induction false} LimbRanges(t: seq<int>)
    requires |t| == 10 && Reduced(t, 10)
    ensures 0 <= t[0] < 0x400_0000 && 0 <= t[1] < 0x200_0000 && 0 <= t[2] < 0x400_0000 && 0 <= t[3] < 0x200_0000
    ensures 0 <= t[4] < 0x400_0000 && 0 <= t[5] < 0x200_0000 && 0 <= t[6] < 0x400_0000 && 0 <= t[7] < 0x200_0000
    ensures 0 <= t[8] < 0x400_0000 && 0 <= t[9] < 0x200_0000
  {
    assert forall j :: 0 <= j < 5 ==> 0 <= t[2 * j] < 0x400_0000 && 0 <= t[2 * j + 1] < 0x200_0000;
  }

  lemma {:induction false} EightWords(a: U32, b: U32, c: U32, d: U32, e: U32, f: U32, g: U32, h: U32)
    ensures Val([a, b, c, d, e, f, g, h])
         == a + 0x1_0000_0000 * b + 0x1_00000000_00000000 * c
          + 0x1_00000000_00000000_00000000 * d + 0x1_00000000_00000000_00000000_00000000 * e
          + 0x1_00000000_00000000_00000000_00000000_00000000 * f
          + 0x1_00000000_00000000_00000000_00000000_00000000_00000000 * g
          + 0x1_00000000_00000000_00000000_00000000_00000000_00000000_00000000 * h
  {
    assert [a, b, c, d, e, f, g, h][1..] == [b, c, d, e, f, g, h] && [b, c, d, e, f, g, h][1..] == [c, d, e, f, g, h];
    assert [c, d, e, f, g, h][1..] == [d, e, f, g, h] && [d, e, f, g, h][1..] == [e, f, g, h] && [e, f, g, h][1..] == [f, g, h];
    assert [f, g, h][1..] == [g, h] && [g, h][1..] == [h] && [h][1..] == [];
    assert Val([h]) == h + 0x1_0000_0000 * Val([]);
    assert Val([g, h]) == g + 0x1_0000_0000 * Val([h]);
    assert Val([f, g, h]) == f + 0x1_0000_0000 * Val([g, h]);
    assert Val([e, f, g, h]) == e + 0x1_0000_0000 * Val([f, g, h]);
    assert Val([d, e, f, g, h]) == d + 0x1_0000_0000 * Val([e, f, g, h]);
    assert Val([c, d, e, f, g, h]) == c + 0x1_0000_0000 * Val([d, e, f, g, h]);
    assert Val([b, c, d, e, f, g, h]) == b + 0x1_0000_0000 * Val([c, d, e, f, g, h]);
  }

  lemma {:induction false} Representative(v: int)
    requires -(P as int) < v < P
    ensures v % P == if v >= 0 then v else v + P
  {
  }

  /** s = the unique representative of a tight element in [0, p). */
  method FeToBytes(s: array<U8>, h: array<I32>)
    requires s.Length == 32 && h.Length == 10 && Tight(h[..])
    modifies s
    ensures ByteVal(s[..]) == old(Value(h[..])) % P
  {
    hide Value, Tight;
    var q := SignQuotient(h[..]);
    var t := ReduceLimbs(h[..], q);
    Representative(Value(h[..]));
    var w := PackLimbs(t);
    var out := Store32Buf(w);
    forall i | 0 <= i < 32 { s[i] := out[i]; }
    assert s[..] == out;
    Store32BufVal(w);
  }

  /** Decoding and encoding again gives the low 255 bits of the input reduced modulo p. */
  method RoundTrip(s: seq<U8>) returns (out: seq<U8>)
    requires |s| == 32
    ensures |out| == 32
    ensures ByteVal(out) == (ByteVal(s) % 0x80000000_00000000_00000000_00000000_00000000_00000000_00000000_00000000) % P
  {
    var h := new I32[10];
    FeFromBytes(h, s);
    var bytes := new U8[32];
    FeToBytes(bytes, h);
    out := bytes[..];
  }
}
