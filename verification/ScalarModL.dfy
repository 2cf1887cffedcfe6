/** Arithmetic modulo the prime order L of the Ed25519 base point: schoolbook multiplication
    and Barrett reduction on 32-bit limbs. */
module ScalarModL {
  import opened Bits
  import opened Limbs
  import opened Nonlinear

  /** 2^252 + 27742317777372353535851937790883648493 (section 5.1 of RFC 8032). */
  const L: nat := 0x10000000_00000000_00000000_00000000_14def9de_a2f79cd6_5812631a_5cf5d3ed

  const L_LIMBS: seq<U32> := [
    0x5cf5d3ed, 0x5812631a, 0xa2f79cd6, 0x14def9de,
    0x00000000, 0x00000000, 0x00000000, 0x10000000]

  /** The Barrett constant, 2^512 divided by L and rounded down. */
  const R_LIMBS: seq<U32> := [
    0x0a2c131b, 0xed9ce5a3, 0x086329a7, 0x2106215d,
    0xffffffeb, 0xffffffff, 0xffffffff, 0xffffffff, 0xf]

  const R: nat := 0xf_ffffffff_ffffffff_ffffffff_ffffffeb_2106215d_086329a7_ed9ce5a3_0a2c131b

  lemma {:induction false} Val4(a: U32, b: U32, c: U32, d: U32)
    ensures Val([a, b, c, d]) == a as int + BASE * (b as int + BASE * (c as int + BASE * d as int))
  {
    assert [a, b, c, d][1..] == [b, c, d] && [b, c, d][1..] == [c, d] && [c, d][1..] == [d] && [d][1..] == [];
    assert Val([d]) == d + BASE * Val([]);
    assert Val([c, d]) == c + BASE * Val([d]);
    assert Val([b, c, d]) == b + BASE * Val([c, d]);
  }

  lemma {:induction false} Weights()
    ensures Weight(4) == 0x1_00000000_00000000_00000000_00000000
    ensures Weight(8) == 0x1_00000000_00000000_00000000_00000000_00000000_00000000_00000000_00000000
    ensures Weight(16) == Weight(8) * Weight(8)
  {
    assert Weight(1) == BASE * Weight(0);
    assert Weight(2) == BASE * Weight(1);
    assert Weight(3) == BASE * Weight(2);
    assert Weight(4) == BASE * Weight(3);
    WeightAdd(4, 4);
    WeightAdd(8, 8);
    TimesIs(Weight(4), Weight(4));
    TimesIs(Weight(8), Weight(8));
  }

  /** Eight limbs from their two halves. */
  lemma {:induction false} Val8(lo: seq<U32>, hi: seq<U32>, a: nat, b: nat)
    requires |lo| == 4 && Val(lo) == a && Val(hi) == b
    ensures Val(lo + hi) == a + 0x1_00000000_00000000_00000000_00000000 * b
  {
    Weights();
    ValConcat(lo, hi);
    TimesIs(Weight(4), b);
  }

  /** The limb table of L. */
  method TableL() returns (l: seq<U32>)
    ensures |l| == 8 && Val(l) == L
  {
    l := L_LIMBS;
    Val4(0x5cf5d3ed, 0x5812631a, 0xa2f79cd6, 0x14def9de);
    Val4(0, 0, 0, 0x10000000);
    assert l == l[..4] + l[4..];
    assert l[..4] == [0x5cf5d3ed, 0x5812631a, 0xa2f79cd6, 0x14def9de] && l[4..] == [0, 0, 0, 0x10000000];
    Val8(l[..4], l[4..], Val(l[..4]), Val(l[4..]));
  }

  lemma {:induction false} OneLimb(x: U32)
    ensures Val([x]) == x
  {
  }

  /** The limb table of R. */
  method TableR() returns (r: seq<U32>)
    ensures |r| == 9 && Val(r) == R
  {
    hide Val;
    r := R_LIMBS;
    OneLimb(0xf);
    Val4(0x0a2c131b, 0xed9ce5a3, 0x086329a7, 0x2106215d);
    Val4(0xffffffeb, 0xffffffff, 0xffffffff, 0xffffffff);
    assert r == r[..4] + r[4..] && r[4..] == r[4..8] + [0xf];
    assert r[..4] == [0x0a2c131b, 0xed9ce5a3, 0x086329a7, 0x2106215d];
    assert r[4..8] == [0xffffffeb, 0xffffffff, 0xffffffff, 0xffffffff];
    Val8(r[4..8], [0xf], Val(r[4..8]), 0xf);
    Val8(r[..4], r[4..], Val(r[..4]), Val(r[4..]));
  }

  // ---- multiplication ----

  /** One multiply-accumulate of the inner loops: the 64-bit accumulator cannot overflow. */
  method Mac(carry: U64, limb: U32, w: U32, y: U32) returns (low: U32, high: U64)
    requires carry < BASE
    ensures low + BASE * high == carry + limb + Times(w, y) && high < BASE
  {
    MulBound(w, y, 0xffff_ffff, 0xffff_ffff);
    var sum: U64 := carry + limb + w * y;
    low, high := sum % BASE, sum / BASE;
    TimesIs(w, y);
  }

  /** One limb of a row of a product. */
  lemma {:induction false} RowStep(done: seq<U32>, carry: U32, was: seq<U32>, limb: U32, w: U32, y: seq<U32>, yj: U32, low: U32, high: U32)
    requires |done| == |was| == |y|
    requires Val(done + [carry]) == Val(was) + Times(w, Val(y))
    requires low + BASE * high == carry + limb + Times(w, yj)
    ensures Val(done + [low] + [high]) == Val(was + [limb]) + Times(w, Val(y + [yj]))
  {
    hide *;
    ValSnoc(done, carry);
    ValSnoc(done, low);
    ValSnoc(done + [low], high);
    ValSnoc(was, limb);
    ValSnoc(y, yj);
    WeightNext(|done|);
    RowAlgebra(Val(done), Weight(|done|), carry, low, high, Val(was), limb, w, yj, Val(y), Val(y + [yj]));
  }

  lemma {:induction false} RowAlgebra(done: int, k: int, carry: int, low: int, high: int, was: int, limb: int, w: int, yj: int, y: int, y': int)
    requires done + Times(k, carry) == was + Times(w, y)
    requires low + BASE * high == carry + limb + Times(w, yj) && y' == y + Times(k, yj)
    ensures done + Times(k, low) + Times(BASE * k, high) == was + Times(k, limb) + Times(w, y')
  {
    hide Times;
    TimesAdd(low, BASE * high, k);
    TimesAdd(carry + limb, Times(w, yj), k);
    TimesAdd(carry, limb, k);
    TimesBase(k, high);
    TimesAdd(y, Times(k, yj), w);
    TimesAssoc(k, w, yj);
    TimesAssoc(w, k, yj);
    TimesComm(k, w);
  }

  lemma {:induction false} StartRow(w: U32)
    ensures Val([] + [0]) == Val([]) + Times(w, Val([]))
  {
    assert [] + [0] == [0];
  }

  /** The inner loop shared by `multiply` and both products of `mod_l`: add w times y to the
      limbs of p that start at off, and return the carry out of the row. */
  method RowMulAdd(p: array<U32>, off: nat, w: U32, y: seq<U32>) returns (carry: U64)
    requires off + |y| <= p.Length
    modifies p
    ensures p[..off] == old(p[..off]) && p[off + |y|..] == old(p[off + |y|..])
    ensures carry < 0x1_0000_0000
    ensures Val(p[off..off + |y|] + [carry]) == Val(old(p[off..off + |y|])) + Times(w, Val(y))
  {
    hide Times;
    carry := 0;
    ghost var was := p[off..off + |y|];
    StartRow(w);
    for j := 0 to |y|
      invariant p[..off] == old(p[..off]) && p[off + j..] == old(p[off + j..])
      invariant carry < BASE
      invariant Val(p[off..off + j] + [carry]) == Val(was[..j]) + Times(w, Val(y[..j]))
    {
      ghost var done, carry0 := p[off..off + j], carry;
      assert p[off + j] == was[j] by { assert p[off + j] == p[off + j..][0]; }
      var low, high := Mac(carry, p[off + j], w, y[j]);
      p[off + j], carry := low, high;
      assert p[off..off + j + 1] == done + [low];
      assert p[off + j + 1..] == old(p[off + j..])[1..];
      assert was[..j + 1] == was[..j] + [was[j]] && y[..j + 1] == y[..j] + [y[j]];
      RowStep(done, carry0, was[..j], was[j], w, y[..j], y[j], low, high);
    }
    assert was[..|y|] == was && y[..|y|] == y;
  }

  /** Adding row i of a product to an accumulator that holds `low` and `mid`. */
  lemma {:induction false} AddRow(low: seq<U32>, mid: seq<U32>, sum: seq<U32>, a: seq<U32>, y: nat, start: nat)
    requires |low| < |a|
    requires Val(low + mid) == Times(Val(a[..|low|]), y) + start
    requires Val(sum) == Val(mid) + Times(a[|low|], y)
    ensures Val(low + sum) == Times(Val(a[..|low| + 1]), y) + start
  {
    hide *;
    ValConcat(low, mid);
    ValConcat(low, sum);
    ValTakeNext(a, |low|);
    AddRowAlgebra(Val(low), Weight(|low|), Val(mid), Val(sum), a[|low|], y, Val(a[..|low|]), Val(a[..|low| + 1]), start);
  }

  lemma {:induction false} AddRowAlgebra(low: int, k: int, mid: int, sum: int, w: int, y: int, a: int, a': int, start: int)
    requires low + Times(k, mid) == Times(a, y) + start && sum == mid + Times(w, y) && a' == a + Times(k, w)
    ensures low + Times(k, sum) == Times(a', y) + start
  {
    hide Times;
    TimesAdd(mid, Times(w, y), k);
    TimesAssoc(k, w, y);
    TimesAdd(a, Times(k, w), y);
  }

  /** p = a * b + p, where p starts with 8 limbs of meaning: the limbs above are overwritten
      before they are read. */
  method Multiply(p: array<U32>, a: array<U32>, b: array<U32>)
    requires p.Length == 16 && a.Length == 8 && b.Length == 8 && p != a && p != b
    modifies p
    ensures Val(p[..]) == Val(a[..]) * Val(b[..]) + Val(old(p[..8]))
  {
    ghost var start := Val(p[..8]);
    ghost var y := Val(b[..]);
    TimesUnit(y);
    for i := 0 to 8
      invariant Val(p[..i + 8]) == Times(Val(a[..][..i]), y) + start
    {
      ghost var low, mid := p[..i], p[i..i + 8];
      assert p[..i + 8] == low + mid;
      var carry := RowMulAdd(p, i, a[i], b[..]);
      ghost var sum := p[i..i + 8] + [carry];
      p[i + 8] := carry;
      assert p[..i + 9] == low + sum;
      AddRow(low, mid, sum, a[..], y, start);
    }
    assert p[..16] == p[..] && a[..][..8] == a[..];
    TimesIs(Val(a[..]), y);
  }

  // ---- carry chains ----

  /** `~x & mask` for a mask of all zeros or all ones. */
  method MaskedNot(x: U32, mask: U32) returns (r: U32)
    requires mask == 0 || mask == 0xffff_ffff
    ensures r == if mask == 0 then 0 else 0xffff_ffff - x
  {
    AndZero(0xffff_ffff - x);
    AndOnes(0xffff_ffff - x);
    r := And(0xffff_ffff - x, mask);
  }

  /** The limbs that MaskedNot yields. */
  ghost function Complement(x: seq<U32>, mask: U32): (r: seq<U32>)
    ensures |r| == |x|
  {
    seq(|x|, i requires 0 <= i < |x| => if mask == 0 then 0 else 0xffff_ffff - x[i])
  }

  /** A complemented number is one less than its negation. */
  lemma {:induction false} ComplementVal(x: seq<U32>, mask: U32)
    requires mask != 0
    ensures Val(Complement(x, mask)) == Weight(|x|) - 1 - Val(x)
  {
    if x != [] {
      assert Complement(x, mask)[1..] == Complement(x[1..], mask);
      ComplementVal(x[1..], mask);
    }
  }

  /** One step of a carry chain. */
  method Adc(carry: U64, x: U32, y: U32) returns (low: U32, high: U64)
    requires carry <= 1
    ensures low + BASE * high == carry + x + y && high <= 1
  {
    var sum: U64 := carry + x + y;
    low, high := sum % BASE, sum / BASE;
  }

  /** The carry chain invariant: `done` and the carry above it are the sum of the low limbs
      of x and y and the carry `first` that started the chain. */
  ghost predicate Chain(done: seq<U32>, carry: U32, x: seq<U32>, y: seq<U32>, first: nat)
    requires |done| <= |x| && |done| <= |y|
  {
    Val(done + [carry]) == Val(x[..|done|]) + Val(y[..|done|]) + first
  }

  lemma {:induction false} ChainStart(carry: U32, x: seq<U32>, y: seq<U32>)
    ensures Chain([], carry, x, y, carry)
  {
    assert [] + [carry] == [carry] && x[..0] == [] && y[..0] == [];
    assert Val([carry]) == carry + BASE * Val([]);
  }

  lemma {:induction false} ChainStep(done: seq<U32>, carry: U32, x: seq<U32>, y: seq<U32>, first: nat, low: U32, high: U32)
    requires |done| < |x| && |done| < |y| && Chain(done, carry, x, y, first)
    requires low + BASE * high == carry + x[|done|] + y[|done|]
    ensures Chain(done + [low], high, x, y, first)
  {
    hide Times;
    var i := |done|;
    ValSnoc(done, carry);
    ValSnoc(done, low);
    ValSnoc(done + [low], high);
    ValTakeNext(x, i);
    ValTakeNext(y, i);
    WeightAdd(1, i);
    ChainAlgebra(Weight(i), carry, low, high, x[i], y[i]);
  }

  lemma {:induction false} ChainAlgebra(k: int, carry: int, low: int, high: int, x: int, y: int)
    requires low + BASE * high == carry + x + y
    ensures Times(k, low) + Times(BASE * k, high) == Times(k, carry) + Times(k, x) + Times(k, y)
  {
    hide Times;
    TimesAdd(low, BASE * high, k);
    TimesAdd(carry + x, y, k);
    TimesAdd(carry, x, k);
    TimesBase(k, high);
  }

  /** What a whole chain amounts to. */
  lemma {:induction false} ChainEnd(done: seq<U32>, carry: U32, x: seq<U32>, y: seq<U32>, first: nat)
    requires |done| == |x| == |y| && carry <= 1 && Chain(done, carry, x, y, first)
    ensures Val(done) < Weight(|done|) && Val(x) < Weight(|done|)
    ensures Val(done) + (if carry == 1 then Weight(|done|) else 0) == Val(x) + Val(y) + first
  {
    hide Times, Weight, Val;
    assert x[..|x|] == x && y[..|y|] == y;
    ValSnoc(done, carry);
    TimesUnit(Weight(|done|));
    ValBound(done);
    ValBound(x);
  }

  /** The limbs of a masked operand, once the mask is known. */
  lemma {:induction false} MaskedVal(x: seq<U32>, mask: U32)
    ensures Val(Complement(x, mask)) == if mask == 0 then 0 else Weight(|x|) - 1 - Val(x)
  {
    if mask == 0 { ValZeros(Complement(x, mask)); } else { ComplementVal(x, mask); }
  }

  /** True exactly when x is at least L: the carry out of x + ~L + 1. */
  method IsAboveL(x: array<U32>) returns (above: bool)
    requires x.Length >= 8
    ensures above <==> Val(x[..8]) >= L
  {
    hide Times;
    var l := TableL();
    var carry: U64 := 1;
    ghost var was, done: seq<U32> := x[..8], [];
    ChainStart(1, was, Complement(l, 0xffff_ffff));
    for i := 0 to 8
      invariant |done| == i && carry <= 1
      invariant Chain(done, carry, was, Complement(l, 0xffff_ffff), 1)
    {
      var notL := MaskedNot(l[i], 0xffff_ffff);
      var low, high := Adc(carry, x[i], notL);
      ChainStep(done, carry, was, Complement(l, 0xffff_ffff), 1, low, high);
      done, carry := done + [low], high;
    }
    ChainEnd(done, carry, was, Complement(l, 0xffff_ffff), 1);
    MaskedVal(l, 0xffff_ffff);
    above := carry == 1;
  }

  /** r = x reduced once: x - L when x is at least L, and x otherwise. r and x may be the
      same buffer. */
  method RemoveL(r: array<U32>, x: array<U32>)
    requires r.Length >= 8 && x.Length >= 8
    modifies r
    ensures r[8..] == old(r[8..])
    ensures Val(r[..8]) == if Val(old(x[..8])) >= L then Val(old(x[..8])) - L else Val(old(x[..8]))
  {
    hide Times;
    var l := TableL();
    ghost var was := x[..8];
    var above := IsAboveL(x);
    var carry: U64 := if above then 1 else 0;
    var mask: U32 := (0xffff_ffff - carry + 1) % 0x1_0000_0000;   // ~carry + 1
    ghost var first: nat := carry;
    ChainStart(carry, was, Complement(l, mask));
    for i := 0 to 8
      invariant r[8..] == old(r[8..])
      invariant forall k :: i <= k < 8 ==> x[k] == was[k]
      invariant carry <= 1
      invariant Chain(r[..i], carry, was, Complement(l, mask), first)
    {
      ghost var done := r[..i];
      var notL := MaskedNot(l[i], mask);
      var low, high := Adc(carry, x[i], notL);
      ChainStep(done, carry, was, Complement(l, mask), first, low, high);
      r[i], carry := low, high;
      assert r[..i + 1] == done + [low];
    }
    ChainEnd(r[..8], carry, was, Complement(l, mask), first);
    MaskedVal(l, mask);
  }

  // ---- Barrett reduction ----

  /** For a reciprocal r of l scaled by W, the quotient estimate floor(x * r / W) is the true
      quotient or one less. */
  lemma {:induction false} EstimateBounds(x: nat, q: nat, rem: nat, r: nat, l: nat, W: nat)
    requires l > 0 && x < W && W - l < Times(r, l) <= W && Times(x, r) == Times(q, W) + rem && rem < W
    ensures Times(q, l) <= x < Times(q, l) + 2 * l
  {
    hide Times;
    // Times(x, Times(r, l)) == Times(Times(q, l), W) + Times(rem, l)
    TimesAssoc(x, r, l);
    TimesAdd(Times(q, W), rem, l);
    TimesAssoc(q, W, l);
    TimesAssoc(q, l, W);
    TimesComm(W, l);
    // x * (W - l) <= x * (r * l) <= x * W
    TimesComm(x, Times(r, l));
    TimesMono(Times(r, l), W, x);
    TimesMono(W - l, Times(r, l), x);
    TimesAdd(W, -(l as int), x);
    TimesNeg(l, x);
    TimesComm(l, x);
    TimesComm(W, x);
    // both l * x and l * rem are at most l * (W - 1)
    TimesMono(x, W - 1, l);
    TimesMono(rem, W - 1, l);
    TimesMono(0, rem, l);
    TimesUnit(l);
    TimesAdd(W, -1, l);
    TimesNeg(1, l);
    // compare q * l and x after scaling by W
    var ql := Times(q, l);
    TimesAdd(ql, 2 * l, W);
    TimesAdd(l, l, W);
    TimesAdd(x, 1, W);
    TimesUnit(W);
    TimesCancel(ql, x + 1, W);
    TimesCancel(x, ql + 2 * l, W);
  }

  /** First phase of `mod_l`: xr = x * r. */
  method TimesR(xr: array<U32>, r: seq<U32>, x: array<U32>)
    requires |r| == 9 && x.Length == 16 && xr.Length == 25 && xr != x
    requires forall k :: 0 <= k < 25 ==> xr[k] == 0
    modifies xr
    ensures Val(xr[..]) == Times(Val(r), Val(x[..]))
  {
    hide Times, Val;
    ghost var n := Val(x[..]);
    ValZeros(xr[..16]);
    ValZeros(r[..0]);
    TimesUnit(n);
    for i := 0 to 9
      invariant Val(xr[..i + 16]) == Times(Val(r[..i]), n) + 0
    {
      ghost var low, mid := xr[..i], xr[i..i + 16];
      assert xr[..i + 16] == low + mid;
      var carry := RowMulAdd(xr, i, r[i], x[..]);
      var top: U32 := carry;
      ghost var sum: seq<U32> := xr[i..i + 16] + [top];
      xr[i + 16] := top;
      assert xr[..i + 17] == low + sum;
      AddRow(low, mid, sum, r, n, 0);
    }
    assert r[..9] == r && xr[..25] == xr[..];
  }

  /** A row of a product truncated to |q| limbs drops its carry. */
  lemma {:induction false} TruncatedRow(low: seq<U32>, mid: seq<U32>, sum: seq<U32>, top: U32, q: seq<U32>, l: seq<U32>, k: int) returns (k': int)
    requires |low| + |mid| == |q| == |l| && |sum| == |mid| && |low| < |q|
    requires Val(low + mid) == Times(Val(q[..|low|]), Val(l)) + Times(k, Weight(|q|))
    requires Val(sum + [top]) == Val(mid) + Times(q[|low|], Val(l[..|mid|]))
    ensures Val(low + sum) == Times(Val(q[..|low| + 1]), Val(l)) + Times(k', Weight(|q|))
  {
    hide *;
    var i, m := |low|, |mid|;
    ValConcat(low, mid);
    ValConcat(low, sum);
    ValSnoc(sum, top);
    SplitAt(l, m);
    ValTakeNext(q, i);
    WeightAdd(i, m);
    k' := TruncatedAlgebra(Val(low), Weight(i), Val(mid), Val(sum), Weight(m), top, q[i], Val(l[..m]), Val(l[m..]), Val(q[..i]),
                           Val(l), Weight(|q|), Val(q[..i + 1]), k);
  }

  lemma {:induction false} TruncatedAlgebra(low: int, w: int, mid: int, sum: int, m: int, top: int, qi: int, y: int, dropped: int, q: int,
                         l: int, W: int, q': int, k: int) returns (k': int)
    requires l == y + Times(m, dropped) && W == Times(w, m) && q' == q + Times(w, qi)
    requires low + Times(w, mid) == Times(q, l) + Times(k, W)
    requires sum + Times(m, top) == mid + Times(qi, y)
    ensures low + Times(w, sum) == Times(q', l) + Times(k', W)
  {
    hide Times;
    k' := k - top - Times(qi, dropped);
    // w * (sum + m * top) == w * (mid + qi * y)
    TimesAdd(sum, Times(m, top), w);
    TimesAdd(mid, Times(qi, y), w);
    TimesAssoc(w, m, top);
    // q' * l == q * l + w * (qi * y) + W * (qi * dropped)
    TimesAdd(q, Times(w, qi), l);
    TimesAssoc(w, qi, l);
    TimesAdd(y, Times(m, dropped), qi);
    TimesAdd(Times(qi, y), Times(qi, Times(m, dropped)), w);
    TimesAssoc(qi, m, dropped);
    TimesComm(qi, m);
    TimesAssoc(m, qi, dropped);
    TimesAssoc(w, m, Times(qi, dropped));
    // k' * W
    TimesAdd(k - top, -Times(qi, dropped), W);
    TimesAdd(k, -top, W);
    TimesNeg(top, W);
    TimesNeg(Times(qi, dropped), W);
    TimesComm(W, top);
    TimesComm(W, Times(qi, dropped));
  }

  lemma {:induction false} StartTruncated(low: seq<U32>, q: seq<U32>, l: seq<U32>)
    requires forall i :: 0 <= i < |low| ==> low[i] == 0
    ensures Val(low) == Times(Val(q[..0]), Val(l)) + Times(0, Weight(|q|))
  {
    ValZeros(low);
    assert q[..0] == [];
  }

  /** Second phase of `mod_l`: the low limbs of xr become those of l times the number in the
      limbs from 16 on; what is dropped is a multiple of 2^256. */
  method TimesL(xr: array<U32>, l: seq<U32>) returns (ghost multiple: int)
    requires |l| == 8 && xr.Length == 25
    modifies xr
    ensures Val(xr[..8]) == Times(Val(old(xr[16..24])), Val(l)) + Times(multiple, Weight(|l|))
  {
    hide *;
    ghost var q := xr[16..24];
    for k := 0 to 8
      invariant forall j :: 0 <= j < k ==> xr[j] == 0
      invariant forall j :: 16 <= j < 24 ==> xr[j] == q[j - 16]
    {
      xr[k] := 0;
    }
    assert xr[16..24] == q;
    multiple := 0;
    StartTruncated(xr[..8], q, l);
    for i := 0 to 8
      invariant xr[16..24] == q
      invariant Val(xr[..8]) == Times(Val(q[..i]), Val(l)) + Times(multiple, Weight(|q|))
    {
      ghost var low, mid := xr[..i], xr[i..8];
      assert xr[..8] == low + mid;
      assert xr[i + 16] == q[i];
      ghost var high := xr[8..];
      var carry := RowMulAdd(xr, i, xr[i + 16], l[..8 - i]);
      assert xr[8..] == high;
      assert xr[16..24] == high[8..16];
      assert xr[..8] == low + xr[i..8];
      multiple := TruncatedRow(low, mid, xr[i..8], carry, q, l, multiple);
    }
    assert q[..8] == q;
  }

  /** Third phase of `mod_l`: xr = x - xr modulo 2^256. */
  method Subtract(xr: array<U32>, x: array<U32>) returns (ghost borrow: nat)
    requires xr.Length >= 8 && x.Length >= 8 && xr != x
    modifies xr
    ensures borrow <= 1
    ensures Val(xr[..8]) == Val(x[..8]) - Val(old(xr[..8])) + (if borrow == 1 then Weight(8) else 0)
  {
    hide Times;
    ghost var was, from := xr[..8], x[..8];
    var carry: U64 := 1;
    ChainStart(1, from, Complement(was, 0xffff_ffff));
    for i := 0 to 8
      invariant forall k :: i <= k < 8 ==> xr[k] == was[k]
      invariant carry <= 1
      invariant Chain(xr[..i], carry, from, Complement(was, 0xffff_ffff), 1)
    {
      ghost var done := xr[..i];
      var notXr := MaskedNot(xr[i], 0xffff_ffff);
      var low, high := Adc(carry, x[i], notXr);
      ChainStep(done, carry, from, Complement(was, 0xffff_ffff), 1, low, high);
      xr[i], carry := low, high;
      assert xr[..i + 1] == done + [low];
    }
    ChainEnd(xr[..8], carry, from, Complement(was, 0xffff_ffff), 1);
    MaskedVal(was, 0xffff_ffff);
    borrow := 1 - carry;
  }

  /** n - q * l below W is determined by the parts of n and q below W. */
  lemma {:induction false} Regroup(n: int, q: int, low: int, ql: int, l: int, u: int, a: int, b: int, j: int, k: int, W: int)
    requires 0 <= u < W && 0 <= n - Times(q, l) < W && 0 <= k <= 1
    requires n == low + Times(W, a) && q == ql + Times(W, b)
    requires u == low - (Times(ql, l) + Times(j, W)) + (if k == 1 then W else 0)
    ensures u == n - Times(q, l)
  {
    hide Times;
    var bl := Times(b, l);
    TimesAdd(ql, Times(W, b), l);
    TimesAssoc(W, b, l);
    var c := k - j - a + bl;
    TimesAdd(k - j - a, bl, W);
    TimesAdd(k - j, -a, W);
    TimesAdd(k, -j, W);
    TimesNeg(a, W);
    TimesNeg(j, W);
    TimesUnit(W);
    TimesComm(W, a);
    TimesComm(W, bl);
    assert u == n - Times(q, l) + Times(c, W);
    TimesAtLeast(c, W);
  }

  /** Working modulo 2^256 is enough when x - q * l itself is below it. */
  lemma {:induction false} LowLimbsSuffice(x: seq<U32>, q: seq<U32>, u: seq<U32>, l: int, j: int, k: int)
    requires |x| >= |u| && |q| >= |u| && 0 <= k <= 1
    requires 0 <= Val(x) - Times(Val(q), l) < Weight(|u|)
    requires Val(u) == Val(x[..|u|]) - (Times(Val(q[..|u|]), l) + Times(j, Weight(|u|))) + (if k == 1 then Weight(|u|) else 0)
    ensures Val(u) == Val(x) - Times(Val(q), l)
  {
    hide *;
    ValBound(u);
    SplitAt(x, |u|);
    SplitAt(q, |u|);
    Regroup(Val(x), Val(q), Val(x[..|u|]), Val(q[..|u|]), l, Val(u), Val(x[|u|..]), Val(q[|u|..]), j, k, Weight(|u|));
  }

  /** The constant R is the reciprocal of L scaled by 2^512. */
  lemma {:induction false} Reciprocal(r: nat, W: nat)
    requires r == R && W == Weight(16)
    ensures W - L < Times(r, L) <= W && 2 * L <= Weight(8)
  {
    Weights();
    TimesIs(R, L);
  }

  /** The limbs above the 16th of x * R are the Barrett estimate of x / L. */
  lemma {:induction false} EstimateLimbs(x: seq<U32>, xr: seq<U32>, r: nat)
    requires |x| == 16 && |xr| >= 16 && r == R && Val(xr) == Times(r, Val(x))
    ensures Times(Val(xr[16..]), L) <= Val(x) < Times(Val(xr[16..]), L) + 2 * L
  {
    hide *;
    ValBound(x);
    SplitAt(xr, 16);
    ValBound(xr[..16]);
    TimesComm(r, Val(x));
    TimesComm(Weight(16), Val(xr[16..]));
    Reciprocal(r, Weight(16));
    EstimateBounds(Val(x), Val(xr[16..]), Val(xr[..16]), r, L, Weight(16));
  }

  /** The last conditional subtraction finishes the reduction. */
  lemma {:induction false} Remainder(x: nat, q: nat, l: nat, n: nat)
    requires l > 0 && n == x - Times(q, l) && n < 2 * l
    ensures x % l == if n >= l then n - l else n
  {
    hide Times;
    TimesAdd(q, 1, l);
    TimesUnit(l);
    TimesDivMod(x, l, if n >= l then q + 1 else q, if n >= l then n - l else n);
  }

  /** reduced = x mod L, for every 512-bit x. */
  method ModL(reduced: array<U8>, x: array<U32>)
    requires x.Length == 16 && reduced.Length == 32
    modifies reduced
    ensures ByteVal(reduced[..]) == old(Val(x[..])) % L
  {
    hide *;
    var r := TableR();
    var l := TableL();
    var xr := new U32[25](_ => 0);
    TimesR(xr, r, x);
    ghost var q := xr[16..];
    EstimateLimbs(x[..], xr[..], Val(r));
    Reciprocal(Val(r), Weight(16));
    assert xr[..][16..] == q && q[..8] == xr[16..24] && x[..][..8] == x[..8];
    ghost var j := TimesL(xr, l);
    ghost var k := Subtract(xr, x);
    LowLimbsSuffice(x[..], q, xr[..8], L, j, k);
    Remainder(Val(x[..]), Val(q), L, Val(xr[..8]));
    RemoveL(xr, xr);
    assert Val(xr[..8]) == old(Val(x[..])) % L;
    Store32BufVal(xr[..8]);
    var out := Store32Buf(xr[..8]);
    forall i | 0 <= i < 32 { reduced[i] := out[i]; }
    assert reduced[..] == out;
  }

  /** r = (a * b + c) mod L, for all 256-bit a, b and c. The output may overwrite an input. */
  method MulAdd(r: array<U8>, a: array<U8>, b: array<U8>, c: array<U8>)
    requires r.Length == a.Length == b.Length == c.Length == 32
    modifies r
    ensures ByteVal(r[..]) == old(ByteVal(a[..]) * ByteVal(b[..]) + ByteVal(c[..])) % L
  {
    hide Val, ByteVal;
    var al, bl, cl := Load32Buf(a[..]), Load32Buf(b[..]), Load32Buf(c[..]);
    var A := new U32[8](i requires 0 <= i < 8 => al[i]);
    var B := new U32[8](i requires 0 <= i < 8 => bl[i]);
    var p := new U32[16](i requires 0 <= i < 16 => if i < 8 then cl[i] else 0);
    assert A[..] == al && B[..] == bl && p[..8] == cl;
    Load32BufVal(a[..]);
    Load32BufVal(b[..]);
    Load32BufVal(c[..]);
    Multiply(p, A, B);
    ModL(r, p);
  }

  /** reduced = a 64-byte hash mod L. */
  method Reduce(reduced: array<U8>, expanded: seq<U8>)
    requires reduced.Length == 32 && |expanded| == 64
    modifies reduced
    ensures ByteVal(reduced[..]) == ByteVal(expanded) % L
  {
    var w := Load32Buf(expanded);
    var x := new U32[16](i requires 0 <= i < 16 => w[i]);
    assert x[..] == w;
    Load32BufVal(expanded);
    ModL(reduced, x);
  }
}
