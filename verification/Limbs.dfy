/** Little-endian multi-precision numbers: sequences of 32-bit limbs, and of bytes. */
module Limbs {
  import opened Nonlinear
  import opened Bits

  const BASE: nat := 0x1_0000_0000

  /** BASE to the k. */
  ghost function Weight(k: nat): (w: nat)
    ensures w > 0
  {
    if k == 0 then 1 else BASE * Weight(k - 1)
  }

  /** The number that limbs denote, least significant first. */
  ghost function Val(s: seq<U32>): (v: nat) {
    if s == [] then 0 else s[0] + BASE * Val(s[1..])
  }

  lemma {:induction false} TimesBase(a: int, b: int)
    ensures Times(BASE * a, b) == BASE * Times(a, b) && Times(a, BASE * b) == BASE * Times(a, b)
  {
    Assoc(BASE, a, b);
    Assoc(a, BASE, b);
  }

  lemma {:induction false} WeightAdd(a: nat, b: nat)
    ensures Weight(a + b) == Times(Weight(a), Weight(b))
  {
    hide Times;
    if a == 0 {
      TimesUnit(Weight(b));
    } else {
      WeightAdd(a - 1, b);
      TimesBase(Weight(a - 1), Weight(b));
    }
  }

  lemma {:induction false} WeightNext(k: nat)
    ensures Weight(k + 1) == BASE * Weight(k)
  {
  }

  lemma {:induction false} ValConcat(a: seq<U32>, b: seq<U32>)
    ensures Val(a + b) == Val(a) + Times(Weight(|a|), Val(b))
  {
    hide Times;
    if a == [] {
      assert a + b == b;
      TimesUnit(Val(b));
    } else {
      assert (a + b)[1..] == a[1..] + b;
      ValConcat(a[1..], b);
      TimesBase(Weight(|a| - 1), Val(b));
    }
  }

  lemma {:induction false} ValSnoc(a: seq<U32>, x: U32)
    ensures Val(a + [x]) == Val(a) + Times(Weight(|a|), x)
  {
    hide Times;
    ValConcat(a, [x]);
    assert Val([x]) == x + BASE * Val([]);
  }

  /** Extending a prefix by one limb. */
  lemma {:induction false} ValTakeNext(s: seq<U32>, k: nat)
    requires k < |s|
    ensures Val(s[..k + 1]) == Val(s[..k]) + Times(Weight(k), s[k])
  {
    hide Times;
    assert s[..k + 1] == s[..k] + [s[k]];
    ValSnoc(s[..k], s[k]);
  }

  lemma {:induction false} ValBound(s: seq<U32>)
    ensures Val(s) < Weight(|s|)
  {
    if s != [] {
      ValBound(s[1..]);
      assert BASE * Val(s[1..]) <= BASE * (Weight(|s| - 1) - 1);
    }
  }

  lemma {:induction false} SplitAt(s: seq<U32>, n: nat)
    requires n <= |s|
    ensures Val(s) == Val(s[..n]) + Times(Weight(n), Val(s[n..]))
  {
    hide Times;
    assert s == s[..n] + s[n..];
    ValConcat(s[..n], s[n..]);
  }

  lemma {:induction false} ValZeros(s: seq<U32>)
    requires forall i :: 0 <= i < |s| ==> s[i] == 0
    ensures Val(s) == 0
  {
    if s != [] { ValZeros(s[1..]); }
  }

  // ---- bytes ----

  /** The number that bytes denote, least significant first. */
  ghost function ByteVal(s: seq<U8>): (v: nat) {
    if s == [] then 0 else s[0] + 0x100 * ByteVal(s[1..])
  }

  /** Load one little-endian word. */
  function Load32(s: seq<U8>): (w: U32)
    requires |s| == 4
    ensures w == ByteVal(s)
  {
    var (a: int, b: int, c: int, d: int) := (s[0], s[1], s[2], s[3]);
    assert ByteVal(s) == a + 0x100 * (b + 0x100 * (c + 0x100 * d)) by {
      assert s[1..][1..] == s[2..] && s[2..][1..] == s[3..] && s[3..][1..] == [];
      assert ByteVal(s[1..]) == s[1] + 0x100 * ByteVal(s[2..]);
      assert ByteVal(s[2..]) == s[2] + 0x100 * ByteVal(s[3..]);
    }
    a + b * 0x100 + c * 0x1_0000 + d * 0x100_0000
  }

  /** Store one word, least significant byte first. */
  function Store32(w: U32): (s: seq<U8>)
    ensures |s| == 4 && Load32(s) == w
  {
    var w8 := w / 0x100;
    var w16 := w8 / 0x100;
    var w24 := w16 / 0x100;
    [w % 0x100, w8 % 0x100, w16 % 0x100, w24]
  }

  function Load32Buf(s: seq<U8>): (w: seq<U32>)
    requires |s| % 4 == 0
    ensures |w| == |s| / 4
  {
    if s == [] then [] else [Load32(s[..4])] + Load32Buf(s[4..])
  }

  function Store32Buf(w: seq<U32>): (s: seq<U8>)
    ensures |s| == 4 * |w|
  {
    if w == [] then [] else Store32(w[0]) + Store32Buf(w[1..])
  }

  lemma {:induction false} ByteValFour(s: seq<U8>)
    requires |s| >= 4
    ensures ByteVal(s) == Load32(s[..4]) + BASE * ByteVal(s[4..])
  {
    assert s[1..][1..] == s[2..] && s[2..][1..] == s[3..] && s[3..][1..] == s[4..];
    assert ByteVal(s[1..]) == s[1] + 0x100 * ByteVal(s[2..]);
    assert ByteVal(s[2..]) == s[2] + 0x100 * ByteVal(s[3..]);
    assert ByteVal(s[3..]) == s[3] + 0x100 * ByteVal(s[4..]);
  }

  /** Loading a buffer of words keeps the number. */
  lemma {:induction false} Load32BufVal(s: seq<U8>)
    requires |s| % 4 == 0
    ensures Val(Load32Buf(s)) == ByteVal(s)
  {
    hide ByteVal, Load32;
    if s == [] {
      NoBytes(s);
    } else {
      ByteValFour(s);
      Load32BufVal(s[4..]);
      assert Load32Buf(s)[1..] == Load32Buf(s[4..]);
    }
  }

  lemma {:induction false} NoBytes(s: seq<U8>)
    requires s == []
    ensures ByteVal(s) == 0
  {
  }

  /** Storing a buffer of words keeps the number. */
  lemma {:induction false} Store32BufVal(w: seq<U32>)
    ensures ByteVal(Store32Buf(w)) == Val(w)
  {
    hide ByteVal, Load32, Store32;
    var s := Store32Buf(w);
    if w == [] {
      NoBytes(s);
    } else {
      assert s[..4] == Store32(w[0]) && s[4..] == Store32Buf(w[1..]);
      ByteValFour(s);
      Store32BufVal(w[1..]);
    }
  }
}
