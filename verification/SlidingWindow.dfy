/** Sliding-window recoding of a scalar and the merged double-and-add ladder that verifies an
    Ed25519 signature. */
module SlidingWindow {
  import opened Bits
  import opened Group
  import opened Limbs
  import opened Nonlinear
  import opened Wrappers
  import ScalarModL

  // ---- bits of a scalar ----

  /** n shifted right by k. */
  ghost function Shr(n: nat, k: nat): nat {
    if k == 0 then n else Shr(n, k - 1) / 2
  }

  /** Bit i of n, and 0 for the position below the lowest bit. */
  ghost function Bit(n: nat, i: int): nat {
    if i < 0 then 0 else Shr(n, i) % 2
  }

  lemma {:induction false} ShrStep(n: nat, k: nat)
    ensures Shr(n, k) == 2 * Shr(n, k + 1) + Bit(n, k)
    ensures Shr(n, 0) == n && 0 <= Bit(n, k) <= 1
  {
  }

  lemma {:induction false} ShrShr(n: nat, j: nat, k: nat)
    ensures Shr(n, j + k) == Shr(Shr(n, j), k)
  {
    if k > 0 { ShrShr(n, j, k - 1); }
  }

  lemma {:induction false} ShrBytes(s: seq<U8>, k: nat)
    requires k < |s|
    ensures Shr(ByteVal(s), 8 * k) == ByteVal(s[k..])
  {
    if k == 0 {
      assert s[0..] == s;
    } else {
      ShrBytes(s, k - 1);
      var n := ByteVal(s[k - 1..]);
      assert s[k - 1..][1..] == s[k..];
      ShrShr(ByteVal(s), 8 * (k - 1), 8);
      ShrByte(s[k - 1], ByteVal(s[k..]));
    }
  }

  /** Shifting a byte out. */
  lemma {:induction false} ShrByte(b: U8, rest: nat)
    ensures Shr(b + 0x100 * rest, 8) == rest
  {
    var n := b + 0x100 * rest;
    ShrStep(n, 0); ShrStep(n, 1); ShrStep(n, 2); ShrStep(n, 3);
    ShrStep(n, 4); ShrStep(n, 5); ShrStep(n, 6); ShrStep(n, 7);
  }

  lemma {:induction false} ShrLowByte(b: U8, rest: nat, k: nat)
    requires k <= 8
    ensures Pow2(8 - k) * rest == Shr(b + 0x100 * rest, k) - Shr(b, k)
  {
    if k == 0 {
      Pow2Values();
    } else {
      ShrLowByte(b, rest, k - 1);
      Assoc(2, Pow2(8 - k), rest);
    }
  }

  /** Bit i of a byte string, as the source reads it; position -1 is allowed. */
  function ScalarBit(s: seq<U8>, i: int): (b: int)
    requires i < 8 * |s|
    ensures b == Bit(ByteVal(s), i)
  {
    if i < 0 then 0
    else
      assert (s[i / 8] / Pow2(i % 8)) % 2 == Bit(ByteVal(s), i) by {
        BitOfByte(s, i);
      }
      (s[i / 8] / Pow2(i % 8)) % 2
  }

  lemma {:induction false} DivTwice(n: nat, m: nat)
    requires m > 0
    ensures n / m / 2 == n / (2 * m)
  {
    var q, r := n / m, n % m;
    assert q * m == (2 * m) * (q / 2) + (q % 2) * m by {
      Distribute(2 * (q / 2), q % 2, m);
      Assoc(2, m, q / 2);
    }
    MulBound(q % 2, m, 1, m);
    DivModUnique(n, 2 * m, q / 2, (q % 2) * m + r);
  }

  lemma {:induction false} ShrIsDiv(n: nat, k: nat)
    ensures Shr(n, k) == n / Pow2(k)
  {
    if k > 0 {
      ShrIsDiv(n, k - 1);
      DivTwice(n, Pow2(k - 1));
    }
  }

  lemma {:induction false} BitOfByte(s: seq<U8>, i: nat)
    requires i < 8 * |s|
    ensures (s[i / 8] / Pow2(i % 8)) % 2 == Bit(ByteVal(s), i)
  {
    hide ByteVal, Shr, Pow2;
    var k, j := i / 8, i % 8;
    ShrBytes(s, k);
    ShrShr(ByteVal(s), 8 * k, j);
    HeadByte(s, k);
    LowByteParity(s[k], ByteVal(s[k + 1..]), j);
    ShrIsDiv(s[k], j);
  }

  lemma {:induction false} HeadByte(s: seq<U8>, k: nat)
    requires k < |s|
    ensures ByteVal(s[k..]) == s[k] + 0x100 * ByteVal(s[k + 1..])
  {
    assert s[k..][1..] == s[k + 1..];
  }

  lemma {:induction false} LowByteParity(b: U8, rest: nat, k: nat)
    requires k < 8
    ensures Shr(b + 0x100 * rest, k) % 2 == Shr(b, k) % 2
  {
    hide Shr;
    ShrLowByte(b, rest, k);
    Assoc(2, Pow2(7 - k), rest);
  }

  // ---- lowest set bit ----

  lemma {:induction false} AndNot(a: int)
    ensures And(a, -a - 1) == 0
    decreases Abs(a)
  {
    if a != 0 && a != -1 {
      assert (-a - 1) / 2 == -(a / 2) - 1;
      AndNot(a / 2);
    }
  }

  /** `v & (~v + 1)` is the largest power of two that divides v. */
  lemma {:induction false} LowestBit(v: int) returns (s: nat, odd: int)
    requires v != 0
    ensures And(v, -v) == Pow2(s) && v == Pow2(s) * odd && odd % 2 == 1
    decreases Abs(v)
  {
    if v % 2 == 1 {
      s, odd := 0, v;
      if v != -1 {
        assert (-v) / 2 == -(v / 2) - 1;
        AndNot(v / 2);
      }
    } else {
      assert (-v) / 2 == -(v / 2);
      s, odd := LowestBit(v / 2);
      s := s + 1;
      Assoc(2, Pow2(s - 1), odd);
    }
  }

  /** The three masks of the logarithm, on the powers of two below 32. */
  lemma {:induction false} MaskTable()
    ensures And(1, 0xAA) == 0 && And(2, 0xAA) == 2 && And(4, 0xAA) == 0 && And(8, 0xAA) == 8 && And(16, 0xAA) == 0
    ensures And(1, 0xCC) == 0 && And(2, 0xCC) == 0 && And(4, 0xCC) == 4 && And(8, 0xCC) == 8 && And(16, 0xCC) == 0
    ensures And(1, 0xF0) == 0 && And(2, 0xF0) == 0 && And(4, 0xF0) == 0 && And(8, 0xF0) == 0 && And(16, 0xF0) == 16
  {
    hide And;
    MaskAA();
    MaskCC();
    MaskF0();
  }

  lemma {:induction false} MaskAA()
    ensures And(1, 0xAA) == 0 && And(2, 0xAA) == 2 && And(4, 0xAA) == 0 && And(8, 0xAA) == 8 && And(16, 0xAA) == 0
  {
  }

  lemma {:induction false} MaskCC()
    ensures And(1, 0xCC) == 0 && And(2, 0xCC) == 0 && And(4, 0xCC) == 4 && And(8, 0xCC) == 8 && And(16, 0xCC) == 0
  {
  }

  lemma {:induction false} MaskF0()
    ensures And(1, 0xF0) == 0 && And(2, 0xF0) == 0 && And(4, 0xF0) == 0 && And(8, 0xF0) == 0 && And(16, 0xF0) == 16
  {
  }

  /** The position of the lowest set bit and the odd digit above it. */
  method SplitDigit(v: int) returns (s: nat, digit: int)
    requires v != 0 && -16 <= v <= 16
    ensures v == Pow2(s) * digit && digit % 2 == 1 && s <= 4 && -16 < digit < 16
    ensures Pow2(s) <= Abs(v)
  {
    hide And, Pow2;
    var lsb := And(v, -v);                    // v & (~v + 1)
    ghost var k, odd := LowestBit(v);
    PowBelow(k, odd, v);
    MaskTable();
    s := (if And(lsb, 0xAA) != 0 then 1 else 0)
       + (if And(lsb, 0xCC) != 0 then 2 else 0)
       + (if And(lsb, 0xF0) != 0 then 4 else 0);
    assert s == k;
    digit := v / Pow2(s);
    DivModUnique(v, Pow2(s), odd, 0);
  }

  lemma {:induction false} LargePow(k: nat)
    requires k >= 5
    ensures Pow2(k) >= 32
  {
    if k == 5 { assert Pow2(5) == 32; } else { LargePow(k - 1); }
  }

  lemma {:induction false} SmallPow(k: nat)
    requires k <= 4
    ensures Pow2(k) == [1, 2, 4, 8, 16][k]
  {
    assert Pow2(0) == 1 && Pow2(1) == 2 && Pow2(2) == 4 && Pow2(3) == 8 && Pow2(4) == 16;
  }

  /** A power of two that divides a small number is small. */
  lemma {:induction false} PowBelow(k: nat, odd: int, v: int)
    requires v == Pow2(k) * odd && odd % 2 == 1 && -16 <= v <= 16
    ensures k <= 4 && Pow2(k) == [1, 2, 4, 8, 16][k] && Pow2(k) <= Abs(v) && -16 < odd < 16
  {
    hide Pow2;
    MulAtLeast(odd, Pow2(k));
    MulAtLeast(Pow2(k), Abs(odd));
    assert Abs(v) == Pow2(k) * Abs(odd);
    if k >= 5 { LargePow(k); } else { SmallPow(k); }
  }

  // ---- the recoding ----

  /** What the digits at positions above c must add up to, in units of 2^(c + 1): the bits above
      c, rounded up when bit c is set. */
  ghost function Carried(n: nat, c: int): nat
    requires c >= -1
  {
    Shr(n, c + 1) + Bit(n, c)
  }

  /** The recoding invariant before position i is visited: the digits emitted so far (acc, in
      units of 2^(i + 1)) and the one that waits at position idx make up Carried(n, c). */
  ghost predicate Recoding(n: nat, c: int, idx: int, digit: int, i: int, acc: int) {
    && -1 <= c <= i <= 253
    && (0 <= idx <= i ==> c < idx)
    && Times(Pow2(i + 1), acc) + (if 0 <= idx <= i then Times(Pow2(idx), digit) else 0) == Times(Pow2(c + 1), Carried(n, c))
  }

  /** A digit is zero or odd, and below half of its window. */
  predicate ValidDigit(digit: int, width: nat) {
    width >= 1 && (digit == 0 || (digit % 2 == 1 && Abs(digit) < Pow2(width - 1)))
  }

  lemma {:induction false} CarriedStart(n: nat, c: nat)
    requires Shr(n, c) == 0
    ensures Carried(n, c) == 0
  {
    ShrStep(n, c);
  }

  /** Two equal bits need no digit. */
  lemma {:induction false} CarriedSkip(n: nat, c: nat)
    requires Bit(n, c) == Bit(n, c - 1)
    ensures Times(Pow2(c), Carried(n, c - 1)) == Times(Pow2(c + 1), Carried(n, c))
  {
    ShrStep(n, c);
    Assoc(2, Pow2(c), Carried(n, c));
  }

  /** The window value v moves the carried number w positions down. */
  lemma {:induction false} CarriedWindow(n: nat, c: nat, w: nat, v: int)
    requires 1 <= w <= c + 1 && Carried(n, c - w) == Times(Pow2(w), Carried(n, c)) + v
    ensures Times(Pow2(c - w + 1), Carried(n, c - w)) == Times(Pow2(c + 1), Carried(n, c)) + Times(Pow2(c - w + 1), v)
  {
    hide Times, Carried;
    Pow2Add(c - w + 1, w);
    TimesIs(Pow2(c - w + 1), Pow2(w));
    TimesAdd(Times(Pow2(w), Carried(n, c)), v, Pow2(c - w + 1));
    TimesAssoc(Pow2(c - w + 1), Pow2(w), Carried(n, c));
  }

  /** Visiting position i: a digit that waits there is emitted. */
  lemma {:induction false} Emit(n: nat, c: int, idx: int, digit: int, i: nat, acc: int)
    requires Recoding(n, c, idx, digit, i, acc) && c < i
    ensures Recoding(n, c, idx, digit, i - 1, 2 * acc + (if idx == i then digit else 0))
  {
    hide Times, Carried;
    var d := if idx == i then digit else 0;
    TimesAdd(2 * acc, d, Pow2(i));
    TimesTwo(Pow2(i), acc);
    TimesUnit(Pow2(i));
  }

  lemma {:induction false} TimesTwo(a: int, b: int)
    ensures Times(a, 2 * b) == Times(2 * a, b)
  {
    Assoc(2, a, b);
  }

  class SlideCtx {
    var nextIndex: int    // where the waiting digit goes
    var nextDigit: int    // the digit that waits
    var nextCheck: U8     // where the search for a window resumes

    /** nextCheck as a position: it wraps once the lowest bit has been consumed. */
    ghost function Check(): int
      reads this
    {
      if nextCheck == 0xff then -1 else nextCheck
    }

    /** The recoding of n is on its way down to position i. */
    ghost predicate Valid(n: nat, i: int, acc: int, width: nat)
      reads this
    {
      && width >= 1 && nextCheck != 0xfe
      && Recoding(n, Check(), nextIndex, nextDigit, i, acc)
      && (0 <= nextIndex <= i ==> ValidDigit(nextDigit, width))
    }

    /** Start above the highest set bit of a scalar below 2^253. */
    constructor (scalar: seq<U8>, width: nat)
      requires |scalar| == 32 && Shr(ByteVal(scalar), 253) == 0 && width >= 1
      ensures 1 <= nextCheck <= 253
      ensures forall i :: nextCheck as int <= i < 254 ==> Valid(ByteVal(scalar), i, 0, width)
    {
      var i := 252;
      while i > 0 && ScalarBit(scalar, i) == 0
        invariant 0 <= i <= 252
        invariant Shr(ByteVal(scalar), i + 1) == 0
      {
        ShrStep(ByteVal(scalar), i);
        i := i - 1;
      }
      nextCheck := i + 1;
      nextIndex := -1;
      nextDigit := -1;
      new;
      CarriedStart(ByteVal(scalar), i + 1);
      forall k: int | nextCheck as int <= k < 254 ensures Valid(ByteVal(scalar), k, 0, width) {
        TimesUnit(Pow2(k + 1));
        TimesUnit(Pow2(i + 2));
      }
    }

    /** Once every position has been visited the digits make up the scalar. */
    lemma {:induction false} End(n: nat, acc: int, width: nat)
      requires Valid(n, -1, acc, width)
      ensures acc == n
    {
      TimesUnit(acc);
      TimesUnit(Carried(n, Check()));
    }

    /** Take the window below position i, and leave its digit waiting. */
    method TakeWindow(width: nat, i: nat, scalar: seq<U8>, ghost acc: int)
      requires |scalar| == 32 && i <= 253 && 2 <= width <= 5 && i == nextCheck
      requires Valid(ByteVal(scalar), i, acc, width)
      requires Bit(ByteVal(scalar), i) != Bit(ByteVal(scalar), i - 1)
      modifies this
      ensures Valid(ByteVal(scalar), i, acc, width) && Check() < i
    {
      hide Times, ByteVal, Shr, Bit, Carried, Pow2, ScalarBit, ValidDigit;
      var w := if width < i + 1 then width else i + 1;
      var v := Window(scalar, i, w);
      var s, d := SplitDigit(v);
      nextIndex := i - (w - 1) + s;
      nextDigit := d;
      nextCheck := (nextCheck + 0x100 - w) % 0x100;
      NewWindow(ByteVal(scalar), i, w, width, v, s, d, acc);
    }

    /** The digit at position i; visiting every position downwards recodes the scalar. */
    method Step(width: nat, i: nat, scalar: seq<U8>, ghost acc: int) returns (digit: int)
      requires |scalar| == 32 && i <= 253 && 2 <= width <= 5
      requires Valid(ByteVal(scalar), i, acc, width)
      modifies this
      ensures ValidDigit(digit, width)
      ensures Valid(ByteVal(scalar), i - 1, 2 * acc + digit, width)
    {
      hide Times, ByteVal, Shr, Bit, Carried, Pow2, ScalarBit;
      ghost var n := ByteVal(scalar);
      if i == nextCheck {
        if ScalarBit(scalar, i) == ScalarBit(scalar, i - 1) {
          CarriedSkip(n, i);
          nextCheck := (nextCheck + 0xff) % 0x100;      // nextCheck--
        } else {
          TakeWindow(width, i, scalar, acc);
        }
      }
      Emit(n, Check(), nextIndex, nextDigit, i, acc);
      digit := if i == nextIndex then nextDigit else 0;
    }
  }

  /** The bits k to k + j - 1 as a number. */
  lemma {:induction false} ShrRange(n: nat, k: nat, j: nat)
    ensures 0 <= Shr(n, k) - Times(Pow2(j), Shr(n, k + j)) < Pow2(j)
  {
    hide Times, Shr, Bit;
    if j == 0 {
      TimesUnit(Shr(n, k));
    } else {
      ShrRange(n, k, j - 1);
      WindowBit(n, k + (j - 1), j - 1);
    }
  }

  /** Splitting one bit off a shifted number. */
  lemma {:induction false} WindowBit(n: nat, i: nat, j: nat)
    ensures Times(Pow2(j), Shr(n, i)) == Times(Pow2(j + 1), Shr(n, i + 1)) + (if Bit(n, i) == 1 then Pow2(j) else 0)
  {
    hide Times, Shr, Bit;
    ShrStep(n, i);
    TimesAdd(2 * Shr(n, i + 1), Bit(n, i), Pow2(j));
    TimesTwo(Pow2(j), Shr(n, i + 1));
    TimesUnit(Pow2(j));
  }

  /** The value of the window of width w whose top bit is bit i, plus the carry from below. */
  method Window(scalar: seq<U8>, i: nat, w: nat) returns (v: int)
    requires |scalar| == 32 && i <= 253 && 1 <= w <= i + 1 && w <= 5
    requires Bit(ByteVal(scalar), i) != Bit(ByteVal(scalar), i - 1)
    ensures Carried(ByteVal(scalar), i - w) == Times(Pow2(w), Carried(ByteVal(scalar), i)) + v
    ensures v != 0 && Abs(v) <= Pow2(w - 1) && -16 <= v <= 16
  {
    hide Times, ByteVal, Shr, Bit, ScalarBit, Carried;
    ghost var n := ByteVal(scalar);
    v := -ScalarBit(scalar, i) * Pow2(w - 1);
    var k := i - (w - 1);
    ghost var top := v;
    assert top == if Bit(n, i) == 1 then -(Pow2(w - 1) as int) else 0 by { ShrStep(n, i); }
    TimesUnit(Shr(n, k));
    for j := 0 to w - 1
      invariant v == top + Shr(n, k) - Times(Pow2(j), Shr(n, k + j))
    {
      ShrStep(n, k + j);
      WindowBit(n, k + j, j);
      v := v + ScalarBit(scalar, k + j) * Pow2(j);
    }
    v := v + ScalarBit(scalar, i - w);
    WindowValue(n, i, w, v, top);
    assert Pow2(w - 1) <= 16 by { SmallPow(w - 1); }
  }

  lemma {:induction false} WindowValue(n: nat, i: nat, w: nat, v: int, top: int)
    requires 1 <= w <= i + 1 && Bit(n, i) != Bit(n, i - 1)
    requires top == if Bit(n, i) == 1 then -(Pow2(w - 1) as int) else 0
    requires v == top + Shr(n, i - (w - 1)) - Times(Pow2(w - 1), Shr(n, i)) + Bit(n, i - w)
    ensures Carried(n, i - w) == Times(Pow2(w), Carried(n, i)) + v
    ensures v != 0 && Abs(v) <= Pow2(w - 1)
  {
    hide Times, Shr;
    WindowBit(n, i, w - 1);
    TimesAdd(Shr(n, i + 1), Bit(n, i), Pow2(w));
    TimesUnit(Pow2(w));
    if w >= 2 {
      ShrRange(n, i - (w - 1), w - 2);
      WindowBit(n, i - 1, w - 2);
    } else {
      TimesUnit(Shr(n, i));
    }
  }

  /** The digit and the position that a window leaves behind. */
  lemma {:induction false} NewWindow(n: nat, i: nat, w: nat, width: nat, v: int, s: nat, d: int, acc: int)
    requires 1 <= w <= i + 1 && w <= width <= 5 && 2 <= width && i <= 253
    requires Times(Pow2(i + 1), acc) == Times(Pow2(i + 1), Carried(n, i))
    requires Carried(n, i - w) == Times(Pow2(w), Carried(n, i)) + v && v != 0 && Abs(v) <= Pow2(w - 1)
    requires v == Pow2(s) * d && d % 2 == 1 && s <= 4 && Pow2(s) <= Abs(v)
    ensures Recoding(n, i - w, i - (w - 1) + s, d, i, acc) && ValidDigit(d, width) && s <= w - 1
  {
    hide Times, Carried;
    CarriedWindow(n, i, w, v);
    TimesIs(Pow2(s), d);
    TimesAssoc(Pow2(i - w + 1), Pow2(s), d);
    TimesIs(Pow2(i - w + 1), Pow2(s));
    Pow2Add(i - w + 1, s);
    DigitBound(w, width, v, s, d);
  }

  lemma {:induction false} DigitBound(w: nat, width: nat, v: int, s: nat, d: int)
    requires 1 <= w <= width <= 5 && 2 <= width
    requires v == Pow2(s) * d && d % 2 == 1 && s <= 4 && Pow2(s) <= Abs(v)
    requires Abs(v) <= Pow2(w - 1)
    ensures ValidDigit(d, width) && s <= w - 1
  {
    SmallPow(w - 1);
    SmallPow(s);
    SmallPow(width - 1);
    assert w - 1 in [0, 1, 2, 3, 4] && s in [0, 1, 2, 3, 4];
  }

  // ---- the ladder ----

  /** Tables of odd multiples: entry k holds [2k + 1]p. */
  ghost predicate OddMultiples<G>(g: Group<G>, table: seq<G>, p: G) {
    forall k :: 0 <= k < |table| ==> table[k] == Smul(g, 2 * k + 1, p)
  }

  /** sum plus [digit]p through a table of odd multiples; every index is in range. */
  method AddDigit<G(!new)>(g: Group<G>, sum: G, digit: int, table: seq<G>, ghost p: G) returns (r: G)
    requires IsAbelian(g) && OddMultiples(g, table, p)
    requires digit == 0 || (digit % 2 == 1 && -2 * |table| < digit < 2 * |table|)
    ensures r == g.add(sum, Smul(g, digit, p))
  {
    hide IsAbelian;
    r := sum;
    if digit > 0 { r := g.add(sum, table[digit / 2]); }
    if digit < 0 {
      r := g.add(sum, g.neg(table[-digit / 2]));
      SmulNeg(g, -digit, p);
    }
    if digit == 0 { Zero(g, sum); SmulOne(g, p); }
  }

  /** Doubling and adding a digit turns [a]p into [2a + d]p. */
  lemma {:induction false} DoubleAndAdd<G(!new)>(g: Group<G>, a: int, d: int, p: G)
    requires IsAbelian(g)
    ensures g.add(g.add(Smul(g, a, p), Smul(g, a, p)), Smul(g, d, p)) == Smul(g, 2 * a + d, p)
  {
    hide IsAbelian, Smul;
    SmulAdd(g, a, a, p);
    SmulAdd(g, 2 * a, d, p);
  }

  /** One iteration of the merged ladder. */
  lemma {:induction false} LadderStep<G(!new)>(g: Group<G>, sum: G, a: int, d: int, p: G, b: int, e: int, q: G)
    requires IsAbelian(g)
    requires sum == g.add(Smul(g, a, p), Smul(g, b, q))
    ensures g.add(g.add(g.add(sum, sum), Smul(g, d, p)), Smul(g, e, q))
         == g.add(Smul(g, 2 * a + d, p), Smul(g, 2 * b + e, q))
  {
    hide IsAbelian, Smul;
    var x, y, dp, eq := Smul(g, a, p), Smul(g, b, q), Smul(g, d, p), Smul(g, e, q);
    Exchange(g, x, y, x, y);
    AddAssoc(g, g.add(g.add(x, x), g.add(y, y)), dp, eq);
    Exchange(g, g.add(x, x), g.add(y, y), dp, eq);
    DoubleAndAdd(g, a, d, p);
    DoubleAndAdd(g, b, e, q);
  }

  /** A scalar below L has no bit at or above position 253. */
  lemma {:induction false} BelowL(n: nat)
    requires n < ScalarModL.L
    ensures Shr(n, 253) == 0
  {
    ShrIsDiv(n, 253);
    Pow253();
  }

  lemma {:induction false} Pow253()
    ensures Pow2(253) == 0x20000000_00000000_00000000_00000000_00000000_00000000_00000000_00000000
  {
    hide *;
    Pow2Values();
    Pow2Add(32, 32);
    Pow2Add(64, 64);
    Pow2Add(128, 64);
    Pow2Add(192, 32);
    Pow2Add(224, 16);
    Pow2Add(240, 8);
    Pow2Add(248, 4);
    Pow2Add(252, 1);
    SmallPow(4);
    SmallPow(1);
  }

  lemma {:induction false} DigitRange(digit: int)
    ensures ValidDigit(digit, 3) ==> digit == 0 || (digit % 2 == 1 && -4 < digit < 4)
    ensures ValidDigit(digit, 5) ==> digit == 0 || (digit % 2 == 1 && -16 < digit < 16)
  {
    SmallPow(2);
    SmallPow(4);
  }

  /** The two digits of one iteration of the merged ladder. */
  method Digits(hSlide: SlideCtx, sSlide: SlideCtx, i: nat, h: seq<U8>, s: seq<U8>, ghost a: int, ghost b: int)
    returns (hDigit: int, sDigit: int)
    requires |h| == |s| == 32 && i <= 253 && hSlide != sSlide
    requires hSlide.Valid(ByteVal(h), i, a, 3) && sSlide.Valid(ByteVal(s), i, b, 5)
    modifies hSlide, sSlide
    ensures hSlide.Valid(ByteVal(h), i - 1, 2 * a + hDigit, 3) && sSlide.Valid(ByteVal(s), i - 1, 2 * b + sDigit, 5)
    ensures hDigit == 0 || (hDigit % 2 == 1 && -4 < hDigit < 4)
    ensures sDigit == 0 || (sDigit % 2 == 1 && -16 < sDigit < 16)
  {
    hide Recoding, ByteVal, Pow2, ValidDigit, Shr;
    hDigit := hSlide.Step(3, i, h, a);
    sDigit := sSlide.Step(5, i, s, b);
    DigitRange(hDigit);
    DigitRange(sDigit);
  }

  /** The merged ladder: for all h and s below L it returns exactly [s]B + [h](-A). */
  method Ladder<G(!new)>(g: Group<G>, minusA: G, B: G, bWindow: seq<G>, h: seq<U8>, s: seq<U8>) returns (sum: G)
    requires IsAbelian(g) && |bWindow| == 8 && OddMultiples(g, bWindow, B)
    requires |h| == |s| == 32 && ByteVal(h) < ScalarModL.L && ByteVal(s) < ScalarModL.L
    ensures sum == g.add(Smul(g, ByteVal(s), B), Smul(g, ByteVal(h), minusA))
  {
    hide *;
    // the odd multiples of -A
    var minusA2 := g.add(minusA, minusA);
    var lutA := [minusA, g.add(minusA2, minusA)];
    LutA(g, minusA);
    BelowL(ByteVal(h));
    BelowL(ByteVal(s));
    var hSlide := new SlideCtx(h, 3);
    var sSlide := new SlideCtx(s, 5);
    var i: int := if hSlide.nextCheck > sSlide.nextCheck then hSlide.nextCheck else sSlide.nextCheck;
    sum := g.zero;
    ghost var a, b := 0, 0;
    SmulOne(g, minusA);
    SmulOne(g, B);
    Zero(g, g.zero);
    while i >= 0
      invariant -1 <= i <= 253
      invariant hSlide.Valid(ByteVal(h), i, a, 3) && sSlide.Valid(ByteVal(s), i, b, 5)
      invariant sum == g.add(Smul(g, a, minusA), Smul(g, b, B))
    {
      ghost var start := sum;
      sum := g.add(sum, sum);
      var hDigit, sDigit := Digits(hSlide, sSlide, i, h, s, a, b);
      LadderStep(g, start, a, hDigit, minusA, b, sDigit, B);
      sum := AddDigit(g, sum, hDigit, lutA, minusA);
      sum := AddDigit(g, sum, sDigit, bWindow, B);
      a, b := 2 * a + hDigit, 2 * b + sDigit;
      i := i - 1;
    }
    hSlide.End(ByteVal(h), a, 3);
    sSlide.End(ByteVal(s), b, 5);
    Comm(g, Smul(g, a, minusA), Smul(g, b, B));
  }

  lemma {:induction false} LutA<G(!new)>(g: Group<G>, p: G)
    requires IsAbelian(g)
    ensures OddMultiples(g, [p, g.add(g.add(p, p), p)], p)
  {
    hide IsAbelian;
    SmulOne(g, p);
    SmulNext(g, 1, p);
    SmulNext(g, 2, p);
  }

  /** The verification equation: 0 exactly when A and R decode, S is below L, and
      [8]([S]B - [h]A - R) is the neutral element. `decodeNeg` is the point decoder that also
      negates; comparing with the neutral element stands for comparing encodings. */
  method CheckEquation<G(!new, ==)>(g: Group<G>, B: G, bWindow: seq<G>, decodeNeg: seq<U8> -> Option<G>,
                                    signature: seq<U8>, publicKey: seq<U8>, h: seq<U8>) returns (rc: int)
    requires IsAbelian(g) && |bWindow| == 8 && OddMultiples(g, bWindow, B)
    requires |signature| == 64 && |publicKey| == 32 && |h| == 32 && ByteVal(h) < ScalarModL.L
    ensures rc == 0 || rc == -1
    ensures rc == 0 <==>
      && decodeNeg(publicKey).Some? && decodeNeg(signature[..32]).Some?
      && ByteVal(signature[32..]) < ScalarModL.L
      && Smul(g, 8, g.add(g.add(Smul(g, ByteVal(signature[32..]), B), Smul(g, ByteVal(h), decodeNeg(publicKey).value)),
                          decodeNeg(signature[..32]).value)) == g.zero
  {
    hide IsAbelian, Smul, OddMultiples;
    var s := signature[32..];
    var minusA, minusR := decodeNeg(publicKey), decodeNeg(signature[..32]);
    var limbs := Load32Buf(s);
    var s32 := new U32[8](i requires 0 <= i < 8 => limbs[i]);
    assert s32[..8] == limbs;
    Load32BufVal(s);
    var above := ScalarModL.IsAboveL(s32);
    if minusA.None? || minusR.None? || above {
      return -1;
    }
    var sum := Ladder(g, minusA.value, B, bWindow, h, s);
    sum := g.add(sum, minusR.value);
    Times8(g, sum);
    sum := g.add(sum, sum);
    sum := g.add(sum, sum);
    sum := g.add(sum, sum);
    rc := if sum == g.zero then 0 else -1;
  }

  lemma {:induction false} Times8<G(!new)>(g: Group<G>, p: G)
    requires IsAbelian(g)
    ensures g.add(g.add(g.add(p, p), g.add(p, p)), g.add(g.add(p, p), g.add(p, p))) == Smul(g, 8, p)
  {
    hide IsAbelian, Smul;
    SmulOne(g, p);
    SmulAdd(g, 1, 1, p);
    SmulAdd(g, 2, 2, p);
    SmulAdd(g, 4, 4, p);
  }
}
