/** The hypotheses about the curve can be met: the residues modulo L satisfy all of them, with 1 as
    the base point. */
module Residues {
  import opened Bits
  import opened Comb
  import opened Eddsa
  import opened Group
  import opened Limbs
  import opened Nonlinear
  import opened SlidingWindow
  import opened Wrappers
  import ScalarModL

  type Residue = n: nat | n < ScalarModL.L witness 0

  function Reduced(n: int): Residue {
    n % ScalarModL.L
  }

  function Plus(a: Residue, b: Residue): Residue {
    var (x: int, y: int) := (a, b);
    Reduced(x + y)
  }

  function Minus(a: Residue): Residue {
    var x: int := a;
    Reduced(-x)
  }

  const Z: Group<Residue> := Group(Plus, Minus, 0)

  lemma {:induction false} ReducedAdd(a: int, b: int)
    ensures Reduced(Reduced(a) + b) == Reduced(a + b)
  {
    var (m, q) := (ScalarModL.L, a / ScalarModL.L);
    ModShift(a % m + b, q, m);
  }

  lemma {:induction false} ReducedNeg(a: int)
    ensures Minus(Reduced(a)) == Reduced(-a)
  {
    var (m, q) := (ScalarModL.L, a / ScalarModL.L);
    ModShift(-(a % m), -q, m);
  }

  lemma {:induction false} ReducedSelf(a: Residue)
    ensures Reduced(a) == a
  {
  }

  lemma {:induction false} PlusLaws(a: Residue, b: Residue, c: Residue)
    ensures Plus(a, b) == Plus(b, a) && Plus(Plus(a, b), c) == Plus(a, Plus(b, c)) && Plus(a, 0) == a && Plus(a, Minus(a)) == 0
  {
    hide Reduced;
    var (x: int, y: int, z: int) := (a, b, c);
    ReducedAdd(x + y, z);
    ReducedAdd(y + z, x);
    ReducedSelf(a);
    ReducedAdd(-x, x);
    ReducedSelf(0);
  }

  lemma {:induction false} Abelian()
    ensures IsAbelian(Z)
  {
    hide Plus, Minus;
    forall a: Residue, b: Residue ensures Plus(a, b) == Plus(b, a) { PlusLaws(a, b, 0); }
    forall a: Residue, b: Residue, c: Residue ensures Plus(Plus(a, b), c) == Plus(a, Plus(b, c)) { PlusLaws(a, b, c); }
    forall a: Residue ensures Plus(a, 0) == a && Plus(a, Minus(a)) == 0 { PlusLaws(a, 0, 0); }
  }

  /** [n]k is n * k, reduced. */
  lemma {:induction false} Multiples(n: int, k: Residue)
    ensures Smul(Z, n, k) == Reduced(Times(n, k))
    decreases if n < 0 then 1 - n else n
  {
    hide Reduced, Times;
    TimesUnit(k);
    ReducedSelf(0);
    if n > 0 {
      Multiples(n - 1, k);
      TimesAdd(n - 1, 1, k);
      ReducedAdd(Times(n - 1, k), k);
    } else if n < 0 {
      Multiples(-n, k);
      TimesNeg(n, k);
      ReducedNeg(Times(-n, k));
    }
  }

  /** A residue as 32 little-endian bytes. */
  function Laid(n: nat, k: nat): (s: seq<U8>)
    ensures |s| == k
  {
    if k == 0 then [] else [n % 0x100] + Laid(n / 0x100, k - 1)
  }

  lemma {:induction false} LaidValue(n: nat, k: nat)
    requires n < Pow2(8 * k)
    ensures ByteVal(Laid(n, k)) == n
  {
    if k > 0 {
      Pow2Values();
      Pow2Add(8, 8 * (k - 1));
      LaidValue(n / 0x100, k - 1);
      assert Laid(n, k)[1..] == Laid(n / 0x100, k - 1);
    }
  }

  lemma {:induction false} ResidueFits(n: Residue)
    ensures n < Pow2(8 * 32)
  {
    hide Pow2;
    PowersOfTwo();
    Pow2Add(128, 128);
  }

  lemma {:induction false} PowersOfTwo()
    ensures Pow2(128) == 0x1_0000_0000_0000_0000_0000_0000_0000_0000
  {
    hide Pow2;
    Pow2Values();
    Pow2Add(8, 8);
    Pow2Add(16, 16);
    Pow2Add(32, 32);
    Pow2Add(64, 64);
  }

  ghost function Read(s: seq<U8>): Option<Residue> {
    if |s| == 32 && ByteVal(s) < ScalarModL.L then Some(Minus(ByteVal(s))) else None
  }

  /** The window and the combs are what the hypotheses ask for. */
  ghost function Model(): Curve<Residue> {
    Curve(Z, 1,
      seq(8, k requires 0 <= k < 8 => Reduced(2 * k + 1)),
      seq(8, j requires 0 <= j < 8 => Reduced(Times(Entry(j), 1))),
      seq(8, j requires 0 <= j < 8 => Reduced(Times(Entry(j), Reduced(0x1_00000000_00000000_00000000_00000000)))),
      n => Laid(n, 32), Read)
  }

  lemma {:induction false} ReadBack(p: Residue)
    ensures |Laid(p, 32)| == 32 && Read(Laid(p, 32)) == Some(Minus(p))
  {
    ResidueFits(p);
    LaidValue(p, 32);
  }

  /** [n]1 is n. */
  lemma {:induction false} OfOne(n: int)
    ensures Smul(Z, n, 1) == Reduced(n)
  {
    hide Reduced;
    Multiples(n, 1);
    TimesIs(n, 1);
  }

  lemma {:induction false} ReducedZero(n: int)
    ensures Reduced(n) == 0 <==> n % ScalarModL.L == 0
  {
  }

  lemma {:induction false} TablesMet()
    ensures OddMultiples(Z, Model().bWindow, 1) && CombTable(Z, Model().combLow, 1)
    ensures CombTable(Z, Model().combHigh, Smul(Z, 0x1_00000000_00000000_00000000_00000000, 1))
  {
    hide Smul, Entry, Times, Reduced, Minus, Plus;
    forall n: int ensures Smul(Z, n, 1) == Reduced(n) { OfOne(n); }
    forall n: int, k: Residue ensures Smul(Z, n, k) == Reduced(Times(n, k)) { Multiples(n, k); }
  }

  /** All hypotheses hold of the residues, and 1 has order exactly L. */
  lemma {:induction false} HypothesesMet()
    ensures IsCurve(Model())
    ensures forall n: int :: Smul(Z, n, 1) == 0 <==> n % ScalarModL.L == 0
  {
    hide Laid, Read, Smul, IsAbelian, OddMultiples, CombTable, Reduced, Minus;
    Abelian();
    TablesMet();
    forall n: int ensures Smul(Z, n, 1) == 0 <==> n % ScalarModL.L == 0 {
      OfOne(n);
      ReducedZero(n);
    }
    forall p: Residue ensures |Laid(p, 32)| == 32 && Read(Laid(p, 32)) == Some(Minus(p)) { ReadBack(p); }
  }
}
