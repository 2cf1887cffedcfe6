/** Fixed-width machine words and the bitwise operators the C sources use on them.

    Words are subset types of `int`, so assigning to one carries the obligation that the C
    expression does not leave the range of its type; where the C relies on wrap-around or
    truncation the model writes the reduction out. Bitwise operators are recursive functions
    on the binary digits of the two's complement representation, which is infinite to the
    left, so they agree with the C operators at every width that holds the operands. */
module Bits {
  import opened Nonlinear

  type U8 = x: int | 0 <= x < 0x100
  type U32 = x: int | 0 <= x < 0x1_0000_0000
  type U64 = x: int | 0 <= x < 0x1_0000_0000_0000_0000
  type I32 = x: int | -0x8000_0000 <= x < 0x8000_0000
  type I64 = x: int | -0x8000_0000_0000_0000 <= x < 0x8000_0000_0000_0000

  function Pow2(k: nat): (p: nat)
    ensures p > 0
  {
    if k == 0 then 1 else 2 * Pow2(k - 1)
  }

  lemma {:induction false} Pow2Add(a: nat, b: nat)
    ensures Pow2(a + b) == Pow2(a) * Pow2(b)
  {
    if a > 0 {
      Pow2Add(a - 1, b);
      Assoc(2, Pow2(a - 1), Pow2(b));
    }
  }

  function Abs(x: int): nat {
    if x < 0 then -x else x
  }

  /** The operator `&` on two's complement integers. */
  function And(x: int, y: int): (r: int)
    decreases Abs(x)
  {
    if x == 0 then 0
    else if x == -1 then y
    else (if x % 2 == 1 && y % 2 == 1 then 1 else 0) + 2 * And(x / 2, y / 2)
  }

  /** The operator `|` on unsigned words. */
  function Or(x: nat, y: nat): (r: nat) {
    if x == 0 then y
    else (if x % 2 == 1 || y % 2 == 1 then 1 else 0) + 2 * Or(x / 2, y / 2)
  }

  /** The operator `^` on two's complement integers. */
  function Xor(x: int, y: int): (r: int)
    decreases Abs(x)
  {
    if x == 0 then y
    else if x == -1 then -y - 1
    else (if x % 2 == y % 2 then 0 else 1) + 2 * Xor(x / 2, y / 2)
  }

  /** Masking with k ones keeps the low k bits. */
  lemma {:induction false} AndLowMask(x: int, k: nat)
    ensures And(x, Pow2(k) - 1) == x % Pow2(k)
    decreases k, Abs(x)
  {
    if k == 0 {
      AndNothing(x);
    } else if x == -1 {
      AllOnes(Pow2(k));
    } else if x != 0 {
      AndLowMask(x / 2, k - 1);
      OddMask(Pow2(k - 1));
      HalveMod(x, Pow2(k - 1));
    }
  }

  lemma {:induction false} AndNothing(x: int)
    ensures And(x, 0) == 0
    decreases Abs(x)
  {
    if x != 0 && x != -1 { AndNothing(x / 2); }
  }

  lemma {:induction false} AllOnes(m: nat)
    requires m > 0
    ensures -1 % m == m - 1
  {
    DivModUnique(-1, m, -1, m - 1);
  }

  lemma {:induction false} OddMask(m: nat)
    requires m > 0
    ensures (2 * m - 1) % 2 == 1 && (2 * m - 1) / 2 == m - 1
  {
  }

  lemma {:induction false} Pow2Values()
    ensures Pow2(5) == 32 && Pow2(8) == 0x100 && Pow2(16) == 0x1_0000 && Pow2(32) == 0x1_0000_0000
  {
    assert Pow2(5) == 32;
    assert Pow2(8) == 8 * Pow2(5);
    Pow2Add(8, 8);
    Pow2Add(16, 16);
  }

  lemma {:induction false} BytePowers()
    ensures Pow2(0) == 1 && Pow2(8) == 0x100 && Pow2(16) == 0x1_0000 && Pow2(24) == 0x100_0000
    ensures Pow2(32) == 0x1_0000_0000 && Pow2(40) == 0x100_0000_0000
    ensures Pow2(48) == 0x1_0000_0000_0000 && Pow2(56) == 0x100_0000_0000_0000
  {
    hide Pow2;
    assert Pow2(0) == 1 by { PowZero(); }
    Pow2Values();
    Pow2Add(16, 8);
    Pow2Add(32, 8);
    Pow2Add(32, 16);
    Pow2Add(48, 8);
  }

  lemma {:induction false} PowZero()
    ensures Pow2(0) == 1
  {
  }

  lemma {:induction false} AndZero(x: U32)
    ensures And(x, 0) == 0
  {
    AndNothing(x);
  }

  lemma {:induction false} AndOnes(x: U32)
    ensures And(x, 0xffff_ffff) == x
  {
    hide And, Pow2;
    Pow2Values();
    AndLowMask(x, 32);
  }

  /** Reducing modulo 2m reduces the upper digits modulo m and keeps the last one. */
  lemma {:induction false} HalveMod(x: int, m: nat)
    requires m > 0
    ensures x % (2 * m) == x % 2 + 2 * ((x / 2) % m)
  {
    var h, q := x / 2, x / 2 / m;
    assert h == q * m + h % m;
    assert x == x % 2 + 2 * (q * m + h % m);
    assert 2 * (q * m) == q * (2 * m);
    assert x == q * (2 * m) + (x % 2 + 2 * (h % m));
    DivModUnique(x, 2 * m, q, x % 2 + 2 * (h % m));
  }

  /** Words with no common one bit: `|` is addition. */
  lemma {:induction false} OrDisjoint(x: nat, y: nat, k: nat)
    requires x < Pow2(k) && y % Pow2(k) == 0
    ensures Or(x, y) == x + y
  {
    if x != 0 {
      HalveMod(y, Pow2(k - 1));
      OrDisjoint(x / 2, y / 2, k - 1);
    }
  }

  lemma {:induction false} XorOnes(x: nat)
    ensures Xor(x, -1) == -1 - x
  {
    if x != 0 { XorOnes(x / 2); }
  }

  lemma {:induction false} XorZero(x: nat)
    ensures Xor(x, 0) == x
  {
    if x != 0 { XorZero(x / 2); }
  }
}
