/** The laws of multiplication that the other proofs call by name. */
module Nonlinear {

  lemma {:induction false} Distribute(a: int, b: int, c: int)
    ensures (a + b) * c == a * c + b * c
    ensures c * (a + b) == c * a + c * b
  {
  }

  lemma {:induction false} Assoc(a: int, b: int, c: int)
    ensures (a * b) * c == a * (b * c)
    ensures (a * b) * c == (a * c) * b
  {
  }

  lemma {:induction false} MulSign(a: int, b: int)
    requires a >= 0 && b >= 0
    ensures a * b >= 0
  {
  }

  lemma {:induction false} MulMono(a: int, b: int, c: int)
    requires a <= b && c >= 0
    ensures a * c <= b * c
  {
    Distribute(a, b - a, c);
    MulSign(b - a, c);
  }

  lemma {:induction false} MulBound(a: int, b: int, m: int, n: int)
    requires 0 <= a <= m && 0 <= b <= n
    ensures 0 <= a * b <= m * n
  {
    MulSign(a, b);
    MulMono(a, m, b);
    MulMono(b, n, m);
  }

  lemma {:induction false} MulAbsBound(a: int, b: int, m: int, n: int)
    requires -m <= a <= m && -n <= b <= n
    ensures -(m * n) <= a * b <= m * n
  {
    var (x, y) := (if a < 0 then -a else a, if b < 0 then -b else b);
    MulBound(x, y, m, n);
    assert a * b == x * y || a * b == -(x * y);
  }

  lemma {:induction false} MulCancel(a: int, b: int, c: int)
    requires c > 0 && a * c < b * c
    ensures a < b
  {
    if b <= a { MulMono(b, a, c); }
  }

  lemma {:induction false} MulAtLeast(a: int, m: int)
    requires m >= 0
    ensures a >= 1 ==> a * m >= m
    ensures a <= -1 ==> a * m <= -m
  {
    if a >= 1 { MulMono(1, a, m); }
    if a <= -1 { MulMono(a, -1, m); }
  }

  /** A quotient and a remainder in range are the only ones. */
  lemma {:induction false} DivModUnique(x: int, m: int, q: int, r: int)
    requires m > 0 && 0 <= r < m && x == q * m + r
    ensures x / m == q && x % m == r
  {
    var q', r' := x / m, x % m;
    assert x == q' * m + r';
    Distribute(q, -q', m);
    MulAtLeast(q - q', m);
  }

  lemma {:induction false} ModShift(x: int, k: int, m: int)
    requires m > 0
    ensures (x + k * m) % m == x % m
  {
    Distribute(x / m, k, m);
    DivModUnique(x + k * m, m, x / m + k, x % m);
  }

  /** Congruence as a difference that is a multiple. */
  lemma {:induction false} ModDiff(a: int, b: int, m: int) returns (k: int)
    requires m > 0 && a % m == b % m
    ensures a == b + k * m
  {
    k := a / m - b / m;
    Distribute(a / m, -(b / m), m);
  }

  /** Shifting twice is shifting once. */
  lemma {:induction false} DivDiv(n: nat, a: nat, b: nat)
    requires a > 0 && b > 0
    ensures a * b > 0 && n / (a * b) == n / a / b
  {
    var q, r := n / a, n % a;
    Distribute(b * (q / b), q % b, a);
    Assoc(a, b, q / b);
    MulBound(q % b, a, b - 1, a);
    Distribute(b, -1, a);
    MulAtLeast(b, a);
    DivModUnique(n, a * b, q / b, (q % b) * a + r);
  }

  /** Masking before shifting is shifting before masking. */
  lemma {:induction false} ModDiv(n: nat, a: nat, b: nat)
    requires a > 0 && b > 0
    ensures a * b > 0 && n % (a * b) / a == n / a % b
  {
    DivDiv(n, a, b);
    var q, r := n / a, n % a;
    Distribute(b * (q / b), q % b, a);
    Assoc(a, b, q / b);
    DivModUnique(n % (a * b), a, q % b, r);
  }

  // ---- folded multiplication ----

  /** Multiplication under a name that proofs can hide, so that the solver treats a product
      as an atom; they use the laws below, and TimesIs where a product meets `*`. */
  ghost function Times(a: int, b: int): int {
    a * b
  }

  lemma {:induction false} TimesIs(a: int, b: int)
    ensures Times(a, b) == a * b
  {
  }

  lemma {:induction false} TimesComm(a: int, b: int)
    ensures Times(a, b) == Times(b, a)
  {
  }

  lemma {:induction false} TimesAdd(a: int, b: int, c: int)
    ensures Times(a + b, c) == Times(a, c) + Times(b, c)
    ensures Times(c, a + b) == Times(c, a) + Times(c, b)
  {
  }

  lemma {:induction false} TimesNeg(a: int, b: int)
    ensures Times(-a, b) == -Times(a, b) && Times(a, -b) == -Times(a, b)
  {
  }

  lemma {:induction false} TimesAssoc(a: int, b: int, c: int)
    ensures Times(Times(a, b), c) == Times(a, Times(b, c))
  {
    Assoc(a, b, c);
  }

  lemma {:induction false} TimesUnit(a: int)
    ensures Times(a, 1) == a && Times(1, a) == a
    ensures Times(a, 0) == 0 && Times(0, a) == 0
  {
  }

  lemma {:induction false} TimesMono(a: int, b: int, c: int)
    requires a <= b && c >= 0
    ensures Times(a, c) <= Times(b, c)
  {
    MulMono(a, b, c);
  }

  lemma {:induction false} TimesCancel(a: int, b: int, c: int)
    requires c > 0 && Times(a, c) < Times(b, c)
    ensures a < b
  {
    MulCancel(a, b, c);
  }

  lemma {:induction false} TimesAtLeast(a: int, m: int)
    requires m >= 0
    ensures a >= 1 ==> Times(a, m) >= m
    ensures a <= -1 ==> Times(a, m) <= -m
  {
    MulAtLeast(a, m);
  }

  /** A quotient and a remainder in range are the only ones. */
  lemma {:induction false} TimesDivMod(x: int, m: int, q: int, r: int)
    requires m > 0 && 0 <= r < m && x == Times(q, m) + r
    ensures x / m == q && x % m == r
  {
    DivModUnique(x, m, q, r);
  }
}
