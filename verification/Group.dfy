/** Abelian groups and multiples of their elements. The curve's group law enters the model as
    a value of this type that satisfies the laws. */
module Group {
  import opened Nonlinear

  datatype Group<!G> = Group(add: (G, G) -> G, neg: G -> G, zero: G)

  ghost predicate IsAbelian<G(!new)>(g: Group<G>) {
    && (forall a, b :: g.add(a, b) == g.add(b, a))
    && (forall a, b, c :: g.add(g.add(a, b), c) == g.add(a, g.add(b, c)))
    && (forall a :: g.add(a, g.zero) == a)
    && (forall a :: g.add(a, g.neg(a)) == g.zero)
  }

  /** [n]p */
  ghost function Smul<G>(g: Group<G>, n: int, p: G): G
    decreases if n < 0 then 1 - n else n
  {
    if n == 0 then g.zero
    else if n > 0 then g.add(Smul(g, n - 1, p), p)
    else g.neg(Smul(g, -n, p))
  }

  lemma {:induction false} Comm<G(!new)>(g: Group<G>, a: G, b: G)
    requires IsAbelian(g)
    ensures g.add(a, b) == g.add(b, a)
  {
  }

  lemma {:induction false} AddAssoc<G(!new)>(g: Group<G>, a: G, b: G, c: G)
    requires IsAbelian(g)
    ensures g.add(g.add(a, b), c) == g.add(a, g.add(b, c))
  {
  }

  lemma {:induction false} Zero<G(!new)>(g: Group<G>, a: G)
    requires IsAbelian(g)
    ensures g.add(a, g.zero) == a && g.add(g.zero, a) == a
  {
    Comm(g, a, g.zero);
  }

  lemma {:induction false} Inverse<G(!new)>(g: Group<G>, a: G)
    requires IsAbelian(g)
    ensures g.add(a, g.neg(a)) == g.zero && g.add(g.neg(a), a) == g.zero
  {
    Comm(g, a, g.neg(a));
  }

  /** The inverse is unique. */
  lemma {:induction false} NegUnique<G(!new)>(g: Group<G>, a: G, b: G)
    requires IsAbelian(g) && g.add(a, b) == g.zero
    ensures b == g.neg(a)
  {
    hide IsAbelian;
    Zero(g, b);
    Inverse(g, a);
    AddAssoc(g, g.neg(a), a, b);
    Zero(g, g.neg(a));
  }

  lemma {:induction false} NegNeg<G(!new)>(g: Group<G>, a: G)
    requires IsAbelian(g)
    ensures g.neg(g.neg(a)) == a && g.neg(g.zero) == g.zero
  {
    hide IsAbelian;
    Inverse(g, a);
    NegUnique(g, g.neg(a), a);
    Zero(g, g.zero);
    NegUnique(g, g.zero, g.zero);
  }

  /** (a + b) + (c + d) == (a + c) + (b + d) */
  lemma {:induction false} Exchange<G(!new)>(g: Group<G>, a: G, b: G, c: G, d: G)
    requires IsAbelian(g)
    ensures g.add(g.add(a, b), g.add(c, d)) == g.add(g.add(a, c), g.add(b, d))
  {
    hide IsAbelian;
    AddAssoc(g, a, b, g.add(c, d));
    AddAssoc(g, b, c, d);
    Comm(g, b, c);
    AddAssoc(g, c, b, d);
    AddAssoc(g, a, c, g.add(b, d));
  }

  lemma {:induction false} NegAdd<G(!new)>(g: Group<G>, a: G, b: G)
    requires IsAbelian(g)
    ensures g.neg(g.add(a, b)) == g.add(g.neg(a), g.neg(b))
  {
    hide IsAbelian;
    Exchange(g, a, b, g.neg(a), g.neg(b));
    Inverse(g, a);
    Inverse(g, b);
    Zero(g, g.zero);
    NegUnique(g, g.add(a, b), g.add(g.neg(a), g.neg(b)));
  }

  lemma {:induction false} SmulOne<G(!new)>(g: Group<G>, p: G)
    requires IsAbelian(g)
    ensures Smul(g, 1, p) == p && Smul(g, 0, p) == g.zero
  {
    hide IsAbelian;
    assert Smul(g, 1, p) == g.add(Smul(g, 0, p), p);
    Zero(g, p);
  }

  lemma {:induction false} SmulNeg<G(!new)>(g: Group<G>, n: int, p: G)
    requires IsAbelian(g)
    ensures Smul(g, -n, p) == g.neg(Smul(g, n, p))
  {
    hide IsAbelian;
    NegNeg(g, Smul(g, if n < 0 then -n else n, p));
  }

  /** Successor, for negative multiples too. */
  lemma {:induction false} SmulNext<G(!new)>(g: Group<G>, n: int, p: G)
    requires IsAbelian(g)
    ensures Smul(g, n + 1, p) == g.add(Smul(g, n, p), p)
  {
    hide IsAbelian;
    if n < 0 {
      var m := -n - 1;
      var a := Smul(g, m, p);
      SmulNeg(g, m, p);
      SmulNeg(g, m + 1, p);
      NegAdd(g, a, p);
      AddAssoc(g, g.neg(a), g.neg(p), p);
      Inverse(g, p);
      Zero(g, g.neg(a));
    }
  }

  lemma {:induction false} SmulAdd<G(!new)>(g: Group<G>, m: int, n: int, p: G)
    requires IsAbelian(g)
    ensures Smul(g, m + n, p) == g.add(Smul(g, m, p), Smul(g, n, p))
    decreases if n < 0 then -n else n
  {
    hide IsAbelian;
    if n == 0 {
      Zero(g, Smul(g, m, p));
    } else if n > 0 {
      SmulAdd(g, m, n - 1, p);
      SmulNext(g, m + (n - 1), p);
      AddAssoc(g, Smul(g, m, p), Smul(g, n - 1, p), p);
    } else {
      // Both sides plus p agree, so they agree.
      SmulAdd(g, m, n + 1, p);
      SmulNext(g, n, p);
      SmulNext(g, m + n, p);
      AddAssoc(g, Smul(g, m, p), Smul(g, n, p), p);
      Cancel(g, Smul(g, m + n, p), g.add(Smul(g, m, p), Smul(g, n, p)), p);
    }
  }

  lemma {:induction false} Cancel<G(!new)>(g: Group<G>, a: G, b: G, p: G)
    requires IsAbelian(g) && g.add(a, p) == g.add(b, p)
    ensures a == b
  {
    hide IsAbelian;
    AddAssoc(g, a, p, g.neg(p));
    AddAssoc(g, b, p, g.neg(p));
    Inverse(g, p);
    Zero(g, a);
    Zero(g, b);
  }

  /** [m]([n]p) == [m * n]p */
  lemma {:induction false} SmulTimes<G(!new)>(g: Group<G>, m: int, n: int, p: G)
    requires IsAbelian(g)
    ensures Smul(g, m, Smul(g, n, p)) == Smul(g, Times(m, n), p)
    decreases if m < 0 then 1 - m else m
  {
    hide IsAbelian, Times;
    TimesUnit(n);
    if m > 0 {
      SmulTimes(g, m - 1, n, p);
      TimesAdd(m, -1, n);
      TimesNeg(1, n);
      SmulAdd(g, Times(m - 1, n), n, p);
    } else if m < 0 {
      SmulTimes(g, -m, n, p);
      TimesNeg(m, n);
      SmulNeg(g, Times(-m, n), p);
      assert Times(-m, n) == -Times(m, n);
    }
  }
}
