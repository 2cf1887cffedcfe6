/** Ed25519 keys, signing and checking (RFC 8032, sections 5.1.5 to 5.1.7), over the scalar
    arithmetic, ladders and hash of the other modules. The curve enters as an abelian group in
    which [L]B is neutral, with its tables and a point codec whose decoder also negates. */
module Eddsa {
  import opened Bits
  import opened BlockHash
  import opened Comb
  import opened Group
  import opened Limbs
  import opened Nonlinear
  import opened SlidingWindow
  import opened Wrappers
  import ScalarModL
  import Sha512
  import Sha512Abc
  import Sha512Code

  datatype Curve<!G> = Curve(group: Group<G>, B: G, bWindow: seq<G>, combLow: seq<G>, combHigh: seq<G>,
                             encode: G -> seq<U8>, decodeNeg: seq<U8> -> Option<G>)

  ghost predicate IsCurve<G(!new)>(c: Curve<G>) {
    && IsAbelian(c.group)
    && Smul(c.group, ScalarModL.L, c.B) == c.group.zero
    && |c.bWindow| == 8 && OddMultiples(c.group, c.bWindow, c.B)
    && CombTable(c.group, c.combLow, c.B)
    && CombTable(c.group, c.combHigh, Smul(c.group, 0x1_00000000_00000000_00000000_00000000, c.B))
    && forall p :: |c.encode(p)| == 32 && c.decodeNeg(c.encode(p)) == Some(c.group.neg(p))
  }

  // ---- hashing ----

  function ToOctets(s: seq<U8>): (o: Octets) {
    seq(|s|, i requires 0 <= i < |s| => s[i] as bv8)
  }

  function ToBytes(o: Octets): (s: seq<U8>)
    ensures |s| == |o|
  {
    seq(|o|, i requires 0 <= i < |o| => o[i] as int)
  }

  lemma {:induction false} DigestWords(message: Octets)
    ensures |Sha512.Digest(message)| == 8
  {
    Sha512Code.FoldKeeps(Sha512.InitialHash(), message + Padding(Sha512.BLOCK, Sha512.LengthTail(|message|), |message|));
  }

  /** The group order, in decimal, as in section 5.1 of RFC 8032. */
  lemma {:induction false} OrderIs()
    ensures ScalarModL.L == 0x10000000_00000000_00000000_00000000_00000000_00000000_00000000_00000000 + 27742317777372353535851937790883648493
  {
  }

  /** SHA-512 of a byte string. */
  function Hash(m: seq<U8>): (h: seq<U8>)
    ensures |h| == 64
  {
    DigestWords(ToOctets(m));
    ToBytes(Sha512Code.Output(Sha512.Digest(ToOctets(m))))
  }

  /** The hash of "abc" is the published one, as bytes too. */
  lemma {:induction false} HashOfAbc()
    ensures ToOctets([0x61, 0x62, 0x63]) == [0x61, 0x62, 0x63]
    ensures ToOctets(Hash([0x61, 0x62, 0x63])) ==
    [0xdd, 0xaf, 0x35, 0xa1, 0x93, 0x61, 0x7a, 0xba, 0xcc, 0x41, 0x73, 0x49, 0xae, 0x20, 0x41, 0x31,
     0x12, 0xe6, 0xfa, 0x4e, 0x89, 0xa9, 0x7e, 0xa2, 0x0a, 0x9e, 0xee, 0xe6, 0x4b, 0x55, 0xd3, 0x9a]
    + [0x21, 0x92, 0x99, 0x2a, 0x27, 0x4f, 0xc1, 0xa8, 0x36, 0xba, 0x3c, 0x23, 0xa3, 0xfe, 0xeb, 0xbd,
       0x45, 0x4d, 0x44, 0x23, 0x64, 0x3c, 0xe8, 0x0e, 0x2a, 0x9a, 0xc9, 0x4f, 0xa5, 0x4c, 0xa4, 0x9f]
  {
    hide Sha512.Digest, Sha512Code.Output, ToBytes;
    assert ToOctets([0x61, 0x62, 0x63]) == [0x61, 0x62, 0x63];
    Sha512Abc.DigestOfAbc();
    OctetsBack(Sha512Code.Output(Sha512.Digest([0x61, 0x62, 0x63])));
  }

  lemma {:induction false} OctetsBack(o: Octets)
    ensures ToOctets(ToBytes(o)) == o
  {
    forall i | 0 <= i < |o| ensures ToOctets(ToBytes(o))[i] == o[i] { OctetBack(o[i]); }
  }

  lemma {:induction false} OctetBack(x: bv8)
    ensures (x as int) as bv8 == x
  {
  }

  ghost function HashMod(m: seq<U8>): (n: nat)
    ensures n < ScalarModL.L
  {
    ByteVal(Hash(m)) % ScalarModL.L
  }

  lemma {:induction false} OctetsJoin(a: seq<U8>, b: seq<U8>)
    ensures ToOctets(a) + ToOctets(b) == ToOctets(a + b)
  {
  }

  lemma {:induction false} FourPieces(a: seq<U8>, b: seq<U8>, c: seq<U8>, d: seq<U8>)
    ensures Flatten([ToOctets(a), ToOctets(b), ToOctets(c), ToOctets(d)]) == ToOctets(a + b + c + d)
  {
    hide Flatten, ToOctets;
    var p := [ToOctets(a), ToOctets(b), ToOctets(c), ToOctets(d)];
    assert p[..4] == p && p[..0] == [];
    FlattenNext(p, 3);
    FlattenNext(p, 2);
    FlattenNext(p, 1);
    FlattenNext(p, 0);
    Sha512Code.NoPieces();
    assert Flatten(p[..1]) == ToOctets(a);
    OctetsJoin(a, b);
    OctetsJoin(a + b, c);
    OctetsJoin(a + b + c, d);
  }

  method HashAll(a: seq<U8>, b: seq<U8>, c: seq<U8>, d: seq<U8>) returns (h: seq<U8>)
    ensures h == Hash(a + b + c + d)
  {
    hide Sha512.Digest, Sha512Code.Output, Flatten, ToOctets;
    FourPieces(a, b, c, d);
    var out := Sha512Code.HashPieces([ToOctets(a), ToOctets(b), ToOctets(c), ToOctets(d)]);
    h := ToBytes(out);
  }

  /** h = the hash of up to four strings, modulo L. */
  method HashReduce(h: array<U8>, a: seq<U8>, b: seq<U8>, c: seq<U8>, d: seq<U8>)
    requires h.Length == 32
    modifies h
    ensures ByteVal(h[..]) == HashMod(a + b + c + d)
  {
    hide Hash, ByteVal;
    var hash := HashAll(a, b, c, d);
    ScalarModL.Reduce(h, hash);
  }

  // ---- keys ----

  /** The scalar of RFC 8032, section 5.1.5: the lowest three bits and the highest bit are
      cleared, and the second highest is set. */
  function Trimmed(s: seq<U8>): (r: seq<U8>)
    requires |s| == 32
    ensures |r| == 32
  {
    s[0 := s[0] - s[0] % 8][31 := 64 + s[31] % 64]
  }

  lemma {:induction false} AndSeven(x: U8)
    ensures And(x, 127) == x % 128
  {
    hide And, Pow2;
    AndLowMask(x, 7);
    Pow2Add(2, 5);
    Pow2Add(1, 1);
    Pow2Values();
    PowTwo();
  }

  lemma {:induction false} PowTwo()
    ensures Pow2(1) == 2
  {
    assert Pow2(0) == 1;
  }

  lemma {:induction false} AndClears(x: U8)
    ensures And(x, 248) == x - x % 8
  {
    hide And, Pow2;
    AndLowMask(x / 8, 5);
    Pow2Values();
    AndEven(x, 124);
    AndEven(x / 2, 62);
    AndEven(x / 4, 31);
    assert x / 2 / 2 == x / 4 && x / 4 / 2 == x / 8;
  }

  lemma {:induction false} AndEven(x: nat, y: nat)
    ensures And(x, 2 * y) == 2 * And(x / 2, y)
  {
  }

  lemma {:induction false} OrTop(x: nat)
    requires x < 128
    ensures Or(x, 64) == 64 + x % 64
  {
    hide Or, Pow2;
    Pow2Add(1, 5);
    Pow2Values();
    PowTwo();
    if x < 64 {
      OrDisjoint(x, 64, 6);
    } else {
      OrAbsorbs(x, 64, 6);
    }
  }

  lemma {:induction false} OrAbsorbs(x: nat, b: nat, k: nat)
    requires b == Pow2(k) && b <= x < 2 * b
    ensures Or(x, b) == x
    decreases k
  {
    if k == 0 {
      assert x == 1 && Or(0, 0) == 0;
    } else {
      OrAbsorbs(x / 2, b / 2, k - 1);
    }
  }

  /** The highest byte bounds the number. */
  lemma {:induction false} TopByte(s: seq<U8>, k: nat)
    requires |s| == k + 1
    ensures Times(Pow2(8 * k), s[k]) <= ByteVal(s) < Times(Pow2(8 * k), s[k] as int + 1)
    decreases k
  {
    hide Times, Pow2;
    if k == 0 {
      PowNone();
      TimesUnit(s[0]);
      TimesUnit(s[0] as int + 1);
      assert ByteVal(s[1..]) == 0;
    } else {
      TopByte(s[1..], k - 1);
      Pow2Add(8, 8 * (k - 1));
      Pow2Values();
      TimesIs(0x100, Pow2(8 * (k - 1)));
      TimesAssoc(0x100, Pow2(8 * (k - 1)), s[k]);
      TimesAssoc(0x100, Pow2(8 * (k - 1)), s[k] as int + 1);
      TimesIs(0x100, Times(Pow2(8 * (k - 1)), s[k]));
      TimesIs(0x100, Times(Pow2(8 * (k - 1)), s[k] as int + 1));
    }
  }

  lemma {:induction false} PowNone()
    ensures Pow2(0) == 1
  {
  }

  /** A trimmed scalar is a multiple of the cofactor with its highest bit at position 254. */
  lemma {:induction false} TrimmedRange(s: seq<U8>)
    requires |s| == 32
    ensures ByteVal(Trimmed(s)) % 8 == 0
    ensures Pow2(254) <= ByteVal(Trimmed(s)) < Pow2(255)
  {
    hide Pow2, Times, ByteVal;
    var t := Trimmed(s);
    TopByte(t, 31);
    TimesMono(64, t[31], Pow2(248));
    TimesMono(t[31] + 1, 128, Pow2(248));
    TimesComm(Pow2(248), t[31]);
    TimesComm(Pow2(248), t[31] + 1);
    Pow2Add(248, 6);
    Pow2Add(248, 7);
    Pow2Add(1, 5);
    Pow2Add(1, 6);
    PowTwo();
    Pow2Values();
    TimesIs(64, Pow2(248));
    TimesIs(128, Pow2(248));
    LowBits(t);
  }

  lemma {:induction false} LowBits(s: seq<U8>)
    requires s != []
    ensures ByteVal(s) % 8 == s[0] % 8
  {
    assert ByteVal(s) == s[0] + 8 * (0x20 * ByteVal(s[1..]));
  }

  /** out = the trimmed scalar; the two may be the same array. */
  method TrimScalar(out: array<U8>, scalar: array<U8>)
    requires out.Length >= 32 && scalar.Length >= 32
    modifies out
    ensures out[..32] == Trimmed(old(scalar[..32]))
    ensures forall i :: 32 <= i < out.Length ==> out[i] == old(out[i])
  {
    hide And, Or;
    ghost var s := scalar[..32];
    forall i | 0 <= i < 32 { out[i] := scalar[i]; }
    assert out[..32] == s;
    AndClears(s[0]);
    AndSeven(s[31]);
    OrTop(And(s[31], 127));
    out[0] := And(out[0], 248);
    out[31] := And(out[31], 127);
    out[31] := Or(out[31], 64);
    assert out[..32] == Trimmed(s);
  }

  lemma {:induction false} ByteValSnoc(s: seq<U8>, b: U8)
    ensures ByteVal(s + [b]) == ByteVal(s) + Times(Pow2(8 * |s|), b) && ByteVal(s) < Pow2(8 * |s|)
    decreases |s|
  {
    hide Pow2, Times;
    if s == [] {
      PowNone();
      TimesUnit(b);
      assert [] + [b] == [b] && [b][1..] == [];
      assert ByteVal([b]) == b + 0x100 * ByteVal([]);
    } else {
      var k := 8 * (|s| - 1);
      ByteValSnoc(s[1..], b);
      assert (s + [b])[1..] == s[1..] + [b];
      Pow2Add(8, k);
      Pow2Values();
      TimesIs(0x100, Pow2(k));
      TimesAssoc(0x100, Pow2(k), b);
      TimesIs(0x100, Times(Pow2(k), b));
    }
  }

  /** A 32-byte number by its two end bytes and what is between. */
  lemma {:induction false} EndBytes(s: seq<U8>) returns (m: nat)
    requires |s| == 32
    ensures m == ByteVal(s[1..31]) < 0x10000_00000000_00000000_00000000_00000000_00000000_00000000_00000000
    ensures ByteVal(s) == s[0] + 0x100 * m + 0x1000000_00000000_00000000_00000000_00000000_00000000_00000000_00000000 * (s[31] as int)
  {
    hide Pow2, Times;
    m := ByteVal(s[1..31]);
    assert s[1..] == s[1..31] + [s[31]];
    ByteValSnoc(s[1..31], s[31]);
    PowLarge();
    TimesIs(Pow2(240), s[31]);
  }

  lemma {:induction false} PowLarge()
    ensures Pow2(240) == 0x10000_00000000_00000000_00000000_00000000_00000000_00000000_00000000
  {
    hide Pow2;
    Pow2Values();
    Pow2Add(32, 32);
    Pow2Add(64, 64);
    Pow2Add(128, 64);
    Pow2Add(192, 32);
    Pow2Add(224, 16);
  }

  /** In numbers: bits 0 to 2 and 255 are cleared, bit 254 is set, the others are kept. */
  lemma {:induction false} TrimmedIs(s: seq<U8>)
    requires |s| == 32
    ensures ByteVal(Trimmed(s)) ==
      0x40000000_00000000_00000000_00000000_00000000_00000000_00000000_00000000
      + 8 * (ByteVal(s) / 8 % 0x8000000_00000000_00000000_00000000_00000000_00000000_00000000_00000000)
  {
    hide ByteVal;
    var t := Trimmed(s);
    var m := EndBytes(s);
    var k := EndBytes(t);
    assert t[1..31] == s[1..31];
    ClearedBits(ByteVal(s), s[0], m, s[31]);
  }

  lemma {:induction false} ClearedBits(n: nat, low: U8, m: nat, high: U8)
    requires m < 0x10000_00000000_00000000_00000000_00000000_00000000_00000000_00000000 && n == low + 0x100 * m + 0x1000000_00000000_00000000_00000000_00000000_00000000_00000000_00000000 * high
    ensures low - low % 8 + 0x100 * m + 0x1000000_00000000_00000000_00000000_00000000_00000000_00000000_00000000 * (64 + high % 64) == 0x40000000_00000000_00000000_00000000_00000000_00000000_00000000_00000000 + 8 * (n / 8 % 0x8000000_00000000_00000000_00000000_00000000_00000000_00000000_00000000)
  {
    var (l, h) := (low / 8, high / 64);
    var rest := l + 0x20 * m + 0x200000_00000000_00000000_00000000_00000000_00000000_00000000_00000000 * (high - 64 * h);
    DivModUnique(n, 8, 0x8000000_00000000_00000000_00000000_00000000_00000000_00000000_00000000 * h + rest, low - 8 * l);
    DivModUnique(n / 8, 0x8000000_00000000_00000000_00000000_00000000_00000000_00000000_00000000, h, rest);
  }

  /** The secret scalar and the nonce prefix of a seed. */
  ghost function Secret(seed: seq<U8>): nat {
    ByteVal(Trimmed(Hash(seed)[..32]))
  }

  function Prefix(seed: seq<U8>): seq<U8> {
    Hash(seed)[32..]
  }

  ghost function PublicKey<G>(c: Curve<G>, seed: seq<U8>): seq<U8> {
    c.encode(Smul(c.group, Secret(seed), c.B))
  }

  // ---- signatures ----

  /** What signing promises: R encodes [r]B and S is h * a + r modulo L. */
  ghost predicate IsSignature<G>(c: Curve<G>, domain: seq<U8>, seed: seq<U8>, publicKey: seq<U8>, message: seq<U8>, signature: seq<U8>) {
    |signature| == 64 &&
    var r := HashMod(domain + Prefix(seed) + message);
    var R := c.encode(Smul(c.group, r, c.B));
    signature[..32] == R
    && ByteVal(signature[32..]) == (HashMod(domain + R + publicKey + message) * Secret(seed) + r) % ScalarModL.L
  }

  /** The verification equation, cofactored, with the negations of A and R. */
  ghost predicate Equation<G>(g: Group<G>, B: G, s: nat, h: nat, minusA: G, minusR: G) {
    Smul(g, 8, g.add(g.add(Smul(g, s, B), Smul(g, h, minusA)), minusR)) == g.zero
  }

  ghost predicate Accepts<G>(c: Curve<G>, domain: seq<U8>, publicKey: seq<U8>, message: seq<U8>, signature: seq<U8>)
    requires |signature| == 64
  {
    var (R, s) := (signature[..32], ByteVal(signature[32..]));
    && c.decodeNeg(publicKey).Some? && c.decodeNeg(R).Some? && s < ScalarModL.L
    && Equation(c.group, c.B, s, HashMod(domain + R + publicKey + message), c.decodeNeg(publicKey).value, c.decodeNeg(R).value)
  }

  lemma {:induction false} ModMod(n: nat, m: nat)
    requires m > 0
    ensures n % m % m == n % m
  {
  }

  /** [h * a + r mod L]B == [h]([a]B) + [r]B */
  lemma {:induction false} SignedMultiple<G(!new)>(g: Group<G>, B: G, h: nat, a: nat, r: nat, s: nat)
    requires IsAbelian(g) && Smul(g, ScalarModL.L, B) == g.zero
    requires s == (h * a + r) % ScalarModL.L
    ensures Smul(g, s, B) == g.add(Smul(g, h, Smul(g, a, B)), Smul(g, r, B))
  {
    hide IsAbelian, Smul;
    var n := h * a + r;
    ModMod(n, ScalarModL.L);
    var t := ModDiff(s, n, ScalarModL.L);
    TimesIs(t, ScalarModL.L);
    AddOrder(g, n, t, ScalarModL.L, B);
    TimesIs(h, a);
    SmulTimes(g, h, a, B);
    SmulAdd(g, h * a, r, B);
  }

  /** [h](-P) == -[h]P */
  lemma {:induction false} SmulOfNeg<G(!new)>(g: Group<G>, h: nat, p: G)
    requires IsAbelian(g)
    ensures Smul(g, h, g.neg(p)) == g.neg(Smul(g, h, p))
  {
    hide *;
    SmulOne(g, p);
    SmulNeg(g, 1, p);
    SmulTimes(g, h, -1, p);
    TimesNeg(h, 1);
    TimesUnit(h);
    SmulNeg(g, h, p);
  }

  /** What is signed satisfies the equation: sS B - hA - R is already neutral. */
  lemma {:induction false} SignedBalances<G(!new)>(g: Group<G>, B: G, h: nat, a: nat, r: nat, s: nat)
    requires IsAbelian(g) && Smul(g, ScalarModL.L, B) == g.zero
    requires s == (h * a + r) % ScalarModL.L
    ensures Equation(g, B, s, h, g.neg(Smul(g, a, B)), g.neg(Smul(g, r, B)))
  {
    hide IsAbelian, Smul;
    var A, R := Smul(g, a, B), Smul(g, r, B);
    var hA := Smul(g, h, A);
    SignedMultiple(g, B, h, a, r, s);
    SmulOfNeg(g, h, A);
    // ((hA + R) - hA) - R
    Comm(g, hA, R);
    AddAssoc(g, R, hA, g.neg(hA));
    Inverse(g, hA);
    Zero(g, R);
    Inverse(g, R);
    SmulZero(g, 8);
  }

  /** Every signature made with a key pair is accepted under its public key. */
  lemma {:induction false} SignedAccepted<G(!new)>(c: Curve<G>, domain: seq<U8>, seed: seq<U8>, message: seq<U8>, signature: seq<U8>)
    requires IsCurve(c)
    requires IsSignature(c, domain, seed, PublicKey(c, seed), message, signature)
    ensures Accepts(c, domain, PublicKey(c, seed), message, signature)
  {
    hide IsAbelian, Smul, OddMultiples, CombTable, HashMod, Equation, ByteVal, Secret, Prefix;
    var r := HashMod(domain + Prefix(seed) + message);
    var R := c.encode(Smul(c.group, r, c.B));
    var h := HashMod(domain + R + PublicKey(c, seed) + message);
    SignedBalances(c.group, c.B, h, Secret(seed), r, ByteVal(signature[32..]));
  }

  /** Two scalars below L that satisfy the equation for the same A, R and h are one, if B has
      order exactly L. */
  lemma {:induction false} ScalarUnique<G(!new)>(g: Group<G>, B: G, s: nat, t: nat, h: nat, minusA: G, minusR: G)
    requires IsAbelian(g) && (forall n: int :: Smul(g, n, B) == g.zero ==> n % ScalarModL.L == 0)
    requires s < ScalarModL.L && t < ScalarModL.L
    requires Equation(g, B, s, h, minusA, minusR) && Equation(g, B, t, h, minusA, minusR)
    ensures s == t
  {
    hide IsAbelian, Smul;
    var hA := Smul(g, h, minusA);
    var d := s - t;
    SmulAdd(g, t, d, B);
    var (x, y) := (Smul(g, d, B), g.add(g.add(Smul(g, t, B), hA), minusR));
    // The sum for s is the sum for t plus [d]B.
    Comm(g, Smul(g, t, B), x);
    AddAssoc(g, x, Smul(g, t, B), hA);
    AddAssoc(g, x, g.add(Smul(g, t, B), hA), minusR);
    SmulDistributes(g, 8, x, y);
    Zero(g, Smul(g, 8, x));
    SmulTimes(g, 8, d, B);
    TimesIs(8, d);
    EightTimes(d);
  }

  lemma {:induction false} SmulDistributes<G(!new)>(g: Group<G>, n: nat, x: G, y: G)
    requires IsAbelian(g)
    ensures Smul(g, n, g.add(x, y)) == g.add(Smul(g, n, x), Smul(g, n, y))
    decreases n
  {
    hide IsAbelian;
    if n == 0 {
      Zero(g, g.zero);
    } else {
      SmulDistributes(g, n - 1, x, y);
      Exchange(g, Smul(g, n - 1, x), Smul(g, n - 1, y), x, y);
    }
  }

  /** L is odd, so only multiples of L have eight times themselves divisible by L. */
  lemma {:induction false} EightTimes(d: int)
    requires -(ScalarModL.L as int) < d < ScalarModL.L && 8 * d % ScalarModL.L == 0
    ensures d == 0
  {
    var k := 8 * d / ScalarModL.L;
    assert 8 * d == ScalarModL.L * k;
    assert -8 < k < 8;
    assert ScalarModL.L % 8 == 5;
  }

  /** The bytes of a number are unique. */
  lemma {:induction false} BytesUnique(a: seq<U8>, b: seq<U8>)
    requires |a| == |b| && ByteVal(a) == ByteVal(b)
    ensures a == b
  {
    if a != [] {
      BytesUnique(a[1..], b[1..]);
      assert a == [a[0]] + a[1..] && b == [b[0]] + b[1..];
    }
  }

  /** No second signature with the same R: R and the message determine S, byte for byte. */
  lemma {:induction false} Unmalleable<G(!new)>(c: Curve<G>, domain: seq<U8>, publicKey: seq<U8>, message: seq<U8>, signature: seq<U8>, other: seq<U8>)
    requires IsCurve(c) && (forall n: int :: Smul(c.group, n, c.B) == c.group.zero ==> n % ScalarModL.L == 0)
    requires |signature| == |other| == 64 && signature[..32] == other[..32]
    requires Accepts(c, domain, publicKey, message, signature) && Accepts(c, domain, publicKey, message, other)
    ensures signature == other
  {
    hide IsAbelian, Smul, OddMultiples, CombTable, HashMod, Equation, ByteVal;
    var R := signature[..32];
    ScalarUnique(c.group, c.B, ByteVal(signature[32..]), ByteVal(other[32..]), HashMod(domain + R + publicKey + message),
                 c.decodeNeg(publicKey).value, c.decodeNeg(R).value);
    BytesUnique(signature[32..], other[32..]);
    assert signature == signature[..32] + signature[32..] && other == other[..32] + other[32..];
  }

  // ---- the procedures ----

  method ScalarBase<G(!new)>(c: Curve<G>, scalar: array<U8>) returns (point: seq<U8>)
    requires IsCurve(c) && scalar.Length == 32
    ensures |point| == 32 && point == c.encode(Smul(c.group, ByteVal(scalar[..]), c.B))
  {
    hide IsAbelian, Smul, OddMultiples, CombTable, ByteVal;
    var p := ScalarMultBase(c.group, c.B, c.combLow, c.combHigh, scalar);
    point := c.encode(p);
  }

  /** The hash of the seed, its first half trimmed in place. */
  method ExpandSeed(seed: seq<U8>) returns (scalar: array<U8>, prefix: seq<U8>)
    ensures fresh(scalar) && scalar.Length == 32
    ensures ByteVal(scalar[..]) == Secret(seed) && prefix == Prefix(seed)
  {
    hide Hash, ByteVal, Trimmed;
    var hash := HashAll(seed, [], [], []);
    assert seed + [] + [] + [] == seed;
    var a := new U8[64](i requires 0 <= i < 64 => hash[i]);
    assert a[..32] == hash[..32] && a[32..] == hash[32..];
    TrimScalar(a, a);
    prefix := a[32..];
    scalar := new U8[32](i requires 0 <= i < 32 reads a => a[i]);
    assert scalar[..] == a[..32];
  }

  /** Keys from a seed, which is wiped. */
  method KeyPair<G(!new)>(c: Curve<G>, seed: array<U8>) returns (secretKey: seq<U8>, publicKey: seq<U8>)
    requires IsCurve(c) && seed.Length == 32
    modifies seed
    ensures publicKey == PublicKey(c, old(seed[..])) && secretKey == old(seed[..]) + publicKey
    ensures var half := Hash(old(seed[..]))[..32]; publicKey == c.encode(Smul(c.group, ByteVal(Trimmed(half)), c.B))
    ensures forall i :: 0 <= i < 32 ==> seed[i] == 0
  {
    hide IsCurve, Smul, Hash, ByteVal, Trimmed;
    var copy := seed[..];
    forall i | 0 <= i < 32 { seed[i] := 0; }
    var scalar, _ := ExpandSeed(copy);
    publicKey := ScalarBase(c, scalar);
    secretKey := copy + publicKey;
  }

  method DomSign<G(!new)>(c: Curve<G>, secretKey: seq<U8>, domain: seq<U8>, message: seq<U8>) returns (signature: seq<U8>)
    requires IsCurve(c) && |secretKey| == 64
    ensures IsSignature(c, domain, secretKey[..32], secretKey[32..], message, signature)
    ensures var (x, y, publicKey) := (Hash(secretKey[..32])[..32], Hash(secretKey[..32])[32..], secretKey[32..]);
      var r := ByteVal(Hash(domain + y + message)) % ScalarModL.L;
      && |signature| == 64 && signature[..32] == c.encode(Smul(c.group, r, c.B))
      && ByteVal(signature[32..])
        == (ByteVal(Hash(domain + signature[..32] + publicKey + message)) % ScalarModL.L * ByteVal(Trimmed(x)) + r) % ScalarModL.L
  {
    hide IsCurve, Smul, Hash, ByteVal, Trimmed;
    var a, prefix := ExpandSeed(secretKey[..32]);
    var r := new U8[32];
    HashReduce(r, domain, prefix, message, []);
    assert domain + prefix + message + [] == domain + prefix + message;
    var R := ScalarBase(c, r);
    var h := new U8[32];
    HashReduce(h, domain, R, secretKey[32..], message);
    var s := new U8[32];
    ScalarModL.MulAdd(s, h, a, r);
    signature := R + s[..];
    assert signature[..32] == R && signature[32..] == s[..];
  }

  method Check<G(!new, ==)>(c: Curve<G>, signature: seq<U8>, publicKey: seq<U8>, domain: seq<U8>, message: seq<U8>) returns (rc: int)
    requires IsCurve(c) && |signature| == 64 && |publicKey| == 32
    ensures rc == 0 || rc == -1
    ensures rc == 0 <==> Accepts(c, domain, publicKey, message, signature)
    ensures var (R, S) := (signature[..32], ByteVal(signature[32..]));
      var h := ByteVal(Hash(domain + R + publicKey + message)) % ScalarModL.L;
      rc == 0 <==>
        && c.decodeNeg(publicKey).Some? && c.decodeNeg(R).Some? && S < ScalarModL.L
        && Smul(c.group, 8, c.group.add(c.group.add(Smul(c.group, S, c.B), Smul(c.group, h, c.decodeNeg(publicKey).value)), c.decodeNeg(R).value))
          == c.group.zero
  {
    hide IsAbelian, Smul, OddMultiples, CombTable, ByteVal, Hash;
    var h := new U8[32];
    HashReduce(h, domain, signature[..32], publicKey, message);
    HashModBelow(h[..], domain + signature[..32] + publicKey + message);
    rc := CheckEquation(c.group, c.B, c.bWindow, c.decodeNeg, signature, publicKey, h[..]);
  }

  lemma {:induction false} HashModBelow(h: seq<U8>, m: seq<U8>)
    requires ByteVal(h) == HashMod(m)
    ensures ByteVal(h) < ScalarModL.L
  {
  }
}
