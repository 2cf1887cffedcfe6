/** SHA-512 (FIPS 180-4): the streaming implementation with its in-place 16-word schedule, against
    the standard's padding, message schedule and rounds. */
module Sha512 {
  import opened Bits
  import opened BlockHash

  const BLOCK: nat := 128

  // ---- the standard ----

  /** Addition modulo 2^64, under a name that proofs can hide. */
  function Plus(x: bv64, y: bv64): bv64 {
    x + y
  }

  function Ch(x: bv64, y: bv64, z: bv64): bv64 {
    (x & y) ^ (!x & z)
  }

  function Maj(x: bv64, y: bv64, z: bv64): bv64 {
    ((x & y) ^ (x & z)) ^ (y & z)
  }

  function BigSigma0(x: bv64): bv64 {
    (((x >> 28) | (x << 36)) ^ ((x >> 34) | (x << 30))) ^ ((x >> 39) | (x << 25))
  }

  function BigSigma1(x: bv64): bv64 {
    (((x >> 14) | (x << 50)) ^ ((x >> 18) | (x << 46))) ^ ((x >> 41) | (x << 23))
  }

  function LitSigma0(x: bv64): bv64 {
    (((x >> 1) | (x << 63)) ^ ((x >> 8) | (x << 56))) ^ (x >> 7)
  }

  function LitSigma1(x: bv64): bv64 {
    (((x >> 19) | (x << 45)) ^ ((x >> 61) | (x << 3))) ^ (x >> 6)
  }

  function K(): (k: seq<bv64>)
    ensures |k| == 80
  {
    [0x428a2f98d728ae22, 0x7137449123ef65cd, 0xb5c0fbcfec4d3b2f, 0xe9b5dba58189dbbc,
     0x3956c25bf348b538, 0x59f111f1b605d019, 0x923f82a4af194f9b, 0xab1c5ed5da6d8118,
     0xd807aa98a3030242, 0x12835b0145706fbe, 0x243185be4ee4b28c, 0x550c7dc3d5ffb4e2,
     0x72be5d74f27b896f, 0x80deb1fe3b1696b1, 0x9bdc06a725c71235, 0xc19bf174cf692694]
    + [0xe49b69c19ef14ad2, 0xefbe4786384f25e3, 0x0fc19dc68b8cd5b5, 0x240ca1cc77ac9c65,
       0x2de92c6f592b0275, 0x4a7484aa6ea6e483, 0x5cb0a9dcbd41fbd4, 0x76f988da831153b5,
       0x983e5152ee66dfab, 0xa831c66d2db43210, 0xb00327c898fb213f, 0xbf597fc7beef0ee4,
       0xc6e00bf33da88fc2, 0xd5a79147930aa725, 0x06ca6351e003826f, 0x142929670a0e6e70]
    + [0x27b70a8546d22ffc, 0x2e1b21385c26c926, 0x4d2c6dfc5ac42aed, 0x53380d139d95b3df,
       0x650a73548baf63de, 0x766a0abb3c77b2a8, 0x81c2c92e47edaee6, 0x92722c851482353b,
       0xa2bfe8a14cf10364, 0xa81a664bbc423001, 0xc24b8b70d0f89791, 0xc76c51a30654be30,
       0xd192e819d6ef5218, 0xd69906245565a910, 0xf40e35855771202a, 0x106aa07032bbd1b8]
    + [0x19a4c116b8d2d0c8, 0x1e376c085141ab53, 0x2748774cdf8eeb99, 0x34b0bcb5e19b48a8,
       0x391c0cb3c5c95a63, 0x4ed8aa4ae3418acb, 0x5b9cca4f7763e373, 0x682e6ff3d6b2b8a3,
       0x748f82ee5defb2fc, 0x78a5636f43172f60, 0x84c87814a1f0ab72, 0x8cc702081a6439ec,
       0x90befffa23631e28, 0xa4506cebde82bde9, 0xbef9a3f7b2c67915, 0xc67178f2e372532b]
    + [0xca273eceea26619c, 0xd186b8c721c0c207, 0xeada7dd6cde0eb1e, 0xf57d4f7fee6ed178,
       0x06f067aa72176fba, 0x0a637dc5a2c898a6, 0x113f9804bef90dae, 0x1b710b35131c471b,
       0x28db77f523047d84, 0x32caab7b40c72493, 0x3c9ebe0a15c9bebc, 0x431d67c49c100d4c,
       0x4cc5d4becb3e42b6, 0x597f299cfc657e2a, 0x5fcb6fab3ad6faec, 0x6c44198c4a475817]
  }

  function InitialHash(): (h: seq<bv64>)
    ensures |h| == 8
  {
    [0x6a09e667f3bcc908, 0xbb67ae8584caa73b, 0x3c6ef372fe94f82b, 0xa54ff53a5f1d36f1,
     0x510e527fade682d1, 0x9b05688c2b3e6c1f, 0x1f83d9abfb41bd6b, 0x5be0cd19137e2179]
  }

  /** The message schedule of section 6.4.2, step 1. */
  function W(block: seq<bv64>, t: nat): bv64
    requires |block| == 16
  {
    if t < 16 then block[t]
    else Plus(Plus(Plus(LitSigma1(W(block, t - 2)), W(block, t - 7)), LitSigma0(W(block, t - 15))), W(block, t - 16))
  }

  /** The eight working variables. */
  datatype Vars = Vars(a: bv64, b: bv64, c: bv64, d: bv64, e: bv64, f: bv64, g: bv64, h: bv64)

  /** One round of section 6.4.2, step 3. */
  function Round(v: Vars, k: bv64, w: bv64): Vars {
    var t1 := Plus(Plus(Plus(Plus(v.h, BigSigma1(v.e)), Ch(v.e, v.f, v.g)), k), w);
    var t2 := Plus(BigSigma0(v.a), Maj(v.a, v.b, v.c));
    Vars(Plus(t1, t2), v.a, v.b, v.c, Plus(v.d, t1), v.e, v.f, v.g)
  }

  function Rounds(v: Vars, block: seq<bv64>, t: nat): Vars
    requires |block| == 16 && t <= 80
  {
    if t == 0 then v else Round(Rounds(v, block, t - 1), K()[t - 1], W(block, t - 1))
  }

  function VarsOf(h: seq<bv64>): Vars
    requires |h| == 8
  {
    Vars(h[0], h[1], h[2], h[3], h[4], h[5], h[6], h[7])
  }

  function AddVars(h: seq<bv64>, v: Vars): (r: seq<bv64>)
    requires |h| == 8
    ensures |r| == 8
  {
    [Plus(h[0], v.a), Plus(h[1], v.b), Plus(h[2], v.c), Plus(h[3], v.d), Plus(h[4], v.e), Plus(h[5], v.f), Plus(h[6], v.g), Plus(h[7], v.h)]
  }

  function CompressWords(h: seq<bv64>, block: seq<bv64>): (r: seq<bv64>)
    requires |h| == 8 && |block| == 16
    ensures |r| == 8
  {
    AddVars(h, Rounds(VarsOf(h), block, 80))
  }

  function Load64(s: Octets): bv64
    requires |s| == 8
  {
    ((((((((s[0] as bv64) << 56) | ((s[1] as bv64) << 48)) | ((s[2] as bv64) << 40)) | ((s[3] as bv64) << 32))
        | ((s[4] as bv64) << 24)) | ((s[5] as bv64) << 16)) | ((s[6] as bv64) << 8)) | (s[7] as bv64)
  }

  function Store64(x: bv64): (s: Octets)
    ensures |s| == 8
  {
    [((x >> 56) & 0xff) as bv8, ((x >> 48) & 0xff) as bv8, ((x >> 40) & 0xff) as bv8, ((x >> 32) & 0xff) as bv8,
     ((x >> 24) & 0xff) as bv8, ((x >> 16) & 0xff) as bv8, ((x >> 8) & 0xff) as bv8, (x & 0xff) as bv8]
  }

  /** A block of bytes as sixteen big-endian words. */
  function BlockWords(block: Octets): (w: seq<bv64>)
    requires |block| == BLOCK
    ensures |w| == 16
  {
    seq(16, i requires 0 <= i < 16 => Load64(block[8 * i..8 * i + 8]))
  }

  /** The compression function on bytes. */
  function Step(h: seq<bv64>, block: Octets): (r: seq<bv64>) {
    if |h| == 8 && |block| == BLOCK then CompressWords(h, BlockWords(block)) else h
  }

  /** A counter as a machine word. */
  function ToWord(n: U64): bv64 {
    n as bv64
  }

  /** The length in bits as 128 bits, high word first. */
  function LengthTail(length: nat): (r: Octets)
    ensures |r| == 16
  {
    var bits := 8 * length % 0x1_0000_0000_0000_0000_0000_0000_0000_0000;
    Store64(ToWord(bits / 0x1_0000_0000_0000_0000)) + Store64(ToWord(bits % 0x1_0000_0000_0000_0000))
  }

  /** The hash of a message: fold the padded message's blocks (sections 5.1.2 and 6.4). */
  function Digest(message: Octets): (h: seq<bv64>) {
    Fold(Step, BLOCK, InitialHash(), message + Padding(BLOCK, LengthTail(|message|), |message|))
  }

  // ---- words under construction ----

  /** A byte shifted to its place in a big-endian word: `b << (8 * (7 - k))`. */
  function Place(b: bv8, k: nat): bv64
    requires k < 8
  {
    var w := b as bv64;
    match k
    case 0 => w << 56
    case 1 => w << 48
    case 2 => w << 40
    case 3 => w << 32
    case 4 => w << 24
    case 5 => w << 16
    case 6 => w << 8
    case 7 => w
  }

  /** The word that some leading bytes of it make, the rest being zero. */
  function Partial(s: Octets): bv64
    requires |s| <= 8
  {
    if s == [] then 0 else Join(Partial(s[..|s| - 1]), Place(s[|s| - 1], |s| - 1))
  }

  /** `a | b`, under a name that proofs can hide. */
  function Join(a: bv64, b: bv64): bv64 {
    a | b
  }

  lemma {:induction false} PartialWhole(s: Octets)
    requires |s| == 8
    ensures Partial(s) == Load64(s)
  {
    hide Partial, Load64, Place, Join;
    PartialNone(s[..0]);
    PartialNext(s, 1); PartialNext(s, 2); PartialNext(s, 3); PartialNext(s, 4);
    PartialNext(s, 5); PartialNext(s, 6); PartialNext(s, 7); PartialNext(s, 8);
    assert s[..8] == s;
    EightPlaces(s);
  }

  lemma {:induction false} PartialNone(s: Octets)
    requires s == []
    ensures Partial(s) == 0
  {
  }

  lemma {:induction false} EightPlaces(s: Octets)
    requires |s| == 8
    ensures var w := Join(Join(Join(Join(0, Place(s[0], 0)), Place(s[1], 1)), Place(s[2], 2)), Place(s[3], 3));
      Load64(s) == Join(Join(Join(Join(w, Place(s[4], 4)), Place(s[5], 5)), Place(s[6], 6)), Place(s[7], 7))
  {
    ZeroOr((s[0] as bv64) << 56);
  }

  lemma {:induction false} ZeroOr(x: bv64)
    ensures (0 as bv64) | x == x
  {
  }

  lemma {:induction false} PartialNext(s: Octets, k: nat)
    requires 0 < k <= |s| <= 8
    ensures Partial(s[..k]) == Join(Partial(s[..k - 1]), Place(s[k - 1], k - 1))
  {
    hide Place, Join;
    assert s[..k][..k - 1] == s[..k - 1];
  }

  lemma {:induction false} PartialZero(s: Octets)
    requires |s| < 8
    ensures Partial(s + [0]) == Partial(s)
  {
    hide Partial, Place;
    PartialSnoc(s, 0);
    PlaceZero(|s|);
    OrZero(Partial(s));
  }

  lemma {:induction false} PlaceZero(k: nat)
    requires k < 8
    ensures Place(0, k) == 0
  {
  }

  lemma {:induction false} OrZero(x: bv64)
    ensures x | 0 == x
  {
  }

  lemma {:induction false} PartialSnoc(s: Octets, b: bv8)
    requires |s| < 8
    ensures Partial(s + [b]) == Partial(s) | Place(b, |s|)
  {
    hide Place;
    assert (s + [b])[..|s|] == s;
  }

  lemma {:induction false} StoreLoad(x: bv64)
    ensures Load64(Store64(x)) == x
  {
  }

  /** The bytes of word i that are there. */
  function Piece(buf: Octets, i: nat): (r: Octets)
    ensures |r| <= 8
    ensures 8 * i + 8 <= |buf| ==> r == buf[8 * i..8 * i + 8]
  {
    if 8 * i >= |buf| then [] else if 8 * i + 8 <= |buf| then buf[8 * i..8 * i + 8] else buf[8 * i..]
  }

  /** The input words when some bytes have been set. */
  function Words(buf: Octets): (w: seq<bv64>)
    requires |buf| <= BLOCK
    ensures |w| == 16 && forall i :: 0 <= i < 16 ==> w[i] == Partial(Piece(buf, i))
  {
    seq(16, i requires 0 <= i < 16 => Partial(Piece(buf, i)))
  }

  lemma {:induction false} WordsFull(buf: Octets)
    requires |buf| == BLOCK
    ensures Words(buf) == BlockWords(buf)
  {
    hide Partial, Load64;
    forall i | 0 <= i < 16 ensures Words(buf)[i] == BlockWords(buf)[i] { PartialWhole(Piece(buf, i)); }
  }

  /** Setting one more byte changes one word. */
  lemma {:induction false} WordsSnoc(buf: Octets, b: bv8)
    requires |buf| < BLOCK
    ensures var k := |buf| / 8;
      Words(buf + [b]) == Words(buf)[k := Words(buf)[k] | Place(b, |buf| % 8)]
  {
    hide Partial, Place;
    var k := |buf| / 8;
    var all := buf + [b];
    forall i | 0 <= i < 16 && i != k ensures Words(all)[i] == Words(buf)[i] { assert Piece(all, i) == Piece(buf, i); }
    assert Piece(all, k) == Piece(buf, k) + [b] && |Piece(buf, k)| == |buf| % 8;
    PartialSnoc(Piece(buf, k), b);
  }

  /** Setting a whole word at a word boundary. */
  lemma {:induction false} WordsWord(buf: Octets, s: Octets)
    requires |buf| % 8 == 0 && |s| == 8 && |buf| + 8 <= BLOCK
    ensures Words(buf + s) == Words(buf)[|buf| / 8 := Load64(s)]
  {
    hide Partial, Load64;
    var k := |buf| / 8;
    forall i | 0 <= i < 16 && i != k ensures Words(buf + s)[i] == Words(buf)[i] { assert Piece(buf + s, i) == Piece(buf, i); }
    assert Piece(buf + s, k) == s;
    PartialWhole(s);
  }

  lemma {:induction false} WordsZero(buf: Octets)
    requires |buf| < BLOCK
    ensures Words(buf + [0]) == Words(buf)
  {
    hide Partial;
    var k := |buf| / 8;
    forall i | 0 <= i < 16 ensures Words(buf + [0])[i] == Words(buf)[i] {
      if i != k { assert Piece(buf + [0], i) == Piece(buf, i); }
      else {
        assert Piece(buf + [0], k) == Piece(buf, k) + [0];
        PartialZero(Piece(buf, k));
      }
    }
  }

  /** Trailing zeros do not show. */
  lemma {:induction false} WordsZeros(buf: Octets, n: nat)
    requires |buf| + n <= BLOCK
    ensures Words(buf + Zeros(n)) == Words(buf)
  {
    hide Words;
    if n == 0 {
      assert buf + Zeros(0) == buf;
    } else {
      WordsZeros(buf, n - 1);
      WordsZero(buf + Zeros(n - 1));
      assert buf + Zeros(n) == (buf + Zeros(n - 1)) + [0];
    }
  }

  lemma {:induction false} NoWords()
    ensures Words([]) == seq(16, i => 0)
  {
  }
}
