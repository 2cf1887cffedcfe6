/** Both hashes as the standard states them: the padded message, and one chaining value a block. */
module HashMeaning {
  import opened BlockHash
  import opened Nonlinear
  import Bits
  import Sha256
  import Sha512

  /** Folding over blocks is a chain of values, one behind each block. */
  lemma {:induction false} Chain<H>(f: (H, Octets) -> H, size: nat, h: H, data: Octets, n: nat) returns (hs: seq<H>)
    requires size > 0 && |data| == n * size
    ensures |hs| == n + 1 && hs[0] == h && hs[n] == Fold(f, size, h, data)
    ensures forall i :: 0 <= i < n ==> 0 <= i * size && i * size + size <= |data| && hs[i + 1] == f(hs[i], data[i * size..i * size + size])
    decreases n
  {
    if n == 0 {
      hs := [h];
    } else {
      Distribute(n - 1, 1, size);
      MulNonNeg(n - 1, size);
      var rest := Chain(f, size, f(h, data[..size]), data[size..], n - 1);
      hs := [h] + rest;
      forall i | 0 <= i < n ensures 0 <= i * size && i * size + size <= |data| && hs[i + 1] == f(hs[i], data[i * size..i * size + size]) {
        if i > 0 {
          Distribute(i - 1, 1, size);
          BlockBehind(data, size, (i - 1) * size);
        }
      }
    }
  }

  lemma {:induction false} BlockBehind(data: Octets, size: nat, at: nat)
    requires size + at + size <= |data|
    ensures data[size..][at..at + size] == data[at + size..at + size + size]
  {
  }

  lemma {:induction false} MulNonNeg(a: nat, b: nat)
    ensures a * b >= 0
  {
  }

  /** A message with its padding: a one bit, as few zeros as it takes, and a tail for the length. */
  predicate Padded(p: Octets, m: Octets, size: nat, tail: nat) {
    && |m| + 1 + tail <= |p| < |m| + 1 + tail + size
    && p[..|m|] == m && p[|m|] == 0x80 && forall i :: |m| < i < |p| - tail ==> p[i] == 0
  }

  lemma {:induction false} PaddedIs(m: Octets, size: nat, tail: Octets) returns (n: nat)
    requires size > |tail|
    ensures var p := m + Padding(size, tail, |m|);
      Padded(p, m, size, |tail|) && |p| == n * size && p[|p| - |tail|..] == tail
  {
    var p := m + Padding(size, tail, |m|);
    n := |p| / size;
    var zeros := (size - (|m| + 1 + |tail|) % size) % size;
    assert p == m + [0x80 as bv8] + Zeros(zeros) + tail;
  }

  // ---- SHA-512 ----

  /** The working variables start at the chaining value and are added to it. */
  function Next512(h: seq<bv64>, block: Octets): (r: seq<bv64>)
    requires |h| == 8 && |block| == 128
    ensures |r| == 8
  {
    var v := Sha512.Rounds(Sha512.Vars(h[0], h[1], h[2], h[3], h[4], h[5], h[6], h[7]), Sha512.BlockWords(block), 80);
    [Sha512.Plus(h[0], v.a), Sha512.Plus(h[1], v.b), Sha512.Plus(h[2], v.c), Sha512.Plus(h[3], v.d),
     Sha512.Plus(h[4], v.e), Sha512.Plus(h[5], v.f), Sha512.Plus(h[6], v.g), Sha512.Plus(h[7], v.h)]
  }

  lemma {:induction false} Step512(h: seq<bv64>, block: Octets)
    requires |h| == 8 && |block| == 128
    ensures Sha512.Step(h, block) == Next512(h, block)
  {
    hide Sha512.Rounds, Sha512.BlockWords, Sha512.Plus;
  }

  /** Section 6.4 of FIPS 180-4: from the initial value on, each block's working variables start
      at the chaining value and are added to it; the message ends with its length in bits. */
  lemma {:induction false} Digest512(m: Octets) returns (p: Octets, n: nat, hs: seq<seq<bv64>>)
    ensures Padded(p, m, 128, 16) && |p| == n * 128 && |hs| == n + 1
    ensures var bits := 8 * |m| % 0x1_0000_0000_0000_0000_0000_0000_0000_0000;
      && Sha512.Load64(p[|p| - 16..|p| - 8]) == (bits / 0x1_0000_0000_0000_0000) as bv64
      && Sha512.Load64(p[|p| - 8..]) == (bits % 0x1_0000_0000_0000_0000) as bv64
    ensures hs[0] == [0x6a09e667f3bcc908, 0xbb67ae8584caa73b, 0x3c6ef372fe94f82b, 0xa54ff53a5f1d36f1,
                      0x510e527fade682d1, 0x9b05688c2b3e6c1f, 0x1f83d9abfb41bd6b, 0x5be0cd19137e2179]
    ensures hs[n] == Sha512.Digest(m)
    ensures forall i :: 0 <= i < n ==> |hs[i]| == 8 && hs[i + 1] == Next512(hs[i], p[i * 128..i * 128 + 128])
  {
    hide Padding, Sha512.LengthTail, Sha512.Step, Sha512.Load64, Next512, Fold, Padded;
    var tail := Sha512.LengthTail(|m|);
    n := PaddedIs(m, 128, tail);
    p := m + Padding(128, tail, |m|);
    hs := Chain(Sha512.Step, 128, Sha512.InitialHash(), p, n);
    TailWords(|m|);
    assert p[|p| - 16..|p| - 8] == tail[..8] && p[|p| - 8..] == tail[8..];
    Steps512(hs, p, n);
  }

  lemma {:induction false} Steps512(hs: seq<seq<bv64>>, p: Octets, n: nat)
    requires |hs| == n + 1 && |p| == n * 128 && |hs[0]| == 8
    requires forall i :: 0 <= i < n ==> hs[i + 1] == Sha512.Step(hs[i], p[i * 128..i * 128 + 128])
    ensures forall i :: 0 <= i < n ==> |hs[i]| == 8 && hs[i + 1] == Next512(hs[i], p[i * 128..i * 128 + 128])
  {
    hide Sha512.Step, Next512;
    for k := 0 to n
      invariant |hs[k]| == 8
      invariant forall i :: 0 <= i < k ==> |hs[i]| == 8 && hs[i + 1] == Next512(hs[i], p[i * 128..i * 128 + 128])
    {
      Step512(hs[k], p[k * 128..k * 128 + 128]);
    }
  }

  lemma {:induction false} TailWords(length: nat)
    ensures var (tail, bits) := (Sha512.LengthTail(length), 8 * length % 0x1_0000_0000_0000_0000_0000_0000_0000_0000);
      && Sha512.Load64(tail[..8]) == (bits / 0x1_0000_0000_0000_0000) as bv64
      && Sha512.Load64(tail[8..]) == (bits % 0x1_0000_0000_0000_0000) as bv64
  {
    hide Sha512.Store64, Sha512.Load64;
    var bits := 8 * length % 0x1_0000_0000_0000_0000_0000_0000_0000_0000;
    var (hi, lo) := (Sha512.ToWord(bits / 0x1_0000_0000_0000_0000), Sha512.ToWord(bits % 0x1_0000_0000_0000_0000));
    Sha512.StoreLoad(hi);
    Sha512.StoreLoad(lo);
    var tail := Sha512.LengthTail(length);
    assert tail[..8] == Sha512.Store64(hi) && tail[8..] == Sha512.Store64(lo);
  }

  // ---- SHA-256 ----

  /** The working variables start at the chaining value and are added to it. */
  function Next256(h: seq<bv32>, block: Octets): (r: seq<bv32>)
    requires |h| == 8 && |block| == 64
    ensures |r| == 8
  {
    var v := Sha256.Rounds(Sha256.Vars(h[0], h[1], h[2], h[3], h[4], h[5], h[6], h[7]), block, 64);
    [Sha256.Plus(h[0], v.a), Sha256.Plus(h[1], v.b), Sha256.Plus(h[2], v.c), Sha256.Plus(h[3], v.d),
     Sha256.Plus(h[4], v.e), Sha256.Plus(h[5], v.f), Sha256.Plus(h[6], v.g), Sha256.Plus(h[7], v.h)]
  }

  lemma {:induction false} Step256(h: seq<bv32>, block: Octets)
    requires |h| == 8 && |block| == 64
    ensures Sha256.Step(h, block) == Next256(h, block)
  {
    hide Sha256.Rounds;
  }

  /** Section 6.2 of FIPS 180-4, in the same way. */
  lemma {:induction false} Digest256(m: Octets) returns (p: Octets, n: nat, hs: seq<seq<bv32>>)
    ensures Padded(p, m, 64, 8) && |p| == n * 64 && |hs| == n + 1
    ensures CountBytes(p[|p| - 8..], 8 * |m| % 0x1_0000_0000_0000_0000)
    ensures hs[0] == [0x6a09e667, 0xbb67ae85, 0x3c6ef372, 0xa54ff53a, 0x510e527f, 0x9b05688c, 0x1f83d9ab, 0x5be0cd19]
    ensures hs[n] == Sha256.Digest(m)
    ensures forall i :: 0 <= i < n ==> |hs[i]| == 8 && hs[i + 1] == Next256(hs[i], p[i * 64..i * 64 + 64])
  {
    hide Padding, Sha256.LengthTail, Sha256.Step, Next256, Fold, CountBytes, Padded;
    var tail := Sha256.LengthTail(|m|);
    n := PaddedIs(m, 64, tail);
    p := m + Padding(64, tail, |m|);
    hs := Chain(Sha256.Step, 64, Sha256.InitialHash(), p, n);
    TailBytes(|m|);
    assert p[|p| - 8..] == tail;
    Steps256(hs, p, n);
  }

  lemma {:induction false} Steps256(hs: seq<seq<bv32>>, p: Octets, n: nat)
    requires |hs| == n + 1 && |p| == n * 64 && |hs[0]| == 8
    requires forall i :: 0 <= i < n ==> hs[i + 1] == Sha256.Step(hs[i], p[i * 64..i * 64 + 64])
    ensures forall i :: 0 <= i < n ==> |hs[i]| == 8 && hs[i + 1] == Next256(hs[i], p[i * 64..i * 64 + 64])
  {
    hide Sha256.Step, Next256;
    for k := 0 to n
      invariant |hs[k]| == 8
      invariant forall i :: 0 <= i < k ==> |hs[i]| == 8 && hs[i + 1] == Next256(hs[i], p[i * 64..i * 64 + 64])
    {
      Step256(hs[k], p[k * 64..k * 64 + 64]);
    }
  }

  lemma {:induction false} TailBytes(length: nat)
    ensures CountBytes(Sha256.LengthTail(length), 8 * length % 0x1_0000_0000_0000_0000)
  {
    hide Bits.Pow2, Sha256.LengthTail;
    Bits.BytePowers();
    TailByte(length, 0, 0x100_0000_0000_0000);
    TailByte(length, 1, 0x1_0000_0000_0000);
    TailByte(length, 2, 0x100_0000_0000);
    TailByte(length, 3, 0x1_0000_0000);
    TailByte(length, 4, 0x100_0000);
    TailByte(length, 5, 0x1_0000);
    TailByte(length, 6, 0x100);
    TailByte(length, 7, 1);
  }

  lemma {:induction false} TailByte(length: nat, i: nat, p: nat)
    requires i < 8 && p == Bits.Pow2(56 - 8 * i) > 0
    ensures Sha256.LengthTail(length)[i] == (8 * length % 0x1_0000_0000_0000_0000 / p % 0x100) as bv8
  {
    hide Bits.Pow2;
  }

  /** A 64-bit number, high byte first. */
  predicate CountBytes(s: Octets, n: nat) {
    && |s| == 8
    && s[0] == (n / 0x100_0000_0000_0000 % 0x100) as bv8 && s[1] == (n / 0x1_0000_0000_0000 % 0x100) as bv8
    && s[2] == (n / 0x100_0000_0000 % 0x100) as bv8 && s[3] == (n / 0x1_0000_0000 % 0x100) as bv8
    && s[4] == (n / 0x100_0000 % 0x100) as bv8 && s[5] == (n / 0x1_0000 % 0x100) as bv8
    && s[6] == (n / 0x100 % 0x100) as bv8 && s[7] == (n % 0x100) as bv8
  }
}
