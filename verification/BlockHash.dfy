/** Streaming over fixed-size blocks: what any sequence of updates leaves is what the whole
    message leaves. Shared by both hash functions. */
module BlockHash {
  import opened Nonlinear

  type Octets = seq<bv8>

  /** Fold a compression function over the full blocks of some data. */
  function Fold<H>(f: (H, Octets) -> H, size: nat, h: H, data: Octets): H
    requires size > 0
    decreases |data|
  {
    if |data| < size then h else Fold(f, size, f(h, data[..size]), data[size..])
  }

  /** What remains after the full blocks. */
  function Rest(size: nat, data: Octets): (r: Octets)
    requires size > 0
    ensures |r| < size && |r| <= |data| && r == data[|data| - |r|..]
    decreases |data|
  {
    if |data| < size then data else Rest(size, data[size..])
  }

  lemma {:induction false} RestLength(size: nat, data: Octets)
    requires size > 0
    ensures |Rest(size, data)| == |data| % size
    decreases |data|
  {
    BlockLess(|data|, size);
    if |data| >= size { RestLength(size, data[size..]); }
  }

  lemma {:induction false} BlockLess(n: nat, size: nat)
    requires size > 0
    ensures n % size == if n < size then n else (n - size) % size
  {
    if n < size { DivModUnique(n, size, 0, n); } else { ModShift(n - size, 1, size); }
  }

  /** The state of a streaming hash: the chaining value and the bytes of the unfinished block. */
  datatype Stream<H> = Stream(h: H, pending: Octets)

  function Absorb<H>(f: (H, Octets) -> H, size: nat, s: Stream<H>, data: Octets): Stream<H>
    requires size > 0
  {
    Stream(Fold(f, size, s.h, s.pending + data), Rest(size, s.pending + data))
  }

  lemma {:induction false} FoldRest<H>(f: (H, Octets) -> H, size: nat, h: H, a: Octets, b: Octets)
    requires size > 0
    ensures Fold(f, size, h, a + b) == Fold(f, size, Fold(f, size, h, a), Rest(size, a) + b)
    ensures Rest(size, a + b) == Rest(size, Rest(size, a) + b)
    decreases |a|
  {
    if |a| >= size {
      assert (a + b)[..size] == a[..size] && (a + b)[size..] == a[size..] + b;
      FoldRest(f, size, f(h, a[..size]), a[size..], b);
    }
  }

  /** Two updates are one. */
  lemma {:induction false} AbsorbTwice<H>(f: (H, Octets) -> H, size: nat, s: Stream<H>, a: Octets, b: Octets)
    requires size > 0
    ensures Absorb(f, size, Absorb(f, size, s, a), b) == Absorb(f, size, s, a + b)
  {
    hide Fold, Rest;
    FoldRest(f, size, s.h, s.pending + a, b);
    assert s.pending + a + b == s.pending + (a + b);
  }

  /** Data that does not complete the block is only kept. */
  lemma {:induction false} AbsorbShort<H>(f: (H, Octets) -> H, size: nat, s: Stream<H>, data: Octets)
    requires size > 0 && |s.pending| + |data| < size
    ensures Absorb(f, size, s, data) == Stream(s.h, s.pending + data)
  {
  }

  function Flatten(pieces: seq<Octets>): Octets {
    if pieces == [] then [] else Flatten(pieces[..|pieces| - 1]) + pieces[|pieces| - 1]
  }

  /** A sequence of updates. */
  function Updates<H>(f: (H, Octets) -> H, size: nat, s: Stream<H>, pieces: seq<Octets>): Stream<H>
    requires size > 0
  {
    if pieces == [] then s else Absorb(f, size, Updates(f, size, s, pieces[..|pieces| - 1]), pieces[|pieces| - 1])
  }

  /** Any split of a message into updates leaves what the message leaves. */
  lemma {:induction false} AnySplit<H>(f: (H, Octets) -> H, size: nat, h: H, pieces: seq<Octets>)
    requires size > 0
    ensures Updates(f, size, Stream(h, []), pieces) == Absorb(f, size, Stream(h, []), Flatten(pieces))
    decreases |pieces|
  {
    hide Absorb;
    if pieces == [] {
      AbsorbShort(f, size, Stream(h, []), []);
    } else {
      AnySplit(f, size, h, pieces[..|pieces| - 1]);
      AbsorbTwice(f, size, Stream(h, []), Flatten(pieces[..|pieces| - 1]), pieces[|pieces| - 1]);
    }
  }

  function Zeros(n: nat): (r: Octets)
    ensures |r| == n
  {
    seq(n, i => 0)
  }

  /** The padding of a message of the given length: a one bit, then zeros, then the length. */
  function Padding(size: nat, tail: Octets, length: nat): (r: Octets)
    requires size > |tail|
    ensures |r| > |tail| && (length + |r|) % size == 0
  {
    var zeros := (size - (length + 1 + |tail|) % size) % size;
    var r := [0x80 as bv8] + Zeros(zeros) + tail;
    assert |r| == 1 + zeros + |tail|;
    PaddingFits(length + 1 + |tail|, size);
    r
  }

  /** How many zeros the padding takes behind k pending bytes. */
  lemma {:induction false} PaddingZeros(size: nat, tail: nat, n: nat)
    requires tail < size
    ensures var k := n % size;
      (size - (n + 1 + tail) % size) % size == if k + 1 + tail <= size then size - (k + 1 + tail) else 2 * size - (k + 1 + tail)
  {
    var q, k := n / size, n % size;
    var m := k + 1 + tail;
    assert n + 1 + tail == q * size + m;
    if m < size {
      DivModUnique(n + 1 + tail, size, q, m);
      DivModUnique(size - m, size, 0, size - m);
    } else {
      Distribute(q, 1, size);
      DivModUnique(n + 1 + tail, size, q + 1, m - size);
      if m == size { DivModUnique(size, size, 1, 0); } else { DivModUnique(2 * size - m, size, 0, 2 * size - m); }
    }
  }

  /** One more piece. */
  lemma {:induction false} FlattenNext(pieces: seq<Octets>, i: nat)
    requires i < |pieces|
    ensures Flatten(pieces[..i + 1]) == Flatten(pieces[..i]) + pieces[i]
  {
    assert pieces[..i + 1][..i] == pieces[..i];
  }

  lemma {:induction false} PaddingFits(n: nat, size: nat)
    requires size > 0
    ensures (n + (size - n % size) % size) % size == 0
  {
    var q, r := n / size, n % size;
    if r == 0 {
      DivModUnique(size, size, 1, 0);
    } else {
      DivModUnique(size - r, size, 0, size - r);
      Distribute(q, 1, size);
      DivModUnique(n + (size - r), size, q + 1, 0);
    }
  }
}
