/** The streaming SHA-512 context, updated in place. */
module Sha512Code {
  import opened Bits
  import opened BlockHash
  import opened Nonlinear
  import opened Sha512

  const M128: nat := 0x1_0000_0000_0000_0000_0000_0000_0000_0000

  // ---- compression ----

  lemma {:induction false} PlusLaws(x: bv64, y: bv64, z: bv64)
    ensures Plus(Plus(x, y), z) == Plus(x, Plus(y, z)) && Plus(x, y) == Plus(y, x)
  {
  }

  lemma {:induction false} RoundOrder(h: bv64, s: bv64, c: bv64, k: bv64, w: bv64)
    ensures Plus(Plus(Plus(s, c), h), Plus(k, w)) == Plus(Plus(Plus(Plus(h, s), c), k), w)
  {
    hide Plus;
    PlusLaws(Plus(s, c), h, h);
    PlusLaws(h, s, c);
    PlusLaws(Plus(Plus(h, s), c), k, w);
  }

  lemma {:induction false} ScheduleOrder(w16: bv64, s1: bv64, s0: bv64, w7: bv64)
    ensures Plus(Plus(Plus(w16, s1), s0), w7) == Plus(Plus(Plus(s1, w7), s0), w16)
  {
    hide Plus;
    PlusLaws(w16, s1, s0);
    PlusLaws(w16, Plus(s1, s0), w7);
    PlusLaws(w16, Plus(Plus(s1, s0), w7), w7);
    PlusLaws(s1, s0, w7);
    PlusLaws(s0, w7, w7);
    PlusLaws(s1, w7, s0);
  }

  /** A round as the code computes it. */
  lemma {:induction false} RoundIs(v: Vars, k: bv64, w: bv64)
    ensures Round(v, k, w) == OneRound(v, Plus(k, w))
  {
    hide BigSigma0, BigSigma1, Ch, Maj, Plus;
    RoundOrder(v.h, BigSigma1(v.e), Ch(v.e, v.f, v.g), k, w);
  }

  /** The assignments of one round, in = k + w. */
  function OneRound(v: Vars, in_: bv64): Vars {
    var t1 := Plus(Plus(Plus(BigSigma1(v.e), Ch(v.e, v.f, v.g)), v.h), in_);
    var t2 := Plus(BigSigma0(v.a), Maj(v.a, v.b, v.c));
    Vars(Plus(t1, t2), v.a, v.b, v.c, Plus(v.d, t1), v.e, v.f, v.g)
  }

  /** Which schedule word slot k of the sixteen holds when t words have been produced. */
  function Slot(t: nat, k: nat): nat
    requires t >= 16 && k < 16
  {
    if k < t % 16 then t - t % 16 + k else t - t % 16 - 16 + k
  }

  ghost predicate Scheduled(words: seq<bv64>, block: seq<bv64>, t: nat) {
    |words| == 16 && |block| == 16 && t >= 16 && forall k :: 0 <= k < 16 ==> words[k] == W(block, Slot(t, k))
  }

  /** The in-place step produces the next word of the 80-word schedule. */
  lemma {:induction false} ScheduleStep(words: seq<bv64>, block: seq<bv64>, t: nat)
    requires Scheduled(words, block, t) && t < 80
    ensures var j := t % 16;
      var next := Plus(Plus(Plus(words[j], LitSigma1(words[(j + 14) % 16])), LitSigma0(words[(j + 1) % 16])), words[(j + 9) % 16]);
      next == W(block, t) && Scheduled(words[j := next], block, t + 1)
  {
    hide LitSigma0, LitSigma1, Plus;
    var j := t % 16;
    SlotsBefore(t);
    ScheduleOrder(words[j], LitSigma1(words[(j + 14) % 16]), LitSigma0(words[(j + 1) % 16]), words[(j + 9) % 16]);
    assert words[j] == W(block, t - 16) && words[(j + 14) % 16] == W(block, t - 2);
    assert words[(j + 1) % 16] == W(block, t - 15) && words[(j + 9) % 16] == W(block, t - 7);
    StillScheduled(words, block, t, W(block, t));
  }

  lemma {:induction false} SlotsBefore(t: nat)
    requires t >= 16
    ensures var j := t % 16;
      Slot(t, j) == t - 16 && Slot(t, (j + 14) % 16) == t - 2 && Slot(t, (j + 1) % 16) == t - 15 && Slot(t, (j + 9) % 16) == t - 7
  {
  }

  lemma {:induction false} StillScheduled(words: seq<bv64>, block: seq<bv64>, t: nat, next: bv64)
    requires Scheduled(words, block, t) && next == W(block, t)
    ensures Scheduled(words[t % 16 := next], block, t + 1)
  {
    hide W, Slot;
    var after := words[t % 16 := next];
    forall k | 0 <= k < 16 ensures after[k] == W(block, Slot(t + 1, k)) { NextSlot(t, k); }
  }

  lemma {:induction false} NextSlot(t: nat, k: nat)
    requires t >= 16 && k < 16
    ensures Slot(t + 1, k) == if k == t % 16 then t else Slot(t, k)
  {
  }

  lemma {:induction false} RoundsNext(v: Vars, block: seq<bv64>, t: nat)
    requires |block| == 16 && t < 80
    ensures Rounds(v, block, t + 1) == Round(Rounds(v, block, t), K()[t], W(block, t))
    ensures Rounds(v, block, 0) == v
  {
    hide Round, K, W;
  }

  /** The first sixteen rounds use the input as it is. */
  method FirstRounds(start: Vars, input: array<bv64>) returns (v: Vars)
    requires input.Length == 16
    ensures v == Rounds(start, input[..], 16)
  {
    hide K, W, Round, Rounds, OneRound, Plus;
    v := start;
    RoundsNext(start, input[..], 0);
    for j := 0 to 16
      invariant v == Rounds(start, input[..], j)
    {
      FirstWords(input[..], j);
      RoundsNext(start, input[..], j);
      RoundIs(v, K()[j], input[j]);
      v := OneRound(v, Plus(K()[j], input[j]));
    }
  }

  lemma {:induction false} SlotOf(i16: nat, j: nat)
    requires j < 16 && i16 % 16 == 0
    ensures (i16 + j) % 16 == j
  {
  }

  /** Extend the schedule in place. */
  method Extend(input: array<bv64>, i16: nat, j: nat, ghost block: seq<bv64>) returns (next: bv64)
    requires input.Length == 16 && |block| == 16 && j < 16 && i16 % 16 == 0 && 16 <= i16 && i16 + j < 80
    requires Scheduled(input[..], block, i16 + j)
    modifies input
    ensures next == W(block, i16 + j) && Scheduled(input[..], block, i16 + j + 1)
  {
    hide W, LitSigma0, LitSigma1, Scheduled, Plus;
    ghost var words := input[..];
    ScheduleStep(words, block, i16 + j);
    SlotOf(i16, j);
    next := Plus(Plus(Plus(input[j], LitSigma1(input[(j + 14) % 16])), LitSigma0(input[(j + 1) % 16])), input[(j + 9) % 16]);
    input[j] := next;
    assert input[..] == words[j := next];
  }

  /** One later round: extend the schedule, then mix. */
  method LaterRound(old_: Vars, input: array<bv64>, i16: nat, j: nat, ghost start: Vars, ghost block: seq<bv64>) returns (v: Vars)
    requires input.Length == 16 && |block| == 16 && j < 16 && i16 % 16 == 0 && 16 <= i16 && i16 + j < 80
    requires old_ == Rounds(start, block, i16 + j) && Scheduled(input[..], block, i16 + j)
    modifies input
    ensures v == Rounds(start, block, i16 + j + 1) && Scheduled(input[..], block, i16 + j + 1)
  {
    hide K, W, Round, Rounds, OneRound, Scheduled, Plus;
    var next := Extend(input, i16, j, block);
    RoundsNext(start, block, i16 + j);
    RoundIs(old_, K()[i16 + j], next);
    v := OneRound(old_, Plus(K()[i16 + j], next));
  }

  /** Compress the sixteen input words into the hash, extending the schedule in place. */
  method Compress(hash: array<bv64>, input: array<bv64>)
    requires hash.Length == 8 && input.Length == 16 && hash != input
    modifies hash, input
    ensures hash[..] == CompressWords(old(hash[..]), old(input[..]))
  {
    hide K, W, Rounds, Scheduled, AddVars;
    ghost var block, start := input[..], VarsOf(hash[..]);
    var v := FirstRounds(Vars(hash[0], hash[1], hash[2], hash[3], hash[4], hash[5], hash[6], hash[7]), input);
    FirstScheduled(block);
    var i16 := 0;
    for i := 1 to 5
      invariant i16 == 16 * i - 16 && v == Rounds(start, block, i16 + 16) && Scheduled(input[..], block, i16 + 16)
      invariant hash[..] == old(hash[..])
    {
      i16 := i16 + 16;
      for j := 0 to 16
        invariant v == Rounds(start, block, i16 + j) && Scheduled(input[..], block, i16 + j)
        invariant hash[..] == old(hash[..])
      {
        v := LaterRound(v, input, i16, j, start, block);
      }
    }
    AddInto(hash, v);
  }

  lemma {:induction false} FirstWords(block: seq<bv64>, j: nat)
    requires |block| == 16 && j < 16
    ensures W(block, j) == block[j]
  {
  }

  lemma {:induction false} FirstScheduled(block: seq<bv64>)
    requires |block| == 16
    ensures Scheduled(block, block, 16)
  {
  }

  method AddInto(hash: array<bv64>, v: Vars)
    requires hash.Length == 8
    modifies hash
    ensures hash[..] == AddVars(old(hash[..]), v)
  {
    hide Plus;
    hash[0], hash[1], hash[2], hash[3], hash[4], hash[5], hash[6], hash[7] :=
      Plus(hash[0], v.a), Plus(hash[1], v.b), Plus(hash[2], v.c), Plus(hash[3], v.d),
      Plus(hash[4], v.e), Plus(hash[5], v.f), Plus(hash[6], v.g), Plus(hash[7], v.h);
  }

  // ---- the context ----

  /** How many bytes align x: `-x & (p - 1)` for a power of two p. */
  function Align(x: nat, p: nat): nat
    requires p > 0
  {
    (p - x % p) % p
  }

  /** The whole words that fit the current block, in bytes: `MIN(align(idx, 128), size) >> 3`. */
  function BlockTake(idx: nat, size: nat): nat {
    (if Align(idx, 128) < size then Align(idx, 128) else size) / 8 * 8
  }

  /** Adding with a carry into the high word. */
  lemma {:induction false} AddWords(hi: U64, lo: U64, y: U64)
    ensures var l := (lo + y) % 0x1_0000_0000_0000_0000;
      var h := if l < y then (hi + 1) % 0x1_0000_0000_0000_0000 else hi;
      h * 0x1_0000_0000_0000_0000 + l == (hi * 0x1_0000_0000_0000_0000 + lo + y) % 0x1_0000_0000_0000_0000_0000_0000_0000_0000
  {
    if lo + y < 0x1_0000_0000_0000_0000 {
      assert (lo + y) % 0x1_0000_0000_0000_0000 == lo + y;
    } else {
      assert (lo + y) % 0x1_0000_0000_0000_0000 == lo + y - 0x1_0000_0000_0000_0000;
    }
  }

  lemma {:induction false} AlignIs(idx: nat)
    requires idx <= 128
    ensures idx % 128 != 0 ==> 0 < idx < 128 && Align(idx, 128) == 128 - idx
    ensures idx % 128 == 0 ==> idx == 0 || idx == 128
  {
  }

  lemma {:induction false} EightTimes(m: nat)
    ensures 8 * m / 8 == m && 8 * m % 8 == 0
  {
  }

  lemma {:induction false} BlockTakes(idx: nat, size: nat)
    requires idx <= 128 && (size > 0 ==> idx % 8 == 0)
    ensures idx % 128 != 0 ==>
      var n := BlockTake(idx, size);
      n <= size && n % 8 == 0 && idx + n <= 128 && (idx + n == 128 || size - n < 8) && (size > n ==> (idx + n) % 8 == 0)
    ensures idx % 128 == 0 ==> idx == 0 || idx == 128
  {
    hide Align;
    AlignIs(idx);
    if idx % 128 != 0 {
      var room := if 128 - idx < size then 128 - idx else size;
      var k := room / 8;
      EightTimes(k);
      if size > 0 {
        var w := idx / 8;
        EightTimes(w + k);
        EightTimes(16 - w);
      }
    }
  }

  function Output(h: seq<bv64>): Octets
    requires |h| == 8
  {
    Store64(h[0]) + Store64(h[1]) + Store64(h[2]) + Store64(h[3]) + Store64(h[4]) + Store64(h[5]) + Store64(h[6]) + Store64(h[7])
  }

  class Context {
    const hash: array<bv64>
    const input: array<bv64>
    var sizeHi: U64
    var sizeLo: U64
    var inputIdx: nat
    ghost var message: Octets

    predicate Shaped() {
      hash.Length == 8 && input.Length == 16 && hash != input
    }

    /** The words in the input array are those of the pending bytes. */
    ghost predicate Pending(p: Octets)
      requires Shaped()
      reads this, input
    {
      |p| <= BLOCK && inputIdx == |p| && input[..] == Words(p)
    }

    function Size(): nat
      reads this
    {
      sizeHi * 0x1_0000_0000_0000_0000 + sizeLo
    }

    /** The context holds what absorbing the message so far leaves. */
    ghost predicate Valid()
      reads this, hash, input
    {
      Shaped() && var s := Absorb(Step, BLOCK, Stream(InitialHash(), []), message);
        hash[..] == s.h && Pending(s.pending) && Size() == 8 * (|message| - inputIdx) % 0x1_0000_0000_0000_0000_0000_0000_0000_0000
    }

    constructor ()
      ensures Valid() && message == [] && fresh(hash) && fresh(input)
    {
      hide Words, Step, InitialHash, Absorb;
      hash := new bv64[8](i requires 0 <= i < 8 => InitialHash()[i]);
      input := new bv64[16](i => 0);
      sizeHi, sizeLo, inputIdx, message := 0, 0, 0, [];
      new;
      assert hash[..] == InitialHash();
      AbsorbShort(Step, BLOCK, Stream(InitialHash(), []), []);
      NoWords();
      assert input[..] == Words([]);
    }

    /** Write one input byte. */
    method SetInput(b: bv8, ghost p: Octets)
      requires Shaped() && Pending(p) && |p| < BLOCK
      modifies this`inputIdx, input
      ensures Pending(p + [b])
    {
      hide Words, Place;
      WordsSnoc(p, b);
      var word := inputIdx / 8;
      input[word] := input[word] | Place(b, inputIdx % 8);
      inputIdx := inputIdx + 1;
    }

    /** Write some bytes, one by one. */
    method SetBytes(data: Octets, ghost p: Octets)
      requires Shaped() && Pending(p) && |p| + |data| <= BLOCK
      modifies this`inputIdx, input
      ensures Pending(p + data)
    {
      hide Words;
      assert p + data[..0] == p;
      for i := 0 to |data|
        invariant Pending(p + data[..i])
      {
        SetInput(data[i], p + data[..i]);
        assert p + data[..i + 1] == p + data[..i] + [data[i]];
      }
      assert data[..|data|] == data;
    }

    /** Write one whole word at a word boundary. */
    method LoadWord(s: Octets, ghost p: Octets)
      requires Shaped() && Pending(p) && |p| % 8 == 0 && |s| == 8 && |p| + 8 <= BLOCK
      modifies this`inputIdx, input
      ensures Pending(p + s)
    {
      hide Words, Load64;
      WordsWord(p, s);
      input[inputIdx / 8] := Load64(s);
      inputIdx := inputIdx + 8;
    }

    /** Write whole words at a word boundary. */
    method LoadWords(data: Octets, ghost p: Octets)
      requires Shaped() && Pending(p) && (data != [] ==> |p| % 8 == 0) && |data| % 8 == 0 && |p| + |data| <= BLOCK
      modifies this`inputIdx, input
      ensures Pending(p + data)
    {
      hide Words, Load64, Pending;
      assert p + data[..0] == p;
      var nbWords := |data| / 8;
      for i := 0 to nbWords
        invariant Pending(p + data[..8 * i])
      {
        var s := data[8 * i..8 * i + 8];
        LoadWord(s, p + data[..8 * i]);
        assert p + data[..8 * (i + 1)] == p + data[..8 * i] + s;
      }
      assert data[..|data|] == data;
    }

    /** Increment the 128-bit size. */
    method Increment(y: U64)
      modifies this`sizeHi, this`sizeLo
      ensures Size() == (old(Size()) + y) % 0x1_0000_0000_0000_0000_0000_0000_0000_0000
    {
      AddWords(sizeHi, sizeLo, y);
      sizeLo := (sizeLo + y) % 0x1_0000_0000_0000_0000;
      if sizeLo < y {
        sizeHi := (sizeHi + 1) % 0x1_0000_0000_0000_0000;
      }
    }

    /** Compress a full input, and start over. */
    method CompressInput(ghost p: Octets)
      requires Shaped() && Pending(p) && |p| == BLOCK
      modifies this`sizeHi, this`sizeLo, this`inputIdx, hash, input
      ensures hash[..] == Step(old(hash[..]), p) && Pending([])
      ensures Size() == (old(Size()) + 1024) % 0x1_0000_0000_0000_0000_0000_0000_0000_0000
    {
      hide CompressWords, Words;
      WordsFull(p);
      Increment(1024);
      Compress(hash, input);
      inputIdx := 0;
      ZeroInput(16);
      NoWords();
    }

    method ZeroInput(n: nat)
      requires Shaped() && n <= 16
      modifies input
      ensures input[..] == seq(n, i => 0) + old(input[n..])
    {
      forall i | 0 <= i < n { input[i] := 0; }
    }

    /** In the middle of an update: what is absorbed, pending and left makes the target, and the
        size counts the compressed bytes. */
    ghost predicate Midway(p: Octets, rest: Octets, target: Stream<seq<bv64>>, total: nat)
      reads this, hash, input
    {
      && Shaped() && Pending(p) && |p| + |rest| <= total && (rest != [] ==> |p| % 8 == 0 || |p| < BLOCK)
      && Absorb(Step, BLOCK, Stream(hash[..], p), rest) == target
      && Size() == 8 * (total - |p| - |rest|) % 0x1_0000_0000_0000_0000_0000_0000_0000_0000
    }

    /** Fill up the current word. */
    method AlignWord(data: Octets, ghost p: Octets, ghost target: Stream<seq<bv64>>, ghost total: nat) returns (rest: Octets, ghost q: Octets)
      requires Midway(p, data, target, total) && |p| < BLOCK
      modifies this`inputIdx, input
      ensures Midway(q, rest, target, total) && (rest != [] ==> |q| % 8 == 0)
    {
      hide Absorb, Step, Words;
      rest, q := data, p;
      if inputIdx % 8 != 0 {
        var nbBytes := if Align(inputIdx, 8) < |data| then Align(inputIdx, 8) else |data|;
        Feed(hash[..], p, data[..nbBytes], data[nbBytes..]);
        assert data == data[..nbBytes] + data[nbBytes..];
        SetBytes(data[..nbBytes], p);
        rest, q := data[nbBytes..], p + data[..nbBytes];
      }
    }

    /** Fill up the current block, by words. */
    method AlignBlock(data: Octets, ghost p: Octets, ghost target: Stream<seq<bv64>>, ghost total: nat) returns (rest: Octets, ghost q: Octets)
      requires Midway(p, data, target, total) && (data != [] ==> |p| % 8 == 0)
      modifies this`inputIdx, input
      ensures Midway(q, rest, target, total) && (rest != [] ==> |q| % 8 == 0)
      ensures |q| == 0 || |q| == BLOCK || |rest| < 8
    {
      hide Absorb, Step, Words, BlockTake;
      rest, q := data, p;
      BlockTakes(inputIdx, |data|);
      if inputIdx % 128 != 0 {
        var n := BlockTake(inputIdx, |data|);
        Feed(hash[..], p, data[..n], data[n..]);
        assert data == data[..n] + data[n..];
        LoadWords(data[..n], p);
        rest, q := data[n..], p + data[..n];
      }
    }

    /** Compress the block if it is full. */
    method CompressIfFull(ghost p: Octets, ghost rest: Octets, ghost target: Stream<seq<bv64>>, ghost total: nat) returns (ghost q: Octets)
      requires Midway(p, rest, target, total) && (rest != [] ==> |p| % 8 == 0)
      modifies this`sizeHi, this`sizeLo, this`inputIdx, hash, input
      ensures Midway(q, rest, target, total) && q == (if |p| == BLOCK then [] else p)
    {
      hide Absorb, Step, Words;
      q := p;
      if inputIdx == 128 {
        FullBlock(hash[..], p, rest);
        SizeStep(8 * (total - |p| - |rest|));
        CompressInput(p);
        q := [];
      }
    }

    /** The blocks of the message. */
    method CompressBlocks(data: Octets, ghost p: Octets, ghost target: Stream<seq<bv64>>, ghost total: nat) returns (rest: Octets)
      requires Midway(p, data, target, total) && |p| < BLOCK && (data != [] ==> |p| % 8 == 0) && (p == [] || |data| < 8)
      modifies this`sizeHi, this`sizeLo, this`inputIdx, hash, input
      ensures Midway(p, rest, target, total) && |rest| < BLOCK && (p == [] || |rest| < 8) && (rest != [] ==> |p| % 8 == 0)
    {
      hide Absorb, Step, Words;
      rest := data;
      while |rest| >= 128
        invariant Midway(p, rest, target, total) && (rest != [] ==> |p| % 8 == 0) && (p == [] || |rest| < 8)
      {
        var block, later := rest[..128], rest[128..];
        assert rest == block + later && p == [] && [] + block == block;
        Feed(hash[..], [], block, later);
        LoadWords(block, []);
        FullBlock(hash[..], block, later);
        SizeStep(8 * (total - |rest|));
        CompressInput(block);
        rest := later;
      }
    }

    method Update(data: Octets)
      requires Valid()
      modifies this, hash, input
      ensures Valid() && message == old(message) + data
    {
      hide Absorb, Step, Words;
      if |data| == 0 {
        assert message + data == message;
        return;
      }
      ghost var s := Absorb(Step, BLOCK, Stream(InitialHash(), []), message);
      ghost var total, target := |message| + |data|, Absorb(Step, BLOCK, s, data);
      AbsorbTwice(Step, BLOCK, Stream(InitialHash(), []), message, data);
      PendingShort(message);
      ghost var p := Process(data, s.pending, target, total);
      AbsorbShort(Step, BLOCK, Stream(hash[..], p), []);
      assert p + [] == p;
      message := message + data;
    }

    /** Take in all of the data. */
    method Process(data: Octets, ghost p: Octets, ghost target: Stream<seq<bv64>>, ghost total: nat) returns (ghost q: Octets)
      requires Midway(p, data, target, total) && |p| < BLOCK
      modifies this`sizeHi, this`sizeLo, this`inputIdx, hash, input
      ensures Midway(q, [], target, total) && |q| < BLOCK
    {
      hide Absorb, Step, Words;
      var rest;
      rest, q := AlignWord(data, p, target, total);
      rest, q := AlignBlock(rest, q, target, total);
      q := CompressIfFull(q, rest, target, total);
      rest := CompressBlocks(rest, q, target, total);
      q := KeepRest(rest, q, target, total);
    }

    /** Keep what does not fill a block: whole words, then bytes. */
    method KeepRest(rest: Octets, ghost p: Octets, ghost target: Stream<seq<bv64>>, ghost total: nat) returns (ghost q: Octets)
      requires Midway(p, rest, target, total) && |p| < BLOCK && |rest| < BLOCK && (p == [] || |rest| < 8) && (rest != [] ==> |p| % 8 == 0)
      modifies this`inputIdx, input
      ensures Midway(q, [], target, total) && |q| < BLOCK
    {
      hide Absorb, Step, Words;
      q := p;
      if |rest| != 0 {
        var n := |rest| / 8 * 8;
        ghost var a, b := rest[..n], rest[n..];
        assert rest == a + b && b == b + [];
        Feed(hash[..], p, a, b);
        LoadWords(rest[..n], p);
        Feed(hash[..], p + a, b, []);
        SetBytes(rest[n..], p + a);
        q := p + a + b;
      }
    }

    /** Mark the end of the message and bring the size up to date. */
    method Mark(ghost p: Octets)
      requires Shaped() && Pending(p) && |p| < BLOCK && |p| <= |message| && Size() == 8 * (|message| - |p|) % M128
      modifies this`sizeHi, this`sizeLo, this`inputIdx, input
      ensures inputIdx == |p| && input[..] == Words(p + [0x80]) && Size() == 8 * |message| % M128
    {
      hide Words;
      SetInput(0x80, p);
      inputIdx := inputIdx - 1;
      SizeTotal(8 * (|message| - |p|), 8 * |p|, Size());
      Increment(inputIdx * 8);
    }

    /** Compress the block before the last, when the size does not fit behind the mark. */
    method Penultimate(ghost p: Octets) returns (ghost q: Octets)
      requires Shaped() && hash != input && |p| < BLOCK && inputIdx == |p| && input[..] == Words(p + [0x80])
      modifies hash, input
      ensures q == if |p| > 111 then [] else p + [0x80]
      ensures |p| <= 111 ==> hash[..] == old(hash[..]) && input[..] == Words(q)
      ensures |p| > 111 ==> hash[..] == Step(old(hash[..]), p + [0x80] + BlockHash.Zeros(127 - |p|)) && input[..14] == Words(q)[..14]
    {
      hide Words, Step, CompressWords;
      q := p + [0x80];
      if inputIdx > 111 {
        ghost var block := q + BlockHash.Zeros(127 - |p|);
        WordsZeros(q, 127 - |p|);
        StepIs(hash[..], block);
        Compress(hash, input);
        ZeroInput(14);
        NoWords();
        q := [];
      }
    }

    /** Compress the last block, with the size in its last two words. */
    method Ultimate(ghost q: Octets)
      requires Shaped() && |q| <= 112 && |hash[..]| == 8 && input[..14] == Words(q)[..14] && Size() == 8 * |message| % M128
      modifies hash, input
      ensures hash[..] == Step(old(hash[..]), q + BlockHash.Zeros(112 - |q|) + LengthTail(|message|))
    {
      hide Words, Step, CompressWords, LengthTail, ToWord;
      input[14] := ToWord(sizeHi);
      input[15] := ToWord(sizeLo);
      LastBlock(q, |message|, input[..], sizeHi, sizeLo);
      StepIs(hash[..], q + BlockHash.Zeros(112 - |q|) + LengthTail(|message|));
      Compress(hash, input);
    }

    /** Pad, compress the last one or two blocks, and write the hash out. */
    method Final() returns (out: Octets)
      requires Valid()
      modifies this`sizeHi, this`sizeLo, this`inputIdx, hash, input
      ensures |Digest(message)| == 8 && out == Output(Digest(message))
    {
      hide Absorb, Step, Words, Digest, CompressWords, LengthTail, ToWord, Output;
      ghost var p, h := Absorb(Step, BLOCK, Stream(InitialHash(), []), message).pending, hash[..];
      PendingShort(message);
      Mark(p);
      ghost var q := Penultimate(p);
      StepKeeps(h, p + [0x80] + BlockHash.Zeros(127 - |p|));
      Ultimate(q);
      DigestIs(message, p, h);
      out := Output(hash[..]);
    }
  }

  /** Data moves from what is left to what is pending. */
  lemma {:induction false} Feed(h: seq<bv64>, p: Octets, a: Octets, b: Octets)
    ensures Absorb(Step, BLOCK, Stream(h, p), a + b) == Absorb(Step, BLOCK, Stream(h, p + a), b)
  {
    hide Step, Fold, Rest;
    assert p + (a + b) == p + a + b;
  }

  /** A full block can be compressed at once. */
  lemma {:induction false} FullBlock(h: seq<bv64>, p: Octets, rest: Octets)
    requires |p| == BLOCK
    ensures Absorb(Step, BLOCK, Stream(h, p), rest) == Absorb(Step, BLOCK, Stream(Step(h, p), []), rest)
  {
    hide Step;
    var all := p + rest;
    assert all[..BLOCK] == p && all[BLOCK..] == rest && [] + rest == rest;
  }

  lemma {:induction false} SizeStep(x: nat)
    ensures (x % 0x1_0000_0000_0000_0000_0000_0000_0000_0000 + 1024) % 0x1_0000_0000_0000_0000_0000_0000_0000_0000
         == (x + 1024) % 0x1_0000_0000_0000_0000_0000_0000_0000_0000
  {
    ModShift(x % M128 + 1024, x / M128, M128);
  }

  lemma {:induction false} SizeTotal(x: nat, y: nat, size: nat)
    requires size == x % M128
    ensures (size + y) % M128 == (x + y) % M128
  {
    ModShift(x % M128 + y, x / M128, M128);
  }

  lemma {:induction false} PendingShort(message: Octets)
    ensures var s := Absorb(Step, BLOCK, Stream(InitialHash(), []), message);
      |s.pending| < BLOCK && |s.pending| == |message| % BLOCK && |s.h| == 8
  {
    hide Step;
    assert [] + message == message;
    RestLength(BLOCK, message);
    FoldKeeps(InitialHash(), message);
  }

  lemma {:induction false} FoldKeeps(h: seq<bv64>, data: Octets)
    requires |h| == 8
    ensures |Fold(Step, BLOCK, h, data)| == 8
    decreases |data|
  {
    hide CompressWords, BlockWords;
    if |data| >= BLOCK { FoldKeeps(Step(h, data[..BLOCK]), data[BLOCK..]); }
  }

  lemma {:induction false} StepKeeps(h: seq<bv64>, block: Octets)
    requires |h| == 8
    ensures |Step(h, block)| == 8
  {
    hide CompressWords, BlockWords;
  }

  lemma {:induction false} StepIs(h: seq<bv64>, block: Octets)
    requires |h| == 8 && |block| == BLOCK
    ensures Step(h, block) == CompressWords(h, Words(block)) && |Step(h, block)| == 8
  {
    hide CompressWords, Words, BlockWords;
    WordsFull(block);
  }

  lemma {:induction false} TailIs(length: nat, hi: U64, lo: U64)
    requires hi * 0x1_0000_0000_0000_0000 + lo == 8 * length % M128
    ensures LengthTail(length) == Store64(ToWord(hi)) + Store64(ToWord(lo))
  {
    hide Store64, ToWord;
    DivModUnique(8 * length % M128, 0x1_0000_0000_0000_0000, hi, lo);
  }

  /** The words of the last block: some bytes, zeros, and the size in the last two words. */
  lemma {:induction false} LastBlock(p: Octets, length: nat, words: seq<bv64>, hi: U64, lo: U64)
    requires |p| <= 112 && hi * 0x1_0000_0000_0000_0000 + lo == 8 * length % M128
    requires |words| == 16 && words[..14] == Words(p)[..14] && words[14] == ToWord(hi) && words[15] == ToWord(lo)
    ensures |p + BlockHash.Zeros(112 - |p|) + LengthTail(length)| == BLOCK
    ensures Words(p + BlockHash.Zeros(112 - |p|) + LengthTail(length)) == words
  {
    hide Words, Store64, ToWord, LengthTail;
    var start := p + BlockHash.Zeros(112 - |p|);
    var a, b := Store64(ToWord(hi)), Store64(ToWord(lo));
    TailIs(length, hi, lo);
    WordsZeros(p, 112 - |p|);
    WordsWord(start, a);
    WordsWord(start + a, b);
    StoreLoad(ToWord(hi));
    StoreLoad(ToWord(lo));
    assert start + (a + b) == start + a + b;
    FourteenWords(Words(p), words, ToWord(hi), ToWord(lo));
  }

  lemma {:induction false} FourteenWords(w: seq<bv64>, words: seq<bv64>, x: bv64, y: bv64)
    requires |w| == |words| == 16 && words[..14] == w[..14] && words[14] == x && words[15] == y
    ensures w[14 := x][15 := y] == words
  {
    forall i | 0 <= i < 16 ensures w[14 := x][15 := y][i] == words[i] {
      if i < 14 { assert w[i] == w[..14][i] && words[i] == words[..14][i]; }
    }
  }

  /** The padding as it follows k pending bytes. */
  lemma {:induction false} PaddingShape(n: nat, k: nat, tail: Octets)
    requires k == n % BLOCK && |tail| == 16
    ensures Padding(BLOCK, tail, n) == [0x80] + BlockHash.Zeros(if k <= 111 then 111 - k else 239 - k) + tail
  {
    PaddingZeros(BLOCK, 16, n);
  }

  /** The padded message ends in the pending bytes and the padding. */
  lemma {:induction false} DigestIs(message: Octets, p: Octets, h: seq<bv64>)
    requires Stream(h, p) == Absorb(Step, BLOCK, Stream(InitialHash(), []), message)
    ensures var tail := LengthTail(|message|);
      && |h| == 8 && |p| < BLOCK
      && (|p| <= 111 ==> Digest(message) == Step(h, p + [0x80] + BlockHash.Zeros(112 - |p + [0x80]|) + tail))
      && (|p| > 111 ==> Digest(message) == Step(Step(h, p + [0x80] + BlockHash.Zeros(127 - |p|)), [] + BlockHash.Zeros(112) + tail))
  {
    hide Step, LengthTail, InitialHash, Fold, Padding, Absorb;
    PendingShort(message);
    var tail, n := LengthTail(|message|), |message|;
    FoldTail(message, p, h, Padding(BLOCK, tail, n));
    PaddingShape(n, |p|, tail);
    if |p| <= 111 { ShortPadding(h, p, tail); } else { LongPadding(h, p, tail); }
  }

  lemma {:induction false} FoldTail(message: Octets, p: Octets, h: seq<bv64>, pad: Octets)
    requires Stream(h, p) == Absorb(Step, BLOCK, Stream(InitialHash(), []), message)
    ensures Fold(Step, BLOCK, InitialHash(), message + pad) == Fold(Step, BLOCK, h, p + pad)
  {
    hide Step, InitialHash, Fold, Rest;
    assert [] + message == message;
    FoldRest(Step, BLOCK, InitialHash(), message, pad);
  }

  lemma {:induction false} ShortPadding(h: seq<bv64>, p: Octets, tail: Octets)
    requires |p| <= 111 && |tail| == 16
    ensures Fold(Step, BLOCK, h, p + ([0x80] + BlockHash.Zeros(111 - |p|) + tail)) == Step(h, p + [0x80] + BlockHash.Zeros(112 - |p + [0x80]|) + tail)
  {
    hide Step, Fold;
    var block := p + [0x80] + BlockHash.Zeros(111 - |p|) + tail;
    assert p + ([0x80] + BlockHash.Zeros(111 - |p|) + tail) == block;
    OneBlock(h, block);
  }

  lemma {:induction false} LongPadding(h: seq<bv64>, p: Octets, tail: Octets)
    requires 111 < |p| < BLOCK && |tail| == 16
    ensures Fold(Step, BLOCK, h, p + ([0x80] + BlockHash.Zeros(239 - |p|) + tail))
         == Step(Step(h, p + [0x80] + BlockHash.Zeros(127 - |p|)), [] + BlockHash.Zeros(112) + tail)
  {
    hide Step, Fold;
    var first, second := p + [0x80] + BlockHash.Zeros(127 - |p|), [] + BlockHash.Zeros(112) + tail;
    assert BlockHash.Zeros(239 - |p|) == BlockHash.Zeros(127 - |p|) + BlockHash.Zeros(112);
    assert p + ([0x80] + BlockHash.Zeros(239 - |p|) + tail) == first + second;
    TwoBlocks(h, first, second);
  }

  lemma {:induction false} OneBlock(h: seq<bv64>, block: Octets)
    requires |block| == BLOCK
    ensures Fold(Step, BLOCK, h, block) == Step(h, block)
  {
    hide Step;
    assert block[..BLOCK] == block && block[BLOCK..] == [];
    assert Fold(Step, BLOCK, Step(h, block), []) == Step(h, block);
  }

  lemma {:induction false} TwoBlocks(h: seq<bv64>, a: Octets, b: Octets)
    requires |a| == BLOCK && |b| == BLOCK
    ensures Fold(Step, BLOCK, h, a + b) == Step(Step(h, a), b)
  {
    hide Step;
    assert (a + b)[..BLOCK] == a && (a + b)[BLOCK..] == b;
    OneBlock(Step(h, a), b);
  }

  /** Any split of a message into updates gives the hash of the message. */
  method HashPieces(pieces: seq<Octets>) returns (out: Octets)
    ensures |Digest(Flatten(pieces))| == 8 && out == Output(Digest(Flatten(pieces)))
  {
    hide Digest, Absorb, Step, Words, Output, Flatten;
    NoPieces();
    var ctx := new Context();
    for i := 0 to |pieces|
      invariant ctx.Valid() && ctx.message == Flatten(pieces[..i])
      invariant fresh(ctx) && fresh(ctx.hash) && fresh(ctx.input)
    {
      FlattenNext(pieces, i);
      ctx.Update(pieces[i]);
    }
    assert pieces[..|pieces|] == pieces;
    out := ctx.Final();
  }

  lemma {:induction false} NoPieces()
    ensures Flatten([]) == []
  {
  }
}
