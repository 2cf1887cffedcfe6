/** Which byte strings the parser accepts: a grammar of well-formed items, independent of the
    parser, and the proof that the parser accepts exactly those up to the depth limit. */
module CborGrammar {
  import opened Bits
  import opened Cbor
  import opened CborTree
  import opened Wrappers

  /** An item as it lies in the bytes: its first byte, the argument bytes that follow it, the
      payload of a string, and the children of an array or map. */
  datatype Wire = Wire(first: U8, arg: Bytes, payload: Bytes, kids: seq<Wire>)

  function Write(x: Wire): (s: Bytes)
    ensures |s| >= 1
    decreases x, 0
  {
    [x.first] + x.arg + x.payload + WriteAll(x.kids)
  }

  function WriteAll(kids: seq<Wire>): (s: Bytes)
    ensures |s| >= |kids|
    decreases kids, 1
  {
    if kids == [] then [] else Write(kids[0]) + WriteAll(kids[1..])
  }

  /** A big-endian number. */
  function BigEndian(s: Bytes): (n: nat)
    ensures s == [] ==> n == 0
  {
    if s == [] then 0 else 0x100 * BigEndian(s[..|s| - 1]) + s[|s| - 1]
  }

  /** How many argument bytes follow a first byte with this additional information. */
  function ArgBytes(info: nat): nat {
    if info == 24 then 1 else if info == 25 then 2 else if info == 26 then 4 else if info == 27 then 8 else 0
  }

  function Argument(x: Wire): nat {
    if x.first % 32 < 24 then x.first % 32 else BigEndian(x.arg)
  }

  /** Well-formed items: no reserved or indefinite form, no tag, and of the simple values only
      false, true, null, one-byte ones and floats. */
  predicate WellFormed(x: Wire)
    decreases x
  {
    var (major, info) := (x.first / 32, x.first % 32);
    && info <= 27 && |x.arg| == ArgBytes(info)
    && |x.payload| == (if major == 2 || major == 3 then Argument(x) else 0)
    && |x.kids| == (if major == 4 then Argument(x) else if major == 5 then 2 * Argument(x) else 0)
    && major != 6
    && (major == 7 ==> 20 <= info <= 22 || info >= 24)
    && forall i :: 0 <= i < |x.kids| ==> WellFormed(x.kids[i])
  }

  /** How many levels of containers hang below an item. */
  function Levels(x: Wire): nat
    decreases x, 0
  {
    LevelsAll(x.kids)
  }

  function LevelsAll(kids: seq<Wire>): nat
    decreases kids, 1
  {
    if kids == [] then 0
    else
      var (a, b) := (1 + Levels(kids[0]), LevelsAll(kids[1..]));
      if a < b then b else a
  }

  function KindAt(x: Wire): Kind {
    match x.first / 32
    case 0 => KUInt
    case 1 => KInt
    case 2 => KBytes
    case 3 => KText
    case 4 => KArray
    case 5 => KMap
    case _ => if x.first % 32 <= 24 then KBool else KFloat
  }

  /** What parsing the item at pos should yield; of a simple value or float only its extent matters. */
  predicate IsItem(item: Item, x: Wire, pos: nat) {
    && item.kind == KindAt(x) && item.start == pos && item.next == pos + |Write(x)|
    && (x.first / 32 < 7 ==> item.arg == Argument(x) && item.data == pos + 1 + |x.arg|)
  }

  // ---- arguments ----

  lemma {:induction false} BigEndianNext(s: Bytes, k: nat)
    requires k < |s|
    ensures BigEndian(s[..k + 1]) == 0x100 * BigEndian(s[..k]) + s[k]
  {
    assert s[..k + 1][..k] == s[..k];
  }

  lemma {:induction false} BigEndianIs(s: Bytes)
    ensures |s| == 1 ==> BigEndian(s) == s[0]
    ensures |s| == 2 ==> BigEndian(s) == FromBe2(s)
    ensures |s| == 4 ==> BigEndian(s) == FromBe4(s)
  {
    hide BigEndian;
    var none := s[..0];
    assert BigEndian(none) == 0;
    if |s| == 1 || |s| == 2 || |s| == 4 {
      BigEndianNext(s, 0);
      if |s| >= 2 { BigEndianNext(s, 1); }
      if |s| == 4 {
        BigEndianNext(s, 2);
        BigEndianNext(s, 3);
        assert s[..2][0] == s[0] && s[..2][1] == s[1] && s[2..][0] == s[2] && s[2..][1] == s[3];
      }
      assert s[..|s|] == s;
    }
  }

  lemma {:induction false} BigEndianEight(s: Bytes)
    requires |s| == 8
    ensures BigEndian(s) == FromBe8(s)
  {
    hide BigEndian, FromBe4;
    BigEndianIs(s[..4]);
    BigEndianIs(s[4..]);
    var t := s[4..];
    BigEndianNext(s, 4); BigEndianNext(s, 5); BigEndianNext(s, 6); BigEndianNext(s, 7);
    BigEndianNext(t, 0); BigEndianNext(t, 1); BigEndianNext(t, 2); BigEndianNext(t, 3);
    assert BigEndian(t[..0]) == 0;
    assert s[..8] == s && t[..4] == t;
    assert t[0] == s[4] && t[1] == s[5] && t[2] == s[6] && t[3] == s[7];
  }

  /** The argument is read from the bytes behind the first one. */
  lemma {:induction false} ArgIs(b: Bytes, p: nat, end: nat, info: nat)
    requires p <= end <= |b|
    ensures DecodeArg(b, p, end, info) ==
      if info > 27 || p + ArgBytes(info) > end then None
      else Some((if info < 24 then info else BigEndian(b[p..p + ArgBytes(info)]), p + ArgBytes(info)))
  {
    hide BigEndian, FromBe2, FromBe4, FromBe8;
    if 24 <= info <= 27 && p + ArgBytes(info) <= end {
      var s := b[p..p + ArgBytes(info)];
      if info == 27 { BigEndianEight(s); } else { BigEndianIs(s); }
    }
  }

  // ---- what is written parses ----

  lemma {:induction false} WellFirst(x: Wire)
    requires WellFormed(x)
    ensures var (major, info) := (x.first / 32, x.first % 32);
      && info <= 27 && major <= 7 && major != 6 && |x.arg| == ArgBytes(info)
      && |x.payload| == (if major == 2 || major == 3 then Argument(x) else 0)
      && |x.kids| == (if major == 4 then Argument(x) else if major == 5 then 2 * Argument(x) else 0)
      && (major == 7 ==> 20 <= info <= 22 || info >= 24)
      && forall i :: 0 <= i < |x.kids| ==> WellFormed(x.kids[i])
  {
  }

  lemma {:induction false} IsWellFormed(x: Wire)
    requires var (major, info) := (x.first / 32, x.first % 32);
      && info <= 27 && major <= 7 && major != 6 && |x.arg| == ArgBytes(info)
      && |x.payload| == (if major == 2 || major == 3 then Argument(x) else 0)
      && |x.kids| == (if major == 4 then Argument(x) else if major == 5 then 2 * Argument(x) else 0)
      && (major == 7 ==> 20 <= info <= 22 || info >= 24)
      && forall i :: 0 <= i < |x.kids| ==> WellFormed(x.kids[i])
    ensures WellFormed(x)
  {
  }

  lemma {:induction false} Regroup(a: Bytes, b: Bytes, c: Bytes, d: Bytes)
    ensures a + b + c + d == a + (b + (c + d))
  {
  }

  lemma {:induction false} PartsHeld(x: Wire, b: Bytes, pos: nat, end: nat)
    requires Holds(b, pos, end, Write(x))
    ensures var p := pos + 1 + |x.arg|;
      && pos < p + |x.payload| <= end <= |b| && b[pos] == x.first && b[pos + 1..p] == x.arg
      && Holds(b, p + |x.payload|, end, WriteAll(x.kids)) && pos + |Write(x)| == p + |x.payload| + |WriteAll(x.kids)| <= end
  {
    hide WriteAll;
    var (h, rest) := ([x.first], WriteAll(x.kids));
    Regroup(h, x.arg, x.payload, rest);
    HoldsSplit(b, pos, end, h, x.arg + (x.payload + rest));
    HoldsSplit(b, pos + 1, end, x.arg, x.payload + rest);
    HoldsSplit(b, pos + 1 + |x.arg|, end, x.payload, rest);
    assert b[pos] == b[pos..pos + 1][0];
  }

  lemma {:induction false} WrittenParses(x: Wire, b: Bytes, pos: nat, end: nat, depth: nat)
    requires WellFormed(x) && depth + Levels(x) <= 8 && Holds(b, pos, end, Write(x))
    ensures Parse(b, pos, end, depth).Some? && IsItem(Parse(b, pos, end, depth).value, x, pos)
    decreases x, 0
  {
    hide WellFormed, Write, WriteAll, Holds, DecodeArg, BigEndian, Skip, LevelsAll, Parse;
    WellFirst(x);
    PartsHeld(x, b, pos, end);
    ArgIs(b, pos + 1, end, x.first % 32);
    var p := pos + 1 + |x.arg|;
    if x.first / 32 == 7 {
      SimpleParses(x, b, pos, end, depth);
    } else {
      if |x.kids| > 0 || x.first / 32 == 4 || x.first / 32 == 5 { WrittenSkips(x.kids, b, p, end, depth + 1); }
      PlainParses(x, b, pos, end, depth, p);
    }
  }

  lemma {:induction false} NothingWritten()
    ensures WriteAll([]) == []
  {
  }

  lemma {:induction false} SimpleParses(x: Wire, b: Bytes, pos: nat, end: nat, depth: nat)
    requires pos < end <= |b| && depth <= 8 && b[pos] == x.first && x.first / 32 == 7
    requires var info := x.first % 32; (20 <= info <= 22 || 24 <= info <= 27) && |x.arg| == ArgBytes(info)
    requires x.payload == [] && x.kids == [] && pos + |Write(x)| <= end
    ensures Parse(b, pos, end, depth).Some? && IsItem(Parse(b, pos, end, depth).value, x, pos)
  {
    NothingWritten();
  }

  lemma {:induction false} PlainParses(x: Wire, b: Bytes, pos: nat, end: nat, depth: nat, p: nat)
    requires pos < end <= |b| && depth <= 8 && b[pos] == x.first && x.first / 32 < 6
    requires DecodeArg(b, pos + 1, end, x.first % 32) == Some((Argument(x), p)) && p == pos + 1 + |x.arg|
    requires |x.payload| == (if x.first / 32 == 2 || x.first / 32 == 3 then Argument(x) else 0)
    requires |x.kids| == (if x.first / 32 == 4 then Argument(x) else if x.first / 32 == 5 then 2 * Argument(x) else 0)
    requires pos + |Write(x)| == p + |x.payload| + |WriteAll(x.kids)| <= end
    requires x.first / 32 == 4 || x.first / 32 == 5 ==> Skip(b, p, end, depth + 1, |x.kids|) == Some(p + |WriteAll(x.kids)|)
    ensures Parse(b, pos, end, depth).Some? && IsItem(Parse(b, pos, end, depth).value, x, pos)
  {
    hide DecodeArg, Skip, Write, BigEndian, ParseSimple;
    if x.kids == [] { NothingWritten(); }
  }

  lemma {:induction false} WrittenSkips(kids: seq<Wire>, b: Bytes, pos: nat, end: nat, depth: nat)
    requires (forall i :: 0 <= i < |kids| ==> WellFormed(kids[i])) && depth + LevelsAll(kids) <= 9 && Holds(b, pos, end, WriteAll(kids))
    ensures pos <= end && Skip(b, pos, end, depth, |kids|) == Some(pos + |WriteAll(kids)|)
    decreases kids, 1
  {
    hide WellFormed, Write, Holds, Parse;
    HoldsInside(b, pos, end, WriteAll(kids));
    if kids != [] {
      var x, rest := kids[0], kids[1..];
      HoldsSplit(b, pos, end, Write(x), WriteAll(rest));
      WrittenParses(x, b, pos, end, depth);
      WrittenSkips(rest, b, pos + |Write(x)|, end, depth);
    }
  }

  // ---- what parses is written ----

  lemma {:induction false} ParsedIs(b: Bytes, pos: nat, end: nat, depth: nat) returns (x: Wire)
    requires end <= |b| && Parse(b, pos, end, depth).Some?
    ensures WellFormed(x) && depth + Levels(x) <= 8 && Holds(b, pos, end, Write(x))
    ensures IsItem(Parse(b, pos, end, depth).value, x, pos)
    decreases end - pos, 0
  {
    hide WriteAll, DecodeArg, BigEndian, Skip, LevelsAll, Holds, ParseSimple, Write, IsItem, WellFormed;
    var (first, item) := (b[pos], Parse(b, pos, end, depth).value);
    var major := first / 32;
    if major == 4 || major == 5 {
      ArgIs(b, pos + 1, end, first % 32);
      var p := pos + 1 + ArgBytes(first % 32);
      var kids := SkippedAre(b, p, end, depth + 1, if major == 5 then 2 * item.arg else item.arg);
      x := Wire(first, b[pos + 1..p], [], kids);
      IsWellFormed(x);
      JoinParts(x, b, pos, end);
      PlainParses(x, b, pos, end, depth, p);
    } else {
      x := ParsedLeaf(b, pos, end, depth);
    }
  }

  lemma {:induction false} ParsedLeaf(b: Bytes, pos: nat, end: nat, depth: nat) returns (x: Wire)
    requires end <= |b| && Parse(b, pos, end, depth).Some? && b[pos] / 32 != 4 && b[pos] / 32 != 5
    ensures WellFormed(x) && depth + Levels(x) <= 8 && Holds(b, pos, end, Write(x))
    ensures IsItem(Parse(b, pos, end, depth).value, x, pos)
  {
    hide WriteAll, DecodeArg, BigEndian, Skip, LevelsAll, Holds, ParseSimple, Write, IsItem, WellFormed;
    var (first, item) := (b[pos], Parse(b, pos, end, depth).value);
    ArgIs(b, pos + 1, end, first % 32);
    var p := pos + 1 + ArgBytes(first % 32);
    NoLevels();
    if first / 32 == 7 {
      SimpleFits(b, pos, end, depth);
      x := Wire(first, b[pos + 1..p], [], []);
    } else {
      x := Wire(first, b[pos + 1..p], if first / 32 >= 2 then b[p..item.next] else [], []);
    }
    IsWellFormed(x);
    NothingHeld(b, p + |x.payload|, end);
    JoinParts(x, b, pos, end);
    if first / 32 == 7 { SimpleParses(x, b, pos, end, depth); } else { PlainParses(x, b, pos, end, depth, p); }
  }

  lemma {:induction false} SimpleFits(b: Bytes, pos: nat, end: nat, depth: nat)
    requires end <= |b| && Parse(b, pos, end, depth).Some? && b[pos] / 32 == 7
    ensures var info := b[pos] % 32;
      (20 <= info <= 22 || 24 <= info <= 27) && pos + 1 + ArgBytes(info) <= end && depth <= 8
  {
  }

  lemma {:induction false} NothingHeld(b: Bytes, p: nat, end: nat)
    requires p <= end <= |b|
    ensures WriteAll([]) == [] && Holds(b, p, end, WriteAll([]))
  {
  }

  lemma {:induction false} NoLevels()
    ensures LevelsAll([]) == 0
  {
  }

  lemma {:induction false} JoinParts(x: Wire, b: Bytes, pos: nat, end: nat)
    requires var p := pos + 1 + |x.arg|;
      && pos < p + |x.payload| <= end <= |b| && b[pos] == x.first && b[pos + 1..p] == x.arg && b[p..p + |x.payload|] == x.payload
      && Holds(b, p + |x.payload|, end, WriteAll(x.kids))
    ensures Holds(b, pos, end, Write(x)) && |Write(x)| == 1 + |x.arg| + |x.payload| + |WriteAll(x.kids)|
  {
    hide WriteAll;
    var p := pos + 1 + |x.arg|;
    var rest := WriteAll(x.kids);
    HoldsJoin(b, p, end, x.payload, rest);
    HoldsJoin(b, pos + 1, end, x.arg, x.payload + rest);
    assert b[pos..pos + 1] == [x.first];
    HoldsJoin(b, pos, end, [x.first], x.arg + (x.payload + rest));
    Regroup([x.first], x.arg, x.payload, rest);
  }

  lemma {:induction false} HoldsJoin(b: Bytes, p: nat, end: nat, s: Bytes, t: Bytes)
    requires p + |s| <= end <= |b| && b[p..p + |s|] == s && Holds(b, p + |s|, end, t)
    ensures Holds(b, p, end, s + t)
  {
    assert b[p..p + |s| + |t|] == b[p..p + |s|] + b[p + |s|..p + |s| + |t|];
  }

  lemma {:induction false} SkippedAre(b: Bytes, pos: nat, end: nat, depth: nat, n: nat) returns (kids: seq<Wire>)
    requires pos <= end <= |b| && depth <= 9 && Skip(b, pos, end, depth, n).Some?
    ensures |kids| == n && (forall i :: 0 <= i < n ==> WellFormed(kids[i])) && depth + LevelsAll(kids) <= 9
    ensures Holds(b, pos, end, WriteAll(kids)) && Skip(b, pos, end, depth, n) == Some(pos + |WriteAll(kids)|)
    decreases end - pos, 1
  {
    hide WellFormed, Write, Parse;
    if n == 0 {
      kids := [];
    } else {
      var item := Parse(b, pos, end, depth).value;
      var x := ParsedIs(b, pos, end, depth);
      var rest := SkippedAre(b, item.next, end, depth, n - 1);
      kids := [x] + rest;
      assert kids[1..] == rest;
      assert b[pos..item.next] + b[item.next..item.next + |WriteAll(rest)|] == b[pos..item.next + |WriteAll(rest)|];
    }
  }

  /** The parser accepts exactly the well-formed items with at most eight levels of containers in
      and around them, and reads their kind, argument and extent. */
  lemma {:induction false} ParsesExactly(b: Bytes, pos: nat, end: nat, depth: nat)
    requires end <= |b|
    ensures Parse(b, pos, end, depth).Some? <==>
      exists x :: WellFormed(x) && depth + Levels(x) <= 8 && Holds(b, pos, end, Write(x))
    ensures forall x :: WellFormed(x) && depth + Levels(x) <= 8 && Holds(b, pos, end, Write(x)) ==> IsItem(Parse(b, pos, end, depth).value, x, pos)
  {
    hide Parse, WellFormed, Levels, Write, Holds;
    if Parse(b, pos, end, depth).Some? {
      var x := ParsedIs(b, pos, end, depth);
    }
    forall x | WellFormed(x) && depth + Levels(x) <= 8 && Holds(b, pos, end, Write(x))
      ensures Parse(b, pos, end, depth).Some? && IsItem(Parse(b, pos, end, depth).value, x, pos)
    {
      WrittenParses(x, b, pos, end, depth);
    }
  }
}
