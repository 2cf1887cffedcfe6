/** The two-party encounter record: its canonical CBOR encoding, its tolerant decoder, and the
    verification of its two signatures. */
module EncounterRecord {
  import opened Bits
  import opened Cbor
  import opened CborCode
  import opened CborTree
  import opened Wrappers

  const RECORD_VERSION: U8 := 1
  const BSSID_MAX: nat := 8
  const BODY_MAX_BYTES: nat := 384
  const RECORD_MAX_BYTES: nat := 512
  const BODY_KEYS: nat := 17
  const FULL_KEYS: nat := 19

  type Pub = s: Bytes | |s| == 32 witness seq(32, i => 0)
  type Nonce = s: Bytes | |s| == 16 witness seq(16, i => 0)
  type Sig = s: Bytes | |s| == 64 witness seq(64, i => 0)
  type Bssid = s: Bytes | |s| == 6 witness seq(6, i => 0)

  datatype Record = Record(
    version: U8,
    pubA: Pub, pubB: Pub,
    meetingCountA: U64, meetingCountB: U64,
    repOfBByA: I32, repOfAByB: I32,
    bssidsA: seq<Bssid>, bssidsB: seq<Bssid>,
    nonceA: Nonce, nonceB: Nonce,
    txBytesAToB: U64, rxBytesAFromB: U64,
    txBytesBToA: U64, rxBytesBFromA: U64,
    fileCountAFromB: U64, fileCountBFromA: U64,
    sigA: Sig, sigB: Sig)

  /** The record after `memset(out, 0, sizeof(*out))`. */
  function ZeroRecord(): Record {
    Record(0, Zeros(32), Zeros(32), 0, 0, 0, 0, [], [], Zeros(16), Zeros(16), 0, 0, 0, 0, 0, 0, Zeros(64), Zeros(64))
  }

  /** The two records agree on all 17 signed fields. */
  ghost predicate SameBody(r: Record, s: Record) {
    r.(sigA := s.sigA, sigB := s.sigB) == s
  }

  // ---- fields by map key ----

  /** The contents of one field. */
  datatype Field =
    | Number(n: U64)
    | Signed(x: I32)
    | Blob(s: Bytes)
    | Scan(list: seq<Bssid>)

  datatype Shape = VersionShape | CountShape | RepShape | BlobShape(size: nat) | ScanShape

  function ShapeOf(key: nat): Shape
    requires 1 <= key <= FULL_KEYS
  {
    match key
    case 1 => VersionShape
    case 2 => BlobShape(32)
    case 3 => BlobShape(32)
    case 6 => RepShape
    case 7 => RepShape
    case 8 => ScanShape
    case 9 => ScanShape
    case 10 => BlobShape(16)
    case 11 => BlobShape(16)
    case 18 => BlobShape(64)
    case 19 => BlobShape(64)
    case _ => CountShape
  }

  predicate Accepts(shape: Shape, f: Field) {
    match shape
    case VersionShape => f.Number? && f.n <= 0xff
    case CountShape => f.Number?
    case RepShape => f.Signed?
    case BlobShape(size) => f.Blob? && |f.s| == size
    case ScanShape => f.Scan?
  }

  function Get(r: Record, key: nat): (f: Field)
    requires 1 <= key <= FULL_KEYS
    ensures Accepts(ShapeOf(key), f)
  {
    match key
    case 1 => Number(r.version)
    case 2 => Blob(r.pubA)
    case 3 => Blob(r.pubB)
    case 4 => Number(r.meetingCountA)
    case 5 => Number(r.meetingCountB)
    case 6 => Signed(r.repOfBByA)
    case 7 => Signed(r.repOfAByB)
    case 8 => Scan(r.bssidsA)
    case 9 => Scan(r.bssidsB)
    case 10 => Blob(r.nonceA)
    case 11 => Blob(r.nonceB)
    case 12 => Number(r.txBytesAToB)
    case 13 => Number(r.rxBytesAFromB)
    case 14 => Number(r.txBytesBToA)
    case 15 => Number(r.rxBytesBFromA)
    case 16 => Number(r.fileCountAFromB)
    case 17 => Number(r.fileCountBFromA)
    case 18 => Blob(r.sigA)
    case 19 => Blob(r.sigB)
  }

  function Set(r: Record, key: nat, f: Field): Record
    requires 1 <= key <= FULL_KEYS && Accepts(ShapeOf(key), f)
  {
    match key
    case 1 => r.(version := f.n)
    case 2 => r.(pubA := f.s)
    case 3 => r.(pubB := f.s)
    case 4 => r.(meetingCountA := f.n)
    case 5 => r.(meetingCountB := f.n)
    case 6 => r.(repOfBByA := f.x)
    case 7 => r.(repOfAByB := f.x)
    case 8 => r.(bssidsA := f.list)
    case 9 => r.(bssidsB := f.list)
    case 10 => r.(nonceA := f.s)
    case 11 => r.(nonceB := f.s)
    case 12 => r.(txBytesAToB := f.n)
    case 13 => r.(rxBytesAFromB := f.n)
    case 14 => r.(txBytesBToA := f.n)
    case 15 => r.(rxBytesBFromA := f.n)
    case 16 => r.(fileCountAFromB := f.n)
    case 17 => r.(fileCountBFromA := f.n)
    case 18 => r.(sigA := f.s)
    case 19 => r.(sigB := f.s)
  }

  /** Setting a field changes that field and no other. */
  lemma {:induction false} GetSet(r: Record, key: nat, f: Field, j: nat)
    requires 1 <= key <= FULL_KEYS && Accepts(ShapeOf(key), f) && 1 <= j <= FULL_KEYS
    ensures Get(Set(r, key, f), j) == if j == key then f else Get(r, j)
  {
    if key <= 4 {
    } else if key <= 8 {
    } else if key <= 12 {
    } else if key <= 16 {
    } else {
    }
  }

  /** A record is the collection of its fields. */
  lemma {:induction false} FieldsDecide(r: Record, s: Record)
    requires forall k :: 1 <= k <= BODY_KEYS ==> Get(r, k) == Get(s, k)
    ensures SameBody(r, s)
    ensures Get(r, 18) == Get(s, 18) && Get(r, 19) == Get(s, 19) ==> r == s
  {
    assert Get(r, 1) == Get(s, 1) && Get(r, 2) == Get(s, 2) && Get(r, 3) == Get(s, 3) && Get(r, 4) == Get(s, 4);
    assert Get(r, 5) == Get(s, 5) && Get(r, 6) == Get(s, 6) && Get(r, 7) == Get(s, 7) && Get(r, 8) == Get(s, 8);
    assert Get(r, 9) == Get(s, 9) && Get(r, 10) == Get(s, 10) && Get(r, 11) == Get(s, 11) && Get(r, 12) == Get(s, 12);
    assert Get(r, 13) == Get(s, 13) && Get(r, 14) == Get(s, 14) && Get(r, 15) == Get(s, 15);
    assert Get(r, 16) == Get(s, 16) && Get(r, 17) == Get(s, 17);
  }

  // ---- encoding ----

  /** The value that a field is written as. */
  function ToValue(f: Field): (v: Value) {
    match f
    case Number(n) => UInt(n)
    case Signed(x) => IntValue(x)
    case Blob(s) => Str(s)
    case Scan(list) => Array(Strings(list))
  }

  /** The first n map entries of a record, key and value alternating. */
  function Kids(r: Record, n: nat): (kids: seq<Value>)
    requires n <= FULL_KEYS
    ensures |kids| == 2 * n
  {
    if n == 0 then [] else Kids(r, n - 1) + [UInt(n), ToValue(Get(r, n))]
  }

  lemma {:induction false} KidsAt(r: Record, n: nat, k: nat)
    requires 1 <= k <= n <= FULL_KEYS
    ensures Kids(r, n)[2 * k - 2] == UInt(k) && Kids(r, n)[2 * k - 1] == ToValue(Get(r, k))
  {
    hide Get;
    if k < n { KidsAt(r, n - 1, k); }
  }

  /** What the encoder accepts. */
  predicate Encodable(r: Record) {
    r.version == RECORD_VERSION && |r.bssidsA| <= BSSID_MAX && |r.bssidsB| <= BSSID_MAX
  }

  lemma {:induction false} FieldFits(r: Record, k: nat)
    requires 1 <= k <= FULL_KEYS && Encodable(r)
    ensures Fits(ToValue(Get(r, k))) && Depth(ToValue(Get(r, k))) <= 1
    ensures |Encode(ToValue(Get(r, k)))| <= Room(ShapeOf(k))
  {
    hide Header, Get;
    var f := Get(r, k);
    if k == 1 { assert Get(r, 1).n == 1 by { GetVersion(r); } }
    else if k == 8 || k == 9 {
      assert |f.list| <= 8 by { GetScan(r, k); }
      StringsEncoding(f.list);
    }
  }

  lemma {:induction false} GetVersion(r: Record)
    ensures Get(r, 1) == Number(r.version)
  {
  }

  lemma {:induction false} GetScan(r: Record, k: nat)
    requires k == 8 || k == 9
    ensures Get(r, k) == Scan(if k == 8 then r.bssidsA else r.bssidsB)
  {
  }

  /** The most bytes that the value of a field takes. */
  function Room(shape: Shape): nat {
    match shape
    case VersionShape => 1
    case CountShape => 9
    case RepShape => 5
    case BlobShape(size) => size + (if size < 24 then 1 else 2)
    case ScanShape => 57
  }

  lemma {:induction false} StringsEncoding(list: seq<Bssid>)
    ensures AllFit(Strings(list)) && DepthAll(Strings(list)) <= 1
    ensures |EncodeAll(Strings(list))| == 7 * |list|
  {
    if list != [] {
      StringsEncoding(list[1..]);
      assert Strings(list)[1..] == Strings(list[1..]);
      assert Strings(list)[0] == Str(list[0]);
    }
  }

  /** The most bytes that the first n entries take. */
  function RoomAll(n: nat): nat
    requires n <= FULL_KEYS
  {
    if n == 0 then 0 else RoomAll(n - 1) + 1 + Room(ShapeOf(n))
  }

  lemma {:induction false} KidsFit(r: Record, n: nat)
    requires n <= FULL_KEYS && Encodable(r)
    ensures AllFit(Kids(r, n)) && DepthAll(Kids(r, n)) <= 2 && Fits(Map(Kids(r, n)))
    ensures |EncodeAll(Kids(r, n))| <= RoomAll(n)
  {
    hide Get, Encode, ToValue, ShapeOf, Room;
    if n > 0 {
      KidsFit(r, n - 1);
      FieldFits(r, n);
      var pair := [UInt(n), ToValue(Get(r, n))];
      PairEncoding(n, ToValue(Get(r, n)));
      EncodeAllConcat(Kids(r, n - 1), pair);
      DepthConcat(Kids(r, n - 1), pair);
    }
  }

  lemma {:induction false} PairEncoding(n: nat, v: Value)
    requires n < 24 && Fits(v)
    ensures AllFit([UInt(n), v]) && EncodeAll([UInt(n), v]) == Encode(UInt(n)) + Encode(v)
    ensures |Encode(UInt(n))| == 1
    ensures DepthAll([UInt(n), v]) == 1 + Depth(v)
  {
    hide Header;
    assert [UInt(n), v][1..] == [v] && [v][1..] == [];
    assert EncodeAll([v]) == Encode(v) + EncodeAll([]);
    assert DepthAll([v]) == 1 + Depth(v);
  }

  lemma {:induction false} DepthConcat(a: seq<Value>, b: seq<Value>)
    ensures DepthAll(a + b) == if DepthAll(a) < DepthAll(b) then DepthAll(b) else DepthAll(a)
  {
    if a == [] {
      assert a + b == b;
    } else {
      assert (a + b)[0] == a[0] && (a + b)[1..] == a[1..] + b;
      DepthConcat(a[1..], b);
    }
  }

  /** The encoders: the signed body, or the whole record; no bytes on failure. */
  function EncodeRecord(r: Record, outMax: nat, withSigs: bool): (s: Bytes)
    ensures s != [] <==> Encodable(r) && outMax >= (if withSigs then RECORD_MAX_BYTES else BODY_MAX_BYTES)
  {
    if !Encodable(r) || outMax < (if withSigs then RECORD_MAX_BYTES else BODY_MAX_BYTES) then []
    else
      var n := if withSigs then FULL_KEYS else BODY_KEYS;
      KidsFit(r, n);
      Encode(Map(Kids(r, n)))
  }

  function EncodeBody(r: Record): (s: Bytes)
    ensures s != [] <==> Encodable(r)
  {
    EncodeRecord(r, BODY_MAX_BYTES, false)
  }

  function EncodeFull(r: Record): (s: Bytes)
    ensures s != [] <==> Encodable(r)
  {
    EncodeRecord(r, RECORD_MAX_BYTES, true)
  }

  /** The worst case stays well inside the buffers. */
  lemma {:induction false} EncodedLength(r: Record)
    ensures |EncodeBody(r)| <= 317 && |EncodeFull(r)| <= 451
  {
    if Encodable(r) {
      KidsFit(r, 17);
      KidsFit(r, 19);
      RoomTotals();
    }
  }

  lemma {:induction false} RoomTotals()
    ensures RoomAll(17) == 316 && RoomAll(19) == 450
  {
    hide RoomAll;
    NoRoom();
    RoomNext(1); RoomNext(2); RoomNext(3); RoomNext(4); RoomNext(5);
    RoomNext(6); RoomNext(7); RoomNext(8); RoomNext(9); RoomNext(10);
    RoomNext(11); RoomNext(12); RoomNext(13); RoomNext(14); RoomNext(15);
    RoomNext(16); RoomNext(17); RoomNext(18); RoomNext(19);
  }

  lemma {:induction false} NoRoom()
    ensures RoomAll(0) == 0
  {
  }

  lemma {:induction false} RoomNext(n: nat)
    requires 1 <= n <= FULL_KEYS
    ensures RoomAll(n) == RoomAll(n - 1) + 1 + Room(ShapeOf(n))
  {
  }

  lemma {:induction false} ToValueInjective(f: Field, g: Field, shape: Shape)
    requires Accepts(shape, f) && Accepts(shape, g) && ToValue(f) == ToValue(g)
    ensures f == g
  {
    if shape.ScanShape? {
      forall i | 0 <= i < |f.list| ensures f.list[i] == g.list[i] {
        assert Strings(f.list)[i] == Strings(g.list)[i];
      }
    }
  }

  lemma {:induction false} KidsInjective(r: Record, s: Record, n: nat)
    requires n <= FULL_KEYS && Kids(r, n) == Kids(s, n)
    ensures forall k :: 1 <= k <= n ==> Get(r, k) == Get(s, k)
  {
    hide Get, Kids;
    forall k | 1 <= k <= n ensures Get(r, k) == Get(s, k) {
      KidsAt(r, n, k);
      KidsAt(s, n, k);
      ToValueInjective(Get(r, k), Get(s, k), ShapeOf(k));
    }
  }

  lemma {:induction false} KidsCongruent(r: Record, s: Record, n: nat)
    requires n <= BODY_KEYS && SameBody(r, s)
    ensures Kids(r, n) == Kids(s, n)
  {
    if n > 0 { KidsCongruent(r, s, n - 1); }
  }

  /** Signing covers exactly the 17 fields: equal bodies, even as the beginnings of longer
      streams, come from records that agree on all of them, and the other way round. */
  lemma {:induction false} BodyInjective(r: Record, s: Record, x: Bytes, y: Bytes)
    requires Encodable(r) && Encodable(s)
    ensures EncodeBody(r) + x == EncodeBody(s) + y <==> SameBody(r, s) && x == y
  {
    hide Get, Encode, SameBody, Kids;
    KidsFit(r, BODY_KEYS);
    KidsFit(s, BODY_KEYS);
    MapDepth(Kids(r, BODY_KEYS));
    MapDepth(Kids(s, BODY_KEYS));
    if EncodeBody(r) + x == EncodeBody(s) + y {
      EncodeInjective(Map(Kids(r, BODY_KEYS)), Map(Kids(s, BODY_KEYS)), x, y);
      KidsInjective(r, s, BODY_KEYS);
      FieldsDecide(r, s);
    }
    if SameBody(r, s) { KidsCongruent(r, s, BODY_KEYS); }
  }

  lemma {:induction false} MapDepth(kids: seq<Value>)
    ensures Depth(Map(kids)) == DepthAll(kids)
  {
  }

  // ---- decoding ----

  /** A CBOR integer brought into the range of int32_t. The magnitude of a negative one is
      computed modulo 2^64. */
  function ToInt32(kind: Kind, arg: U64): (x: I32)
    requires kind == KUInt || kind == KInt
  {
    if kind == KUInt then (if arg > 0x7fff_ffff then 0x7fff_ffff else arg)
    else
      var n := (arg + 1) % 0x1_0000_0000_0000_0000;
      if n > 0x8000_0000 then -0x8000_0000 else -n
  }

  function IntegerOf(kind: Kind, arg: U64): int {
    if kind == KUInt then arg else -1 - arg
  }

  /** Conversion saturates, except for the one integer -2^64, which becomes 0. */
  lemma {:induction false} ClampExact(kind: Kind, arg: U64)
    requires kind == KUInt || kind == KInt
    ensures ToInt32(kind, arg) == Clamp(IntegerOf(kind, arg)) <==> IntegerOf(kind, arg) != -0x1_0000_0000_0000_0000
    ensures IntegerOf(kind, arg) == -0x1_0000_0000_0000_0000 ==> ToInt32(kind, arg) == 0
  {
    assert arg == 0xffff_ffff_ffff_ffff || (arg + 1) % 0x1_0000_0000_0000_0000 == arg + 1;
  }

  /** The nearest value of int32_t. */
  function Clamp(x: int): I32 {
    if x < -0x8000_0000 then -0x8000_0000 else if x > 0x7fff_ffff then 0x7fff_ffff else x
  }

  function ReadScan(b: Bytes, p: nat, end: nat, n: nat): (r: Option<seq<Bssid>>)
    requires p <= end <= |b|
    ensures r.Some? ==> |r.value| == n
    decreases n
  {
    if n == 0 then Some([])
    else
      var item := Parse(b, p, end, 0);
      if item.None? || item.value.kind != KBytes || item.value.arg != 6 then None
      else
        var rest := ReadScan(b, item.value.next, end, n - 1);
        if rest.None? then None
        else Some([b[item.value.data..item.value.next]] + rest.value)
  }

  /** The field that a parsed item holds, when its type is the right one. */
  function ReadField(b: Bytes, end: nat, shape: Shape, item: Item): (f: Option<Field>)
    requires end <= |b| && item.data <= item.next <= end && item.arg < 0x1_0000_0000_0000_0000
    requires item.kind == KBytes ==> item.next == item.data + item.arg
    ensures f.Some? ==> Accepts(shape, f.value) && (f.value.Scan? ==> |f.value.list| <= BSSID_MAX)
  {
    match shape
    case VersionShape => if item.kind == KUInt && item.arg <= 0xff then Some(Number(item.arg)) else None
    case CountShape => if item.kind == KUInt then Some(Number(item.arg)) else None
    case RepShape => if item.kind == KUInt || item.kind == KInt then Some(Signed(ToInt32(item.kind, item.arg))) else None
    case BlobShape(size) =>
      if item.kind == KBytes && item.arg == size then Some(Blob(b[item.data..item.next])) else None
    case ScanShape =>
      if item.kind != KArray || item.arg > BSSID_MAX then None
      else
        var list := ReadScan(b, item.data, end, item.arg);
        if list.None? then None else Some(Scan(list.value))
  }

  predicate Complete(seen: set<nat>) {
    forall k :: 1 <= k <= FULL_KEYS ==> k in seen
  }

  /** The decoder's loop over the remaining n map entries: r is the record so far, seen the
      bitmap of keys. Keys that are not integers from 1 to 31 leave no trace. */
  function DecodeFrom(b: Bytes, p: nat, end: nat, n: nat, r: Record, seen: set<nat>): (out: Option<Record>)
    requires p <= end <= |b|
    decreases n
  {
    if n == 0 then
      if Complete(seen) && r.version == RECORD_VERSION then Some(r) else None
    else
      var k := Parse(b, p, end, 0);
      if k.None? then None
      else
        var v := Parse(b, k.value.next, end, 0);
        if v.None? then None
        else
          var next, key := v.value.next, k.value.arg;
          if k.value.kind != KUInt || key == 0 || key > 31 then DecodeFrom(b, next, end, n - 1, r, seen)
          else if key > FULL_KEYS then DecodeFrom(b, next, end, n - 1, r, seen + {key})
          else
            var f := ReadField(b, end, ShapeOf(key), v.value);
            if f.None? then None
            else DecodeFrom(b, next, end, n - 1, Set(r, key, f.value), seen + {key})
  }

  function Decode(b: Bytes): (out: Option<Record>) {
    var top := Parse(b, 0, |b|, 0);
    if top.None? || top.value.kind != KMap then None
    else DecodeFrom(b, top.value.data, |b|, top.value.arg, ZeroRecord(), {})
  }

  // ---- decoding as a function of the tree ----

  /** The field that a value stands for. */
  function FieldOf(shape: Shape, v: Value): (f: Option<Field>)
    requires Fits(v)
    ensures f.Some? ==> Accepts(shape, f.value)
  {
    match shape
    case VersionShape => if v.UInt? && v.n <= 0xff then Some(Number(v.n)) else None
    case CountShape => if v.UInt? then Some(Number(v.n)) else None
    case RepShape => if v.UInt? || v.NInt? then Some(Signed(ToInt32(KindOf(v), v.n))) else None
    case BlobShape(size) => if v.Str? && |v.s| == size then Some(Blob(v.s)) else None
    case ScanShape => if v.Array? && |v.kids| <= BSSID_MAX && AllBssids(v.kids) then Some(Scan(BssidsOf(v.kids))) else None
  }

  predicate AllBssids(kids: seq<Value>) {
    forall i :: 0 <= i < |kids| ==> kids[i].Str? && |kids[i].s| == 6
  }

  function BssidsOf(kids: seq<Value>): (list: seq<Bssid>)
    requires AllBssids(kids)
    ensures |list| == |kids| && forall i :: 0 <= i < |kids| ==> list[i] == kids[i].s
  {
    seq(|kids|, i requires 0 <= i < |kids| => kids[i].s)
  }

  /** What decoding the entries of a map amounts to, the last of several equal keys winning. */
  function Fold(kids: seq<Value>, r: Record, seen: set<nat>): (out: Option<Record>)
    requires AllFit(kids) && |kids| % 2 == 0
    decreases |kids|
  {
    if kids == [] then
      if Complete(seen) && r.version == RECORD_VERSION then Some(r) else None
    else
      var k, v, rest := kids[0], kids[1], kids[2..];
      if !k.UInt? || k.n == 0 || k.n > 31 then Fold(rest, r, seen)
      else if k.n > FULL_KEYS then Fold(rest, r, seen + {k.n})
      else
        var f := FieldOf(ShapeOf(k.n), v);
        if f.None? then None else Fold(rest, Set(r, k.n, f.value), seen + {k.n})
  }

  lemma {:induction false} ReadScanEncoded(kids: seq<Value>, b: Bytes, pos: nat, end: nat)
    requires AllFit(kids) && Holds(b, pos, end, EncodeAll(kids)) && DepthAll(kids) <= MAX_DEPTH + 1
    ensures pos <= end <= |b|
    ensures ReadScan(b, pos, end, |kids|) == if AllBssids(kids) then Some(BssidsOf(kids)) else None
    decreases |kids|
  {
    hide Parse, Encode, Holds, ItemOf, Fits, Depth;
    HoldsInside(b, pos, end, EncodeAll(kids));
    if kids != [] {
      var v, rest := kids[0], kids[1..];
      assert Fits(v) && AllFit(rest);
      DepthOfKid(kids, 0);
      assert DepthAll(rest) <= DepthAll(kids);
      HoldsSplit(b, pos, end, Encode(v), EncodeAll(rest));
      ParseEncoded(v, b, pos, end, 0);
      ReadScanEncoded(rest, b, pos + |Encode(v)|, end);
      ItemNext(v, pos);
      if v.Str? { StrItem(v, b, pos, end); }
      AllBssidsSplit(kids);
    }
  }

  lemma {:induction false} AllBssidsSplit(kids: seq<Value>)
    requires kids != []
    ensures AllBssids(kids) <==> kids[0].Str? && |kids[0].s| == 6 && AllBssids(kids[1..])
    ensures AllBssids(kids) ==> BssidsOf(kids) == [kids[0].s] + BssidsOf(kids[1..])
  {
    if kids[0].Str? && |kids[0].s| == 6 && AllBssids(kids[1..]) {
      forall i | 0 <= i < |kids| ensures kids[i].Str? && |kids[i].s| == 6 {
        if i > 0 { assert kids[i] == kids[1..][i - 1]; }
      }
    }
  }

  /** The payload of an encoded byte string. */
  lemma {:induction false} StrItem(v: Value, b: Bytes, pos: nat, end: nat)
    requires v.Str? && Fits(v) && Holds(b, pos, end, Encode(v))
    ensures var it := ItemOf(v, pos);
      it.kind == KBytes && it.arg == |v.s| && it.data <= it.next <= |b| && b[it.data..it.next] == v.s
  {
    hide Header;
    HoldsSplit(b, pos, end, Header(2, |v.s|), v.s);
  }

  /** Where the children of an encoded array start. */
  lemma {:induction false} ArrayItem(v: Value, b: Bytes, pos: nat, end: nat)
    requires v.Array? && Fits(v) && Holds(b, pos, end, Encode(v))
    ensures AllFit(v.kids) && Depth(v) == DepthAll(v.kids)
    ensures ItemOf(v, pos).arg == |v.kids| && Holds(b, ItemOf(v, pos).data, end, EncodeAll(v.kids))
  {
    hide Header;
    HoldsSplit(b, pos, end, Header(4, |v.kids|), EncodeAll(v.kids));
  }

  /** Reading the item of an encoded value is reading the value. */
  lemma {:induction false} ReadFieldEncoded(shape: Shape, v: Value, b: Bytes, pos: nat, end: nat)
    requires Fits(v) && Holds(b, pos, end, Encode(v)) && Depth(v) <= MAX_DEPTH
    requires Parse(b, pos, end, 0) == Some(ItemOf(v, pos))
    ensures end <= |b| && ReadField(b, end, shape, ItemOf(v, pos)) == FieldOf(shape, v)
  {
    hide Parse, Holds, Encode, ReadScan, AllBssids, Depth;
    assert ItemOf(v, pos).kind == KindOf(v) && ItemOf(v, pos).arg == ArgOf(v);
    HoldsInside(b, pos, end, Encode(v));
    if v.Str? { StrItem(v, b, pos, end); }
    if v.Array? && |v.kids| <= BSSID_MAX {
      ArrayItem(v, b, pos, end);
      ReadScanEncoded(v.kids, b, ItemOf(v, pos).data, end);
    }
  }

  lemma {:induction false} DecodeFromEncoded(kids: seq<Value>, b: Bytes, pos: nat, end: nat, r: Record, seen: set<nat>)
    requires AllFit(kids) && |kids| % 2 == 0 && DepthAll(kids) <= MAX_DEPTH + 1
    requires Holds(b, pos, end, EncodeAll(kids))
    ensures pos <= end <= |b| && DecodeFrom(b, pos, end, |kids| / 2, r, seen) == Fold(kids, r, seen)
    decreases |kids|
  {
    hide Parse, Encode, EncodeAll, Holds, ItemOf, Fits, Depth, DepthAll, ReadField, FieldOf, Set, Complete;
    HoldsInside(b, pos, end, EncodeAll(kids));
    if kids != [] {
      var k, v, rest := kids[0], kids[1], kids[2..];
      var mid, next := PairParsed(kids, b, pos, end);
      var key := ArgOf(k);
      if !k.UInt? || key == 0 || key > 31 {
        DecodeFromEncoded(rest, b, next, end, r, seen);
      } else if key > FULL_KEYS {
        DecodeFromEncoded(rest, b, next, end, r, seen + {key});
      } else {
        ReadFieldEncoded(ShapeOf(key), v, b, mid, end);
        var f := FieldOf(ShapeOf(key), v);
        if f.Some? { DecodeFromEncoded(rest, b, next, end, Set(r, key, f.value), seen + {key}); }
      }
    }
  }

  lemma {:induction false} PairSplit(kids: seq<Value>)
    requires AllFit(kids) && |kids| >= 2 && DepthAll(kids) <= MAX_DEPTH + 1
    ensures EncodeAll(kids) == Encode(kids[0]) + (Encode(kids[1]) + EncodeAll(kids[2..]))
    ensures Fits(kids[0]) && Fits(kids[1]) && AllFit(kids[2..])
    ensures Depth(kids[0]) <= MAX_DEPTH && Depth(kids[1]) <= MAX_DEPTH && DepthAll(kids[2..]) <= MAX_DEPTH + 1
  {
    hide Encode, Fits, Depth;
    assert kids[1..][1..] == kids[2..];
    assert EncodeAll(kids[1..]) == Encode(kids[1]) + EncodeAll(kids[2..]);
    assert DepthAll(kids[1..]) >= DepthAll(kids[2..]);
    DepthOfKid(kids, 0);
    DepthOfKid(kids, 1);
  }

  /** The first pair of an encoded map, as it parses, and what follows it. */
  lemma {:induction false} PairParsed(kids: seq<Value>, b: Bytes, pos: nat, end: nat) returns (mid: nat, next: nat)
    requires AllFit(kids) && |kids| >= 2 && DepthAll(kids) <= MAX_DEPTH + 1 && Holds(b, pos, end, EncodeAll(kids))
    ensures pos <= mid <= next <= end <= |b|
    ensures Fits(kids[0]) && Depth(kids[0]) <= MAX_DEPTH && Holds(b, pos, end, Encode(kids[0]))
    ensures Parse(b, pos, end, 0) == Some(ItemOf(kids[0], pos)) && ItemOf(kids[0], pos).next == mid
    ensures ItemOf(kids[0], pos).kind == KindOf(kids[0]) && ItemOf(kids[0], pos).arg == ArgOf(kids[0])
    ensures Fits(kids[1]) && Depth(kids[1]) <= MAX_DEPTH && Holds(b, mid, end, Encode(kids[1]))
    ensures Parse(b, mid, end, 0) == Some(ItemOf(kids[1], mid)) && ItemOf(kids[1], mid).next == next && ItemOf(kids[1], mid).start == mid
    ensures AllFit(kids[2..]) && DepthAll(kids[2..]) <= MAX_DEPTH + 1 && Holds(b, next, end, EncodeAll(kids[2..]))
  {
    hide Parse, Encode, EncodeAll, Holds, ItemOf, Fits, Depth, DepthAll;
    var k, v, rest := kids[0], kids[1], kids[2..];
    PairSplit(kids);
    HoldsSplit(b, pos, end, Encode(k), Encode(v) + EncodeAll(rest));
    mid := pos + |Encode(k)|;
    HoldsSplit(b, mid, end, Encode(v), EncodeAll(rest));
    next := mid + |Encode(v)|;
    HoldsInside(b, next, end, EncodeAll(rest));
    ParseEncoded(k, b, pos, end, 0);
    ParseEncoded(v, b, mid, end, 0);
    ItemNext(k, pos);
    ItemNext(v, mid);
  }

  /** Decoding the encoding of any map, whatever bytes follow it, is folding its entries. */
  lemma {:induction false} DecodeEncoded(kids: seq<Value>, tail: Bytes)
    requires Fits(Map(kids)) && Depth(Map(kids)) <= MAX_DEPTH
    ensures |kids| % 2 == 0 && AllFit(kids)
    ensures Decode(Encode(Map(kids)) + tail) == Fold(kids, ZeroRecord(), {})
  {
    hide Parse, Header, EncodeAll, Depth, DecodeFrom, Fold;
    var v := Map(kids);
    var h, b := Header(5, |kids| / 2), Encode(v) + tail;
    assert Encode(v) == h + EncodeAll(kids);
    assert b[0..0 + |Encode(v)|] == Encode(v);
    assert b[|h|..|h| + |EncodeAll(kids)|] == EncodeAll(kids);
    ParseEncoded(v, b, 0, |b|, 0);
    MapDepth(kids);
    DecodeFromEncoded(kids, b, |h|, |b|, ZeroRecord(), {});
  }

  lemma {:induction false} FieldOfValue(shape: Shape, f: Field)
    requires Accepts(shape, f) && (f.Scan? ==> |f.list| <= BSSID_MAX)
    requires Fits(ToValue(f))
    ensures FieldOf(shape, ToValue(f)) == Some(f)
  {
    hide Fits;
    if f.Scan? { assert BssidsOf(Strings(f.list)) == f.list; }
  }

  lemma {:induction false} FoldStep(kids: seq<Value>, key: nat, f: Field, r: Record, seen: set<nat>)
    requires AllFit(kids) && |kids| % 2 == 0 && |kids| >= 2 && 1 <= key <= FULL_KEYS
    requires kids[0] == UInt(key) && FieldOf(ShapeOf(key), kids[1]) == Some(f)
    ensures Fold(kids, r, seen) == Fold(kids[2..], Set(r, key, f), seen + {key})
  {
    hide FieldOf, Set, Fits;
  }

  /** Folding what is left of a record's entries, after the first k have been stored. */
  lemma {:induction false} FoldKids(r: Record, k: nat, cur: Record, seen: set<nat>)
    requires Encodable(r) && k <= FULL_KEYS
    requires forall j :: 1 <= j <= k ==> Get(cur, j) == Get(r, j) && j in seen
    ensures AllFit(Kids(r, FULL_KEYS)[2 * k..]) && Fold(Kids(r, FULL_KEYS)[2 * k..], cur, seen) == Some(r)
    decreases FULL_KEYS - k
  {
    hide Get, Set, FieldOf, ToValue, Kids, Fits, Encodable, Fold, Depth, DepthAll, Encode, EncodeAll, ShapeOf, SameBody;
    KidsFit(r, FULL_KEYS);
    if k == FULL_KEYS {
      FieldsDecide(cur, r);
      assert Kids(r, FULL_KEYS)[2 * k..] == [];
      EncodableVersion(r);
      FoldEnd(r, seen);
    } else {
      FoldOne(r, k, cur, seen);
      OneMoreStored(r, k, cur, seen);
      FoldKids(r, k + 1, Set(cur, k + 1, Get(r, k + 1)), seen + {k + 1});
    }
  }

  lemma {:induction false} LaterPairs(kids: seq<Value>, k: nat)
    requires 2 * k + 2 <= |kids| && AllFit(kids)
    ensures AllFit(kids[2 * k..]) && kids[2 * k..][0] == kids[2 * k] && kids[2 * k..][1] == kids[2 * k + 1]
    ensures kids[2 * k..][2..] == kids[2 * (k + 1)..]
  {
    hide Fits;
  }

  lemma {:induction false} FoldOne(r: Record, k: nat, cur: Record, seen: set<nat>)
    requires Encodable(r) && k < FULL_KEYS && AllFit(Kids(r, FULL_KEYS))
    ensures Fold(Kids(r, FULL_KEYS)[2 * k..], cur, seen)
         == Fold(Kids(r, FULL_KEYS)[2 * (k + 1)..], Set(cur, k + 1, Get(r, k + 1)), seen + {k + 1})
  {
    hide Get, Set, FieldOf, ToValue, Kids, Fits, Encodable, Fold, ShapeOf;
    var kids := Kids(r, FULL_KEYS);
    KidsAt(r, FULL_KEYS, k + 1);
    LaterPairs(kids, k);
    FieldFits(r, k + 1);
    ScanLimit(r, k + 1);
    FieldOfValue(ShapeOf(k + 1), Get(r, k + 1));
    FoldStep(kids[2 * k..], k + 1, Get(r, k + 1), cur, seen);
  }

  lemma {:induction false} OneMoreStored(r: Record, k: nat, cur: Record, seen: set<nat>)
    requires k < FULL_KEYS && forall j :: 1 <= j <= k ==> Get(cur, j) == Get(r, j) && j in seen
    ensures forall j :: 1 <= j <= k + 1 ==> Get(Set(cur, k + 1, Get(r, k + 1)), j) == Get(r, j) && j in seen + {k + 1}
  {
    hide Get, Set;
    forall j | 1 <= j <= k + 1 ensures Get(Set(cur, k + 1, Get(r, k + 1)), j) == Get(r, j) && j in seen + {k + 1} {
      GetSet(cur, k + 1, Get(r, k + 1), j);
    }
  }

  lemma {:induction false} FoldEnd(r: Record, seen: set<nat>)
    requires r.version == 1 && forall j :: 1 <= j <= FULL_KEYS ==> j in seen
    ensures Fold([], r, seen) == Some(r)
  {
  }

  lemma {:induction false} EncodableVersion(r: Record)
    requires Encodable(r)
    ensures r.version == 1
  {
  }

  lemma {:induction false} ScanLimit(r: Record, k: nat)
    requires Encodable(r) && 1 <= k <= FULL_KEYS
    ensures Get(r, k).Scan? ==> |Get(r, k).list| <= BSSID_MAX
  {
  }

  /** Decoding an encoded record, whatever bytes follow, returns the record. */
  lemma {:induction false} RoundTrip(r: Record, tail: Bytes)
    requires Encodable(r)
    ensures Decode(EncodeFull(r) + tail) == Some(r)
  {
    hide Decode, Encode, Kids, Fold, Encodable;
    KidsFit(r, FULL_KEYS);
    MapDepth(Kids(r, FULL_KEYS));
    DecodeEncoded(Kids(r, FULL_KEYS), tail);
    assert Kids(r, FULL_KEYS)[2 * 0..] == Kids(r, FULL_KEYS);
    FoldKids(r, 0, ZeroRecord(), {});
  }

  /** Decoding sees the values of an entry only through the field that they stand for. */
  lemma {:induction false} FoldSame(a: seq<Value>, b: seq<Value>, r: Record, seen: set<nat>)
    requires |a| == |b| && |a| % 2 == 0 && AllFit(a) && AllFit(b)
    requires forall i :: 0 <= i < |a| && i % 2 == 0 ==> a[i] == b[i]
    requires forall i :: 0 <= i < |a| && i % 2 == 0 && KnownKey(a[i]) ==> FieldOf(ShapeOf(a[i].n), a[i + 1]) == FieldOf(ShapeOf(a[i].n), b[i + 1])
    ensures Fold(a, r, seen) == Fold(b, r, seen)
    decreases |a|
  {
    hide FieldOf, Set, Fits, ShapeOf;
    if a != [] {
      var k := a[0];
      assert a[1] == a[0 + 1] && b[1] == b[0 + 1];
      forall i | 0 <= i < |a| - 2 && i % 2 == 0 ensures a[2..][i] == b[2..][i] { assert a[i + 2] == b[i + 2]; }
      forall i | 0 <= i < |a| - 2 && i % 2 == 0 && KnownKey(a[2..][i])
        ensures FieldOf(ShapeOf(a[2..][i].n), a[2..][i + 1]) == FieldOf(ShapeOf(a[2..][i].n), b[2..][i + 1])
      {
        assert a[2..][i] == a[i + 2] && a[2..][i + 1] == a[i + 2 + 1] && b[2..][i + 1] == b[i + 2 + 1];
      }
      if !k.UInt? || k.n == 0 || k.n > 31 {
        FoldSame(a[2..], b[2..], r, seen);
      } else if k.n > FULL_KEYS {
        FoldSame(a[2..], b[2..], r, seen + {k.n});
      } else {
        assert KnownKey(k);
        var f := FieldOf(ShapeOf(k.n), a[1]);
        if f.Some? { FoldSame(a[2..], b[2..], Set(r, k.n, f.value), seen + {k.n}); }
      }
    }
  }

  /** A record that arrives with the reputation -2^64 is accepted, and the reputation is 0. */
  lemma {:induction false} WrappedReputation(r: Record, tail: Bytes)
    requires Encodable(r) && r.repOfBByA == 0
    ensures |Kids(r, FULL_KEYS)| > 11 && Kids(r, FULL_KEYS)[10] == UInt(6)
    ensures IntegerOf(KInt, 0xffff_ffff_ffff_ffff) == -0x1_0000_0000_0000_0000
    ensures var kids := Kids(r, FULL_KEYS)[11 := NInt(0xffff_ffff_ffff_ffff)];
      Fits(Map(kids)) && Decode(Encode(Map(kids)) + tail) == Some(r)
  {
    hide Decode, Encode, Kids, Fold, Encodable, EncodeAll, Fits, Depth, DepthAll, FieldOf;
    var was := Kids(r, FULL_KEYS);
    KidsFit(r, FULL_KEYS);
    KidsAt(r, FULL_KEYS, 6);
    var kids := was[11 := NInt(0xffff_ffff_ffff_ffff)];
    StillFits(was, 11, 0xffff_ffff_ffff_ffff);
    MapDepth(kids);
    DecodeEncoded(kids, tail);
    WrappedFold(was, kids);
    assert was[2 * 0..] == was;
    FoldKids(r, 0, ZeroRecord(), {});
  }

  lemma {:induction false} WrappedFold(was: seq<Value>, kids: seq<Value>)
    requires |was| > 11 && |was| % 2 == 0 && was[10] == UInt(6) && was[11] == ToValue(Signed(0))
    requires kids == was[11 := NInt(0xffff_ffff_ffff_ffff)] && AllFit(was) && AllFit(kids)
    ensures Fold(kids, ZeroRecord(), {}) == Fold(was, ZeroRecord(), {})
  {
    hide Fold, Fits, FieldOf, ShapeOf;
    WrapsToZero();
    forall i | 0 <= i < |was| && i % 2 == 0 && KnownKey(kids[i])
      ensures FieldOf(ShapeOf(kids[i].n), kids[i + 1]) == FieldOf(ShapeOf(kids[i].n), was[i + 1])
    {
    }
    FoldSame(kids, was, ZeroRecord(), {});
  }

  lemma {:induction false} WrapsToZero()
    ensures FieldOf(ShapeOf(6), NInt(0xffff_ffff_ffff_ffff)) == FieldOf(ShapeOf(6), ToValue(Signed(0)))
  {
  }

  /** Replacing an entry by a number. */
  lemma {:induction false} StillFits(kids: seq<Value>, i: nat, n: U64)
    requires i < |kids| && AllFit(kids)
    ensures var after := kids[i := NInt(n)];
      AllFit(after) && DepthAll(after) <= (if DepthAll(kids) == 0 then 1 else DepthAll(kids))
    ensures |kids| < 48 && |kids| % 2 == 0 ==> Fits(Map(kids[i := NInt(n)]))
    decreases i
  {
    var after := kids[i := NInt(n)];
    if i == 0 {
      assert after[1..] == kids[1..];
    } else {
      StillFits(kids[1..], i - 1, n);
      assert after[0] == kids[0] && after[1..] == kids[1..][i - 1 := NInt(n)];
    }
  }

  /** Keys of earlier entries matter only as far as they are required. */
  lemma {:induction false} FoldSeen(kids: seq<Value>, r: Record, seen: set<nat>, extra: nat)
    requires AllFit(kids) && |kids| % 2 == 0 && extra > FULL_KEYS
    ensures Fold(kids, r, seen + {extra}) == Fold(kids, r, seen)
    decreases |kids|
  {
    hide Set, FieldOf, Fits;
    if kids != [] {
      var k, v, rest := kids[0], kids[1], kids[2..];
      if !k.UInt? || k.n == 0 || k.n > 31 {
        FoldSeen(rest, r, seen, extra);
      } else {
        assert seen + {extra} + {k.n} == seen + {k.n} + {extra};
        if k.n > FULL_KEYS {
          FoldSeen(rest, r, seen + {k.n}, extra);
        } else {
          var f := FieldOf(ShapeOf(k.n), v);
          if f.Some? { FoldSeen(rest, Set(r, k.n, f.value), seen + {k.n}, extra); }
        }
      }
    } else {
      CompleteExtra(seen, extra);
    }
  }

  lemma {:induction false} CompleteExtra(seen: set<nat>, extra: nat)
    requires extra > FULL_KEYS
    ensures Complete(seen + {extra}) <==> Complete(seen)
  {
    if Complete(seen + {extra}) {
      forall k | 1 <= k <= FULL_KEYS ensures k in seen { assert k in seen + {extra}; }
    }
  }

  predicate KnownKey(k: Value) {
    k.UInt? && 1 <= k.n <= FULL_KEYS
  }

  /** An entry with a key of no field, wherever it stands, is ignored. */
  lemma {:induction false} UnknownIgnored(a: seq<Value>, k: Value, v: Value, c: seq<Value>, r: Record, seen: set<nat>)
    requires |a| % 2 == 0 && |c| % 2 == 0 && AllFit(a + [k, v] + c) && AllFit(a + c) && !KnownKey(k)
    ensures Fold(a + [k, v] + c, r, seen) == Fold(a + c, r, seen)
    decreases |a|
  {
    hide Set, FieldOf, Fits;
    var s, t := a + [k, v] + c, a + c;
    if a == [] {
      assert s[2..] == c && t == c && s[0] == k;
      if k.UInt? && FULL_KEYS < k.n <= 31 { FoldSeen(c, r, seen, k.n); }
    } else {
      var k0, v0 := a[0], a[1];
      assert s[0] == k0 && s[1] == v0 && t[0] == k0 && t[1] == v0;
      assert s[2..] == a[2..] + [k, v] + c && t[2..] == a[2..] + c;
      if !k0.UInt? || k0.n == 0 || k0.n > 31 {
        UnknownIgnored(a[2..], k, v, c, r, seen);
      } else if k0.n > FULL_KEYS {
        UnknownIgnored(a[2..], k, v, c, r, seen + {k0.n});
      } else {
        var f := FieldOf(ShapeOf(k0.n), v0);
        if f.Some? { UnknownIgnored(a[2..], k, v, c, Set(r, k0.n, f.value), seen + {k0.n}); }
      }
    }
  }

  predicate FewBssids(r: Record) {
    |r.bssidsA| <= BSSID_MAX && |r.bssidsB| <= BSSID_MAX
  }

  lemma {:induction false} SetFew(r: Record, key: nat, f: Field)
    requires 1 <= key <= FULL_KEYS && Accepts(ShapeOf(key), f) && FewBssids(r) && (f.Scan? ==> |f.list| <= BSSID_MAX)
    ensures FewBssids(Set(r, key, f))
  {
  }

  lemma {:induction false} DecodeFromEncodable(b: Bytes, p: nat, end: nat, n: nat, r: Record, seen: set<nat>)
    requires p <= end <= |b| && FewBssids(r)
    ensures var out := DecodeFrom(b, p, end, n, r, seen); out.Some? ==> Encodable(out.value)
    decreases n
  {
    hide Parse, Set, ReadField, Complete;
    if n > 0 {
      var k := Parse(b, p, end, 0);
      if k.Some? {
        var v := Parse(b, k.value.next, end, 0);
        if v.Some? {
          var next, key := v.value.next, k.value.arg;
          if k.value.kind != KUInt || key == 0 || key > 31 { DecodeFromEncodable(b, next, end, n - 1, r, seen); }
          else if key > FULL_KEYS { DecodeFromEncodable(b, next, end, n - 1, r, seen + {key}); }
          else {
            var f := ReadField(b, end, ShapeOf(key), v.value);
            if f.Some? {
              SetFew(r, key, f.value);
              DecodeFromEncodable(b, next, end, n - 1, Set(r, key, f.value), seen + {key});
            }
          }
        }
      }
    }
  }

  /** Whatever bytes a record was decoded from, it can be encoded, and its canonical encoding
      decodes to it. */
  lemma {:induction false} DecodedIsCanonical(b: Bytes)
    ensures var out := Decode(b);
      out.Some? ==> EncodeFull(out.value) != [] && Decode(EncodeFull(out.value)) == out
  {
    hide Parse, DecodeFrom, EncodeFull;
    var top := Parse(b, 0, |b|, 0);
    if top.Some? && top.value.kind == KMap {
      DecodeFromEncodable(b, top.value.data, |b|, top.value.arg, ZeroRecord(), {});
      var out := Decode(b);
      if out.Some? {
        RoundTrip(out.value, []);
        assert EncodeFull(out.value) + [] == EncodeFull(out.value);
      }
    }
  }

  // ---- verification ----

  /** Both signatures hold over the canonical body; `check` is the signature scheme. */
  predicate Verify(r: Record, check: (Bytes, Bytes, Bytes) -> bool) {
    r.version == RECORD_VERSION && EncodeBody(r) != []
    && check(r.pubA, EncodeBody(r), r.sigA) && check(r.pubB, EncodeBody(r), r.sigB)
  }
}
