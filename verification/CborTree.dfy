/** CBOR value trees: what the encoders emit, what re-walking a parsed item reads back, and
    lookup in maps. */
module CborTree {
  import opened Cbor
  import opened Wrappers

  /** A map lists its keys and values alternately. */
  datatype Value =
    | UInt(n: nat)
    | NInt(n: nat)          // stands for -1 - n
    | Str(s: Bytes)
    | Text(s: Bytes)
    | Array(kids: seq<Value>)
    | Map(kids: seq<Value>)
    | Bool(b: bool)

  predicate Fits(v: Value) {
    match v
    case UInt(n) => n < 0x1_0000_0000_0000_0000
    case NInt(n) => n < 0x1_0000_0000_0000_0000
    case Str(s) => |s| < 0x1_0000_0000
    case Text(s) => |s| < 0x1_0000_0000
    case Array(kids) => |kids| < 0x1_0000_0000 && AllFit(kids)
    case Map(kids) => |kids| < 0x1_0000_0000 && |kids| % 2 == 0 && AllFit(kids)
    case Bool(_) => true
  }

  predicate AllFit(kids: seq<Value>) {
    forall k :: 0 <= k < |kids| ==> Fits(kids[k])
  }

  /** How many levels of children hang below a value. */
  function Depth(v: Value): nat {
    match v
    case Array(kids) => DepthAll(kids)
    case Map(kids) => DepthAll(kids)
    case _ => 0
  }

  /** One more than the deepest child, and 0 without children. */
  function DepthAll(kids: seq<Value>): nat {
    if kids == [] then 0
    else
      var a, b := 1 + Depth(kids[0]), DepthAll(kids[1..]);
      if a < b then b else a
  }

  /** Byte strings as the children of an array. */
  function Strings(list: seq<Bytes>): (kids: seq<Value>)
    ensures |kids| == |list| && forall i :: 0 <= i < |list| ==> kids[i] == Str(list[i])
  {
    seq(|list|, i requires 0 <= i < |list| => Str(list[i]))
  }

  /** The first value under a key. */
  function FirstUnder(kids: seq<Value>, key: Value): (v: Option<Value>)
    requires |kids| % 2 == 0
    ensures v.Some? ==> v.value in kids
    decreases |kids|
  {
    if kids == [] then None else if kids[0] == key then Some(kids[1]) else FirstUnder(kids[2..], key)
  }

  /** The bytes that the encoders write for a value. */
  function Encode(v: Value): (s: Bytes)
    requires Fits(v)
    ensures |s| >= 1
    decreases v, 0
  {
    match v
    case UInt(n) => Header(0, n)
    case NInt(n) => Header(1, n)
    case Str(s) => Header(2, |s|) + s
    case Text(s) => Header(3, |s|) + s
    case Array(kids) => Header(4, |kids|) + EncodeAll(kids)
    case Map(kids) => Header(5, |kids| / 2) + EncodeAll(kids)
    case Bool(b) => [if b then 0xf5 else 0xf4]
  }

  function EncodeAll(kids: seq<Value>): (s: Bytes)
    requires AllFit(kids)
    ensures |s| >= |kids|
    decreases kids, 1
  {
    if kids == [] then [] else Encode(kids[0]) + EncodeAll(kids[1..])
  }

  lemma {:induction false} EncodeAllConcat(a: seq<Value>, b: seq<Value>)
    requires AllFit(a) && AllFit(b)
    ensures AllFit(a + b) && EncodeAll(a + b) == EncodeAll(a) + EncodeAll(b)
  {
    hide Encode, Fits;
    if a == [] {
      assert a + b == b;
    } else {
      EncodeAllConcat(a[1..], b);
      assert (a + b)[0] == a[0] && (a + b)[1..] == a[1..] + b;
    }
  }

  function MajorOf(v: Value): nat {
    match v
    case UInt(_) => 0
    case NInt(_) => 1
    case Str(_) => 2
    case Text(_) => 3
    case Array(_) => 4
    case Map(_) => 5
    case Bool(_) => 7
  }

  function KindOf(v: Value): Kind {
    match v
    case UInt(_) => KUInt
    case NInt(_) => KInt
    case Str(_) => KBytes
    case Text(_) => KText
    case Array(_) => KArray
    case Map(_) => KMap
    case Bool(_) => KBool
  }

  function ArgOf(v: Value): nat {
    match v
    case UInt(n) => n
    case NInt(n) => n
    case Str(s) => |s|
    case Text(s) => |s|
    case Array(kids) => |kids|
    case Map(kids) => |kids| / 2
    case Bool(b) => if b then 1 else 0
  }

  /** The item that parsing the encoding of v at pos yields. */
  function ItemOf(v: Value, pos: nat): Item
    requires Fits(v)
  {
    Item(KindOf(v), ArgOf(v), pos, pos + (if v.Bool? then 1 else |Header(MajorOf(v), ArgOf(v))|), pos + |Encode(v)|)
  }

  /** What follows the header of an encoded value. */
  function Body(v: Value): Bytes
    requires Fits(v)
  {
    match v
    case Str(s) => s
    case Text(s) => s
    case Array(kids) => EncodeAll(kids)
    case Map(kids) => EncodeAll(kids)
    case _ => []
  }

  lemma {:induction false} EncodeSplit(v: Value)
    requires Fits(v) && !v.Bool?
    ensures Encode(v) == Header(MajorOf(v), ArgOf(v)) + Body(v)
    ensures ArgOf(v) < 0x1_0000_0000_0000_0000 && MajorOf(v) <= 5
  {
    if v.UInt? || v.NInt? { assert Header(MajorOf(v), ArgOf(v)) + [] == Header(MajorOf(v), ArgOf(v)); }
  }

  /** Parsing an encoded value, whatever bytes follow, yields its item, as long as the nesting
      stays within the depth limit. */
  lemma {:induction false} ParseEncoded(v: Value, b: Bytes, pos: nat, end: nat, depth: nat)
    requires Fits(v) && Holds(b, pos, end, Encode(v)) && depth + Depth(v) <= MAX_DEPTH
    ensures Parse(b, pos, end, depth) == Some(ItemOf(v, pos))
    decreases v, 0
  {
    hide Parse, Skip, DecodeArg, Header, Encode, EncodeAll, Holds;
    if v.Bool? {
      ParseBool(v, b, pos, end, depth);
    } else {
      EncodeSplit(v);
      HoldsInside(b, pos, end, Encode(v));
      var h := Header(MajorOf(v), ArgOf(v));
      HoldsSplit(b, pos, end, h, Body(v));
      DecodeHeader(b, pos, end, MajorOf(v), ArgOf(v));
      if v.Array? || v.Map? {
        SkipEncoded(v.kids, b, pos + |h|, end, depth + 1);
        ParseNode(v, b, pos, end, depth);
      } else {
        ParseLeaf(v, b, pos, end, depth);
      }
    }
  }

  lemma {:induction false} ParseBool(v: Value, b: Bytes, pos: nat, end: nat, depth: nat)
    requires v.Bool? && Holds(b, pos, end, Encode(v)) && depth <= MAX_DEPTH
    ensures Parse(b, pos, end, depth) == Some(ItemOf(v, pos))
  {
    assert b[pos] == b[pos..pos + 1][0];
  }

  lemma {:induction false} ParseLeaf(v: Value, b: Bytes, pos: nat, end: nat, depth: nat)
    requires Fits(v) && !v.Bool? && !v.Array? && !v.Map? && depth <= MAX_DEPTH && pos < end <= |b|
    requires Encode(v) == Header(MajorOf(v), ArgOf(v)) + Body(v) && pos + |Encode(v)| <= end
    requires b[pos] / 32 == MajorOf(v)
    requires DecodeArg(b, pos + 1, end, b[pos] % 32) == Some((ArgOf(v), pos + |Header(MajorOf(v), ArgOf(v))|))
    ensures Parse(b, pos, end, depth) == Some(ItemOf(v, pos))
  {
    hide Header, DecodeArg, Encode;
  }

  lemma {:induction false} ParseNode(v: Value, b: Bytes, pos: nat, end: nat, depth: nat)
    requires Fits(v) && (v.Array? || v.Map?) && depth <= MAX_DEPTH && pos < end <= |b|
    requires Encode(v) == Header(MajorOf(v), ArgOf(v)) + Body(v) && pos + |Encode(v)| <= end
    requires b[pos] / 32 == MajorOf(v)
    requires DecodeArg(b, pos + 1, end, b[pos] % 32) == Some((ArgOf(v), pos + |Header(MajorOf(v), ArgOf(v))|))
    requires Skip(b, pos + |Header(MajorOf(v), ArgOf(v))|, end, depth + 1, |v.kids|) == Some(pos + |Encode(v)|)
    ensures Parse(b, pos, end, depth) == Some(ItemOf(v, pos))
  {
    hide Header, DecodeArg, Encode, Skip;
  }

  lemma {:induction false} HoldsInside(b: Bytes, pos: nat, end: nat, s: Bytes)
    requires Holds(b, pos, end, s)
    ensures pos <= end <= |b| && pos + |s| <= end
  {
  }

  lemma {:induction false} SkipEncoded(kids: seq<Value>, b: Bytes, pos: nat, end: nat, depth: nat)
    requires AllFit(kids) && Holds(b, pos, end, EncodeAll(kids))
    requires depth + DepthAll(kids) <= MAX_DEPTH + 1
    ensures Skip(b, pos, end, depth, |kids|) == Some(pos + |EncodeAll(kids)|)
    decreases kids, 1
  {
    hide Parse, DecodeArg, Header, Encode, Holds;
    if kids == [] {
      HoldsInside(b, pos, end, EncodeAll(kids));
    } else {
      var v, rest := kids[0], kids[1..];
      assert EncodeAll(kids) == Encode(v) + EncodeAll(rest);
      HoldsSplit(b, pos, end, Encode(v), EncodeAll(rest));
      ParseEncoded(v, b, pos, end, depth);
      SkipEncoded(rest, b, pos + |Encode(v)|, end, depth);
    }
  }

  // ---- reading back ----

  /** The tree that a consumer reads: every item parsed with a fresh top-level parse, containers
      walked child by child. Floats have no tree. */
  function Read(b: Bytes, pos: nat, end: nat): (r: Option<(Value, nat)>)
    requires end <= |b|
    ensures r.Some? ==> pos < r.value.1 <= end
    decreases if pos < end then end - pos else 0, 0
  {
    var item := Parse(b, pos, end, 0);
    if item.None? then None
    else
      var it := item.value;
      match it.kind
      case KUInt => Some((UInt(it.arg), it.next))
      case KInt => Some((NInt(it.arg), it.next))
      case KBytes => Some((Str(b[it.data..it.next]), it.next))
      case KText => Some((Text(b[it.data..it.next]), it.next))
      case KBool => Some((Bool(it.arg != 0), it.next))
      case KFloat => None
      case KArray =>
        var kids := ReadAll(b, it.data, end, it.arg);
        if kids.None? then None else Some((Array(kids.value.0), kids.value.1))
      case KMap =>
        var kids := ReadAll(b, it.data, end, 2 * it.arg);
        if kids.None? then None else Some((Map(kids.value.0), kids.value.1))
  }

  function ReadAll(b: Bytes, pos: nat, end: nat, n: nat): (r: Option<(seq<Value>, nat)>)
    requires pos <= end <= |b|
    ensures r.Some? ==> pos <= r.value.1 <= end
    decreases end - pos, 1
  {
    if n == 0 then Some(([], pos))
    else
      var first := Read(b, pos, end);
      if first.None? then None
      else
        var rest := ReadAll(b, first.value.1, end, n - 1);
        if rest.None? then None else Some(([first.value.0] + rest.value.0, rest.value.1))
  }

  /** Reading an encoded value, whatever bytes follow, returns the value. */
  lemma {:induction false} ReadEncoded(v: Value, b: Bytes, pos: nat, end: nat)
    requires Fits(v) && Holds(b, pos, end, Encode(v)) && Depth(v) <= MAX_DEPTH
    ensures Read(b, pos, end) == Some((v, pos + |Encode(v)|))
    decreases v, 0
  {
    hide Parse, Read, ReadAll, Header, Encode, EncodeAll, Holds, ItemOf, Fits;
    ParseEncoded(v, b, pos, end, 0);
    HoldsInside(b, pos, end, Encode(v));
    if v.Bool? {
      ReadLeaf(v, b, pos, end);
    } else {
      EncodeSplit(v);
      HoldsSplit(b, pos, end, Header(MajorOf(v), ArgOf(v)), Body(v));
      HoldsBytes(b, pos + |Header(MajorOf(v), ArgOf(v))|, end, Body(v));
      if v.Array? || v.Map? {
        KidsFitToo(v);
        ReadAllEncoded(v.kids, b, pos + |Header(MajorOf(v), ArgOf(v))|, end);
        ReadNode(v, b, pos, end);
      } else {
        ReadLeaf(v, b, pos, end);
      }
    }
  }

  lemma {:induction false} KidsFitToo(v: Value)
    requires Fits(v) && (v.Array? || v.Map?)
    ensures AllFit(v.kids) && DepthAll(v.kids) == Depth(v) && Body(v) == EncodeAll(v.kids)
  {
  }

  lemma {:induction false} ReadLeaf(v: Value, b: Bytes, pos: nat, end: nat)
    requires Fits(v) && !v.Array? && !v.Map? && pos + |Encode(v)| <= end <= |b|
    requires Parse(b, pos, end, 0) == Some(ItemOf(v, pos))
    requires !v.Bool? ==>
      var d := pos + |Header(MajorOf(v), ArgOf(v))|;
      d + |Body(v)| == pos + |Encode(v)| && b[d..d + |Body(v)|] == Body(v)
    ensures Read(b, pos, end) == Some((v, pos + |Encode(v)|))
  {
    hide Parse, Header, Encode;
  }

  lemma {:induction false} ReadNode(v: Value, b: Bytes, pos: nat, end: nat)
    requires Fits(v) && (v.Array? || v.Map?) && pos + |Encode(v)| <= end <= |b|
    requires Parse(b, pos, end, 0) == Some(ItemOf(v, pos))
    requires var d := pos + |Header(MajorOf(v), ArgOf(v))|;
      d <= end && ReadAll(b, d, end, |v.kids|) == Some((v.kids, pos + |Encode(v)|))
    ensures Read(b, pos, end) == Some((v, pos + |Encode(v)|))
  {
    hide Parse, Header, Encode, ReadAll;
  }

  lemma {:induction false} HoldsBytes(b: Bytes, pos: nat, end: nat, s: Bytes)
    requires Holds(b, pos, end, s)
    ensures pos + |s| <= end <= |b| && b[pos..pos + |s|] == s
  {
  }

  lemma {:induction false} ReadAllEncoded(kids: seq<Value>, b: Bytes, pos: nat, end: nat)
    requires AllFit(kids) && Holds(b, pos, end, EncodeAll(kids)) && DepthAll(kids) <= MAX_DEPTH + 1
    ensures ReadAll(b, pos, end, |kids|) == Some((kids, pos + |EncodeAll(kids)|))
    decreases kids, 1
  {
    hide Read, Encode, Holds;
    HoldsInside(b, pos, end, EncodeAll(kids));
    if kids != [] {
      var v, rest := kids[0], kids[1..];
      HoldsSplit(b, pos, end, Encode(v), EncodeAll(rest));
      ReadEncoded(v, b, pos, end);
      ReadAllEncoded(rest, b, pos + |Encode(v)|, end);
      assert [v] + rest == kids;
    }
  }

  /** The encoding is injective and prefix-free: equal streams start with equal values. */
  lemma {:induction false} EncodeInjective(v: Value, w: Value, s: Bytes, t: Bytes)
    requires Fits(v) && Fits(w) && Depth(v) <= MAX_DEPTH && Depth(w) <= MAX_DEPTH
    requires Encode(v) + s == Encode(w) + t
    ensures v == w && s == t
  {
    hide Read, Encode, Fits, Depth;
    var b := Encode(v) + s;
    assert b[0..0 + |Encode(v)|] == Encode(v) && b[0..0 + |Encode(w)|] == Encode(w);
    ReadEncoded(v, b, 0, |b|);
    ReadEncoded(w, b, 0, |b|);
    assert s == b[|Encode(v)|..] && t == b[|Encode(w)|..];
  }

  // ---- maps with text keys ----

  /** An item is the text string `key`. */
  predicate IsText(b: Bytes, k: Item, key: Bytes) {
    k.kind == KText && k.arg == |key| && k.data + |key| <= |b| && b[k.data..k.data + |key|] == key
  }

  /** The value of the first pair whose key is the text `key`. */
  function MapFind(b: Bytes, p: nat, end: nat, pairs: nat, key: Bytes): (r: Option<Item>)
    requires p <= end <= |b|
    ensures r.Some? ==> p < r.value.start < r.value.data <= r.value.next <= end
    ensures r.Some? ==> r.value.arg < 0x1_0000_0000_0000_0000
    ensures r.Some? && (r.value.kind == KBytes || r.value.kind == KText) ==> r.value.next == r.value.data + r.value.arg
    decreases pairs
  {
    if pairs == 0 then None
    else
      var k := Parse(b, p, end, 0);
      if k.None? then None
      else
        var v := Parse(b, k.value.next, end, 0);
        if v.None? then None
        else if IsText(b, k.value, key) then v
        else MapFind(b, v.value.next, end, pairs - 1, key)
  }

  lemma {:induction false} IsTextEncoded(v: Value, b: Bytes, pos: nat, end: nat, key: Bytes)
    requires Fits(v) && Holds(b, pos, end, Encode(v))
    ensures IsText(b, ItemOf(v, pos), key) <==> v == Text(key)
  {
    hide Header;
    if v.Text? {
      HoldsSplit(b, pos, end, Header(3, |v.s|), v.s);
      if |key| == |v.s| {
        var d := pos + |Header(3, |v.s|)|;
        assert b[d..d + |key|] == v.s;
      }
    }
  }

  lemma {:induction false} ItemNext(v: Value, pos: nat)
    requires Fits(v)
    ensures ItemOf(v, pos).next == pos + |Encode(v)| && ItemOf(v, pos).start == pos
    ensures ItemOf(v, pos).kind == KindOf(v) && ItemOf(v, pos).arg == ArgOf(v)
  {
  }

  lemma {:induction false} KidsDepth(kids: seq<Value>, d: nat)
    requires forall i :: 0 <= i < |kids| ==> Depth(kids[i]) <= d
    ensures DepthAll(kids) <= d + 1
    decreases |kids|
  {
    if kids != [] { KidsDepth(kids[1..], d); }
  }

  /** No proper beginning of an encoded value parses. */
  lemma {:induction false} CutFails(v: Value, n: nat)
    requires Fits(v) && Depth(v) <= MAX_DEPTH && n < |Encode(v)|
    ensures Parse(Encode(v)[..n], 0, n, 0).None?
  {
    hide Parse, Encode, Depth, Fits, ItemOf;
    var b := Encode(v);
    assert b[0..0 + |b|] == b;
    ParseEncoded(v, b, 0, |b|, 0);
    ItemNext(v, 0);
    if Parse(b[..n], 0, n, 0).Some? {
      assert b[..n][..n] == b[..n];
      ParseMonotone(b[..n], b, 0, n, |b|, 0, 0);
    }
  }

  lemma {:induction false} DepthOfKid(kids: seq<Value>, i: nat)
    requires i < |kids|
    ensures Depth(kids[i]) < DepthAll(kids)
  {
    if i > 0 { DepthOfKid(kids[1..], i - 1); }
  }

  // ---- maps with integer keys ----

  /** The value of the first pair whose key is the unsigned integer `key`. */
  function FindInt(b: Bytes, p: nat, end: nat, pairs: nat, key: nat): (r: Option<Item>)
    requires p <= end <= |b|
    ensures r.Some? ==> p < r.value.start < r.value.data <= r.value.next <= end
    ensures r.Some? ==> r.value.arg < 0x1_0000_0000_0000_0000
    ensures r.Some? && r.value.kind == KBytes ==> r.value.next == r.value.data + r.value.arg
    decreases pairs
  {
    if pairs == 0 then None
    else
      var k := Parse(b, p, end, 0);
      if k.None? then None
      else
        var v := Parse(b, k.value.next, end, 0);
        if v.None? then None
        else if k.value.kind == KUInt && k.value.arg == key then v
        else FindInt(b, v.value.next, end, pairs - 1, key)
  }
}
