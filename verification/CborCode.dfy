/** The imperative CBOR routines: the parser's loops, the encoders that write into a caller's
    buffer, and the companion app's builder. Each is proved against the functions of Cbor and
    CborTree. */
module CborCode {
  import opened Bits
  import opened Cbor
  import opened CborTree
  import opened Nonlinear
  import opened Wrappers

  /** Parse one item; the children of a container are stepped over in a loop. */
  method CborParse(b: Bytes, pos: nat, end: nat, depth: nat) returns (out: Option<Item>)
    requires end <= |b|
    ensures out == Parse(b, pos, end, depth)
    decreases if pos < end then end - pos else 0
  {
    hide DecodeArg;
    if pos >= end || depth > MAX_DEPTH { return None; }
    var major, additional := b[pos] / 32, b[pos] % 32;
    if major == 6 { return None; }
    if major == 7 { return ParseSimple(b, pos, end, additional); }
    var a := DecodeArg(b, pos + 1, end, additional);
    if a.None? { return None; }
    var (arg, p) := a.value;
    if major <= 1 {
      return Some(Item(if major == 0 then KUInt else KInt, arg, pos, p, p));
    }
    if major <= 3 {
      if arg > end - p { return None; }
      return Some(Item(if major == 2 then KBytes else KText, arg, pos, p, p + arg));
    }
    var children := if major == 5 then 2 * arg else arg;
    if end - p < children { return None; }
    var q := p;
    var i := 0;
    while i < children
      invariant p <= q <= end && i <= children
      invariant Skip(b, p, end, depth + 1, children) == Skip(b, q, end, depth + 1, children - i)
    {
      var child := CborParse(b, q, end, depth + 1);
      if child.None? { return None; }
      q := child.value.next;
      i := i + 1;
    }
    return Some(Item(if major == 5 then KMap else KArray, arg, pos, p, q));
  }

  /** Find the value under a text key. */
  method CborMapFind(b: Bytes, mapData: nat, end: nat, pairs: nat, key: Bytes) returns (out: Option<Item>)
    requires mapData <= end <= |b|
    ensures out == MapFind(b, mapData, end, pairs, key)
  {
    var p: nat := mapData;
    for i := 0 to pairs
      invariant p <= end
      invariant MapFind(b, mapData, end, pairs, key) == MapFind(b, p, end, pairs - i, key)
    {
      var k := CborParse(b, p, end, 0);
      if k.None? { return None; }
      var v := CborParse(b, k.value.next, end, 0);
      if v.None? { return None; }
      if IsText(b, k.value, key) { return v; }
      p := v.value.next;
    }
    return None;
  }

  /** Find the value under an integer key. */
  method FindIntKey(b: Bytes, mapData: nat, end: nat, pairs: nat, key: nat) returns (out: Option<Item>)
    requires mapData <= end <= |b|
    ensures out == FindInt(b, mapData, end, pairs, key)
  {
    var p: nat := mapData;
    for i := 0 to pairs
      invariant p <= end
      invariant FindInt(b, mapData, end, pairs, key) == FindInt(b, p, end, pairs - i, key)
    {
      var k := CborParse(b, p, end, 0);
      if k.None? { return None; }
      var v := CborParse(b, k.value.next, end, 0);
      if v.None? { return None; }
      if k.value.kind == KUInt && k.value.arg == key { return v; }
      p := v.value.next;
    }
    return None;
  }

  // ---- encoders ----

  /** A buffer with s written over it at a position. */
  function Splice(buf: Bytes, at: nat, s: Bytes): (r: Bytes)
    requires at + |s| <= |buf|
    ensures |r| == |buf|
  {
    buf[..at] + s + buf[at + |s|..]
  }

  /** Writing s and then t right after it is writing both. */
  lemma {:induction false} SpliceTwice(buf: Bytes, at: nat, s: Bytes, t: Bytes)
    requires at + |s| + |t| <= |buf|
    ensures Splice(Splice(buf, at, s), at + |s|, t) == Splice(buf, at, s + t)
  {
  }

  /** Copy bytes into the buffer. */
  method Put(buf: array<U8>, at: nat, s: Bytes)
    requires at + |s| <= buf.Length
    modifies buf
    ensures buf[..] == Splice(old(buf[..]), at, s)
  {
    forall k | 0 <= k < |s| { buf[at + k] := s[k]; }
  }

  /** The initial byte `major << 5 | low`. */
  method Initial(major: nat, low: nat) returns (b: U8)
    requires major < 8 && low < 32
    ensures b == major * 32 + low
  {
    hide Or, Pow2;
    Pow2Values();
    OrDisjoint(low, major * 32, 5);
    b := Or(low, major * 32 % 0x100);
  }

  lemma {:induction false} FourByteShifts(v: nat)
    requires v < 0x1_0000_0000
    ensures Be4(v) == [v / 0x100_0000, v / 0x1_0000 % 0x100, v / 0x100 % 0x100, v % 0x100]
  {
    var hi, lo := v / 0x1_0000, v % 0x1_0000;
    DivDiv(v, 0x1_0000, 0x100);
    ModDiv(v, 0x100, 0x100);
    LowByte(v);
    assert Be2(hi) == [v / 0x100_0000, v / 0x1_0000 % 0x100];
    assert Be2(lo) == [v / 0x100 % 0x100, v % 0x100];
  }

  lemma {:induction false} EightByteShifts(v: nat)
    requires v < 0x1_0000_0000_0000_0000
    ensures Be8(v) == [v / 0x100_0000_0000_0000, v / 0x1_0000_0000_0000 % 0x100, v / 0x100_0000_0000 % 0x100, v / 0x1_0000_0000 % 0x100,
                       v / 0x100_0000 % 0x100, v / 0x1_0000 % 0x100, v / 0x100 % 0x100, v % 0x100]
  {
    hide Be4;
    var hi, lo := v / 0x1_0000_0000, v % 0x1_0000_0000;
    FourByteShifts(hi);
    FourByteShifts(lo);
    DivDiv(v, 0x1_0000_0000, 0x100_0000);
    DivDiv(v, 0x1_0000_0000, 0x1_0000);
    DivDiv(v, 0x1_0000_0000, 0x100);
    ModDiv(v, 0x100_0000, 0x100);
    ModDiv(v, 0x1_0000, 0x1_0000);
    DivDiv(v, 0x100, 0x100);
    ModDiv(v, 0x100, 0x100_0000);
    LowByte(v / 0x1_0000);
    LowByte(v / 0x100);
    LowByte(v);
  }

  /** The low byte survives a mask of a wider power of 256. */
  lemma {:induction false} LowByte(n: nat)
    ensures n % 0x1_0000 % 0x100 == n % 0x100
    ensures n % 0x100_0000 % 0x100 == n % 0x100
    ensures n % 0x1_0000_0000 % 0x100 == n % 0x100
  {
    ModShift(n % 0x1_0000, n / 0x1_0000 * 0x100, 0x100);
    ModShift(n % 0x100_0000, n / 0x100_0000 * 0x1_0000, 0x100);
    ModShift(n % 0x1_0000_0000, n / 0x1_0000_0000 * 0x100_0000, 0x100);
  }

  /** Write a header; the return value is its length. */
  method EncodeHeader(buf: array<U8>, at: nat, major: nat, arg: U32) returns (n: nat)
    requires major < 8 && at + |Header(major, arg)| <= buf.Length
    modifies buf
    ensures n == |Header(major, arg)| && buf[..] == Splice(old(buf[..]), at, Header(major, arg))
  {
    hide Be4, Splice;
    if arg <= 23 {
      var b0 := Initial(major, arg);
      Put(buf, at, [b0]);
      return 1;
    }
    if arg <= 0xff {
      var b0 := Initial(major, 24);
      Put(buf, at, [b0, arg]);
      return 2;
    }
    if arg <= 0xffff {
      var b0 := Initial(major, 25);
      Put(buf, at, [b0] + [arg / 0x100, arg % 0x100]);
      return 3;
    }
    var b0 := Initial(major, 26);
    FourByteShifts(arg);
    Put(buf, at, [b0] + [arg / 0x100_0000, arg / 0x1_0000 % 0x100, arg / 0x100 % 0x100, arg % 0x100]);
    return 5;
  }

  method EncodeUInt(buf: array<U8>, at: nat, value: U32) returns (n: nat)
    requires at + |Encode(UInt(value))| <= buf.Length
    modifies buf
    ensures n == |Encode(UInt(value))| && buf[..] == Splice(old(buf[..]), at, Encode(UInt(value)))
  {
    hide Header;
    n := EncodeHeader(buf, at, 0, value);
  }

  method EncodeUInt64(buf: array<U8>, at: nat, value: U64) returns (n: nat)
    requires at + |Encode(UInt(value))| <= buf.Length
    modifies buf
    ensures n == |Encode(UInt(value))| && buf[..] == Splice(old(buf[..]), at, Encode(UInt(value)))
  {
    hide Be8, Be4;
    if value <= 0xffff_ffff {
      n := EncodeHeader(buf, at, 0, value);
      return;
    }
    EightByteShifts(value);
    Put(buf, at, [27] + [value / 0x100_0000_0000_0000, value / 0x1_0000_0000_0000 % 0x100, value / 0x100_0000_0000 % 0x100,
                         value / 0x1_0000_0000 % 0x100, value / 0x100_0000 % 0x100, value / 0x1_0000 % 0x100,
                         value / 0x100 % 0x100, value % 0x100]);
    return 9;
  }

  /** The value that a signed integer is encoded as. */
  function IntValue(x: int): (v: Value)
    ensures x < 0 ==> v == NInt(-1 - x)
    ensures x >= 0 ==> v == UInt(x)
  {
    if x >= 0 then UInt(x) else NInt(-(x + 1))
  }

  method EncodeInt(buf: array<U8>, at: nat, value: I32) returns (n: nat)
    requires at + |Encode(IntValue(value))| <= buf.Length
    modifies buf
    ensures n == |Encode(IntValue(value))| && buf[..] == Splice(old(buf[..]), at, Encode(IntValue(value)))
  {
    hide Header;
    if value >= 0 {
      n := EncodeHeader(buf, at, 0, value);
    } else {
      n := EncodeHeader(buf, at, 1, -(value + 1));
    }
  }

  /** Write a text (major 3) or byte string (major 2). */
  method EncodeString(buf: array<U8>, at: nat, major: nat, data: Bytes) returns (n: nat)
    requires major == 2 || major == 3
    requires |data| < 0x1_0000_0000 && at + |Header(major, |data|)| + |data| <= buf.Length
    modifies buf
    ensures n == |Header(major, |data|)| + |data| && buf[..] == Splice(old(buf[..]), at, Header(major, |data|) + data)
  {
    hide Header;
    SpliceTwice(buf[..], at, Header(major, |data|), data);
    var h := EncodeHeader(buf, at, major, |data|);
    Put(buf, at + h, data);
    n := h + |data|;
  }

  method EncodeBool(buf: array<U8>, at: nat, value: bool) returns (n: nat)
    requires at < buf.Length
    modifies buf
    ensures n == 1 && buf[..] == Splice(old(buf[..]), at, Encode(Bool(value)))
  {
    Put(buf, at, [if value then 0xf5 else 0xf4]);
    n := 1;
  }

  // ---- the companion app's builder ----

  /** The builder of the companion app, whose arguments are 64 bits wide throughout. */
  class CborBuilder {
    var data: Bytes

    constructor ()
      ensures data == []
    {
      data := [];
    }

    method WriteArg(major: nat, value: U64)
      requires major < 8
      modifies this
      ensures data == old(data) + Header(major, value)
    {
      hide ShiftedBytes, Be4, Be8;
      if value <= 23 {
        var b0 := Initial(major, value);
        data := data + [b0];
      } else if value <= 0xff {
        var b0 := Initial(major, 24);
        data := data + [b0];
        data := data + [value];
      } else if value <= 0xffff {
        var b0 := Initial(major, 25);
        data := data + [b0];
        data := data + [value / 0x100];
        data := data + [value % 0x100];
      } else if value <= 0xffff_ffff {
        var b0 := Initial(major, 26);
        data := data + [b0];
        AppendBigEndian(value, 24);
        FourByteShifts(value);
        FourBytes(value);
      } else {
        var b0 := Initial(major, 27);
        data := data + [b0];
        AppendBigEndian(value, 56);
        EightByteShifts(value);
        EightBytes(value);
      }
    }

    /** The loop `for shift in stride(from: top, through: 0, by: -8)`. */
    method AppendBigEndian(value: U64, top: nat)
      requires top % 8 == 0
      modifies this
      ensures data == old(data) + ShiftedBytes(value, top)
    {
      hide Pow2, ShiftedBytes;
      var shift: int := top;
      ghost var rest := ShiftedBytes(value, top);
      while shift >= 0
        invariant -8 <= shift <= top && shift % 8 == 0
        invariant rest == if shift >= 0 then ShiftedBytes(value, shift) else []
        invariant old(data) + ShiftedBytes(value, top) == data + rest
      {
        ShiftedHead(value, shift);
        data := data + [value / Pow2(shift) % 0x100];
        rest := rest[1..];
        shift := shift - 8;
      }
    }

    method AddMapHeader(count: U64)
      modifies this
      ensures data == old(data) + Header(5, count)
    {
      WriteArg(5, count);
    }

    method AddArrayHeader(count: U64)
      modifies this
      ensures data == old(data) + Header(4, count)
    {
      WriteArg(4, count);
    }

    method AddByteString(bytes: Bytes)
      requires |bytes| < 0x1_0000_0000
      modifies this
      ensures data == old(data) + Encode(Str(bytes))
    {
      WriteArg(2, |bytes|);
      data := data + bytes;
    }

    method AddUInt(value: U64)
      modifies this
      ensures data == old(data) + Encode(UInt(value))
    {
      WriteArg(0, value);
    }

    method AddInt(value: I64)
      modifies this
      ensures data == old(data) + Encode(IntValue(value))
    {
      if value >= 0 {
        WriteArg(0, value);
      } else {
        WriteArg(1, -(value + 1));
      }
    }
  }

  /** The bytes of a value at the shifts top, top - 8, ..., 0. */
  ghost function ShiftedBytes(value: nat, top: nat): Bytes
    requires top % 8 == 0
  {
    [value / Pow2(top) % 0x100] + if top == 0 then [] else ShiftedBytes(value, top - 8)
  }

  lemma {:induction false} ShiftedHead(value: nat, shift: nat)
    requires shift % 8 == 0
    ensures ShiftedBytes(value, shift) == [value / Pow2(shift) % 0x100] + if shift == 0 then [] else ShiftedBytes(value, shift - 8)
  {
  }

  lemma {:induction false} FourBytes(v: nat)
    requires v < 0x1_0000_0000
    ensures ShiftedBytes(v, 24) == [v / 0x100_0000, v / 0x1_0000 % 0x100, v / 0x100 % 0x100, v % 0x100]
  {
    BytePowers();
    assert ShiftedBytes(v, 0) == [v % 0x100];
    assert ShiftedBytes(v, 8) == [v / 0x100 % 0x100] + ShiftedBytes(v, 0);
    assert ShiftedBytes(v, 16) == [v / 0x1_0000 % 0x100] + ShiftedBytes(v, 8);
    assert ShiftedBytes(v, 24) == [v / 0x100_0000 % 0x100] + ShiftedBytes(v, 16);
  }

  lemma {:induction false} EightBytes(v: nat)
    requires v < 0x1_0000_0000_0000_0000
    ensures ShiftedBytes(v, 56) ==
      [v / 0x100_0000_0000_0000, v / 0x1_0000_0000_0000 % 0x100, v / 0x100_0000_0000 % 0x100, v / 0x1_0000_0000 % 0x100,
       v / 0x100_0000 % 0x100, v / 0x1_0000 % 0x100, v / 0x100 % 0x100, v % 0x100]
  {
    hide ShiftedBytes, Pow2;
    BytePowers();
    ShiftedHead(v, 0);
    ShiftedHead(v, 8);
    ShiftedHead(v, 16);
    ShiftedHead(v, 24);
    ShiftedHead(v, 32);
    ShiftedHead(v, 40);
    ShiftedHead(v, 48);
    ShiftedHead(v, 56);
  }
}
