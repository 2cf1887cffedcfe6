/** The CBOR subset of the firmware (RFC 8949): header encoding in shortest form, the
    depth-limited parser of single items, and value trees that relate the two. */
module Cbor {
  import opened Bits
  import opened Wrappers

  type Bytes = seq<U8>

  /** Characters as bytes. */
  function Ascii(s: string): (b: Bytes)
    requires forall i :: 0 <= i < |s| ==> s[i] < 128 as char
    ensures |b| == |s|
  {
    seq(|s|, i requires 0 <= i < |s| => s[i] as int)
  }

  function Zeros(n: nat): (s: Bytes)
    ensures |s| == n && forall i :: 0 <= i < n ==> s[i] == 0
  {
    seq(n, i => 0)
  }

  // ---- big-endian arguments ----

  function Be2(v: nat): (s: Bytes)
    requires v < 0x1_0000
    ensures |s| == 2
  {
    [v / 0x100, v % 0x100]
  }

  function Be4(v: nat): (s: Bytes)
    requires v < 0x1_0000_0000
    ensures |s| == 4
  {
    Be2(v / 0x1_0000) + Be2(v % 0x1_0000)
  }

  function Be8(v: nat): (s: Bytes)
    requires v < 0x1_0000_0000_0000_0000
    ensures |s| == 8
  {
    Be4(v / 0x1_0000_0000) + Be4(v % 0x1_0000_0000)
  }

  function FromBe2(s: Bytes): (v: nat)
    requires |s| == 2
    ensures v < 0x1_0000
  {
    var (hi: int, lo: int) := (s[0], s[1]);
    hi * 0x100 + lo
  }

  function FromBe4(s: Bytes): (v: nat)
    requires |s| == 4
    ensures v < 0x1_0000_0000
  {
    FromBe2(s[..2]) * 0x1_0000 + FromBe2(s[2..])
  }

  function FromBe8(s: Bytes): (v: nat)
    requires |s| == 8
    ensures v < 0x1_0000_0000_0000_0000
  {
    FromBe4(s[..4]) * 0x1_0000_0000 + FromBe4(s[4..])
  }

  lemma {:induction false} Be4RoundTrip(v: nat)
    requires v < 0x1_0000_0000
    ensures FromBe4(Be4(v)) == v
  {
    var s := Be4(v);
    assert s[..2] == Be2(v / 0x1_0000) && s[2..] == Be2(v % 0x1_0000);
  }

  lemma {:induction false} Be8RoundTrip(v: nat)
    requires v < 0x1_0000_0000_0000_0000
    ensures FromBe8(Be8(v)) == v
  {
    var s := Be8(v);
    Be4RoundTrip(v / 0x1_0000_0000);
    Be4RoundTrip(v % 0x1_0000_0000);
    assert s[..4] == Be4(v / 0x1_0000_0000) && s[4..] == Be4(v % 0x1_0000_0000);
  }

  // ---- headers ----

  /** Major type and argument of an item, the argument in its shortest form. */
  function Header(major: nat, arg: nat): (s: Bytes)
    requires major < 8 && arg < 0x1_0000_0000_0000_0000
    ensures 1 <= |s| <= 9
    ensures arg < 0x1_0000_0000 ==> |s| <= 5
    ensures arg < 0x1_0000 ==> |s| <= 3
    ensures arg < 0x100 ==> |s| <= 2
    ensures arg < 24 ==> |s| == 1
  {
    if arg <= 23 then [major * 32 + arg]
    else if arg <= 0xff then [major * 32 + 24, arg]
    else if arg <= 0xffff then [major * 32 + 25] + Be2(arg)
    else if arg <= 0xffff_ffff then [major * 32 + 26] + Be4(arg)
    else [major * 32 + 27] + Be8(arg)
  }

  /** The argument that follows a header byte with the given additional information: its value
      and the position after it. Reserved and indefinite forms are refused. */
  function DecodeArg(b: Bytes, p: nat, end: nat, additional: nat): (r: Option<(nat, nat)>)
    requires end <= |b|
    ensures r.Some? ==> p <= r.value.1 && r.value.0 < 0x1_0000_0000_0000_0000
    ensures r.Some? && additional >= 24 ==> r.value.1 <= end
    ensures additional < 24 ==> r.Some? && r.value.1 == p
  {
    if additional < 24 then Some((additional, p))
    else if additional == 24 then
      if p + 1 > end then None else Some((b[p], p + 1))
    else if additional == 25 then
      if p + 2 > end then None else Some((FromBe2(b[p..p + 2]), p + 2))
    else if additional == 26 then
      if p + 4 > end then None else Some((FromBe4(b[p..p + 4]), p + 4))
    else if additional == 27 then
      if p + 8 > end then None else Some((FromBe8(b[p..p + 8]), p + 8))
    else None
  }

  /** b holds s at position p, before end. */
  ghost predicate Holds(b: Bytes, p: nat, end: nat, s: Bytes) {
    p + |s| <= end <= |b| && b[p..p + |s|] == s
  }

  lemma {:induction false} HoldsSplit(b: Bytes, p: nat, end: nat, s: Bytes, t: Bytes)
    requires Holds(b, p, end, s + t)
    ensures Holds(b, p, end, s) && Holds(b, p + |s|, end, t)
  {
    assert b[p..p + |s|] == (s + t)[..|s|];
    assert b[p + |s|..p + |s| + |t|] == (s + t)[|s|..];
  }

  /** Decoding an encoded header gives back its argument and its length. */
  lemma {:induction false} DecodeHeader(b: Bytes, p: nat, end: nat, major: nat, arg: nat)
    requires major < 8 && arg < 0x1_0000_0000_0000_0000 && Holds(b, p, end, Header(major, arg))
    ensures b[p] / 32 == major
    ensures DecodeArg(b, p + 1, end, b[p] % 32) == Some((arg, p + |Header(major, arg)|))
  {
    var h := Header(major, arg);
    assert b[p] == h[0];
    assert forall k :: 0 <= k < |h| ==> b[p + k] == h[k] by {
      assert forall k :: 0 <= k < |h| ==> b[p..p + |h|][k] == h[k];
    }
    if arg > 0xff {
      assert b[p + 1..p + |h|] == h[1..];
      if arg > 0xffff_ffff { Be8RoundTrip(arg); } else if arg > 0xffff { Be4RoundTrip(arg); }
    }
  }

  /** No header with the same argument is shorter. */
  lemma {:induction false} ShortestForm(b: Bytes, p: nat, end: nat, major: nat, arg: nat, next: nat)
    requires p < end <= |b| && major < 8
    requires DecodeArg(b, p + 1, end, b[p] % 32) == Some((arg, next))
    ensures |Header(major, arg)| <= next - p
  {
    hide FromBe2, FromBe4, FromBe8, Be2, Be4, Be8;
  }

  // ---- the parser ----

  const MAX_DEPTH := 8

  datatype Kind = KUInt | KInt | KBytes | KText | KArray | KMap | KBool | KFloat

  /** One parsed item: `data` is where its payload or its first child starts, `next` the
      position after the whole item. */
  datatype Item = Item(kind: Kind, arg: nat, start: nat, data: nat, next: nat)

  /** A simple value or a float: a fixed payload that is skipped. */
  function ParseSimple(b: Bytes, pos: nat, end: nat, additional: nat): (r: Option<Item>)
    requires pos < end <= |b|
    ensures r.Some? ==> pos < r.value.next <= end && r.value.start == pos
  {
    var p := pos + 1;
    if additional == 20 then Some(Item(KBool, 0, pos, p, p))
    else if additional == 21 then Some(Item(KBool, 1, pos, p, p))
    else if additional == 22 then Some(Item(KBool, 0, pos, p, p))
    else if additional == 24 then
      if p + 1 > end then None else Some(Item(KBool, b[p], pos, p, p + 1))
    else if additional == 25 then
      if p + 2 > end then None else Some(Item(KFloat, 25, pos, p, p + 2))
    else if additional == 26 then
      if p + 4 > end then None else Some(Item(KFloat, 26, pos, p, p + 4))
    else if additional == 27 then
      if p + 8 > end then None else Some(Item(KFloat, 27, pos, p, p + 8))
    else None
  }

  /** Parse the item at pos. */
  function Parse(b: Bytes, pos: nat, end: nat, depth: nat): (r: Option<Item>)
    requires end <= |b|
    ensures r.Some? ==> r.value.start == pos && pos < r.value.data <= r.value.next <= end
    ensures r.Some? ==> r.value.arg < 0x1_0000_0000_0000_0000
    ensures r.Some? && (r.value.kind == KBytes || r.value.kind == KText) ==> r.value.next == r.value.data + r.value.arg
    decreases if pos < end then end - pos else 0, 0
  {
    if pos >= end || depth > MAX_DEPTH then None
    else
      var major, additional := b[pos] / 32, b[pos] % 32;
      if major == 6 then None
      else if major == 7 then ParseSimple(b, pos, end, additional)
      else
        var a := DecodeArg(b, pos + 1, end, additional);
        if a.None? then None
        else
          var (arg, p) := a.value;
          if major == 0 then Some(Item(KUInt, arg, pos, p, p))
          else if major == 1 then Some(Item(KInt, arg, pos, p, p))
          else if major <= 3 then
            if arg > end - p then None
            else Some(Item(if major == 2 then KBytes else KText, arg, pos, p, p + arg))
          else
            var children := if major == 5 then 2 * arg else arg;
            if end - p < children then None
            else
              var next := Skip(b, p, end, depth + 1, children);
              if next.None? then None
              else Some(Item(if major == 5 then KMap else KArray, arg, pos, p, next.value))
  }

  /** Step over n items. */
  function Skip(b: Bytes, pos: nat, end: nat, depth: nat, n: nat): (r: Option<nat>)
    requires pos <= end <= |b|
    ensures r.Some? ==> pos + n <= r.value <= end
    decreases end - pos, 1
  {
    if n == 0 then Some(pos)
    else
      var item := Parse(b, pos, end, depth);
      if item.None? then None else Skip(b, item.value.next, end, depth, n - 1)
  }

  /** A successful parse is unchanged by a later end, by whatever follows the old end, and by a
      smaller depth. */
  lemma {:induction false} ParseMonotone(b: Bytes, c: Bytes, pos: nat, end: nat, end': nat, depth: nat, depth': nat)
    requires end <= |b| && end <= end' <= |c| && b[..end] == c[..end] && depth' <= depth
    requires Parse(b, pos, end, depth).Some?
    ensures Parse(c, pos, end', depth') == Parse(b, pos, end, depth)
    decreases end - pos, 0
  {
    hide DecodeArg, ParseSimple, Skip;
    assert b[pos] == b[..end][pos] == c[..end][pos] == c[pos];
    var major, additional := b[pos] / 32, b[pos] % 32;
    if major == 7 {
      SimpleMonotone(b, c, pos, end, end', additional);
    } else {
      ArgMonotone(b, c, pos + 1, end, end', additional);
    }
    if major == 4 || major == 5 {
      var (arg, p) := DecodeArg(b, pos + 1, end, additional).value;
      SkipMonotone(b, c, p, end, end', depth + 1, depth' + 1, if major == 5 then 2 * arg else arg);
    }
  }

  lemma {:induction false} SkipMonotone(b: Bytes, c: Bytes, pos: nat, end: nat, end': nat, depth: nat, depth': nat, n: nat)
    requires pos <= end <= |b| && end <= end' <= |c| && b[..end] == c[..end] && depth' <= depth
    requires Skip(b, pos, end, depth, n).Some?
    ensures Skip(c, pos, end', depth', n) == Skip(b, pos, end, depth, n)
    decreases end - pos, 1
  {
    if n > 0 {
      ParseMonotone(b, c, pos, end, end', depth, depth');
      SkipMonotone(b, c, Parse(b, pos, end, depth).value.next, end, end', depth, depth', n - 1);
    }
  }

  lemma {:induction false} SimpleMonotone(b: Bytes, c: Bytes, pos: nat, end: nat, end': nat, additional: nat)
    requires pos < end <= |b| && end <= end' <= |c| && b[..end] == c[..end]
    requires ParseSimple(b, pos, end, additional).Some?
    ensures ParseSimple(c, pos, end', additional) == ParseSimple(b, pos, end, additional)
  {
    assert pos + 1 < end ==> b[pos + 1] == b[..end][pos + 1] == c[..end][pos + 1] == c[pos + 1];
  }

  lemma {:induction false} ArgMonotone(b: Bytes, c: Bytes, p: nat, end: nat, end': nat, additional: nat)
    requires end <= |b| && end <= end' <= |c| && b[..end] == c[..end]
    requires DecodeArg(b, p, end, additional).Some?
    ensures DecodeArg(c, p, end', additional) == DecodeArg(b, p, end, additional)
  {
    var next := DecodeArg(b, p, end, additional).value.1;
    if additional >= 24 {
      assert b[p..next] == b[..end][p..next];
      assert c[p..next] == c[..end][p..next];
      assert b[p] == b[p..next][0] && c[p] == c[p..next][0];
    }
  }

  /** The children of a parsed array or map can be walked again with fresh top-level parses: no
      parse fails, and the walk stops exactly at `next`. */
  lemma {:induction false} Rewalk(b: Bytes, pos: nat, end: nat, depth: nat)
    requires end <= |b| && Parse(b, pos, end, depth).Some?
    ensures var item := Parse(b, pos, end, depth).value;
      && (item.kind == KArray ==> Skip(b, item.data, end, 0, item.arg) == Some(item.next))
      && (item.kind == KMap ==> Skip(b, item.data, end, 0, 2 * item.arg) == Some(item.next))
  {
    hide Skip, DecodeArg;
    var item := Parse(b, pos, end, depth).value;
    if item.kind == KArray {
      SkipMonotone(b, b, item.data, end, end, depth + 1, 0, item.arg);
    } else if item.kind == KMap {
      SkipMonotone(b, b, item.data, end, end, depth + 1, 0, 2 * item.arg);
    }
  }
}
