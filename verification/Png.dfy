/** Captions in PNG files (ISO/IEC 15948): a `tEXt` chunk with the keyword `Comment` is put
    in front of the first `IDAT` chunk and read back by walking the chunks. Text is modelled
    as its UTF-8 bytes. */
module Png {
  import opened Cbor
  import opened Wrappers
  import Crc

  /** The bytes of `tEXt`, `IDAT` and `Comment`. */
  const TEXT: Bytes := [0x74, 0x45, 0x58, 0x74]
  const IDAT: Bytes := [0x49, 0x44, 0x41, 0x54]
  const KEYWORD: Bytes := [0x43, 0x6f, 0x6d, 0x6d, 0x65, 0x6e, 0x74]

  // ---- the walk ----

  function LengthAt(b: Bytes, o: nat): nat
    requires o + 12 <= |b|
  {
    FromBe4(b[o..o + 4])
  }

  function NameAt(b: Bytes, o: nat): Bytes
    requires o + 12 <= |b|
  {
    b[o + 4..o + 8]
  }

  function Next(b: Bytes, o: nat): nat
    requires o + 12 <= |b|
  {
    o + 12 + LengthAt(b, o)
  }

  /** The first chunk with a name, on the walk from o. */
  function FindFrom(b: Bytes, name: Bytes, o: nat): (r: Option<nat>)
    ensures r.Some? ==> o <= r.value && r.value + 12 <= |b| && NameAt(b, r.value) == name
    decreases |b| - o
  {
    if o + 12 > |b| then None
    else if NameAt(b, o) == name then Some(o)
    else FindFrom(b, name, Next(b, o))
  }

  /** The first zero byte from i on. */
  function ZeroFrom(s: Bytes, i: nat): (r: Option<nat>)
    requires i <= |s|
    ensures r.Some? ==> i <= r.value < |s| && s[r.value] == 0 && 0 !in s[i..r.value]
    ensures r.None? ==> 0 !in s[i..]
    decreases |s| - i
  {
    if i == |s| then None else if s[i] == 0 then Some(i) else ZeroFrom(s, i + 1)
  }

  /** The text of a `tEXt` payload that has the caption keyword. */
  function TextOf(payload: Bytes): Option<Bytes> {
    match ZeroFrom(payload, 0)
    case None => None
    case Some(z) => if payload[..z] == KEYWORD then Some(payload[z + 1..]) else None
  }

  /** The caption held by the chunk at o. */
  function CaptionAt(b: Bytes, o: nat): Option<Bytes>
    requires o + 12 <= |b|
  {
    var end := o + 8 + LengthAt(b, o);
    if NameAt(b, o) == TEXT && end <= |b| then TextOf(b[o + 8..end]) else None
  }

  /** The first caption on the walk from o, looking only at chunks that start before stop. */
  function CaptionBefore(b: Bytes, o: nat, stop: nat): Option<Bytes>
    decreases |b| - o
  {
    if o >= stop || o + 12 > |b| then None
    else if CaptionAt(b, o).Some? then CaptionAt(b, o)
    else CaptionBefore(b, Next(b, o), stop)
  }

  function Find(b: Bytes, name: Bytes): Option<nat> {
    FindFrom(b, name, 8)
  }

  function Extract(b: Bytes): Option<Bytes> {
    CaptionBefore(b, 8, |b|)
  }

  // ---- embedding ----

  function Octets(s: Bytes): (o: seq<bv8>) {
    seq(|s|, i requires 0 <= i < |s| => s[i] as bv8)
  }

  function Payload(caption: Bytes): Bytes {
    KEYWORD + [0] + caption
  }

  /** A caption chunk carries the bit-by-bit CRC of its type and payload. */
  function Chunk(caption: Bytes): (c: Bytes)
    requires |caption| < 0xFFFF_FFF8
    ensures |c| == 20 + |caption|
  {
    var crc := Crc.BitwiseCrc(Octets(TEXT + Payload(caption))) as int;
    Be4(8 + |caption|) + TEXT + Payload(caption) + Be4(crc)
  }

  function InsertAt(b: Bytes, o: nat, chunk: Bytes): Bytes
    requires o <= |b|
  {
    b[..o] + chunk + b[o..]
  }

  function Embed(b: Bytes, caption: Bytes): Bytes
    requires |caption| < 0xFFFF_FFF8
  {
    var at := Find(b, IDAT);
    if caption == [] || at.None? then b else InsertAt(b, at.value, Chunk(caption))
  }

  // ---- what a caption chunk reads back as ----

  lemma {:induction false} PayloadText(caption: Bytes)
    ensures TextOf(Payload(caption)) == Some(caption)
  {
    var p := Payload(caption);
    var z := ZeroFrom(p, 0);
    assert p[7] == 0 && 0 in p[0..];
    assert forall i :: 0 <= i < 7 ==> p[i] == KEYWORD[i] && p[i] != 0;
    forall i | 0 <= i < z.value ensures p[i] != 0 {
      assert p[0..z.value][i] == p[i];
    }
    assert p[..7] == KEYWORD && p[8..] == caption;
  }

  lemma {:induction false} ChunkParts(caption: Bytes)
    requires |caption| < 0xFFFF_FFF8
    ensures var c := Chunk(caption);
      && LengthAt(c, 0) == 8 + |caption| && NameAt(c, 0) == TEXT
      && c[8..16 + |caption|] == Payload(caption)
  {
    hide Be4, FromBe4, Crc.BitwiseCrc;
    var c := Chunk(caption);
    Be4RoundTrip(8 + |caption|);
    assert c[0..4] == Be4(8 + |caption|);
    assert c[4..8] == TEXT;
  }

  lemma {:induction false} Slices(b: Bytes, o: nat, c: Bytes, i: nat, j: nat)
    requires i <= j <= |c| && o + |c| <= |b| && b[o..o + |c|] == c
    ensures b[o + i..o + j] == c[i..j]
  {
    forall k | 0 <= k < j - i ensures b[o + i..o + j][k] == c[i..j][k] {
      assert b[o..o + |c|][i + k] == c[i + k];
    }
  }

  lemma {:induction false} PartsMoved(b: Bytes, o: nat, c: Bytes, at: nat)
    requires at + 12 <= |c| && o + |c| <= |b| && b[o..o + |c|] == c
    ensures LengthAt(b, o + at) == LengthAt(c, at) && NameAt(b, o + at) == NameAt(c, at)
    ensures at + 8 + LengthAt(c, at) <= |c|
        ==> b[o + at + 8..o + at + 8 + LengthAt(c, at)] == c[at + 8..at + 8 + LengthAt(c, at)]
  {
    hide FromBe4;
    Slices(b, o, c, at, at + 4);
    Slices(b, o, c, at + 4, at + 8);
    var end := at + 8 + LengthAt(c, at);
    if end <= |c| {
      Slices(b, o, c, at + 8, end);
    }
  }

  /** Up to the insertion point the walk of the new file is the walk of the old one. */
  lemma {:induction false} SharedWalk(b: Bytes, more: Bytes, p: nat, o: nat)
    requires FindFrom(b, IDAT, p) == Some(o)
    requires o <= |more| && more[..o] == b[..o]
    ensures CaptionBefore(more, p, |more|)
         == if CaptionBefore(b, p, o).Some? then CaptionBefore(b, p, o) else CaptionBefore(more, o, |more|)
    ensures FindFrom(more, IDAT, p) == FindFrom(more, IDAT, o)
    decreases |b| - p
  {
    hide LengthAt, NameAt, TextOf;
    if p < o {
      SharedHead(b, more, p, o);
      SharedWalk(b, more, Next(b, p), o);
    }
  }

  /** A chunk that ends before o is the same in two files that agree up to o. */
  lemma {:induction false} SharedHead(b: Bytes, more: Bytes, p: nat, o: nat)
    requires p + 12 <= |b| && Next(b, p) <= o <= |b|
    requires o <= |more| && more[..o] == b[..o]
    ensures Next(more, p) == Next(b, p) && NameAt(more, p) == NameAt(b, p)
    ensures CaptionAt(more, p) == CaptionAt(b, p)
  {
    hide FromBe4, TextOf;
    SharedSlice(b, more, p, p + 4, o);
    SharedSlice(b, more, p + 4, p + 8, o);
    SharedSlice(b, more, p + 8, p + 8 + LengthAt(b, p), o);
  }

  lemma {:induction false} SharedSlice(b: Bytes, more: Bytes, i: nat, j: nat, o: nat)
    requires i <= j <= o <= |b| && o <= |more| && more[..o] == b[..o]
    ensures more[i..j] == b[i..j]
  {
    assert more[..o][i..j] == more[i..j];
    assert b[..o][i..j] == b[i..j];
  }

  /** Where the caption goes in: its chunk reads as the caption and `IDAT` follows it. */
  lemma {:induction false} Inserted(b: Bytes, caption: Bytes, o: nat)
    requires |caption| < 0xFFFF_FFF8
    requires o + 12 <= |b| && NameAt(b, o) == IDAT
    ensures var more := InsertAt(b, o, Chunk(caption));
      && CaptionAt(more, o) == Some(caption)
      && FindFrom(more, IDAT, o) == Some(o + |Chunk(caption)|)
  {
    hide FromBe4, Be4, TextOf, LengthAt, NameAt, Payload, Chunk;
    var c := Chunk(caption);
    var more := InsertAt(b, o, c);
    ChunkParts(caption);
    assert more[o..o + |c|] == c;
    PartsMoved(more, o, c, 0);
    PayloadText(caption);
    assert more[o + |c|..] == b[o..];
    assert more[o + |c|..o + |c| + (|b| - o)] == b[o..];
    PartsMoved(more, o + |c|, b[o..], 0);
    assert b[o..o + (|b| - o)] == b[o..];
    PartsMoved(b, o, b[o..], 0);
  }

  /** Reading back what was embedded: the caption, unless a chunk in front of `IDAT` already
      held one, which then still wins. A second search finds `IDAT` behind the new chunk. */
  lemma {:induction false} ExtractEmbedded(b: Bytes, caption: Bytes)
    requires 0 < |caption| < 0xFFFF_FFF8
    requires Find(b, IDAT).Some?
    ensures var o := Find(b, IDAT).value;
      && Extract(Embed(b, caption)) == (if CaptionBefore(b, 8, o).Some? then CaptionBefore(b, 8, o) else Some(caption))
      && Find(Embed(b, caption), IDAT) == Some(o + |Chunk(caption)|)
  {
    hide CaptionAt, NameAt, LengthAt, Chunk;
    var o := Find(b, IDAT).value;
    var more := Embed(b, caption);
    assert more[..o] == b[..o];
    SharedWalk(b, more, 8, o);
    Inserted(b, caption, o);
  }

  /** So embedding round-trips exactly when no other caption stands in front of `IDAT`. */
  lemma {:induction false} CaptionRoundTrip(b: Bytes, caption: Bytes)
    requires 0 < |caption| < 0xFFFF_FFF8
    ensures Extract(Embed(b, caption)) == Some(caption)
       <==> match Find(b, IDAT)
            case None => Extract(b) == Some(caption)
            case Some(o) => CaptionBefore(b, 8, o).None? || CaptionBefore(b, 8, o) == Some(caption)
  {
    hide CaptionBefore, Find, Chunk;
    if Find(b, IDAT).Some? {
      ExtractEmbedded(b, caption);
    }
  }

  /** Cutting the caption chunk out again restores every byte. */
  lemma {:induction false} CutRestores(b: Bytes, caption: Bytes)
    requires 0 < |caption| < 0xFFFF_FFF8
    requires Find(b, IDAT).Some?
    ensures var o := Find(b, IDAT).value;
            var more := Embed(b, caption);
      && |more| == |b| + |Chunk(caption)|
      && more[o..o + |Chunk(caption)|] == Chunk(caption)
      && more[..o] + more[o + |Chunk(caption)|..] == b
  {
    hide Chunk, NameAt;
    var o := Find(b, IDAT).value;
    var more := Embed(b, caption);
    assert more[..o] == b[..o] && more[o + |Chunk(caption)|..] == b[o..];
  }

  // ---- the procedures ----

  method FindFirstChunk(name: Bytes, b: Bytes) returns (r: Option<nat>)
    ensures r == Find(b, name)
  {
    hide NameAt, LengthAt;
    if |b| <= 8 { return None; }
    var offset: nat := 8;
    while offset + 12 <= |b|
      invariant Find(b, name) == FindFrom(b, name, offset)
      decreases |b| - offset
    {
      if NameAt(b, offset) == name { return Some(offset); }
      offset := Next(b, offset);
    }
    return None;
  }

  method FirstZero(s: Bytes) returns (r: Option<nat>)
    ensures r == ZeroFrom(s, 0)
  {
    var i := 0;
    while i < |s|
      invariant i <= |s| && ZeroFrom(s, 0) == ZeroFrom(s, i)
    {
      if s[i] == 0 { return Some(i); }
      i := i + 1;
    }
    return None;
  }

  method ReadCaption(b: Bytes, o: nat) returns (r: Option<Bytes>)
    requires o + 12 <= |b|
    ensures r == CaptionAt(b, o)
  {
    hide FromBe4;
    var end := o + 8 + LengthAt(b, o);
    if NameAt(b, o) != TEXT || end > |b| { return None; }
    var data := b[o + 8..end];
    var zero := FirstZero(data);
    if zero.None? || data[..zero.value] != KEYWORD { return None; }
    return Some(data[zero.value + 1..]);
  }

  method ExtractCaption(b: Bytes) returns (r: Option<Bytes>)
    ensures r == Extract(b)
  {
    hide CaptionAt, LengthAt;
    if |b| <= 8 { return None; }
    var offset: nat := 8;
    while offset + 12 <= |b|
      invariant Extract(b) == CaptionBefore(b, offset, |b|)
      decreases |b| - offset
    {
      var caption := ReadCaption(b, offset);
      if caption.Some? { return caption; }
      offset := Next(b, offset);
    }
    return None;
  }

  method BuildChunk(caption: Bytes) returns (chunk: Bytes)
    requires |caption| < 0xFFFF_FFF8
    ensures chunk == Chunk(caption)
  {
    hide Be4, Crc.BitwiseCrc;
    var payload := KEYWORD + [0] + caption;
    var table := Crc.BuildTable();
    var crc := Crc.TableCrc(Octets(TEXT + payload), table);
    chunk := Be4(|payload|);
    chunk := chunk + TEXT;
    chunk := chunk + payload;
    chunk := chunk + Be4(crc as int);
  }

  method EmbedCaption(b: Bytes, caption: Bytes) returns (r: Bytes)
    requires |caption| < 0xFFFF_FFF8
    ensures r == Embed(b, caption)
  {
    hide Chunk, Find;
    if caption == [] { return b; }
    var chunk := BuildChunk(caption);
    var at := FindFirstChunk(IDAT, b);
    if at.None? { return b; }
    FindInside(b);
    r := b[..at.value];
    r := r + chunk;
    r := r + b[at.value..];
  }

  lemma {:induction false} FindInside(b: Bytes)
    requires Find(b, IDAT).Some?
    ensures Find(b, IDAT).value <= |b|
  {
  }
}
