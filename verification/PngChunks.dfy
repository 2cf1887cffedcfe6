/** Captions in terms of the chunks that a PNG file consists of. */
module PngChunks {
  import opened Cbor
  import opened Png
  import opened Wrappers
  import Crc

  /** A chunk as section 5.3 of ISO/IEC 15948 lays it out: length, name, data, CRC. */
  datatype Piece = Piece(name: Bytes, data: Bytes, crc: Bytes)

  predicate WellFormed(cs: seq<Piece>) {
    forall i :: 0 <= i < |cs| ==> |cs[i].name| == 4 && |cs[i].data| < 0x1_0000_0000 && |cs[i].crc| == 4
  }

  function Laid(c: Piece): Bytes
    requires |c.data| < 0x1_0000_0000
  {
    Be4(|c.data|) + c.name + c.data + c.crc
  }

  function AllLaid(cs: seq<Piece>): Bytes
    requires WellFormed(cs)
  {
    if cs == [] then [] else Laid(cs[0]) + AllLaid(cs[1..])
  }

  /** The first `tEXt` chunk with the keyword `Comment` has the caption behind its zero byte. */
  function FirstCaption(cs: seq<Piece>): Option<Bytes> {
    if cs == [] then None
    else if cs[0].name == Ascii("tEXt") && |cs[0].data| >= 8 && cs[0].data[..8] == Ascii("Comment") + [0] then Some(cs[0].data[8..])
    else FirstCaption(cs[1..])
  }

  function CaptionPiece(caption: Bytes): Piece {
    var data := Ascii("Comment") + [0] + caption;
    Piece(Ascii("tEXt"), data, Be4(Crc.BitwiseCrc(Octets(Ascii("tEXt") + data)) as int))
  }

  /** A caption goes in front of the first `IDAT` chunk, if there is one. */
  function Captioned(cs: seq<Piece>, caption: Bytes): seq<Piece> {
    if cs == [] then []
    else if cs[0].name == Ascii("IDAT") then [CaptionPiece(caption)] + cs
    else [cs[0]] + Captioned(cs[1..], caption)
  }

  lemma {:induction false} Names()
    ensures TEXT == Ascii("tEXt") && IDAT == Ascii("IDAT") && KEYWORD == Ascii("Comment")
  {
  }

  lemma {:induction false} CaptionedWell(cs: seq<Piece>, caption: Bytes)
    requires WellFormed(cs) && |caption| < 0xFFFF_FFF8
    ensures WellFormed(Captioned(cs, caption))
    decreases |cs|
  {
    hide Be4, Octets, Ascii;
    if cs != [] && cs[0].name != Ascii("IDAT") { CaptionedWell(cs[1..], caption); }
  }

  /** What the walk sees of a chunk. */
  lemma {:induction false} AtPiece(b: Bytes, pre: Bytes, c: Piece, rest: Bytes)
    requires |c.name| == 4 && |c.data| < 0x1_0000_0000 && |c.crc| == 4 && b == pre + (Laid(c) + rest)
    ensures var o := |pre|;
      && o + 12 <= |b| && LengthAt(b, o) == |c.data| && NameAt(b, o) == c.name && Next(b, o) == |pre + Laid(c)|
      && o + 8 + |c.data| <= |b| && b[o + 8..o + 8 + |c.data|] == c.data
    ensures b == (pre + Laid(c)) + rest
  {
    hide Be4, FromBe4;
    var n := Be4(|c.data|);
    LaidCuts(c, rest);
    Cut(b, pre, n, c.name + (c.data + (c.crc + rest)));
    Cut(b, pre + n, c.name, c.data + (c.crc + rest));
    Cut(b, pre + n + c.name, c.data, c.crc + rest);
    Be4RoundTrip(|c.data|);
    Cut(b, pre, Laid(c), rest);
  }

  lemma {:induction false} LaidCuts(c: Piece, rest: Bytes)
    requires |c.data| < 0x1_0000_0000
    ensures Laid(c) + rest == Be4(|c.data|) + (c.name + (c.data + (c.crc + rest)))
  {
    hide Be4;
  }

  lemma {:induction false} Cut(b: Bytes, pre: Bytes, m: Bytes, post: Bytes)
    requires b == pre + (m + post)
    ensures b[|pre|..|pre| + |m|] == m && b == (pre + m) + post
  {
  }

  /** The text of a payload starts behind the keyword and a zero byte. */
  lemma {:induction false} TextOfIs(data: Bytes)
    ensures TextOf(data) == if |data| >= 8 && data[..8] == KEYWORD + [0] then Some(data[8..]) else None
  {
    if |data| >= 8 && data[..8] == KEYWORD + [0] {
      forall i | 0 <= i < 8 ensures data[i] == (KEYWORD + [0])[i] { assert data[i] == data[..8][i]; }
      assert data[7] == 0 && 0 in data[0..];
      assert data[..7] == KEYWORD;
    }
  }

  /** Reading a caption: the walk over the bytes finds the first caption among the chunks. */
  lemma {:induction false} CaptionFrom(b: Bytes, pre: Bytes, cs: seq<Piece>)
    requires WellFormed(cs) && b == pre + AllLaid(cs)
    ensures CaptionBefore(b, |pre|, |b|) == FirstCaption(cs)
    decreases |cs|
  {
    hide Laid, TextOf, LengthAt, NameAt, Next, Ascii;
    Names();
    if cs != [] {
      AtPiece(b, pre, cs[0], AllLaid(cs[1..]));
      TextOfIs(cs[0].data);
      CaptionFrom(b, pre + Laid(cs[0]), cs[1..]);
    }
  }

  lemma {:induction false} ExtractExactly(signature: Bytes, cs: seq<Piece>)
    requires |signature| == 8 && WellFormed(cs)
    ensures Extract(signature + AllLaid(cs)) == FirstCaption(cs)
  {
    CaptionFrom(signature + AllLaid(cs), signature, cs);
  }

  /** Writing a caption: the bytes change by one chunk in front of the first `IDAT`. */
  lemma {:induction false} EmbedFrom(b: Bytes, pre: Bytes, cs: seq<Piece>, caption: Bytes)
    requires WellFormed(cs) && b == pre + AllLaid(cs) && |caption| < 0xFFFF_FFF8
    ensures WellFormed(Captioned(cs, caption))
    ensures var at := FindFrom(b, IDAT, |pre|);
      pre + AllLaid(Captioned(cs, caption)) == if at.None? then b else InsertAt(b, at.value, Chunk(caption))
    decreases |cs|
  {
    hide Laid, LengthAt, NameAt, Next, Ascii, Chunk, CaptionPiece, Be4;
    Names();
    CaptionedWell(cs, caption);
    if cs != [] {
      var c := cs[0];
      AtPiece(b, pre, c, AllLaid(cs[1..]));
      if c.name == IDAT {
        InFront(b, pre, cs, caption);
      } else {
        EmbedFrom(b, pre + Laid(c), cs[1..], caption);
        var all := Captioned(cs, caption);
        assert all[0] == c && all[1..] == Captioned(cs[1..], caption);
        Cut(pre + AllLaid(all), pre, Laid(c), AllLaid(all[1..]));
      }
    }
  }

  lemma {:induction false} InFront(b: Bytes, pre: Bytes, cs: seq<Piece>, caption: Bytes)
    requires WellFormed(cs) && b == pre + AllLaid(cs) && |caption| < 0xFFFF_FFF8
    ensures var all := [CaptionPiece(caption)] + cs; WellFormed(all) && pre + AllLaid(all) == InsertAt(b, |pre|, Chunk(caption))
  {
    hide Laid, Chunk, CaptionPiece;
    CaptionLaid(caption);
    var all := [CaptionPiece(caption)] + cs;
    assert all[0] == CaptionPiece(caption) && all[1..] == cs;
    assert b[..|pre|] == pre && b[|pre|..] == AllLaid(cs);
    assert pre + (Chunk(caption) + AllLaid(cs)) == pre + Chunk(caption) + AllLaid(cs);
  }

  lemma {:induction false} CaptionLaid(caption: Bytes)
    requires |caption| < 0xFFFF_FFF8
    ensures var c := CaptionPiece(caption);
      |c.name| == 4 && |c.data| == 8 + |caption| && |c.crc| == 4 && Laid(c) == Chunk(caption)
  {
    hide Ascii, Be4, Octets;
    Names();
    assert Payload(caption) == Ascii("Comment") + [0] + caption;
  }

  lemma {:induction false} EmbedExactly(signature: Bytes, cs: seq<Piece>, caption: Bytes)
    requires |signature| == 8 && WellFormed(cs) && |caption| < 0xFFFF_FFF8
    ensures WellFormed(Captioned(cs, caption))
    ensures Embed(signature + AllLaid(cs), caption) == signature + AllLaid(if caption == [] then cs else Captioned(cs, caption))
  {
    hide FindFrom, Captioned, InsertAt, Chunk;
    EmbedFrom(signature + AllLaid(cs), signature, cs, caption);
  }
}
