/** What a session makes of a reply, whatever the peer puts into it: entry by entry of the map that
    arrives. */
module ReplyMeaning {
  import opened Bits
  import opened Cbor
  import opened CborTree
  import opened Claims
  import opened EncounterRecord
  import opened Formats
  import opened PeerSync
  import opened SyncWire
  import opened Wrappers

  /** The first value under a name. */
  function Under(kids: seq<Value>, name: string): Option<Value>
    requires |kids| % 2 == 0 && forall i :: 0 <= i < |name| ==> name[i] < 128 as char
  {
    FirstUnder(kids, Text(Ascii(name)))
  }

  /** The next_offset of a reply, 0 when there is none. */
  function NextIn(kids: seq<Value>): nat
    requires |kids| % 2 == 0
  {
    match Under(kids, "next_offset")
    case Some(UInt(n)) => n
    case _ => 0
  }

  /** A line of a listing: a name of at most 31 bytes, up to its first NUL, and a size, modulo 2^32;
      the hash is unknown unless it has eight bytes. */
  function LineIn(kids: seq<Value>): Option<Entry>
    requires |kids| % 2 == 0
  {
    match (Under(kids, "name"), Under(kids, "size"))
    case (Some(Text(name)), Some(UInt(size))) =>
      if |name| > 31 then None
      else
        var hash: Hash := match Under(kids, "hash") case Some(Str(h)) => (if |h| == 8 then h else Zeros(8)) case _ => Zeros(8);
        Some(Entry(UpToNul(name), size % 0x1_0000_0000, hash))
    case _ => None
  }

  lemma {:induction false} UpToNulIs(s: Bytes)
    ensures var r := UpToNul(s); |r| <= |s| && r == s[..|r|] && 0 !in r && (|r| < |s| ==> s[|r|] == 0)
  {
    if s != [] && s[0] != 0 { UpToNulIs(s[1..]); }
  }

  /** The lines of a listing, up to a page of them and up to the first element that is no map;
      maps that are no line are skipped. */
  function Lines(items: seq<Value>, room: nat): (r: seq<Entry>)
    requires AllFit(items)
    ensures |r| <= room
    decreases |items|
  {
    if items == [] || room == 0 || !items[0].Map? then []
    else
      assert Fits(items[0]);
      var e := LineIn(items[0].kids);
      if e.None? then Lines(items[1..], room) else [e.value] + Lines(items[1..], room - 1)
  }

  /** The byte strings with something in them. */
  function FullStrings(items: seq<Value>): seq<Bytes>
    decreases |items|
  {
    if items == [] then []
    else (if items[0].Str? && items[0].s != [] then [items[0].s] else []) + FullStrings(items[1..])
  }

  /** What a reply means in the phase that waits for it. */
  function Meaning(phase: Phase, kids: seq<Value>): Answer
    requires Fits(Map(kids))
  {
    if Under(kids, "error").Some? then (if phase == PhReadMeta then Meta(None) else Refused)
    else
      match phase
      case PhLs =>
        var files := Under(kids, "files");
        if files.Some? && files.value.Array? then
          UnderFits(kids, "files");
          Listing(Lines(files.value.kids, 16), NextIn(kids) % 0x1_0000_0000)
        else Refused
      case PhReadStart => Size(match Under(kids, "size") case Some(UInt(n)) => n % 0x1_0000_0000 case _ => 0)
      case PhReadChunk =>
        (match Under(kids, "data") case Some(Str(s)) => Data(s) case _ => Refused)
      case PhReadMeta =>
        var meta := Under(kids, "meta");
        if meta.Some? && meta.value.Map? then
          UnderFits(kids, "meta");
          Meta(Some(Encode(meta.value)))
        else Meta(None)
      case PhAttestQuery =>
        NextFits(kids);
        Blobs(match Under(kids, "blobs") case Some(Array(items)) => FullStrings(items) case _ => [], NextIn(kids))
      case _ => Refused
  }

  lemma {:induction false} UnderFits(kids: seq<Value>, name: string)
    requires Fits(Map(kids)) && forall i :: 0 <= i < |name| ==> name[i] < 128 as char
    ensures Under(kids, name).Some? ==> Fits(Under(kids, name).value)
  {
    hide Fits, FirstUnder;
    MapKidsFit(kids);
  }

  lemma {:induction false} MapKidsFit(kids: seq<Value>)
    requires Fits(Map(kids))
    ensures |kids| % 2 == 0 && forall v :: v in kids ==> Fits(v)
  {
  }

  lemma {:induction false} NextFits(kids: seq<Value>)
    requires Fits(Map(kids))
    ensures |kids| % 2 == 0 && NextIn(kids) < 0x1_0000_0000_0000_0000
  {
    var v := Under(kids, "next_offset");
    if v.Some? { assert Fits(v.value); }
  }

  // ---- the bytes ----

  lemma {:induction false} TreeFindIs(kids: seq<Value>, key: Bytes)
    requires |kids| % 2 == 0
    ensures TreeFind(kids, key) == FirstUnder(kids, Text(key))
    decreases |kids|
  {
    if kids != [] && kids[0] != Text(key) { TreeFindIs(kids[2..], key); }
  }

  lemma {:induction false} LineRead(b: Bytes, m: Item, kids: seq<Value>)
    requires IsMap(b, m, kids)
    ensures ReadEntry(b, m) == LineIn(kids)
  {
    hide IsMap, TextField, UIntField, BytesField, FirstUnder, TreeFind, Ascii, UpToNul;
    MapInside(b, m, kids);
    MapFacts(b, m, kids);
    TextShows(b, m, kids, K_NAME, 32);
    UIntShows(b, m, kids, K_SIZE);
    BytesShows(b, m, kids, K_HASH);
    RequestNames();
    ReplyNames();
    TreeFindIs(kids, K_NAME);
    TreeFindIs(kids, K_SIZE);
    TreeFindIs(kids, K_HASH);
  }

  lemma {:induction false} MapFacts(b: Bytes, m: Item, kids: seq<Value>)
    requires IsMap(b, m, kids)
    ensures AllFit(kids) && |kids| % 2 == 0
  {
  }

  lemma {:induction false} LinesRead(items: seq<Value>, b: Bytes, p: nat, room: nat)
    requires AllFit(items) && DepthAll(items) <= MAX_DEPTH + 1 && Holds(b, p, |b|, EncodeAll(items))
    ensures p <= |b| && ReadEntries(b, p, |items|, room) == Lines(items, room)
    decreases |items|
  {
    hide Parse, Encode, EncodeAll, Holds, ItemOf, Fits, Depth, DepthAll, LineIn, ReadEntry;
    HoldsInside(b, p, |b|, EncodeAll(items));
    if items != [] && room > 0 {
      var v, rest := items[0], items[1..];
      var next := ItemParsed(items, b, p);
      KindIsMap(v);
      if v.Map? {
        HoldsFirst(items, b, p);
        FirstDepth(items);
        InnerMap(b, p, v.kids);
        MapInside(b, ItemOf(v, p), v.kids);
        LineRead(b, ItemOf(v, p), v.kids);
        LinesRead(rest, b, next, if LineIn(v.kids).None? then room else room - 1);
      }
    }
  }

  lemma {:induction false} KindIsMap(v: Value)
    ensures KindOf(v) == KMap <==> v.Map?
  {
  }

  lemma {:induction false} HoldsFirst(items: seq<Value>, b: Bytes, p: nat)
    requires AllFit(items) && items != [] && Holds(b, p, |b|, EncodeAll(items))
    ensures Fits(items[0]) && Holds(b, p, |b|, Encode(items[0]))
  {
    hide Encode, Fits, Holds;
    HoldsSplit(b, p, |b|, Encode(items[0]), EncodeAll(items[1..]));
  }

  lemma {:induction false} FirstDepth(items: seq<Value>)
    requires items != [] && DepthAll(items) <= MAX_DEPTH + 1
    ensures items[0].Map? ==> DepthAll(items[0].kids) <= MAX_DEPTH
    ensures items[0].Array? ==> DepthAll(items[0].kids) <= MAX_DEPTH
  {
  }

  lemma {:induction false} BlobsRead(items: seq<Value>, b: Bytes, p: nat)
    requires AllFit(items) && DepthAll(items) <= MAX_DEPTH + 1 && Holds(b, p, |b|, EncodeAll(items))
    ensures p <= |b| && ReadBlobs(b, p, |items|) == FullStrings(items)
    decreases |items|
  {
    hide Parse, Encode, EncodeAll, Holds, ItemOf, Fits, Depth, DepthAll;
    HoldsInside(b, p, |b|, EncodeAll(items));
    if items != [] {
      var next := ItemParsed(items, b, p);
      KindIsBytes(items[0]);
      BlobsRead(items[1..], b, next);
    }
  }

  lemma {:induction false} KindIsBytes(v: Value)
    ensures KindOf(v) == KBytes <==> v.Str?
    ensures v.Str? ==> ArgOf(v) == |v.s|
  {
  }

  /** The value under a name, as the bytes show it. */
  lemma {:induction false} FoundUnder(b: Bytes, top: Item, kids: seq<Value>, key: Bytes)
    requires IsMap(b, top, kids)
    ensures |kids| % 2 == 0 && Shows(b, MapFind(b, top.data, |b|, top.arg, key), FirstUnder(kids, Text(key)))
  {
    hide TreeFind, MapFind, FirstUnder, Encode, EncodeAll, Holds, DepthAll, Shows;
    FindShows(kids, b, top.data, key);
    TreeFindIs(kids, key);
  }

  lemma {:induction false} ArrayShown(b: Bytes, item: Option<Item>, v: Option<Value>)
    requires Shows(b, item, v)
    ensures (item.Some? && item.value.kind == KArray) <==> (v.Some? && v.value.Array?)
    ensures v.Some? && v.value.Array? ==>
      var items := v.value.kids;
      && AllFit(items) && item.value.data <= |b| && item.value.arg == |items|
      && DepthAll(items) <= MAX_DEPTH && Holds(b, item.value.data, |b|, EncodeAll(items))
  {
    hide Encode, EncodeAll, Holds, DepthAll, Depth;
    if v.Some? {
      ItemNext(v.value, item.value.start);
      KindIsArray(v.value);
      if v.value.Array? {
        InnerArray(b, item.value.start, v.value.kids);
        ArrayDepth(v.value.kids);
      }
    }
  }

  lemma {:induction false} KindIsArray(v: Value)
    ensures KindOf(v) == KArray <==> v.Array?
  {
  }

  lemma {:induction false} MapShown(b: Bytes, item: Option<Item>, v: Option<Value>)
    requires Shows(b, item, v)
    ensures (item.Some? && item.value.kind == KMap) <==> (v.Some? && v.value.Map?)
    ensures v.Some? && v.value.Map? ==>
      Fits(v.value) && item.value.start <= item.value.next <= |b| && b[item.value.start..item.value.next] == Encode(v.value)
  {
    hide Encode, Holds, Depth;
    if v.Some? {
      ItemNext(v.value, item.value.start);
      KindIsMap(v.value);
      HoldsBytes(b, item.value.start, |b|, Encode(v.value));
    }
  }

  /** Whatever map arrives is read as its meaning. */
  lemma {:induction false} InterpretsExactly(phase: Phase, kids: seq<Value>)
    requires Fits(Map(kids)) && DepthAll(kids) <= MAX_DEPTH
    ensures Interpret(phase, Encode(Map(kids))) == Meaning(phase, kids)
  {
    hide Parse, MapFind, FirstUnder, Encode, EncodeAll, DepthAll, Ascii, IsMap, Lines, FullStrings, ReadEntries, ReadBlobs, UIntField, BytesField, Shows;
    var b := Encode(Map(kids));
    var top := MessageMap(kids, b);
    ReplyNames();
    RequestNames();
    NextFits(kids);
    FoundUnder(b, top, kids, K_ERROR);
    ShownOrNot(b, MapFind(b, top.data, |b|, top.arg, K_ERROR), FirstUnder(kids, Text(K_ERROR)));
    match phase
    case PhLs => LsMeans(b, top, kids);
    case PhReadStart => UIntShows(b, top, kids, K_SIZE); TreeFindIs(kids, K_SIZE); TreeUIntIs(kids, K_SIZE);
    case PhReadChunk => BytesShows(b, top, kids, K_DATA); TreeFindIs(kids, K_DATA); TreeBytesIs(kids, K_DATA);
    case PhReadMeta =>
      FoundUnder(b, top, kids, K_META);
      MapShown(b, MapFind(b, top.data, |b|, top.arg, K_META), FirstUnder(kids, Text(K_META)));
    case PhAttestQuery => BlobsMean(b, top, kids);
    case PhDone =>
    case PhError =>
  }

  lemma {:induction false} ShownOrNot(b: Bytes, item: Option<Item>, v: Option<Value>)
    requires Shows(b, item, v)
    ensures item.Some? <==> v.Some?
  {
  }

  lemma {:induction false} TreeUIntIs(kids: seq<Value>, key: Bytes)
    requires |kids| % 2 == 0 && AllFit(kids) && TreeFind(kids, key) == FirstUnder(kids, Text(key))
    ensures TreeUInt(kids, key) == match FirstUnder(kids, Text(key)) case Some(UInt(n)) => Some(n) case _ => None
  {
    hide TreeFind, FirstUnder;
  }

  lemma {:induction false} TreeBytesIs(kids: seq<Value>, key: Bytes)
    requires |kids| % 2 == 0 && TreeFind(kids, key) == FirstUnder(kids, Text(key))
    ensures TreeBytes(kids, key) == match FirstUnder(kids, Text(key)) case Some(Str(s)) => Some(s) case _ => None
  {
    hide TreeFind, FirstUnder;
  }

  lemma {:induction false} NextMeans(b: Bytes, top: Item, kids: seq<Value>)
    requires IsMap(b, top, kids)
    ensures top.data <= |b| && |kids| % 2 == 0 && NextOffset(b, top) == NextIn(kids)
  {
    hide IsMap, UIntField, FirstUnder, Ascii, TreeFind;
    MapInside(b, top, kids);
    MapFacts(b, top, kids);
    ReplyNames();
    UIntShows(b, top, kids, K_NEXT);
    TreeFindIs(kids, K_NEXT);
    TreeUIntIs(kids, K_NEXT);
  }

  lemma {:induction false} LsMeans(b: Bytes, top: Item, kids: seq<Value>)
    requires IsMap(b, top, kids) && Fits(Map(kids))
    ensures var (files, v) := (MapFind(b, top.data, |b|, top.arg, K_FILES), FirstUnder(kids, Text(K_FILES)));
      && NextOffset(b, top) == NextIn(kids)
      && (files.Some? && files.value.kind == KArray <==> v.Some? && v.value.Array?)
      && (v.Some? && v.value.Array? ==> files.value.data <= |b| && AllFit(v.value.kids))
      && (v.Some? && v.value.Array? ==> ReadEntries(b, files.value.data, files.value.arg, 16) == Lines(v.value.kids, 16))
  {
    hide IsMap, MapFind, FirstUnder, Lines, ReadEntries, Shows, Holds, EncodeAll, DepthAll;
    MapFacts(b, top, kids);
    NextMeans(b, top, kids);
    FoundUnder(b, top, kids, K_FILES);
    var (files, v) := (MapFind(b, top.data, |b|, top.arg, K_FILES), FirstUnder(kids, Text(K_FILES)));
    ArrayShown(b, files, v);
    if v.Some? && v.value.Array? { LinesRead(v.value.kids, b, files.value.data, 16); }
  }

  lemma {:induction false} BlobsMean(b: Bytes, top: Item, kids: seq<Value>)
    requires IsMap(b, top, kids) && Fits(Map(kids))
    ensures var (blobs, v) := (MapFind(b, top.data, |b|, top.arg, K_BLOBS), FirstUnder(kids, Text(K_BLOBS)));
      && NextOffset(b, top) == NextIn(kids)
      && (blobs.Some? && blobs.value.kind == KArray <==> v.Some? && v.value.Array?)
      && (v.Some? && v.value.Array? ==> blobs.value.data <= |b| && ReadBlobs(b, blobs.value.data, blobs.value.arg) == FullStrings(v.value.kids))
  {
    hide IsMap, MapFind, FirstUnder, FullStrings, ReadBlobs, Shows, Holds, EncodeAll, DepthAll;
    MapFacts(b, top, kids);
    NextMeans(b, top, kids);
    FoundUnder(b, top, kids, K_BLOBS);
    var (blobs, v) := (MapFind(b, top.data, |b|, top.arg, K_BLOBS), FirstUnder(kids, Text(K_BLOBS)));
    ArrayShown(b, blobs, v);
    if v.Some? && v.value.Array? { BlobsRead(v.value.kids, b, blobs.value.data); }
  }

  /** A reply that is no map at all is refused, or no sidecar. */
  lemma {:induction false} NoMapRefused(phase: Phase, b: Bytes)
    requires var top := Parse(b, 0, |b|, 0); top.None? || top.value.kind != KMap
    ensures Interpret(phase, b) == if phase == PhReadMeta then Meta(None) else Refused
  {
    hide Parse;
  }
}
