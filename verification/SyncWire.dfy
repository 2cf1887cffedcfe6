/** Reading the fields of encoded maps with text keys: what a getter returns on the bytes of an
    encoded map, in terms of the map. */
module SyncWire {
  import opened Bits
  import opened Cbor
  import opened CborTree
  import opened EncounterRecord
  import opened PeerSync
  import opened Wrappers

  /** The first value under a text key. */
  function TreeFind(kids: seq<Value>, key: Bytes): (v: Option<Value>)
    requires |kids| % 2 == 0
    ensures v.Some? ==> v.value in kids
    decreases |kids|
  {
    if kids == [] then None
    else if kids[0] == Text(key) then Some(kids[1])
    else TreeFind(kids[2..], key)
  }

  function TreeUInt(kids: seq<Value>, key: Bytes): (n: Option<U64>)
    requires |kids| % 2 == 0 && AllFit(kids)
  {
    var v := TreeFind(kids, key);
    if v.None? || !v.value.UInt? then None
    else
      assert Fits(v.value);
      var n: U64 := v.value.n;
      Some(n)
  }

  function TreeText(kids: seq<Value>, key: Bytes, room: nat): (s: Option<Bytes>)
    requires |kids| % 2 == 0
  {
    var v := TreeFind(kids, key);
    if v.None? || !v.value.Text? || |v.value.s| >= room then None else Some(UpToNul(v.value.s))
  }

  function TreeBytes(kids: seq<Value>, key: Bytes): (s: Option<Bytes>)
    requires |kids| % 2 == 0
  {
    var v := TreeFind(kids, key);
    if v.None? || !v.value.Str? then None else Some(v.value.s)
  }

  /** An item parsed at the position of an encoded value. */
  ghost predicate Shows(b: Bytes, item: Option<Item>, v: Option<Value>) {
    match v
    case None => item.None?
    case Some(w) => item.Some? && Fits(w) && Depth(w) <= MAX_DEPTH && HoldsItem(b, item.value, w)
  }

  ghost predicate HoldsItem(b: Bytes, item: Item, w: Value)
    requires Fits(w)
  {
    Holds(b, item.start, |b|, Encode(w)) && item == ItemOf(w, item.start)
  }

  /** Searching the bytes of an encoded map is searching the map. */
  lemma {:induction false} FindShows(kids: seq<Value>, b: Bytes, pos: nat, key: Bytes)
    requires AllFit(kids) && |kids| % 2 == 0 && DepthAll(kids) <= MAX_DEPTH + 1
    requires Holds(b, pos, |b|, EncodeAll(kids))
    ensures pos <= |b| && Shows(b, MapFind(b, pos, |b|, |kids| / 2, key), TreeFind(kids, key))
    decreases |kids|
  {
    hide Parse, Encode, EncodeAll, Holds, ItemOf, Fits, Depth, DepthAll, IsText;
    HoldsInside(b, pos, |b|, EncodeAll(kids));
    if kids != [] {
      var k, v, rest := kids[0], kids[1], kids[2..];
      var mid, next := PairParsed(kids, b, pos, |b|);
      IsTextEncoded(k, b, pos, |b|, key);
      if k != Text(key) { FindShows(rest, b, next, key); }
    }
  }

  /** The payload of an encoded string. */
  lemma {:induction false} PayloadShows(b: Bytes, pos: nat, v: Value)
    requires Fits(v) && (v.Str? || v.Text?) && Holds(b, pos, |b|, Encode(v))
    ensures ItemOf(v, pos).data <= ItemOf(v, pos).next <= |b| && b[ItemOf(v, pos).data..ItemOf(v, pos).next] == v.s
  {
    hide Header;
    HoldsSplit(b, pos, |b|, Header(if v.Str? then 2 else 3, |v.s|), v.s);
  }

  /** m is the item of the map with these entries. */
  ghost predicate IsMap(b: Bytes, m: Item, kids: seq<Value>) {
    && AllFit(kids) && |kids| % 2 == 0 && DepthAll(kids) <= MAX_DEPTH
    && m.arg == |kids| / 2 && Holds(b, m.data, |b|, EncodeAll(kids)) && m.data <= |b|
  }

  lemma {:induction false} UIntShows(b: Bytes, m: Item, kids: seq<Value>, key: Bytes)
    requires IsMap(b, m, kids)
    ensures UIntField(b, m, key) == TreeUInt(kids, key)
  {
    hide Holds, Encode, EncodeAll, MapFind, TreeFind, Depth, DepthAll;
    FindShows(kids, b, m.data, key);
  }

  lemma {:induction false} TextShows(b: Bytes, m: Item, kids: seq<Value>, key: Bytes, room: nat)
    requires IsMap(b, m, kids)
    ensures TextField(b, m, key, room) == TreeText(kids, key, room)
  {
    hide Holds, Encode, EncodeAll, MapFind, TreeFind, Depth, DepthAll, UpToNul, Fits;
    FindShows(kids, b, m.data, key);
    var v, item := TreeFind(kids, key), MapFind(b, m.data, |b|, m.arg, key);
    if v.Some? && v.value.Text? { PayloadShows(b, item.value.start, v.value); }
  }

  lemma {:induction false} BytesShows(b: Bytes, m: Item, kids: seq<Value>, key: Bytes)
    requires IsMap(b, m, kids)
    ensures BytesField(b, m, key) == TreeBytes(kids, key)
  {
    hide Holds, Encode, EncodeAll, MapFind, TreeFind, Depth, DepthAll, Fits;
    FindShows(kids, b, m.data, key);
    var v, item := TreeFind(kids, key), MapFind(b, m.data, |b|, m.arg, key);
    if v.Some? && v.value.Str? { PayloadShows(b, item.value.start, v.value); }
  }

  /** The whole of an encoded map, as a message. */
  lemma {:induction false} MessageMap(kids: seq<Value>, b: Bytes) returns (top: Item)
    requires Fits(Map(kids)) && DepthAll(kids) <= MAX_DEPTH && b == Encode(Map(kids))
    ensures Parse(b, 0, |b|, 0) == Some(top) && top.kind == KMap && AllFit(kids) && |kids| % 2 == 0 && IsMap(b, top, kids)
  {
    hide Parse, Header, EncodeAll, Depth, DepthAll, Holds;
    var v := Map(kids);
    var h := Header(5, |kids| / 2);
    MapDepth(kids);
    assert Encode(v) == h + EncodeAll(kids);
    WholeHolds(b);
    HoldsSplit(b, 0, |b|, h, EncodeAll(kids));
    ParseEncoded(v, b, 0, |b|, 0);
    top := ItemOf(v, 0);
  }

  lemma {:induction false} WholeHolds(b: Bytes)
    ensures Holds(b, 0, |b|, b)
  {
  }

  /** ... and that it is no error reply. */
  lemma {:induction false} MessageOk(kids: seq<Value>, b: Bytes) returns (top: Item)
    requires Fits(Map(kids)) && DepthAll(kids) <= MAX_DEPTH && b == Encode(Map(kids)) && |kids| % 2 == 0
    requires TreeFind(kids, K_ERROR).None?
    ensures OuterMap(b) == Some(top) && IsMap(b, top, kids)
  {
    hide Parse, Encode, EncodeAll, Depth, DepthAll, Holds, MapFind, TreeFind, Fits;
    top := MessageMap(kids, b);
    FindShows(kids, b, top.data, K_ERROR);
  }

  /** The item of an encoded map inside a message. */
  lemma {:induction false} InnerMap(b: Bytes, pos: nat, kids: seq<Value>)
    requires Fits(Map(kids)) && DepthAll(kids) <= MAX_DEPTH && Holds(b, pos, |b|, Encode(Map(kids)))
    ensures |kids| % 2 == 0 && AllFit(kids) && IsMap(b, ItemOf(Map(kids), pos), kids)
  {
    hide Header, EncodeAll, DepthAll, Holds;
    var h := Header(5, |kids| / 2);
    assert Encode(Map(kids)) == h + EncodeAll(kids);
    HoldsInside(b, pos, |b|, Encode(Map(kids)));
    HoldsSplit(b, pos, |b|, h, EncodeAll(kids));
  }

  /** Where the entries of an encoded array start. */
  lemma {:induction false} InnerArray(b: Bytes, pos: nat, kids: seq<Value>)
    requires Fits(Array(kids)) && Holds(b, pos, |b|, Encode(Array(kids)))
    ensures AllFit(kids)
    ensures var m := ItemOf(Array(kids), pos);
      m.kind == KArray && m.arg == |kids| && m.data <= |b| && Holds(b, m.data, |b|, EncodeAll(kids))
  {
    hide Header, EncodeAll, Holds;
    var h := Header(4, |kids|);
    assert Encode(Array(kids)) == h + EncodeAll(kids);
    HoldsInside(b, pos, |b|, Encode(Array(kids)));
    HoldsSplit(b, pos, |b|, h, EncodeAll(kids));
  }

  // ---- listings and blobs ----

  /** How one line of a listing is written. */
  function EntryValue(e: Entry): Value {
    Map(EntryKids(e))
  }

  function EntryKids(e: Entry): seq<Value> {
    [Text(K_NAME), Text(e.name), Text(K_SIZE), UInt(e.size), Text(K_HASH), Str(e.hash)]
  }

  predicate Listable(e: Entry) {
    |e.name| < 32 && 0 !in e.name
  }

  function EntryValues(list: seq<Entry>): (kids: seq<Value>)
    ensures |kids| == |list| && forall i :: 0 <= i < |list| ==> kids[i] == EntryValue(list[i])
  {
    seq(|list|, i requires 0 <= i < |list| => EntryValue(list[i]))
  }

  lemma {:induction false} EntryFits(e: Entry)
    requires Listable(e)
    ensures Fits(EntryValue(e)) && AllFit(EntryKids(e)) && Depth(EntryValue(e)) == 1 && DepthAll(EntryKids(e)) == 1
    ensures |EntryKids(e)| % 2 == 0
  {
    var kids := EntryKids(e);
    assert AllFit(kids);
    PairEncoding(1, UInt(1));
    EntryDepth(kids);
  }

  lemma {:induction false} EntryDepth(kids: seq<Value>)
    requires kids != [] && forall i :: 0 <= i < |kids| ==> Depth(kids[i]) == 0
    ensures DepthAll(kids) == 1
    decreases |kids|
  {
    if |kids| > 1 { EntryDepth(kids[1..]); }
  }

  /** An encoded line is read back as it was. */
  lemma {:induction false} ReadEntryEncoded(b: Bytes, pos: nat, e: Entry)
    requires Listable(e) && Fits(EntryValue(e)) && Holds(b, pos, |b|, Encode(EntryValue(e)))
    ensures ItemOf(EntryValue(e), pos).data <= |b| && ReadEntry(b, ItemOf(EntryValue(e), pos)) == Some(e)
  {
    hide Holds, Encode, EncodeAll, DepthAll, Depth, Fits, UIntField, TextField, BytesField, ItemOf, IsMap, TreeText, TreeUInt, TreeBytes, TreeFind, EntryKids;
    EntryFits(e);
    var kids := EntryKids(e);
    InnerMap(b, pos, kids);
    var m := ItemOf(EntryValue(e), pos);
    MapInside(b, m, kids);
    TextShows(b, m, kids, K_NAME, 32);
    UIntShows(b, m, kids, K_SIZE);
    BytesShows(b, m, kids, K_HASH);
    EntryFields(e);
  }

  lemma {:induction false} MapInside(b: Bytes, m: Item, kids: seq<Value>)
    requires IsMap(b, m, kids)
    ensures m.data <= |b|
  {
  }

  lemma {:induction false} EntryFields(e: Entry)
    requires Listable(e) && AllFit(EntryKids(e))
    ensures TreeText(EntryKids(e), K_NAME, 32) == Some(e.name)
    ensures TreeUInt(EntryKids(e), K_SIZE) == Some(e.size)
    ensures TreeBytes(EntryKids(e), K_HASH) == Some(e.hash)
  {
    hide Fits;
    var kids := EntryKids(e);
    var rest := kids[2..];
    assert TreeFind(kids, K_NAME) == Some(Text(e.name));
    assert K_NAME[0] != K_SIZE[0] && K_NAME[0] != K_HASH[0] && K_SIZE[0] != K_HASH[0];
    assert TreeFind(kids, K_SIZE) == TreeFind(rest, K_SIZE) == Some(UInt(e.size));
    assert rest[2..] == [Text(K_HASH), Str(e.hash)];
    assert TreeFind(kids, K_HASH) == TreeFind(rest, K_HASH) == TreeFind(rest[2..], K_HASH) == Some(Str(e.hash));
  }

  lemma {:induction false} EntriesFit(list: seq<Entry>)
    requires forall i :: 0 <= i < |list| ==> Listable(list[i])
    ensures AllFit(EntryValues(list)) && DepthAll(EntryValues(list)) <= 2
  {
    hide Fits, Depth, Listable;
    if list != [] {
      EntryFits(list[0]);
      EntriesFit(list[1..]);
      assert EntryValues(list)[1..] == EntryValues(list[1..]);
      assert forall i :: 0 <= i < |list| ==> Fits(EntryValues(list)[i]) by {
        forall i | 0 <= i < |list| ensures Fits(EntryValues(list)[i]) { EntryFits(list[i]); }
      }
    }
  }

  /** An encoded listing of at most a page is read back as it was. */
  lemma {:induction false} ReadEntriesEncoded(b: Bytes, pos: nat, list: seq<Entry>, room: nat)
    requires (forall i :: 0 <= i < |list| ==> Listable(list[i])) && |list| <= room
    requires AllFit(EntryValues(list)) && Holds(b, pos, |b|, EncodeAll(EntryValues(list)))
    ensures pos <= |b| && ReadEntries(b, pos, |list|, room) == list
    decreases |list|
  {
    hide Holds, Encode, DepthAll, Depth, Fits, ItemOf, Parse, ReadEntry, EntryValue;
    HoldsInside(b, pos, |b|, EncodeAll(EntryValues(list)));
    if list != [] {
      var v, rest := EntryValue(list[0]), list[1..];
      assert EntryValues(list)[0] == v && EntryValues(list)[1..] == EntryValues(rest);
      EntryFits(list[0]);
      HoldsSplit(b, pos, |b|, Encode(v), EncodeAll(EntryValues(rest)));
      ParseEncoded(v, b, pos, |b|, 0);
      ItemNext(v, pos);
      EntryKind(list[0]);
      ReadEntryEncoded(b, pos, list[0]);
      ReadEntriesEncoded(b, pos + |Encode(v)|, rest, room - 1);
    }
  }

  lemma {:induction false} EntryKind(e: Entry)
    ensures KindOf(EntryValue(e)) == KMap
  {
  }

  predicate Storable(blob: Bytes) {
    0 < |blob| <= BLOB_MAX
  }

  lemma {:induction false} BlobsFit(list: seq<Bytes>)
    requires forall i :: 0 <= i < |list| ==> Storable(list[i])
    ensures AllFit(Strings(list)) && DepthAll(Strings(list)) <= 1
  {
    if list != [] {
      BlobsFit(list[1..]);
      assert Strings(list)[1..] == Strings(list[1..]);
      assert Strings(list)[0] == Str(list[0]);
    }
  }

  lemma {:induction false} ReadBlobsEncoded(b: Bytes, pos: nat, list: seq<Bytes>)
    requires forall i :: 0 <= i < |list| ==> Storable(list[i])
    requires AllFit(Strings(list)) && Holds(b, pos, |b|, EncodeAll(Strings(list)))
    ensures pos <= |b| && ReadBlobs(b, pos, |list|) == list
    decreases |list|
  {
    hide Holds, Encode, DepthAll, Fits, ItemOf, Parse;
    HoldsInside(b, pos, |b|, EncodeAll(Strings(list)));
    if list != [] {
      var v, rest := Str(list[0]), list[1..];
      assert Strings(list)[0] == v && Strings(list)[1..] == Strings(rest);
      HoldsSplit(b, pos, |b|, Encode(v), EncodeAll(Strings(rest)));
      ParseEncoded(v, b, pos, |b|, 0);
      ItemNext(v, pos);
      PayloadShows(b, pos, v);
      ReadBlobsEncoded(b, pos + |Encode(v)|, rest);
    }
  }
}
