/** What an attestation claims, in terms of the map that it encodes, and what that means for the
    queries that it answers. */
module Claims {
  import opened AttestQuery
  import opened Bits
  import opened Cbor
  import opened CborTree
  import opened EncounterRecord
  import opened SyncWire
  import opened Wrappers
  import Encounters

  /** The first byte strings of length 6 among some values, at most `room` of them. */
  function SixBytes(items: seq<Value>, room: nat): (r: seq<Bssid>)
    ensures |r| <= room
    decreases |items|
  {
    if items == [] || room == 0 then []
    else if items[0].Str? && |items[0].s| == 6 then [items[0].s] + SixBytes(items[1..], room - 1)
    else SixBytes(items[1..], room)
  }

  lemma {:induction false} ItemParsed(items: seq<Value>, b: Bytes, p: nat) returns (next: nat)
    requires AllFit(items) && items != [] && DepthAll(items) <= MAX_DEPTH + 1 && Holds(b, p, |b|, EncodeAll(items))
    ensures p <= next <= |b| && Fits(items[0]) && Parse(b, p, |b|, 0) == Some(ItemOf(items[0], p))
    ensures var item := ItemOf(items[0], p);
      && item.next == next && item.kind == KindOf(items[0]) && item.arg == ArgOf(items[0])
      && (items[0].Str? ==> item.data <= next && b[item.data..next] == items[0].s)
    ensures AllFit(items[1..]) && DepthAll(items[1..]) <= MAX_DEPTH + 1 && Holds(b, next, |b|, EncodeAll(items[1..]))
  {
    hide Parse, Encode, Holds, ItemOf, Fits, Depth;
    var v, rest := items[0], items[1..];
    HoldsSplit(b, p, |b|, Encode(v), EncodeAll(rest));
    next := p + |Encode(v)|;
    HoldsInside(b, next, |b|, EncodeAll(rest));
    DepthOfKid(items, 0);
    ParseEncoded(v, b, p, |b|, 0);
    ItemNext(v, p);
    if v.Str? { PayloadShows(b, p, v); }
  }

  lemma {:induction false} ExtractArrayEncoded(items: seq<Value>, b: Bytes, p: nat, room: nat)
    requires AllFit(items) && DepthAll(items) <= MAX_DEPTH + 1 && Holds(b, p, |b|, EncodeAll(items))
    ensures p <= |b| && ExtractArray(b, p, |b|, |items|, room) == Some(SixBytes(items, room))
    decreases |items|
  {
    hide Parse, Encode, EncodeAll, Holds, ItemOf, Fits, Depth, DepthAll;
    HoldsInside(b, p, |b|, EncodeAll(items));
    if items != [] {
      var v, rest := items[0], items[1..];
      var next := ItemParsed(items, b, p);
      if !v.Str? || |v.s| != 6 {
        ExtractArrayEncoded(rest, b, next, room);
      } else if room > 0 {
        ExtractArrayEncoded(rest, b, next, room - 1);
      }
      if room == 0 { NoRoomLeft(rest); }
    }
  }

  lemma {:induction false} NoRoomLeft(items: seq<Value>)
    ensures SixBytes(items, 0) == []
  {
  }

  lemma {:induction false} ExtractFromEncoded(kids: seq<Value>, b: Bytes, p: nat, room: nat)
    requires AllFit(kids) && |kids| % 2 == 0 && DepthAll(kids) <= MAX_DEPTH + 1 && Holds(b, p, |b|, EncodeAll(kids))
    ensures p <= |b| && ExtractFrom(b, p, |b|, |kids| / 2, room) == ClaimedBy(kids, room)
    decreases |kids|
  {
    hide Parse, Encode, EncodeAll, Holds, ItemOf, Fits, Depth, DepthAll, ExtractArray, SixBytes;
    HoldsInside(b, p, |b|, EncodeAll(kids));
    if kids != [] {
      var k, v, rest := kids[0], kids[1], kids[2..];
      var mid, next := PairParsed(kids, b, p, |b|);
      ItemNext(v, mid);
      KeyFour(k);
      if k == UInt(4) {
        if v.Array? {
          InnerArray(b, mid, v.kids);
          ArrayDepth(v.kids);
          ExtractArrayEncoded(v.kids, b, ItemOf(v, mid).data, room);
        }
      } else {
        ExtractFromEncoded(rest, b, next, room);
      }
    }
  }

  lemma {:induction false} KeyFour(k: Value)
    ensures KindOf(k) == KUInt && ArgOf(k) == 4 <==> k == UInt(4)
  {
  }

  lemma {:induction false} ArrayDepth(kids: seq<Value>)
    ensures Depth(Array(kids)) == DepthAll(kids)
  {
  }

  /** The BSSIDs claimed by a map of these entries. */
  function ClaimedBy(kids: seq<Value>, room: nat): (r: Option<seq<Bssid>>)
    requires |kids| % 2 == 0
  {
    match FirstUnder(kids, UInt(4))
    case Some(Array(items)) => Some(SixBytes(items, room))
    case _ => None
  }

  /** Reading the claims of an encoded map is reading the array under its key 4. */
  lemma {:induction false} ExtractEncoded(kids: seq<Value>, room: nat)
    requires Fits(Map(kids)) && DepthAll(kids) <= MAX_DEPTH
    ensures |kids| % 2 == 0 && Extract(Encode(Map(kids)), room) == ClaimedBy(kids, room)
  {
    hide Parse, Encode, EncodeAll, Holds, Fits, DepthAll, ExtractFrom, ClaimedBy;
    var b := Encode(Map(kids));
    var top := MessageMap(kids, b);
    ExtractFromEncoded(kids, b, top.data, room);
  }

  lemma {:induction false} SixBytesAll(list: seq<Bssid>, room: nat)
    requires |list| <= room
    ensures SixBytes(Strings(list), room) == list
    decreases |list|
  {
    if list != [] {
      assert Strings(list)[1..] == Strings(list[1..]);
      SixBytesAll(list[1..], room - 1);
      assert [list[0]] + list[1..] == list;
    }
  }

  /** An attestation for up to eight BSSIDs claims exactly those, and answers a query exactly when
      it asks for one of them. */
  lemma {:induction false} ClaimsExactly(kids: seq<Value>, list: seq<Bssid>, query: seq<Bssid>)
    requires Fits(Map(kids)) && DepthAll(kids) <= MAX_DEPTH && |kids| % 2 == 0
    requires FirstUnder(kids, UInt(4)) == Some(Array(Strings(list))) && |list| <= 8
    ensures Extract(Encode(Map(kids)), 8) == Some(list)
    ensures Matches(Encode(Map(kids)), query) <==> exists b :: b in list && b in query
  {
    hide Extract, Encode, Fits, DepthAll, SixBytes, FirstUnder;
    ExtractEncoded(kids, 8);
    SixBytesAll(list, 8);
    if b :| b in list && b in query {
      var i :| 0 <= i < |list| && list[i] == b;
    }
  }

  /** What the device records itself is such an attestation, for the BSSIDs of the scan. */
  lemma {:induction false} RecordClaims(node: Pub, t: U32, scan: seq<Bssid>, sig: Sig, query: seq<Bssid>)
    requires |scan| <= 8
    ensures var blob := Encounters.RecordBytes(node, t, scan, sig);
      && Extract(blob, 8) == Some(scan)
      && (Matches(blob, query) <==> exists b :: b in scan && b in query)
  {
    hide Extract, Encode, Fits, DepthAll, Strings, Encounters.RecordBytes;
    var kids := Encounters.RecordKids(node, t, scan, sig);
    Encounters.RecordIsMap(node, t, scan, sig);
    RecordShallow(node, t, scan, sig);
    ClaimsExactly(kids, scan, query);
  }

  lemma {:induction false} RecordShallow(node: Pub, t: U32, scan: seq<Bssid>, sig: Sig)
    requires |scan| <= 8
    ensures var kids := Encounters.RecordKids(node, t, scan, sig);
      |kids| % 2 == 0 && DepthAll(kids) <= 2 && FirstUnder(kids, UInt(4)) == Some(Array(Strings(scan)))
  {
    hide Strings, FirstUnder, DepthAll;
    var kids := Encounters.RecordKids(node, t, scan, sig);
    StringsDeep(scan);
    KidsDepth(kids, 1);
    var rest := kids[2..][2..][2..];
    assert rest == [UInt(4), Array(Strings(scan)), UInt(5), Str(sig)];
    LaterUnder(kids, UInt(4));
    LaterUnder(kids[2..], UInt(4));
    LaterUnder(kids[2..][2..], UInt(4));
    HereUnder(rest, UInt(4));
  }

  lemma {:induction false} StringsDeep(scan: seq<Bssid>)
    requires |scan| <= 8
    ensures Depth(Array(Strings(scan))) <= 1
  {
    StringsEncoding(scan);
  }

  lemma {:induction false} HereUnder(kids: seq<Value>, key: Value)
    requires |kids| >= 2 && |kids| % 2 == 0 && kids[0] == key
    ensures FirstUnder(kids, key) == Some(kids[1])
  {
  }

  lemma {:induction false} LaterUnder(kids: seq<Value>, key: Value)
    requires |kids| >= 2 && |kids| % 2 == 0 && kids[0] != key
    ensures FirstUnder(kids, key) == FirstUnder(kids[2..], key)
  {
  }

  lemma {:induction false} NoMapNoClaims(b: Bytes, query: seq<Bssid>, room: nat)
    requires var top := Parse(b, 0, |b|, 0); top.None? || top.value.kind != KMap
    ensures Extract(b, room).None? && !Matches(b, query)
  {
    hide Parse;
  }
}
