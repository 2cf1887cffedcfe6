/** The record encoder and decoder as the firmware runs them, moving a cursor through a buffer,
    and the companion app's rebuild of the signed body. */
module RecordCode {
  import opened Bits
  import opened Cbor
  import opened CborCode
  import opened CborTree
  import opened EncounterRecord
  import opened Wrappers

  // ---- maps with small integer keys, entry by entry ----

  /** The buffer starts with a map header and the given entries, and the cursor stands after them. */
  ghost predicate MapSoFar(now: Bytes, orig: Bytes, p: nat, pairs: nat, kids: seq<Value>) {
    && pairs < 24 && AllFit(kids)
    && p == |Header(5, pairs) + EncodeAll(kids)| <= |orig|
    && now == Splice(orig, 0, Header(5, pairs) + EncodeAll(kids))
  }

  lemma {:induction false} Extend(now: Bytes, orig: Bytes, p: nat, pairs: nat, kids: seq<Value>, key: nat, v: Value, later: Bytes)
    requires MapSoFar(now, orig, p, pairs, kids) && key < 24 && Fits(v) && p + 1 + |Encode(v)| <= |orig|
    requires |now| == |orig| && |Encode(UInt(key))| == 1
    requires later == Splice(now, p, Encode(UInt(key)) + Encode(v))
    ensures MapSoFar(later, orig, p + 1 + |Encode(v)|, pairs, kids + [UInt(key), v])
  {
    hide Encode, Splice, Header, Fits;
    PairEncoding(key, v);
    EncodeAllConcat(kids, [UInt(key), v]);
    var done, entry := Header(5, pairs) + EncodeAll(kids), Encode(UInt(key)) + Encode(v);
    SpliceTwice(orig, 0, done, entry);
    assert done + entry == Header(5, pairs) + EncodeAll(kids + [UInt(key), v]);
  }

  /** A key and then a value, as one splice. */
  lemma {:induction false} KeyThenValue(before: Bytes, p: nat, key: nat, s: Bytes)
    requires key < 24 && p + 1 + |s| <= |before|
    ensures |Encode(UInt(key))| == 1
    ensures Splice(Splice(before, p, Encode(UInt(key))), p + 1, s) == Splice(before, p, Encode(UInt(key)) + s)
  {
    hide Splice;
    assert |Encode(UInt(key))| == 1;
    SpliceTwice(before, p, Encode(UInt(key)), s);
  }

  method PutHeader(buf: array<U8>, pairs: nat) returns (p: nat)
    requires pairs < 24 && buf.Length >= 1
    modifies buf
    ensures p == 1 && MapSoFar(buf[..], old(buf[..]), p, pairs, [])
  {
    hide Splice;
    assert Header(5, pairs) + EncodeAll([]) == Header(5, pairs);
    p := EncodeHeader(buf, 0, 5, pairs);
  }

  method PutNumber(buf: array<U8>, p: nat, key: nat, n: U64, ghost orig: Bytes, ghost pairs: nat, ghost kids: seq<Value>) returns (next: nat)
    requires MapSoFar(buf[..], orig, p, pairs, kids) && key < 24 && p + 10 <= buf.Length == |orig|
    modifies buf
    ensures MapSoFar(buf[..], orig, next, pairs, kids + [UInt(key), UInt(n)])
    ensures next == p + 1 + |Encode(UInt(n))| <= p + 10
  {
    hide Splice, Header, MapSoFar;
    ghost var before := buf[..];
    assert |Encode(UInt(key))| == 1 && |Encode(UInt(n))| <= 9;
    var a := EncodeUInt(buf, p, key);
    var c := EncodeUInt64(buf, p + a, n);
    next := p + a + c;
    KeyThenValue(before, p, key, Encode(UInt(n)));
    Extend(before, orig, p, pairs, kids, key, UInt(n), buf[..]);
  }

  method PutInt(buf: array<U8>, p: nat, key: nat, x: I32, ghost orig: Bytes, ghost pairs: nat, ghost kids: seq<Value>) returns (next: nat)
    requires MapSoFar(buf[..], orig, p, pairs, kids) && key < 24 && p + 6 <= buf.Length == |orig|
    modifies buf
    ensures MapSoFar(buf[..], orig, next, pairs, kids + [UInt(key), IntValue(x)])
    ensures next == p + 1 + |Encode(IntValue(x))| <= p + 6
  {
    hide Splice, Header, MapSoFar;
    ghost var before := buf[..];
    assert |Encode(UInt(key))| == 1 && |Encode(IntValue(x))| <= 5;
    var a := EncodeUInt(buf, p, key);
    var c := EncodeInt(buf, p + a, x);
    next := p + a + c;
    KeyThenValue(before, p, key, Encode(IntValue(x)));
    Extend(before, orig, p, pairs, kids, key, IntValue(x), buf[..]);
  }

  method PutBytes(buf: array<U8>, p: nat, key: nat, s: Bytes, ghost orig: Bytes, ghost pairs: nat, ghost kids: seq<Value>) returns (next: nat)
    requires MapSoFar(buf[..], orig, p, pairs, kids) && key < 24 && |s| < 0x100 && p + 3 + |s| <= buf.Length == |orig|
    modifies buf
    ensures MapSoFar(buf[..], orig, next, pairs, kids + [UInt(key), Str(s)])
    ensures next == p + 1 + |Encode(Str(s))| <= p + 3 + |s|
    ensures |s| < 24 ==> next == p + 2 + |s|
  {
    hide Splice, Header, MapSoFar;
    ghost var before := buf[..];
    assert |Encode(UInt(key))| == 1 && |Header(2, |s|)| <= 2;
    var a := EncodeUInt(buf, p, key);
    var c := EncodeString(buf, p + a, 2, s);
    next := p + a + c;
    assert Encode(Str(s)) == Header(2, |s|) + s;
    KeyThenValue(before, p, key, Encode(Str(s)));
    Extend(before, orig, p, pairs, kids, key, Str(s), buf[..]);
  }

  /** An array of byte strings of length 6. */
  method EncodeBssidArray(buf: array<U8>, p: nat, list: seq<Bssid>) returns (n: nat)
    requires |list| < 24 && p + 1 + 7 * |list| <= buf.Length
    modifies buf
    ensures Fits(Array(Strings(list))) && n == |Encode(Array(Strings(list)))| == 1 + 7 * |list|
    ensures buf[..] == Splice(old(buf[..]), p, Encode(Array(Strings(list))))
  {
    hide Splice, Header, Encode;
    ghost var orig, h := buf[..], Header(4, |list|);
    StringsEncoding(list);
    ArrayEncoding(list);
    assert |h| == 1;
    n := EncodeHeader(buf, p, 4, |list|);
    assert Strings(list[..0]) == [] && h + [] == h;
    for i := 0 to |list|
      invariant n == 1 + 7 * i
      invariant BssidsSoFar(buf[..], orig, p, list, i)
    {
      var c := EncodeString(buf, p + n, 2, list[i]);
      n := n + c;
      BssidStep(buf[..], orig, p, list, i);
    }
    assert list[..|list|] == list;
  }

  /** The header for the whole list and its first i strings have been written. */
  ghost predicate BssidsSoFar(now: Bytes, orig: Bytes, p: nat, list: seq<Bssid>, i: nat) {
    && i <= |list| && p + 1 + 7 * |list| <= |orig| && AllFit(Strings(list[..i]))
    && |list| < 24 && |EncodeAll(Strings(list[..i]))| == 7 * i
    && now == Splice(orig, p, Header(4, |list|) + EncodeAll(Strings(list[..i])))
  }

  lemma {:induction false} BssidStep(later: Bytes, orig: Bytes, p: nat, list: seq<Bssid>, i: nat)
    requires i < |list| < 24 && p + 1 + 7 * |list| <= |orig| && |Header(2, 6) + list[i]| == 7 && |Header(4, |list|)| == 1
    requires AllFit(Strings(list[..i])) && |EncodeAll(Strings(list[..i]))| == 7 * i
    requires later == Splice(Splice(orig, p, Header(4, |list|) + EncodeAll(Strings(list[..i]))), p + 1 + 7 * i, Header(2, 6) + list[i])
    ensures BssidsSoFar(later, orig, p, list, i + 1)
  {
    hide Splice, Header, Encode, EncodeAll;
    StringsEncoding(list[..i + 1]);
    StringsSnoc(list, i);
    var h := Header(4, |list|);
    var done := h + EncodeAll(Strings(list[..i]));
    SpliceTwice(orig, p, done, Header(2, 6) + list[i]);
    assert done + (Header(2, 6) + list[i]) == h + EncodeAll(Strings(list[..i + 1]));
  }

  lemma {:induction false} ArrayEncoding(list: seq<Bssid>)
    requires |list| < 24 && AllFit(Strings(list)) && |EncodeAll(Strings(list))| == 7 * |list|
    ensures Fits(Array(Strings(list))) && Encode(Array(Strings(list))) == Header(4, |list|) + EncodeAll(Strings(list))
    ensures |Encode(Array(Strings(list)))| == 1 + 7 * |list|
  {
    hide Header;
  }

  lemma {:induction false} StringsSnoc(list: seq<Bssid>, i: nat)
    requires i < |list|
    ensures AllFit(Strings(list[..i])) && AllFit(Strings(list[..i + 1]))
    ensures EncodeAll(Strings(list[..i + 1])) == EncodeAll(Strings(list[..i])) + (Header(2, 6) + list[i])
    ensures Encode(Str(list[i])) == Header(2, 6) + list[i] && |Header(2, 6)| == 1
  {
    hide Header;
    StringsEncoding(list[..i]);
    var last := [Str(list[i])];
    assert Strings(list[..i + 1]) == Strings(list[..i]) + last;
    EncodeAllConcat(Strings(list[..i]), last);
    assert EncodeAll(last) == Encode(Str(list[i])) + EncodeAll(last[1..]);
  }

  method PutBssids(buf: array<U8>, p: nat, key: nat, list: seq<Bssid>, ghost orig: Bytes, ghost pairs: nat, ghost kids: seq<Value>) returns (next: nat)
    requires MapSoFar(buf[..], orig, p, pairs, kids) && key < 24 && |list| <= BSSID_MAX && p + 2 + 7 * |list| <= buf.Length == |orig|
    modifies buf
    ensures MapSoFar(buf[..], orig, next, pairs, kids + [UInt(key), Array(Strings(list))])
    ensures next == p + 2 + 7 * |list|
  {
    hide Splice, Header, MapSoFar, EncodeAll;
    ghost var before := buf[..];
    assert |Encode(UInt(key))| == 1;
    var a := EncodeUInt(buf, p, key);
    var c := EncodeBssidArray(buf, p + a, list);
    next := p + a + c;
    KeyThenValue(before, p, key, Encode(Array(Strings(list))));
    Extend(before, orig, p, pairs, kids, key, Array(Strings(list)), buf[..]);
  }

  // ---- the record ----

  lemma {:induction false} KidsNext(r: Record, k: nat)
    requires 1 <= k <= FULL_KEYS
    ensures Kids(r, k) == Kids(r, k - 1) + [UInt(k), ToValue(Get(r, k))]
  {
  }

  lemma {:induction false} MapDone(now: Bytes, orig: Bytes, p: nat, pairs: nat, kids: seq<Value>)
    requires MapSoFar(now, orig, p, pairs, kids) && |kids| == 2 * pairs
    ensures Fits(Map(kids)) && p == |Encode(Map(kids))| <= |orig| && now == Splice(orig, 0, Encode(Map(kids)))
  {
    hide Splice, Header;
  }

  /** Encode the body or the full record into the buffer; 0 when the record cannot be encoded or
      the buffer is smaller than the worst case. */
  method EncodeRecordInto(r: Record, buf: array<U8>, withSigs: bool) returns (n: nat)
    modifies buf
    ensures n == |EncodeRecord(r, buf.Length, withSigs)| <= buf.Length
    ensures buf[..] == Splice(old(buf[..]), 0, EncodeRecord(r, buf.Length, withSigs))
  {
    hide Splice, Encode, EncodeAll, Kids, MapSoFar;
    ghost var orig := buf[..];
    SpliceNothing(orig);
    if r.version != RECORD_VERSION { return 0; }
    if |r.bssidsA| > BSSID_MAX || |r.bssidsB| > BSSID_MAX { return 0; }
    if buf.Length < (if withSigs then RECORD_MAX_BYTES else BODY_MAX_BYTES) { return 0; }
    ghost var total := if withSigs then FULL_KEYS else BODY_KEYS;
    NoKids(r);
    var p := PutHeader(buf, if withSigs then FULL_KEYS else BODY_KEYS);
    p := PutParties(buf, p, r, orig, total);
    p := PutTotals(buf, p, r, orig, total);
    if withSigs {
      p := PutBytes(buf, p, 18, r.sigA, orig, total, Kids(r, 17));
      KidsNext(r, 18);
      p := PutBytes(buf, p, 19, r.sigB, orig, total, Kids(r, 18));
      KidsNext(r, 19);
    }
    MapDone(buf[..], orig, p, total, Kids(r, total));
    return p;
  }

  /** The version, and who met where. */
  method PutParties(buf: array<U8>, first: nat, r: Record, ghost orig: Bytes, ghost total: nat) returns (p: nat)
    requires MapSoFar(buf[..], orig, first, total, Kids(r, 0)) && buf.Length == |orig| && first == 1 && buf.Length >= BODY_MAX_BYTES
    requires |r.bssidsA| <= BSSID_MAX && |r.bssidsB| <= BSSID_MAX
    modifies buf
    ensures MapSoFar(buf[..], orig, p, total, Kids(r, 9)) && p <= 230
  {
    hide Splice, Encode, EncodeAll, Kids, MapSoFar;
    p := PutNumber(buf, first, 1, r.version, orig, total, Kids(r, 0));
    KidsNext(r, 1);
    p := PutBytes(buf, p, 2, r.pubA, orig, total, Kids(r, 1));
    KidsNext(r, 2);
    p := PutBytes(buf, p, 3, r.pubB, orig, total, Kids(r, 2));
    KidsNext(r, 3);
    p := PutNumber(buf, p, 4, r.meetingCountA, orig, total, Kids(r, 3));
    KidsNext(r, 4);
    p := PutNumber(buf, p, 5, r.meetingCountB, orig, total, Kids(r, 4));
    KidsNext(r, 5);
    p := PutInt(buf, p, 6, r.repOfBByA, orig, total, Kids(r, 5));
    KidsNext(r, 6);
    p := PutInt(buf, p, 7, r.repOfAByB, orig, total, Kids(r, 6));
    KidsNext(r, 7);
    p := PutBssids(buf, p, 8, r.bssidsA, orig, total, Kids(r, 7));
    KidsNext(r, 8);
    p := PutBssids(buf, p, 9, r.bssidsB, orig, total, Kids(r, 8));
    KidsNext(r, 9);
  }

  /** The nonces, and what was exchanged. */
  method PutTotals(buf: array<U8>, first: nat, r: Record, ghost orig: Bytes, ghost total: nat) returns (p: nat)
    requires MapSoFar(buf[..], orig, first, total, Kids(r, 9)) && buf.Length == |orig| && first + 96 <= buf.Length
    modifies buf
    ensures MapSoFar(buf[..], orig, p, total, Kids(r, 17)) && p <= first + 96
  {
    hide Splice, Encode, EncodeAll, Kids, MapSoFar;
    p := PutBytes(buf, first, 10, r.nonceA, orig, total, Kids(r, 9));
    KidsNext(r, 10);
    p := PutBytes(buf, p, 11, r.nonceB, orig, total, Kids(r, 10));
    KidsNext(r, 11);
    p := PutNumber(buf, p, 12, r.txBytesAToB, orig, total, Kids(r, 11));
    KidsNext(r, 12);
    p := PutNumber(buf, p, 13, r.rxBytesAFromB, orig, total, Kids(r, 12));
    KidsNext(r, 13);
    p := PutNumber(buf, p, 14, r.txBytesBToA, orig, total, Kids(r, 13));
    KidsNext(r, 14);
    p := PutNumber(buf, p, 15, r.rxBytesBFromA, orig, total, Kids(r, 14));
    KidsNext(r, 15);
    p := PutNumber(buf, p, 16, r.fileCountAFromB, orig, total, Kids(r, 15));
    KidsNext(r, 16);
    p := PutNumber(buf, p, 17, r.fileCountBFromA, orig, total, Kids(r, 16));
    KidsNext(r, 17);
  }

  lemma {:induction false} NoKids(r: Record)
    ensures Kids(r, 0) == []
  {
  }

  lemma {:induction false} SpliceNothing(buf: Bytes)
    ensures Splice(buf, 0, []) == buf
  {
  }

  method DecodeBssids(b: Bytes, p: nat, end: nat, n: nat) returns (out: Option<seq<Bssid>>)
    requires p <= end <= |b|
    ensures out == ReadScan(b, p, end, n)
  {
    hide Parse;
    var list: seq<Bssid> := [];
    var q: nat := p;
    ghost var all := ReadScan(b, p, end, n);
    assert all.Some? ==> [] + all.value == all.value;
    for i := 0 to n
      invariant p <= q <= end && |list| == i
      invariant var rest := ReadScan(b, q, end, n - i);
        ReadScan(b, p, end, n) == if rest.None? then None else Some(list + rest.value)
    {
      var item := CborParse(b, q, end, 0);
      if item.None? { return None; }
      if item.value.kind != KBytes || item.value.arg != 6 { return None; }
      var one := b[item.value.data..item.value.next];
      ghost var rest := ReadScan(b, item.value.next, end, n - i - 1);
      assert rest.Some? ==> list + ([one] + rest.value) == list + [one] + rest.value;
      list := list + [one];
      q := item.value.next;
    }
    assert list + [] == list;
    return Some(list);
  }

  /** Decode a full record. */
  method DecodeRecord(b: Bytes) returns (out: Option<Record>)
    ensures out == Decode(b)
  {
    hide Parse, Set, Complete, ReadScan;
    var end := |b|;
    var top := CborParse(b, 0, end, 0);
    if top.None? || top.value.kind != KMap { return None; }
    var r := ZeroRecord();
    var seen: set<nat> := {};
    var p: nat, pairs: nat := top.value.data, top.value.arg;
    for i := 0 to pairs
      invariant p <= end
      invariant Decode(b) == DecodeFrom(b, p, end, pairs - i, r, seen)
    {
      var k := CborParse(b, p, end, 0);
      if k.None? { return None; }
      var v := CborParse(b, k.value.next, end, 0);
      if v.None? { return None; }
      p := v.value.next;
      if k.value.kind != KUInt { continue; }
      var key := k.value.arg;
      if key == 0 || key > 31 { continue; }
      if key <= FULL_KEYS {
        var f: Option<Field> := None;
        if ShapeOf(key).ScanShape? {
          if v.value.kind != KArray || v.value.arg > BSSID_MAX { return None; }
          var list := DecodeBssids(b, v.value.data, end, v.value.arg);
          if list.Some? { f := Some(Scan(list.value)); }
        } else {
          f := ReadField(b, end, ShapeOf(key), v.value);
        }
        if f.None? { return None; }
        r := Set(r, key, f.value);
      }
      seen := seen + {key};
    }
    if !Complete(seen) || r.version != RECORD_VERSION { return None; }
    return Some(r);
  }

  // ---- the companion app ----

  /** The signed body as the companion app rebuilds it to check the signatures: the very bytes
      that the firmware signs. */
  method RebuildBody(r: Record) returns (body: Bytes)
    requires Encodable(r)
    ensures body == EncodeBody(r)
  {
    hide Built;
    var b := new CborBuilder();
    b.AddMapHeader(17);
    NothingBuilt(b.data, r);
    RebuildUInt(b, 1, r.version, r);
    RebuildBytes(b, 2, r.pubA, r);
    RebuildBytes(b, 3, r.pubB, r);
    RebuildUInt(b, 4, r.meetingCountA, r);
    RebuildUInt(b, 5, r.meetingCountB, r);
    RebuildInt(b, 6, r.repOfBByA, r);
    RebuildInt(b, 7, r.repOfAByB, r);
    RebuildBssids(b, 8, r.bssidsA, r);
    RebuildBssids(b, 9, r.bssidsB, r);
    RebuildTotals(b, r);
    AllBuilt(b.data, r);
    return b.data;
  }

  /** The nonces and the totals. */
  method RebuildTotals(b: CborBuilder, r: Record)
    requires Built(b.data, r, 9)
    modifies b
    ensures Built(b.data, r, 17)
  {
    hide Built;
    RebuildBytes(b, 10, r.nonceA, r);
    RebuildBytes(b, 11, r.nonceB, r);
    RebuildUInt(b, 12, r.txBytesAToB, r);
    RebuildUInt(b, 13, r.rxBytesAFromB, r);
    RebuildUInt(b, 14, r.txBytesBToA, r);
    RebuildUInt(b, 15, r.rxBytesBFromA, r);
    RebuildUInt(b, 16, r.fileCountAFromB, r);
    RebuildUInt(b, 17, r.fileCountBFromA, r);
  }

  /** The data so far: the map header and the first n entries. */
  ghost predicate Built(data: Bytes, r: Record, n: nat) {
    n <= BODY_KEYS && Encodable(r) && AllFit(Kids(r, n)) && data == Header(5, 17) + EncodeAll(Kids(r, n))
  }

  lemma {:induction false} NothingBuilt(data: Bytes, r: Record)
    requires Encodable(r) && data == Header(5, 17)
    ensures Built(data, r, 0)
  {
    assert Header(5, 17) + EncodeAll([]) == Header(5, 17);
  }

  lemma {:induction false} BuiltNext(data: Bytes, later: Bytes, r: Record, n: nat)
    requires 1 <= n <= BODY_KEYS && Built(data, r, n - 1) && Fits(ToValue(Get(r, n)))
    requires later == data + Encode(UInt(n)) + Encode(ToValue(Get(r, n)))
    ensures Built(later, r, n)
  {
    hide Encode, Get, Header;
    var entry := [UInt(n), ToValue(Get(r, n))];
    PairEncoding(n, ToValue(Get(r, n)));
    EncodeAllConcat(Kids(r, n - 1), entry);
  }

  lemma {:induction false} AllBuilt(data: Bytes, r: Record)
    requires Built(data, r, 17)
    ensures data == EncodeBody(r)
  {
    hide Header, Kids;
  }

  method RebuildUInt(b: CborBuilder, key: nat, value: U64, ghost r: Record)
    requires 1 <= key <= BODY_KEYS && Built(b.data, r, key - 1) && ToValue(Get(r, key)) == UInt(value)
    modifies b
    ensures Built(b.data, r, key)
  {
    hide Built, Encode, Get;
    ghost var before := b.data;
    b.AddUInt(key);
    b.AddUInt(value);
    BuiltNext(before, b.data, r, key);
  }

  method RebuildInt(b: CborBuilder, key: nat, value: I32, ghost r: Record)
    requires 1 <= key <= BODY_KEYS && Built(b.data, r, key - 1) && ToValue(Get(r, key)) == IntValue(value)
    modifies b
    ensures Built(b.data, r, key)
  {
    hide Built, Encode, Get;
    ghost var before := b.data;
    b.AddUInt(key);
    b.AddInt(value);
    BuiltNext(before, b.data, r, key);
  }

  method RebuildBytes(b: CborBuilder, key: nat, value: Bytes, ghost r: Record)
    requires 1 <= key <= BODY_KEYS && Built(b.data, r, key - 1) && ToValue(Get(r, key)) == Str(value) && |value| < 0x100
    modifies b
    ensures Built(b.data, r, key)
  {
    hide Built, Encode, Get;
    ghost var before := b.data;
    b.AddUInt(key);
    b.AddByteString(value);
    BuiltNext(before, b.data, r, key);
  }

  method RebuildBssids(b: CborBuilder, key: nat, list: seq<Bssid>, ghost r: Record)
    requires 1 <= key <= BODY_KEYS && |list| <= BSSID_MAX
    requires Built(b.data, r, key - 1) && ToValue(Get(r, key)) == Array(Strings(list))
    modifies b
    ensures Built(b.data, r, key)
  {
    hide Built, Encode, Get, Header, EncodeAll, Fits;
    ghost var before := b.data;
    b.AddUInt(key);
    StringsEncoding(list);
    ArrayEncoding(list);
    ghost var mid, h := b.data, Header(4, |list|);
    b.AddArrayHeader(|list|);
    AppendBssids(b, list);
    assert mid + (h + EncodeAll(Strings(list))) == mid + h + EncodeAll(Strings(list));
    BuiltNext(before, b.data, r, key);
  }

  method AppendBssids(b: CborBuilder, list: seq<Bssid>)
    modifies b
    ensures AllFit(Strings(list)) && b.data == old(b.data) + EncodeAll(Strings(list))
  {
    hide Encode, Header, EncodeAll, Fits;
    ghost var orig := b.data;
    StringsEncoding([]);
    assert Strings(list[..0]) == [] && Strings([]) == [] && orig + [] == orig && EncodeAll([]) == [] by { NoStrings(); }
    for i := 0 to |list|
      invariant AllFit(Strings(list[..i])) && b.data == orig + EncodeAll(Strings(list[..i]))
    {
      StringsSnoc(list, i);
      b.AddByteString(list[i]);
    }
    assert list[..|list|] == list;
  }

  lemma {:induction false} NoStrings()
    ensures EncodeAll([]) == []
  {
  }
}
