/** Which maps a PROPOSE or ACCEPT is received from, and what they put into the record: field by
    field, by the first entry of each key. */
module HalfMeaning {
  import opened Bits
  import opened Cbor
  import opened CborTree
  import opened EncounterRecord
  import opened EncounterSession
  import opened RecordMeaning
  import opened Wrappers

  /** The values that a key of a half message may have. */
  predicate HalfTyped(m: nat, v: Value) {
    if m == 3 then v.Str? && |v.s| == 32
    else if m == 5 then v.UInt? || v.NInt?
    else if m == 6 then v.Array? && SixByteStrings(v.kids)
    else if m == 7 then v.Str? && |v.s| == 16
    else if m == 11 then v.Str? && |v.s| == 64
    else v.UInt?
  }

  predicate HasKey(kids: seq<Value>, m: nat)
    requires |kids| % 2 == 0
  {
    var v := FirstUnder(kids, UInt(m)); v.Some? && HalfTyped(m, v.value)
  }

  /** A PROPOSE is type 1 and an ACCEPT type 2; the version is 1; the keys 3 to 10 are there, and in
      an ACCEPT the signature under key 11, each with a value of its type. */
  predicate IsHalfMap(kids: seq<Value>, msgType: nat) {
    && |kids| % 2 == 0 && FirstUnder(kids, UInt(1)) == Some(UInt(msgType)) && FirstUnder(kids, UInt(2)) == Some(UInt(1))
    && forall m :: 3 <= m <= (if msgType == 2 then 11 else 10) ==> HasKey(kids, m)
  }

  lemma {:induction false} HalfTypedIs(m: nat, v: Value)
    requires 3 <= m <= 11 && Fits(v)
    ensures HalfTyped(m, v) <==> FieldOf(MessageShape(m), v).Some?
  {
  }

  lemma {:induction false} TreeFieldIs(kids: seq<Value>, key: nat, shape: Shape)
    requires |kids| % 2 == 0 && AllFit(kids)
    ensures var v := FirstUnder(kids, UInt(key));
      && (v.Some? ==> Fits(v.value)) && TreeField(kids, key, shape) == if v.None? then None else FieldOf(shape, v.value)
    decreases |kids|
  {
    hide FieldOf, Fits;
    if kids != [] && kids[0] != UInt(key) { TreeFieldIs(kids[2..], key, shape); }
  }

  /** The keys m to last of one side, stored one after the other. */
  lemma {:induction false} KeysMean(kids: seq<Value>, b: Bytes, top: Item, sideB: bool, m: nat, last: nat, r: Record)
    requires 3 <= m && last <= MK_SIG && top.data <= |b| && top.arg == |kids| / 2
    requires AllFit(kids) && |kids| % 2 == 0 && DepthAll(kids) <= MAX_DEPTH + 1 && Holds(b, top.data, |b|, EncodeAll(kids))
    ensures var out := DecodeKeys(b, top, sideB, m, last, r);
      && (out.Some? <==> forall k :: m <= k <= last ==> HasKey(kids, k))
      && (out.Some? ==> forall k :: m <= k <= last ==> Stored(kids, k, Get(out.value, RecordKey(sideB, k))))
      && (out.Some? ==> forall j :: 1 <= j <= 19 && (forall k :: m <= k <= last ==> j != RecordKey(sideB, k)) ==> Get(out.value, j) == Get(r, j))
    decreases last - m
  {
    hide Get, Set, EncodeAll, Holds, DepthAll, Fits, RecordKey, MessageShape, FindField, TreeField, FirstUnder, HalfTyped, FieldOf;
    if m <= last {
      FindFieldEncoded(kids, b, top.data, |b|, m, MessageShape(m));
      TreeFieldIs(kids, m, MessageShape(m));
      if FirstUnder(kids, UInt(m)).Some? { HalfTypedIs(m, FirstUnder(kids, UInt(m)).value); }
      var f := FindField(b, top.data, |b|, top.arg, m, MessageShape(m));
      assert HasKey(kids, m) <==> f.Some?;
      if f.Some? {
        var key, s := RecordKey(sideB, m), Set(r, RecordKey(sideB, m), f.value);
        KeysMean(kids, b, top, sideB, m + 1, last, s);
        forall j | 1 <= j <= 19 ensures Get(s, j) == if j == key then f.value else Get(r, j) { GetSet(r, key, f.value, j); }
        forall k | m < k <= last ensures RecordKey(sideB, k) != key { KeysApart(sideB, m, k); }
      }
    }
  }

  lemma {:induction false} KeysApart(sideB: bool, m: nat, k: nat)
    requires 2 <= m < k <= MK_SIG
    ensures RecordKey(sideB, m) != RecordKey(sideB, k)
  {
  }

  /** The field is that of the first entry with the key. */
  predicate Stored(kids: seq<Value>, k: nat, f: Field)
    requires |kids| % 2 == 0 && AllFit(kids) && 3 <= k <= 11
  {
    var v := FirstUnder(kids, UInt(k));
    v.Some? && v.value in kids && FieldOf(MessageShape(k), v.value) == Some(f)
  }

  /** The A side of a record, as a PROPOSE brings it; the B side as an ACCEPT brings it, with its
      signature. */
  function SideAIs(r: Record, o: Record): Record {
    r.(version := 1, pubA := o.pubA, meetingCountA := o.meetingCountA, repOfBByA := o.repOfBByA, bssidsA := o.bssidsA,
       nonceA := o.nonceA, txBytesAToB := o.txBytesAToB, rxBytesAFromB := o.rxBytesAFromB, fileCountAFromB := o.fileCountAFromB)
  }

  function SideBIs(r: Record, o: Record): Record {
    r.(version := 1, pubB := o.pubB, meetingCountB := o.meetingCountB, repOfAByB := o.repOfAByB, bssidsB := o.bssidsB,
       nonceB := o.nonceB, txBytesBToA := o.txBytesBToA, rxBytesBFromA := o.rxBytesBFromA, fileCountBFromA := o.fileCountBFromA,
       sigB := o.sigB)
  }

  predicate HasSide(kids: seq<Value>, pub: Bytes, meetings: nat, rep: I32, bssids: seq<Bssid>, nonce: Bytes, tx: nat, rx: nat, files: nat)
    requires |kids| % 2 == 0
  {
    && FirstUnder(kids, UInt(3)) == Some(Str(pub)) && FirstUnder(kids, UInt(4)) == Some(UInt(meetings))
    && HasRep(FirstUnder(kids, UInt(5)), rep) && HasScan(FirstUnder(kids, UInt(6)), bssids)
    && FirstUnder(kids, UInt(7)) == Some(Str(nonce)) && FirstUnder(kids, UInt(8)) == Some(UInt(tx))
    && FirstUnder(kids, UInt(9)) == Some(UInt(rx)) && FirstUnder(kids, UInt(10)) == Some(UInt(files))
  }

  lemma {:induction false} StoredIs(kids: seq<Value>, k: nat, f: Field)
    requires |kids| % 2 == 0 && AllFit(kids) && 3 <= k <= 11 && Stored(kids, k, f)
    ensures var v := FirstUnder(kids, UInt(k));
      if k == 5 then f.Signed? && HasRep(v, f.x)
      else if k == 6 then f.Scan? && HasScan(v, f.list)
      else if k == 3 || k == 7 || k == 11 then f.Blob? && v == Some(Str(f.s))
      else f.Number? && v == Some(UInt(f.n))
  {
    hide FirstUnder;
    var v := FirstUnder(kids, UInt(k)).value;
    assert Fits(v);
    if k == 6 { assert BssidsOf(v.kids) == Scans(v.kids); }
  }

  lemma {:induction false} ProposeFields(kids: seq<Value>, r: Record, o: Record)
    requires |kids| % 2 == 0 && AllFit(kids)
    requires forall k :: 3 <= k <= 10 ==> Stored(kids, k, Get(o, RecordKey(false, k)))
    requires forall j :: 1 <= j <= 19 && (forall k :: 3 <= k <= 10 ==> j != RecordKey(false, k)) ==> Get(o, j) == Get(r.(version := 1), j)
    ensures o == SideAIs(r, o)
    ensures HasSide(kids, o.pubA, o.meetingCountA, o.repOfBByA, o.bssidsA, o.nonceA, o.txBytesAToB, o.rxBytesAFromB, o.fileCountAFromB)
  {
    hide FirstUnder, Stored, HasRep, HasScan, Fits;
    StoredIs(kids, 3, Get(o, RecordKey(false, 3))); StoredIs(kids, 4, Get(o, RecordKey(false, 4)));
    StoredIs(kids, 5, Get(o, RecordKey(false, 5))); StoredIs(kids, 6, Get(o, RecordKey(false, 6)));
    StoredIs(kids, 7, Get(o, RecordKey(false, 7))); StoredIs(kids, 8, Get(o, RecordKey(false, 8)));
    StoredIs(kids, 9, Get(o, RecordKey(false, 9))); StoredIs(kids, 10, Get(o, RecordKey(false, 10)));
    OthersKept(r, o, false, 10);
  }

  lemma {:induction false} AcceptFields(kids: seq<Value>, r: Record, o: Record)
    requires |kids| % 2 == 0 && AllFit(kids)
    requires forall k :: 3 <= k <= 11 ==> Stored(kids, k, Get(o, RecordKey(true, k)))
    requires forall j :: 1 <= j <= 19 && (forall k :: 3 <= k <= 11 ==> j != RecordKey(true, k)) ==> Get(o, j) == Get(r.(version := 1), j)
    ensures o == SideBIs(r, o)
    ensures HasSide(kids, o.pubB, o.meetingCountB, o.repOfAByB, o.bssidsB, o.nonceB, o.txBytesBToA, o.rxBytesBFromA, o.fileCountBFromA)
    ensures FirstUnder(kids, UInt(11)) == Some(Str(o.sigB))
  {
    hide FirstUnder, Stored, HasRep, HasScan, Fits;
    StoredIs(kids, 3, Get(o, RecordKey(true, 3))); StoredIs(kids, 4, Get(o, RecordKey(true, 4)));
    StoredIs(kids, 5, Get(o, RecordKey(true, 5))); StoredIs(kids, 6, Get(o, RecordKey(true, 6)));
    StoredIs(kids, 7, Get(o, RecordKey(true, 7))); StoredIs(kids, 8, Get(o, RecordKey(true, 8)));
    StoredIs(kids, 9, Get(o, RecordKey(true, 9))); StoredIs(kids, 10, Get(o, RecordKey(true, 10)));
    StoredIs(kids, 11, Get(o, RecordKey(true, 11)));
    OthersKept(r, o, true, 11);
  }

  lemma {:induction false} OthersKept(r: Record, o: Record, sideB: bool, last: nat)
    requires last == if sideB then 11 else 10
    requires forall j :: 1 <= j <= 19 && (forall k :: 3 <= k <= last ==> j != RecordKey(sideB, k)) ==> Get(o, j) == Get(r.(version := 1), j)
    ensures o == if sideB then SideBIs(r, o) else SideAIs(r, o)
  {
    hide Get;
    var t := if sideB then SideBIs(r, o) else SideAIs(r, o);
    forall j | 1 <= j <= 19 ensures Get(o, j) == Get(t, j) { OneKept(r, o, sideB, last, j); }
    FieldsDecide(o, t);
  }

  lemma {:induction false} OneKept(r: Record, o: Record, sideB: bool, last: nat, j: nat)
    requires last == (if sideB then 11 else 10) && 1 <= j <= 19
    requires (forall k :: 3 <= k <= last ==> j != RecordKey(sideB, k)) ==> Get(o, j) == Get(r.(version := 1), j)
    ensures Get(o, j) == Get(if sideB then SideBIs(r, o) else SideAIs(r, o), j)
  {
    if k :| 3 <= k <= last && j == RecordKey(sideB, k) {
    } else {
      NotASide(sideB, j);
    }
  }

  /** Keys that are no key of a side. */
  lemma {:induction false} NotASide(sideB: bool, j: nat)
    requires 1 <= j <= 19 && forall k :: 3 <= k <= (if sideB then 11 else 10) ==> j != RecordKey(sideB, k)
    ensures if sideB then j in {1, 2, 4, 6, 8, 10, 12, 13, 16, 18} else j in {1, 3, 5, 7, 9, 11, 14, 15, 17, 18, 19}
  {
    assert RecordKey(sideB, 3) != j && RecordKey(sideB, 4) != j && RecordKey(sideB, 5) != j && RecordKey(sideB, 6) != j;
    assert RecordKey(sideB, 7) != j && RecordKey(sideB, 8) != j && RecordKey(sideB, 9) != j && RecordKey(sideB, 10) != j;
    assert sideB ==> RecordKey(sideB, 11) != j;
  }

  /** Receiving an encoded map, whatever follows it: it is accepted exactly when it is a half message
      of the expected type, and then replaces exactly the sender's side of the record. */
  lemma {:induction false} HalfDecodesExactly(kids: seq<Value>, tail: Bytes, r: Record)
    requires Fits(Map(kids)) && DepthAll(kids) <= MAX_DEPTH
    ensures var o := DecodeHalf(Encode(Map(kids)) + tail, PROPOSE, false, r);
      |kids| % 2 == 0 && (o.Some? <==> IsHalfMap(kids, 1)) && (o.Some? ==> var x := o.value;
        && x == SideAIs(r, x)
        && HasSide(kids, x.pubA, x.meetingCountA, x.repOfBByA, x.bssidsA, x.nonceA, x.txBytesAToB, x.rxBytesAFromB, x.fileCountAFromB))
    ensures var o := DecodeHalf(Encode(Map(kids)) + tail, ACCEPT, true, r);
      (o.Some? <==> IsHalfMap(kids, 2)) && (o.Some? ==> var x := o.value;
        && x == SideBIs(r, x) && FirstUnder(kids, UInt(11)) == Some(Str(x.sigB))
        && HasSide(kids, x.pubB, x.meetingCountB, x.repOfAByB, x.bssidsB, x.nonceB, x.txBytesBToA, x.rxBytesBFromA, x.fileCountBFromA))
  {
    hide DecodeHalf, Encode, Fits, FirstUnder, DepthAll, HasSide, HasKey, DecodeKeys, Stored, Get, RecordKey;
    var top := TopMap(kids, tail);
    var b := Encode(Map(kids)) + tail;
    HeadMeans(kids, tail, top, PROPOSE, false, r);
    HeadMeans(kids, tail, top, ACCEPT, true, r);
    KeysMean(kids, b, top, false, 3, 10, r.(version := 1));
    KeysMean(kids, b, top, true, 3, 11, r.(version := 1));
    var (p, a) := (DecodeKeys(b, top, false, 3, 10, r.(version := 1)), DecodeKeys(b, top, true, 3, 11, r.(version := 1)));
    if p.Some? { ProposeFields(kids, r, p.value); }
    if a.Some? { AcceptFields(kids, r, a.value); }
  }

  /** The type and the version come first. */
  lemma {:induction false} HeadMeans(kids: seq<Value>, tail: Bytes, top: Item, msgType: nat, sideB: bool, r: Record)
    requires msgType == PROPOSE || msgType == ACCEPT
    requires Fits(Map(kids)) && |kids| % 2 == 0 && AllFit(kids) && DepthAll(kids) <= MAX_DEPTH
    requires var b := Encode(Map(kids)) + tail;
      && Parse(b, 0, |b|, 0) == Some(top) && top.kind == KMap && top.arg == |kids| / 2 && top.data <= |b|
      && Holds(b, top.data, |b|, EncodeAll(kids))
    ensures DecodeHalf(Encode(Map(kids)) + tail, msgType, sideB, r) ==
      if FirstUnder(kids, UInt(1)) == Some(UInt(msgType)) && FirstUnder(kids, UInt(2)) == Some(UInt(1)) then
        DecodeKeys(Encode(Map(kids)) + tail, top, sideB, 3, LastKey(msgType), r.(version := 1))
      else None
  {
    hide Parse, Encode, EncodeAll, Holds, DepthAll, FindField, TreeField, DecodeKeys, FirstUnder, Fits;
    var b := Encode(Map(kids)) + tail;
    FindFieldEncoded(kids, b, top.data, |b|, 1, MessageShape(1));
    FindFieldEncoded(kids, b, top.data, |b|, 2, MessageShape(2));
    TreeFieldIs(kids, 1, MessageShape(1));
    TreeFieldIs(kids, 2, MessageShape(2));
  }

  /** A CONFIRM is a map of type 3 with 64 bytes of signature under key 11. */
  lemma {:induction false} ConfirmDecodesExactly(kids: seq<Value>, tail: Bytes)
    requires Fits(Map(kids)) && DepthAll(kids) <= MAX_DEPTH
    ensures |kids| % 2 == 0
    ensures forall sig: Sig :: DecodeConfirm(Encode(Map(kids)) + tail) == Some(sig) <==>
      FirstUnder(kids, UInt(1)) == Some(UInt(3)) && FirstUnder(kids, UInt(11)) == Some(Str(sig))
  {
    hide Parse, Encode, EncodeAll, Holds, DepthAll, FindField, TreeField, FirstUnder, Fits;
    var top := TopMap(kids, tail);
    var b := Encode(Map(kids)) + tail;
    FindFieldEncoded(kids, b, top.data, |b|, 1, CountShape);
    FindFieldEncoded(kids, b, top.data, |b|, 11, BlobShape(64));
    TreeFieldIs(kids, 1, CountShape);
    TreeFieldIs(kids, 11, BlobShape(64));
  }

  lemma {:induction false} NoMapNoMessage(b: Bytes, r: Record)
    requires var top := Parse(b, 0, |b|, 0); top.None? || top.value.kind != KMap
    ensures DecodeHalf(b, PROPOSE, false, r).None? && DecodeHalf(b, ACCEPT, true, r).None? && DecodeConfirm(b).None?
  {
    hide Parse;
  }
}
