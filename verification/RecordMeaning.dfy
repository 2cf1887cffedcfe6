/** Which maps a record is decoded from, and to which record: field by field, by the last entry of
    each key. */
module RecordMeaning {
  import opened Bits
  import opened Cbor
  import opened CborTree
  import opened EncounterRecord
  import opened Wrappers

  /** The last value under an integer key. */
  function LastUnder(kids: seq<Value>, n: nat): (v: Option<Value>)
    requires |kids| % 2 == 0
    decreases |kids|
  {
    if kids == [] then None
    else
      var later := LastUnder(kids[2..], n);
      if later.Some? then later else if kids[0] == UInt(n) then Some(kids[1]) else None
  }

  predicate SixByteStrings(kids: seq<Value>) {
    |kids| <= 8 && forall i :: 0 <= i < |kids| ==> kids[i].Str? && |kids[i].s| == 6
  }

  /** The values that a key of a record may have. */
  predicate Typed(n: nat, v: Value) {
    if n == 1 then v.UInt? && v.n <= 255
    else if n == 2 || n == 3 then v.Str? && |v.s| == 32
    else if n == 6 || n == 7 then v.UInt? || v.NInt?
    else if n == 8 || n == 9 then v.Array? && SixByteStrings(v.kids)
    else if n == 10 || n == 11 then v.Str? && |v.s| == 16
    else if n == 18 || n == 19 then v.Str? && |v.s| == 64
    else v.UInt?
  }

  /** Every entry whose key is one of a record's has a value of its type. */
  predicate AllTyped(kids: seq<Value>)
    requires |kids| % 2 == 0
  {
    forall i :: 0 <= i < |kids| && i % 2 == 0 && kids[i].UInt? && 1 <= kids[i].n <= 19 ==> Typed(kids[i].n, kids[i + 1])
  }

  predicate AllThere(kids: seq<Value>, seen: set<nat>)
    requires |kids| % 2 == 0
  {
    forall n :: 1 <= n <= 19 ==> n in seen || LastUnder(kids, n).Some?
  }

  lemma {:induction false} TypedIs(n: nat, v: Value)
    requires 1 <= n <= 19 && Fits(v)
    ensures Typed(n, v) <==> FieldOf(ShapeOf(n), v).Some?
  {
  }

  lemma {:induction false} TypedStep(kids: seq<Value>)
    requires |kids| % 2 == 0 && |kids| >= 2
    ensures AllTyped(kids) <==> (kids[0].UInt? && 1 <= kids[0].n <= 19 ==> Typed(kids[0].n, kids[1])) && AllTyped(kids[2..])
  {
    hide Typed;
    var rest := kids[2..];
    if AllTyped(kids) {
      assert kids[0 + 1] == kids[1];
      forall i | 0 <= i < |rest| && i % 2 == 0 && rest[i].UInt? && 1 <= rest[i].n <= 19 ensures Typed(rest[i].n, rest[i + 1]) {
        assert rest[i] == kids[i + 2] && rest[i + 1] == kids[i + 2 + 1];
      }
    }
    if (kids[0].UInt? && 1 <= kids[0].n <= 19 ==> Typed(kids[0].n, kids[1])) && AllTyped(rest) {
      forall i | 0 <= i < |kids| && i % 2 == 0 && kids[i].UInt? && 1 <= kids[i].n <= 19 ensures Typed(kids[i].n, kids[i + 1]) {
        if i >= 2 { assert kids[i] == rest[i - 2] && kids[i + 1] == rest[i - 2 + 1]; }
      }
    }
  }

  lemma {:induction false} LastTyped(kids: seq<Value>, n: nat)
    requires |kids| % 2 == 0 && AllFit(kids) && AllTyped(kids) && 1 <= n <= 19 && LastUnder(kids, n).Some?
    ensures var v := LastUnder(kids, n).value; Fits(v) && Typed(n, v) && FieldOf(ShapeOf(n), v).Some?
    decreases |kids|
  {
    hide Typed, FieldOf, Fits, AllTyped;
    TypedStep(kids);
    if LastUnder(kids[2..], n).Some? { LastTyped(kids[2..], n); }
    TypedIs(n, LastUnder(kids, n).value);
  }

  /** Field n after the entries: that of the last one with its key, if any. */
  function FieldAfter(kids: seq<Value>, r: Record, n: nat): Field
    requires |kids| % 2 == 0 && AllFit(kids) && AllTyped(kids) && 1 <= n <= 19
  {
    if LastUnder(kids, n).None? then Get(r, n) else LastTyped(kids, n); FieldOf(ShapeOf(n), LastUnder(kids, n).value).value
  }

  lemma {:induction false} FoldMeans(kids: seq<Value>, r: Record, seen: set<nat>)
    requires |kids| % 2 == 0 && AllFit(kids)
    ensures AllTyped(kids) && AllThere(kids, seen) && FieldAfter(kids, r, 1) == Number(1) ==>
      Fold(kids, r, seen).Some? && forall n :: 1 <= n <= 19 ==> Get(Fold(kids, r, seen).value, n) == FieldAfter(kids, r, n)
    ensures Fold(kids, r, seen).Some? ==> AllTyped(kids) && AllThere(kids, seen) && FieldAfter(kids, r, 1) == Number(1)
    decreases |kids|
  {
    hide Typed, FieldOf, Fits, AllTyped, Get, Set, ShapeOf;
    if kids == [] {
      FoldNothing(r, seen);
    } else {
      var k, v, rest := kids[0], kids[1], kids[2..];
      TypedStep(kids);
      if k.UInt? && 1 <= k.n <= 19 {
        TypedIs(k.n, v);
        var f := FieldOf(ShapeOf(k.n), v);
        if f.Some? {
          FoldMeans(rest, Set(r, k.n, f.value), seen + {k.n});
          AfterKnown(kids, r, seen);
        }
      } else {
        var more := if k.UInt? && 19 < k.n <= 31 then seen + {k.n} else seen;
        FoldMeans(rest, r, more);
        AfterUnknown(kids, r, seen, more);
      }
    }
  }

  lemma {:induction false} FoldNothing(r: Record, seen: set<nat>)
    ensures Fold([], r, seen) == if Complete(seen) && Get(r, 1) == Number(1) then Some(r) else None
    ensures AllTyped([]) && (AllThere([], seen) <==> Complete(seen))
    ensures forall n :: 1 <= n <= 19 ==> FieldAfter([], r, n) == Get(r, n)
  {
  }

  lemma {:induction false} AfterKnown(kids: seq<Value>, r: Record, seen: set<nat>)
    requires |kids| % 2 == 0 && |kids| >= 2 && AllFit(kids) && kids[0].UInt? && 1 <= kids[0].n <= 19
    requires FieldOf(ShapeOf(kids[0].n), kids[1]).Some?
    ensures var s := Set(r, kids[0].n, FieldOf(ShapeOf(kids[0].n), kids[1]).value);
      && (AllThere(kids, seen) <==> AllThere(kids[2..], seen + {kids[0].n}))
      && (AllTyped(kids) && AllTyped(kids[2..]) ==> forall n :: 1 <= n <= 19 ==> FieldAfter(kids, r, n) == FieldAfter(kids[2..], s, n))
  {
    hide Typed, FieldOf, Fits, AllTyped, Get, Set, ShapeOf, LastUnder;
    var (key, f) := (kids[0].n, FieldOf(ShapeOf(kids[0].n), kids[1]).value);
    forall n | 1 <= n <= 19 ensures Get(Set(r, key, f), n) == if n == key then f else Get(r, n) { GetSet(r, key, f, n); }
    var (rest, more) := (kids[2..], seen + {key});
    forall n | 1 <= n <= 19
      ensures LastUnder(kids, n) == if LastUnder(rest, n).Some? then LastUnder(rest, n) else if n == key then Some(kids[1]) else None
    {
      LastStep(kids, n);
    }
    assert forall n :: 1 <= n <= 19 ==> ((n in seen || LastUnder(kids, n).Some?) <==> (n in more || LastUnder(rest, n).Some?));
  }

  lemma {:induction false} LastStep(kids: seq<Value>, n: nat)
    requires |kids| % 2 == 0 && |kids| >= 2
    ensures LastUnder(kids, n)
      == if LastUnder(kids[2..], n).Some? then LastUnder(kids[2..], n) else if kids[0].UInt? && kids[0].n == n then Some(kids[1]) else None
  {
  }

  lemma {:induction false} AfterUnknown(kids: seq<Value>, r: Record, seen: set<nat>, more: set<nat>)
    requires |kids| % 2 == 0 && |kids| >= 2 && AllFit(kids) && !(kids[0].UInt? && 1 <= kids[0].n <= 19)
    requires forall n :: 1 <= n <= 19 ==> (n in more <==> n in seen)
    ensures AllThere(kids, seen) <==> AllThere(kids[2..], more)
    ensures AllTyped(kids) && AllTyped(kids[2..]) ==> forall n :: 1 <= n <= 19 ==> FieldAfter(kids, r, n) == FieldAfter(kids[2..], r, n)
  {
    hide Typed, FieldOf, Fits, AllTyped, Get, ShapeOf;
    forall n | 1 <= n <= 19 ensures LastUnder(kids, n) == LastUnder(kids[2..], n) { }
  }

  // ---- the record ----

  function Number32(v: Value): I32
    requires v.UInt? || (v.NInt? && v.n < 0x1_0000_0000_0000_0000)
  {
    if v.UInt? then (if v.n > 0x7fff_ffff then 0x7fff_ffff else v.n)
    else if v.n == 0xffff_ffff_ffff_ffff then 0
    else if v.n > 0x7fff_ffff then -0x8000_0000 else -1 - v.n
  }

  function Scans(kids: seq<Value>): (list: seq<Bssid>)
    requires SixByteStrings(kids)
  {
    seq(|kids|, i requires 0 <= i < |kids| => kids[i].s)
  }

  /** The decoder accepts exactly the maps in which every entry with a key of a record has a value of
      its type, every key from 1 to 19 occurs, and the version is 1; unknown keys do not matter. */
  predicate IsRecordMap(kids: seq<Value>) {
    && |kids| % 2 == 0 && AllTyped(kids) && (forall n :: 1 <= n <= 19 ==> LastUnder(kids, n).Some?)
    && LastUnder(kids, 1).value == UInt(1)
  }

  /** What the fields of the decoded record are. */
  predicate HasFields(kids: seq<Value>, r: Record)
    requires |kids| % 2 == 0
  {
    && r.version == 1
    && LastUnder(kids, 2) == Some(Str(r.pubA)) && LastUnder(kids, 3) == Some(Str(r.pubB))
    && LastUnder(kids, 4) == Some(UInt(r.meetingCountA)) && LastUnder(kids, 5) == Some(UInt(r.meetingCountB))
    && HasRep(LastUnder(kids, 6), r.repOfBByA) && HasRep(LastUnder(kids, 7), r.repOfAByB)
    && HasScan(LastUnder(kids, 8), r.bssidsA) && HasScan(LastUnder(kids, 9), r.bssidsB)
    && LastUnder(kids, 10) == Some(Str(r.nonceA)) && LastUnder(kids, 11) == Some(Str(r.nonceB))
    && LastUnder(kids, 12) == Some(UInt(r.txBytesAToB)) && LastUnder(kids, 13) == Some(UInt(r.rxBytesAFromB))
    && LastUnder(kids, 14) == Some(UInt(r.txBytesBToA)) && LastUnder(kids, 15) == Some(UInt(r.rxBytesBFromA))
    && LastUnder(kids, 16) == Some(UInt(r.fileCountAFromB)) && LastUnder(kids, 17) == Some(UInt(r.fileCountBFromA))
    && LastUnder(kids, 18) == Some(Str(r.sigA)) && LastUnder(kids, 19) == Some(Str(r.sigB))
  }

  /** A reputation is clamped to 32 bits, and the smallest integer of all reads as 0. */
  predicate HasRep(v: Option<Value>, x: I32) {
    v.Some? && (v.value.UInt? || (v.value.NInt? && v.value.n < 0x1_0000_0000_0000_0000)) && x == Number32(v.value)
  }

  predicate HasScan(v: Option<Value>, list: seq<Bssid>) {
    v.Some? && v.value.Array? && SixByteStrings(v.value.kids) && list == Scans(v.value.kids)
  }

  lemma {:induction false} FieldIs(kids: seq<Value>, r: Record, n: nat)
    requires |kids| % 2 == 0 && AllFit(kids) && AllTyped(kids) && 1 <= n <= 19 && LastUnder(kids, n).Some?
    requires Get(r, n) == FieldAfter(kids, ZeroRecord(), n)
    ensures var v := LastUnder(kids, n).value; Fits(v) && Typed(n, v) && Some(Get(r, n)) == FieldOf(ShapeOf(n), v)
  {
    hide Typed, FieldOf, Fits, AllTyped, Get, LastUnder, ShapeOf;
    LastTyped(kids, n);
  }

  lemma {:induction false} BlobIs(n: nat, v: Value, f: Field)
    requires n in {2, 3, 10, 11, 18, 19} && Fits(v) && Typed(n, v) && Some(f) == FieldOf(ShapeOf(n), v)
    ensures f.Blob? && v == Str(f.s)
  {
  }

  lemma {:induction false} CountIs(n: nat, v: Value, f: Field)
    requires (n in {1, 4, 5} || 12 <= n <= 17) && Fits(v) && Typed(n, v) && Some(f) == FieldOf(ShapeOf(n), v)
    ensures f.Number? && v == UInt(f.n)
  {
  }

  lemma {:induction false} RepIs(n: nat, v: Value, f: Field)
    requires n in {6, 7} && Fits(v) && Typed(n, v) && Some(f) == FieldOf(ShapeOf(n), v)
    ensures f.Signed? && HasRep(Some(v), f.x)
  {
  }

  lemma {:induction false} ScanIs(n: nat, v: Value, f: Field)
    requires n in {8, 9} && Fits(v) && Typed(n, v) && Some(f) == FieldOf(ShapeOf(n), v)
    ensures f.Scan? && HasScan(Some(v), f.list)
  {
    assert BssidsOf(v.kids) == Scans(v.kids);
  }

  /** The value under a key has the type that the key asks for, and the record its field. */
  lemma {:induction false} FieldHas(kids: seq<Value>, r: Record, n: nat)
    requires |kids| % 2 == 0 && AllFit(kids) && AllTyped(kids) && 1 <= n <= 19 && LastUnder(kids, n).Some?
    requires Get(r, n) == FieldAfter(kids, ZeroRecord(), n)
    ensures var (v, f) := (LastUnder(kids, n), Get(r, n));
      if n == 6 || n == 7 then f.Signed? && HasRep(v, f.x)
      else if n == 8 || n == 9 then f.Scan? && HasScan(v, f.list)
      else if n in {2, 3, 10, 11, 18, 19} then f.Blob? && v == Some(Str(f.s))
      else f.Number? && v == Some(UInt(f.n))
  {
    hide Typed, FieldOf, Fits, AllTyped, Get, LastUnder, ShapeOf, HasRep, HasScan, FieldAfter;
    FieldIs(kids, r, n);
    var (v, f) := (LastUnder(kids, n).value, Get(r, n));
    if n == 6 || n == 7 { RepIs(n, v, f); }
    else if n == 8 || n == 9 { ScanIs(n, v, f); }
    else if n in {2, 3, 10, 11, 18, 19} { BlobIs(n, v, f); }
    else { CountIs(n, v, f); }
  }

  /** Decoding an encoded map, whatever follows it, gives a record exactly when the map is a record
      map, and then the one with the fields of its last entries. */
  lemma {:induction false} DecodesExactly(kids: seq<Value>, tail: Bytes)
    requires Fits(Map(kids)) && DepthAll(kids) <= MAX_DEPTH
    ensures var out := Decode(Encode(Map(kids)) + tail);
      |kids| % 2 == 0 && (out.Some? <==> IsRecordMap(kids)) && (out.Some? ==> HasFields(kids, out.value))
  {
    hide Decode, Encode, Fold, Fits, AllTyped, LastUnder, DepthAll, HasFields, FieldAfter, ZeroRecord;
    MapDepth(kids);
    DecodeEncoded(kids, tail);
    FoldMeans(kids, ZeroRecord(), {});
    if AllTyped(kids) && AllThere(kids, {}) {
      VersionIs(kids);
      if FieldAfter(kids, ZeroRecord(), 1) == Number(1) { FieldsAre(kids, Fold(kids, ZeroRecord(), {}).value); }
    }
  }

  lemma {:induction false} VersionIs(kids: seq<Value>)
    requires |kids| % 2 == 0 && AllFit(kids) && AllTyped(kids) && LastUnder(kids, 1).Some?
    ensures FieldAfter(kids, ZeroRecord(), 1) == Number(1) <==> LastUnder(kids, 1).value == UInt(1)
  {
    hide AllTyped, LastUnder, Fits;
    LastTyped(kids, 1);
  }

  lemma {:induction false} FieldsAre(kids: seq<Value>, r: Record)
    requires |kids| % 2 == 0 && AllFit(kids) && AllTyped(kids) && forall n :: 1 <= n <= 19 ==> LastUnder(kids, n).Some?
    requires FieldAfter(kids, ZeroRecord(), 1) == Number(1)
    requires forall n :: 1 <= n <= 19 ==> Get(r, n) == FieldAfter(kids, ZeroRecord(), n)
    ensures HasFields(kids, r)
  {
    hide AllTyped, LastUnder, Fits, FieldAfter, HasRep, HasScan;
    forall n | 1 <= n <= 19 ensures Get(r, n) == FieldAfter(kids, ZeroRecord(), n) {}
    FieldHas(kids, r, 2); FieldHas(kids, r, 3); FieldHas(kids, r, 4); FieldHas(kids, r, 5); FieldHas(kids, r, 6); FieldHas(kids, r, 7);
    FieldHas(kids, r, 8); FieldHas(kids, r, 9); FieldHas(kids, r, 10); FieldHas(kids, r, 11); FieldHas(kids, r, 12); FieldHas(kids, r, 13);
    FieldHas(kids, r, 14); FieldHas(kids, r, 15); FieldHas(kids, r, 16); FieldHas(kids, r, 17); FieldHas(kids, r, 18); FieldHas(kids, r, 19);
  }

  lemma {:induction false} NoMapNoRecord(b: Bytes)
    requires var top := Parse(b, 0, |b|, 0); top.None? || top.value.kind != KMap
    ensures Decode(b).None?
  {
    hide Parse;
  }
}
