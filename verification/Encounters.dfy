/** The store of single-party encounter records: their encoding, the fixed-offset walks over
    stored bytes, and the decision whether a new scan is worth recording. */
module Encounters {
  import opened Bits
  import opened Cbor
  import opened CborTree
  import opened EncounterRecord
  import opened Rings
  import opened Wrappers

  const SCAN_MAX: nat := 8
  const RECORD_ROOM: nat := 254

  /** The map entries that are signed. */
  function SignedKids(node: Pub, t: U32, scan: seq<Bssid>): seq<Value> {
    [UInt(1), UInt(1), UInt(2), Str(node), UInt(3), UInt(t), UInt(4), Array(Strings(scan))]
  }

  /** The map entries of a stored record. */
  function RecordKids(node: Pub, t: U32, scan: seq<Bssid>, sig: Sig): seq<Value> {
    SignedKids(node, t, scan) + [UInt(5), Str(sig)]
  }

  /** The bytes of everything before the time value. */
  function Front(node: Pub): (s: Bytes)
    ensures |s| == 39
  {
    [0xa5, 1, 1, 2, 0x58, 0x20] + node + [3]
  }

  function Back(sig: Sig): Bytes {
    [5, 0x58, 0x40] + sig
  }

  /** The bytes that the encoder writes, call by call. */
  function RecordBytes(node: Pub, t: U32, scan: seq<Bssid>, sig: Sig): (s: Bytes)
    requires |scan| <= SCAN_MAX
  {
    StringsEncoding(scan);
    Front(node) + Header(0, t) + [4] + Header(4, |scan|) + EncodeAll(Strings(scan)) + Back(sig)
  }

  lemma {:induction false} Regroup(h: Bytes, a: Bytes, k: Bytes, t: Bytes, l: Bytes, n: Bytes, list: Bytes, back: Bytes)
    ensures h + (a + (k + t) + (l + (n + list)) + back) == h + a + k + t + l + n + list + back
  {
    assert a + (k + t) + (l + (n + list)) + back == a + k + t + l + n + list + back;
  }

  /** Part by part from the left. */
  lemma {:induction false} RecordFromLeft(node: Pub, t: U32, scan: seq<Bssid>, sig: Sig)
    requires |scan| <= SCAN_MAX && AllFit(Strings(scan))
    ensures RecordBytes(node, t, scan, sig)
         == Front(node) + (Header(0, t) + (([4] + Header(4, |scan|)) + (EncodeAll(Strings(scan)) + Back(sig))))
  {
    hide Header, EncodeAll, Strings, Front, Back;
    FromLeft(Front(node), Header(0, t), [4], Header(4, |scan|), EncodeAll(Strings(scan)), Back(sig));
  }

  lemma {:induction false} FromLeft(f: Bytes, t: Bytes, l: Bytes, n: Bytes, list: Bytes, back: Bytes)
    ensures f + t + l + n + list + back == f + (t + ((l + n) + (list + back)))
  {
  }

  lemma {:induction false} FrontIs(node: Pub)
    ensures Header(5, 5) + ((Encode(UInt(1)) + Encode(UInt(1))) + (Encode(UInt(2)) + Encode(Str(node)))) + Encode(UInt(3)) == Front(node)
  {
    hide Be2, Be4, Be8;
    assert Header(2, 32) == [0x58, 0x20] && Header(5, 5) == [0xa5] && Header(0, 1) == [1] && Header(0, 2) == [2] && Header(0, 3) == [3];
  }

  lemma {:induction false} BackIs(sig: Sig)
    ensures Encode(UInt(5)) + Encode(Str(sig)) == Back(sig) && Encode(UInt(4)) == [4]
  {
    hide Be2, Be4, Be8;
    assert Header(2, 64) == [0x58, 0x40] && Header(0, 5) == [5];
  }

  lemma {:induction false} RecordFits(node: Pub, t: U32, scan: seq<Bssid>, sig: Sig)
    requires |scan| <= SCAN_MAX
    ensures AllFit(Strings(scan)) && CborTree.Fits(Str(node)) && CborTree.Fits(UInt(t)) && CborTree.Fits(Str(sig))
    ensures CborTree.Fits(Array(Strings(scan)))
    ensures CborTree.Fits(Map(RecordKids(node, t, scan, sig)))
    ensures Encode(Array(Strings(scan))) == Header(4, |scan|) + EncodeAll(Strings(scan))
    ensures 0 < |RecordBytes(node, t, scan, sig)| <= 169
  {
    hide Be2, Be4, Be8, Strings;
    StringsEncoding(scan);
    var kids := RecordKids(node, t, scan, sig);
    assert AllFit(kids);
  }

  /** They are the canonical encoding of the record's map, and fit a slot. */
  lemma {:induction false} RecordIsMap(node: Pub, t: U32, scan: seq<Bssid>, sig: Sig)
    requires |scan| <= SCAN_MAX
    ensures CborTree.Fits(Map(RecordKids(node, t, scan, sig)))
    ensures RecordBytes(node, t, scan, sig) == Encode(Map(RecordKids(node, t, scan, sig)))
    ensures 0 < |RecordBytes(node, t, scan, sig)| <= 169 <= RECORD_ROOM
  {
    hide Header, EncodeAll, Strings, CborTree.Fits, Front, Back;
    RecordFits(node, t, scan, sig);
    var kids := RecordKids(node, t, scan, sig);
    var (a, b, c, d, e) := ([UInt(1), UInt(1)], [UInt(2), Str(node)], [UInt(3), UInt(t)], [UInt(4), Array(Strings(scan))], [UInt(5), Str(sig)]);
    SmallUInts();
    PairEncoding(1, UInt(1));
    PairEncoding(2, Str(node));
    PairEncoding(3, UInt(t));
    PairEncoding(4, Array(Strings(scan)));
    PairEncoding(5, Str(sig));
    EncodeAllConcat(a, b);
    EncodeAllConcat(a + b, c);
    EncodeAllConcat(a + b + c, d);
    EncodeAllConcat(a + b + c + d, e);
    assert kids == a + b + c + d + e;
    FrontIs(node);
    BackIs(sig);
    Regroup(Header(5, 5), EncodeAll(a + b), Encode(UInt(3)), Encode(UInt(t)), Encode(UInt(4)), Header(4, |scan|), EncodeAll(Strings(scan)), EncodeAll(e));
  }

  /** The bytes of the signed map up to the time value. */
  function SignedFront(node: Pub): (s: Bytes)
    ensures |s| == 39
  {
    [0xa4, 1, 1, 2, 0x58, 0x20] + node + [3]
  }

  /** The bytes that are signed, call by call. */
  function SignedBody(node: Pub, t: U32, scan: seq<Bssid>): (s: Bytes)
    requires |scan| <= SCAN_MAX
  {
    StringsEncoding(scan);
    SignedFront(node) + Header(0, t) + [4] + Header(4, |scan|) + EncodeAll(Strings(scan))
  }

  lemma {:induction false} SignedFrontIs(node: Pub)
    ensures Header(5, 4) + ((Encode(UInt(1)) + Encode(UInt(1))) + (Encode(UInt(2)) + Encode(Str(node)))) + Encode(UInt(3)) == SignedFront(node)
  {
    hide Be2, Be4, Be8;
    assert Header(2, 32) == [0x58, 0x20] && Header(5, 4) == [0xa4] && Header(0, 1) == [1] && Header(0, 2) == [2] && Header(0, 3) == [3];
  }

  lemma {:induction false} SignedFits(node: Pub, t: U32, scan: seq<Bssid>)
    requires |scan| <= SCAN_MAX
    ensures CborTree.Fits(Map(SignedKids(node, t, scan))) && DepthAll(SignedKids(node, t, scan)) <= 2
  {
    hide Strings;
    StringsEncoding(scan);
    var kids := SignedKids(node, t, scan);
    assert AllFit(kids);
    forall i | 0 <= i < |kids| ensures Depth(kids[i]) <= 1 {}
    KidsDepth(kids, 1);
  }

  /** The signed bytes are the canonical encoding of the map of those four entries. */
  lemma {:induction false} BodyIsMap(node: Pub, t: U32, scan: seq<Bssid>)
    requires |scan| <= SCAN_MAX
    ensures CborTree.Fits(Map(SignedKids(node, t, scan)))
    ensures SignedBody(node, t, scan) == Encode(Map(SignedKids(node, t, scan)))
  {
    hide Header, EncodeAll, Strings, CborTree.Fits, SignedFront;
    SignedFits(node, t, scan);
    RecordFits(node, t, scan, NoSig());
    var kids := SignedKids(node, t, scan);
    var (a, b, c, d) := ([UInt(1), UInt(1)], [UInt(2), Str(node)], [UInt(3), UInt(t)], [UInt(4), Array(Strings(scan))]);
    SmallUInts();
    PairEncoding(1, UInt(1));
    PairEncoding(2, Str(node));
    PairEncoding(3, UInt(t));
    PairEncoding(4, Array(Strings(scan)));
    EncodeAllConcat(a, b);
    EncodeAllConcat(a + b, c);
    EncodeAllConcat(a + b + c, d);
    assert kids == a + b + c + d;
    SignedFrontIs(node);
    BackIs(NoSig());
    Regroup(Header(5, 4), EncodeAll(a + b), Encode(UInt(3)), Encode(UInt(t)), Encode(UInt(4)), Header(4, |scan|), EncodeAll(Strings(scan)), []);
  }

  function NoSig(): Sig {
    Zeros(64)
  }

  /** A stored record is what was signed, under the header of a map with one more entry, and the
      signature: a reader recovers both. */
  lemma {:induction false} RecordHoldsBody(node: Pub, t: U32, scan: seq<Bssid>, sig: Sig)
    requires |scan| <= SCAN_MAX
    ensures var r := RecordBytes(node, t, scan, sig);
      && |r| == |SignedBody(node, t, scan)| + 67
      && [0xa4] + r[1..|r| - 67] == SignedBody(node, t, scan) && r[|r| - 64..] == sig
  {
    hide Header, EncodeAll, Strings;
    StringsEncoding(scan);
    var (front, rest) := (Front(node), Header(0, t) + [4] + Header(4, |scan|) + EncodeAll(Strings(scan)));
    Reassociate(front, Header(0, t), [4], Header(4, |scan|), EncodeAll(Strings(scan)), Back(sig));
    Reassociate(SignedFront(node), Header(0, t), [4], Header(4, |scan|), EncodeAll(Strings(scan)), []);
    FrontsDiffer(node, rest, Back(sig));
  }

  lemma {:induction false} Reassociate(f: Bytes, t: Bytes, l: Bytes, n: Bytes, list: Bytes, back: Bytes)
    ensures f + t + l + n + list + back == f + (t + l + n + list) + back
  {
  }

  lemma {:induction false} FrontsDiffer(node: Pub, rest: Bytes, back: Bytes)
    requires |back| == 67
    ensures var r := Front(node) + rest + back;
      [0xa4] + r[1..|r| - 67] == SignedFront(node) + rest + [] && r[|r| - 64..] == back[3..]
  {
    var r := Front(node) + rest + back;
    assert r[1..|r| - 67] == Front(node)[1..] + rest;
    assert [0xa4] + Front(node)[1..] == SignedFront(node);
  }

  /** Signatures over equal bytes are over the same node, time and scan. */
  lemma {:induction false} SignedInjective(node: Pub, t: U32, scan: seq<Bssid>, node': Pub, t': U32, scan': seq<Bssid>)
    requires |scan| <= SCAN_MAX && |scan'| <= SCAN_MAX
    ensures SignedBody(node, t, scan) == SignedBody(node', t', scan') <==> node == node' && t == t' && scan == scan'
  {
    hide Encode, EncodeAll, Header, Strings, CborTree.Fits, DepthAll;
    if SignedBody(node, t, scan) == SignedBody(node', t', scan') {
      BodyIsMap(node, t, scan);
      BodyIsMap(node', t', scan');
      SignedFits(node, t, scan);
      SignedFits(node', t', scan');
      var (v, w) := (SignedKids(node, t, scan), SignedKids(node', t', scan'));
      MapDepth(v);
      MapDepth(w);
      assert Encode(Map(v)) + [] == Encode(Map(w)) + [];
      EncodeInjective(Map(v), Map(w), [], []);
      assert v[3] == Str(node) && w[3] == Str(node') && v[5] == UInt(t) && w[5] == UInt(t');
      assert v[7] == Array(Strings(scan)) && w[7] == Array(Strings(scan'));
      StringsSame(scan, scan');
    }
  }

  lemma {:induction false} StringsSame(a: seq<Bssid>, b: seq<Bssid>)
    requires Strings(a) == Strings(b)
    ensures a == b
  {
    assert |a| == |b|;
    forall i | 0 <= i < |a| ensures a[i] == b[i] { assert Strings(a)[i] == Strings(b)[i]; }
  }

  lemma {:induction false} SmallUInts()
    ensures CborTree.Fits(UInt(1))
  {
  }

  // ---- reading back at fixed offsets ----

  /** The time value whose header is at off: the value and the offset after it. */
  function ReadTime(r: Bytes, off: nat, len: nat): (x: Option<(U32, nat)>)
    requires off < len <= |r|
    ensures x.Some? ==> off < x.value.1 <= off + 5
  {
    var add := r[off] % 32;
    if add < 24 then Some((add, off + 1))
    else if add == 24 && off + 2 <= len then Some((r[off + 1], off + 2))
    else if add == 25 && off + 3 <= len then Some((FromBe2(r[off + 1..off + 3]), off + 3))
    else if add == 26 && off + 5 <= len then Some((FromBe4(r[off + 1..off + 5]), off + 5))
    else None
  }

  lemma {:induction false} ReadTimeEncoded(r: Bytes, off: nat, len: nat, t: U32)
    requires Holds(r, off, len, Header(0, t))
    ensures off < len <= |r| && ReadTime(r, off, len) == Some((t, off + |Header(0, t)|))
  {
    hide Be2, Be4, Be8, FromBe2, FromBe4, FromBe8;
    DecodeHeader(r, off, len, 0, t);
    assert r[off] == r[off..off + |Header(0, t)|][0];
  }

  /** `encounters_record_captured_at`: the time of a record, after checking its first bytes. */
  function CapturedAt(cbor: Bytes): Option<U32> {
    if |cbor| < 40 then None
    else if cbor[..6] != [0xa5, 1, 1, 2, 0x58, 0x20] || cbor[38] != 3 then None
    else
      var x := ReadTime(cbor, 39, |cbor|);
      if x.None? then None else Some(x.value.0)
  }

  /** Which bytes have a time: those that begin as a record does, up to the key 3, and then have a
      complete header that is at most four bytes longer than one. */
  lemma {:induction false} CapturedExactly(cbor: Bytes)
    ensures var began := |cbor| >= 40 && cbor[..6] == [0xa5, 1, 1, 2, 0x58, 0x20] && cbor[38] == 3;
      var add := if began then cbor[39] % 32 else 31;
      && (!began || add > 26 || (add == 24 && |cbor| < 41) || (add == 25 && |cbor| < 42) || (add == 26 && |cbor| < 44) <==> CapturedAt(cbor).None?)
      && (CapturedAt(cbor).Some? ==> var t := CapturedAt(cbor).value;
          && (add < 24 ==> t == add) && (add == 24 ==> t == cbor[40]) && (add == 25 ==> t == 0x100 * (cbor[40] as int) + cbor[41])
          && (add == 26 ==> t == 0x100_0000 * (cbor[40] as int) + 0x1_0000 * (cbor[41] as int) + 0x100 * (cbor[42] as int) + cbor[43]))
  {
  }

  /** The recorded time is read back, for every width of it. */
  lemma {:induction false} CapturedAtRecorded(node: Pub, t: U32, scan: seq<Bssid>, sig: Sig)
    requires |scan| <= SCAN_MAX
    ensures CapturedAt(RecordBytes(node, t, scan, sig)) == Some(t)
  {
    hide Header, EncodeAll, Strings, RecordBytes, Holds;
    StringsEncoding(scan);
    RecordFromLeft(node, t, scan, sig);
    var r := RecordBytes(node, t, scan, sig);
    var rest := ([4] + Header(4, |scan|)) + (EncodeAll(Strings(scan)) + Back(sig));
    StartHolds(r, r);
    HoldsSplit(r, 0, |r|, Front(node), Header(0, t) + rest);
    HoldsSplit(r, 39, |r|, Header(0, t), rest);
    ReadTimeEncoded(r, 39, |r|, t);
    assert r[..39] == Front(node);
    assert r[..6] == Front(node)[..6] && r[38] == Front(node)[38];
  }

  /** Whether the stored BSSIDs, each behind its header byte, are all among those of the scan. */
  function AllKnown(r: Bytes, off: nat, n: nat, scan: seq<Bssid>): bool
    requires off + 7 * n <= |r|
    decreases n
  {
    n == 0 || (r[off] == 0x46 && r[off + 1..off + 7] in scan && AllKnown(r, off + 7, n - 1, scan))
  }

  /** `encounters_should_record`: is the scan worth a new record? `r` is the newest slot behind its
      length bytes. */
  function WorthRecording(r: Bytes, scan: seq<Bssid>, now: U32, minAge: U32): bool
    requires |r| == RECORD_ROOM
  {
    var x := ReadTime(r, 39, |r|);
    if x.None? then true
    else
      var (prev, off) := x.value;
      if (now - prev) % 0x1_0000_0000 >= minAge then true
      else
        var count := r[off + 1] % 32;
        if r[off + 1] / 32 != 4 || count > SCAN_MAX then true
        else if count != |scan| then true
        else !AllKnown(r, off + 2, count, scan)
  }

  predicate ShouldRecord(b: Buffer, initialized: bool, scan: seq<Bssid>, now: U32, minAge: U32)
    requires Rings.Fits(ENCOUNTERS, b) && HeaderValid(ENCOUNTERS, b.header)
  {
    if !initialized || scan == [] then false
    else if UsedCount(b) == 0 then true
    else
      var slot := b.slots[(NextSlot(b) + 31) % 32];
      var len := SlotLen(slot);
      if len == 0 || len > RECORD_ROOM then true else WorthRecording(slot[2..], scan, now, minAge)
  }

  predicate Distinct(scan: seq<Bssid>) {
    forall i, j :: 0 <= i < j < |scan| ==> scan[i] != scan[j]
  }

  function Elements(a: seq<Bssid>): (s: set<Bssid>)
    ensures forall b: Bssid :: b in s <==> b in a
  {
    if a == [] then {} else Elements(a[..|a| - 1]) + {a[|a| - 1]}
  }

  lemma {:induction false} ElementsSize(a: seq<Bssid>)
    requires Distinct(a)
    ensures |Elements(a)| == |a|
    decreases |a|
  {
    if a != [] { ElementsSize(a[..|a| - 1]); }
  }

  lemma {:induction false} SubsetSize(s: set<Bssid>, t: set<Bssid>)
    requires s <= t
    ensures |s| <= |t| && (|s| == |t| ==> s == t)
    decreases |s|
  {
    if s != {} {
      var x :| x in s;
      SubsetSize(s - {x}, t - {x});
      assert s == (s - {x}) + {x} && t == (t - {x}) + {x};
    }
  }

  /** Among distinct BSSIDs, as many and all known means the same set. */
  lemma {:induction false} CountAndKnown(a: seq<Bssid>, b: seq<Bssid>)
    requires Distinct(a) && Distinct(b)
    ensures (forall x: Bssid :: x in a <==> x in b) <==> |a| == |b| && forall i :: 0 <= i < |a| ==> a[i] in b
  {
    hide Elements;
    ElementsSize(a);
    ElementsSize(b);
    if forall i :: 0 <= i < |a| ==> a[i] in b {
      SubsetSize(Elements(a), Elements(b));
      if |a| == |b| {
        forall x: Bssid ensures x in a <==> x in b { assert x in Elements(a) <==> x in Elements(b); }
      }
      if forall x: Bssid :: x in a <==> x in b { SubsetSize(Elements(b), Elements(a)); }
    }
  }

  /** The walk over an encoded list of BSSIDs. */
  lemma {:induction false} AllKnownEncoded(r: Bytes, off: nat, prev: seq<Bssid>, scan: seq<Bssid>)
    requires AllFit(Strings(prev)) && |EncodeAll(Strings(prev))| == 7 * |prev|
    requires Holds(r, off, |r|, EncodeAll(Strings(prev)))
    ensures off + 7 * |prev| <= |r|
    ensures AllKnown(r, off, |prev|, scan) <==> forall i :: 0 <= i < |prev| ==> prev[i] in scan
    decreases |prev|
  {
    hide Holds;
    HoldsInside(r, off, |r|, EncodeAll(Strings(prev)));
    if prev != [] {
      var v, rest := Str(prev[0]), prev[1..];
      assert Strings(prev)[0] == v && Strings(prev)[1..] == Strings(rest);
      StringsEncoding(rest);
      HoldsSplit(r, off, |r|, Encode(v), EncodeAll(Strings(rest)));
      HoldsBytes(r, off, |r|, Encode(v));
      assert Encode(v) == [0x46] + prev[0];
      assert r[off] == Encode(v)[0] && r[off + 1..off + 7] == Encode(v)[1..];
      AllKnownEncoded(r, off + 7, rest, scan);
      assert (forall i :: 0 <= i < |prev| ==> prev[i] in scan) <==> prev[0] in scan && forall i :: 0 <= i < |rest| ==> rest[i] in scan by {
        if prev[0] in scan && forall i :: 0 <= i < |rest| ==> rest[i] in scan {
          forall i | 0 <= i < |prev| ensures prev[i] in scan { if i > 0 { assert prev[i] == rest[i - 1]; } }
        }
      }
    }
  }

  /** The walk reads what the encoder wrote: the scan is not worth recording exactly when the
      stored record has as many BSSIDs, all of them known, and is young enough. */
  lemma {:induction false} WalkAgrees(r: Bytes, node: Pub, t: U32, prev: seq<Bssid>, sig: Sig, scan: seq<Bssid>, now: U32, minAge: U32)
    requires |prev| <= SCAN_MAX && |r| == RECORD_ROOM && |RecordBytes(node, t, prev, sig)| <= |r|
    requires r[..|RecordBytes(node, t, prev, sig)|] == RecordBytes(node, t, prev, sig)
    ensures WorthRecording(r, scan, now, minAge) <==>
      (now - t) % 0x1_0000_0000 >= minAge || |prev| != |scan| || exists i :: 0 <= i < |prev| && prev[i] !in scan
  {
    hide Header, EncodeAll, Strings, AllKnown, ReadTime, RecordBytes, Holds, Front, Back, WorthRecording;
    StringsEncoding(prev);
    var rec := RecordBytes(node, t, prev, sig);
    RecordFromLeft(node, t, prev, sig);
    var (time, mid, list) := (Header(0, t), [4] + Header(4, |prev|), EncodeAll(Strings(prev)));
    var off := 39 + |time|;
    StartHolds(r, rec);
    HoldsSplit(r, 0, |r|, Front(node), time + (mid + (list + Back(sig))));
    HoldsSplit(r, 39, |r|, time, mid + (list + Back(sig)));
    HoldsSplit(r, off, |r|, mid, list + Back(sig));
    ReadTimeEncoded(r, 39, |r|, t);
    CountByte(r, off, |prev|);
    HoldsSplit(r, off + 2, |r|, list, Back(sig));
    AllKnownEncoded(r, off + 2, prev, scan);
    WorthFrom(r, t, off, |prev|, scan, now, minAge);
  }

  lemma {:induction false} WorthFrom(r: Bytes, t: U32, off: nat, n: nat, scan: seq<Bssid>, now: U32, minAge: U32)
    requires |r| == RECORD_ROOM && ReadTime(r, 39, |r|) == Some((t, off)) && n <= SCAN_MAX && off + 2 + 7 * n <= |r|
    requires r[off + 1] / 32 == 4 && r[off + 1] % 32 == n
    ensures WorthRecording(r, scan, now, minAge) <==> (now - t) % 0x1_0000_0000 >= minAge || n != |scan| || !AllKnown(r, off + 2, n, scan)
  {
    hide ReadTime, AllKnown;
  }

  lemma {:induction false} StartHolds(r: Bytes, s: Bytes)
    requires |s| <= |r| && r[..|s|] == s
    ensures Holds(r, 0, |r|, s)
  {
    assert r[0..0 + |s|] == r[..|s|];
  }

  lemma {:induction false} CountByte(r: Bytes, off: nat, n: nat)
    requires n <= SCAN_MAX && Holds(r, off, |r|, [4] + Header(4, n))
    ensures |Header(4, n)| == 1 && off + 2 <= |r| && r[off + 1] / 32 == 4 && r[off + 1] % 32 == n
  {
    assert r[off + 1] == r[off..off + 2][1];
  }

  /** The dedup rule. For a non-empty scan of distinct BSSIDs, when the newest record is one that
      was recorded from a scan of distinct BSSIDs: recording is refused exactly when the two have
      the same BSSID set and the record's age, modulo 2^32, is below the limit. */
  lemma {:induction false} RefusedExactly(b: Buffer, node: Pub, t: U32, prev: seq<Bssid>, sig: Sig, scan: seq<Bssid>, now: U32, minAge: U32)
    requires Valid(ENCOUNTERS, b) && UsedCount(b) > 0 && |prev| <= SCAN_MAX
    requires Contents(ENCOUNTERS, b)[UsedCount(b) - 1] == RecordBytes(node, t, prev, sig)
    requires scan != [] && (forall i, j :: 0 <= i < j < |scan| ==> scan[i] != scan[j]) && forall i, j :: 0 <= i < j < |prev| ==> prev[i] != prev[j]
    ensures !ShouldRecord(b, true, scan, now, minAge) <==> (forall x: Bssid :: x in prev <==> x in scan) && (now - t) % 0x1_0000_0000 < minAge
  {
    hide RecordBytes, WorthRecording, Contents;
    NewestSlot(b);
    RecordIsMap(node, t, prev, sig);
    var slot := b.slots[(NextSlot(b) + 31) % 32];
    var rec := RecordBytes(node, t, prev, sig);
    assert slot[2..][..|rec|] == slot[2..2 + |rec|];
    WalkAgrees(slot[2..], node, t, prev, sig, scan, now, minAge);
    CountAndKnown(prev, scan);
  }

  /** Without records, or with an unreadable newest one, any scan is worth recording; no scan or no
      store, and nothing is. */
  lemma {:induction false} ScanGuards(b: Buffer, initialized: bool, scan: seq<Bssid>, now: U32, minAge: U32)
    requires Valid(ENCOUNTERS, b)
    ensures !initialized || scan == [] ==> !ShouldRecord(b, initialized, scan, now, minAge)
    ensures initialized && scan != [] && Contents(ENCOUNTERS, b) == [] ==> ShouldRecord(b, initialized, scan, now, minAge)
  {
    ContentsCount(b);
  }

  /** The newest slot holds the last of the contents. */
  lemma {:induction false} NewestSlot(b: Buffer)
    requires Valid(ENCOUNTERS, b) && UsedCount(b) > 0
    ensures var i := (NextSlot(b) + 31) % 32;
      && i < 32 && |b.slots[i]| == 256
      && var len := SlotLen(b.slots[i]);
        0 < len <= 254 && b.slots[i][2..2 + len] == Contents(ENCOUNTERS, b)[UsedCount(b) - 1]
  {
    hide BlobOf, Contents;
    LiveAt(ENCOUNTERS, b, UsedCount(b) - 1);
    var k := UsedCount(b) - 1;
    if UsedCount(b) < 32 { assert (First(ENCOUNTERS, b) + k) % 32 == (NextSlot(b) + 31) % 32; }
  }

  /** The walk itself, over the newest slot. */
  method CheckScan(ring: Ring, scan: seq<Bssid>, now: U32, minAge: U32) returns (ok: bool)
    requires ring.shape == ENCOUNTERS && Valid(ring.shape, ring.buf)
    ensures ok == ShouldRecord(ring.buf, ring.initialized, scan, now, minAge)
  {
    hide WorthRecording;
    if !ring.initialized || |scan| == 0 { return false; }
    if UsedCount(ring.buf) == 0 { return true; }
    var slot := ring.buf.slots[(NextSlot(ring.buf) + 31) % 32];
    var len := SlotLen(slot);
    if len == 0 || len > RECORD_ROOM { return true; }
    ok := CheckRecord(slot[2..], scan, now, minAge);
  }

  method CheckRecord(r: Bytes, scan: seq<Bssid>, now: U32, minAge: U32) returns (ok: bool)
    requires |r| == RECORD_ROOM
    ensures ok == WorthRecording(r, scan, now, minAge)
  {
    hide ReadTime, AllKnown;
    var x := ReadTime(r, 39, |r|);
    if x.None? { return true; }
    var (prev, off) := x.value;
    if (now - prev) % 0x1_0000_0000 >= minAge { return true; }
    off := off + 1;
    var count := r[off] % 32;
    if r[off] / 32 != 4 || count > SCAN_MAX { return true; }
    off := off + 1;
    if count != |scan| { return true; }
    var known := CheckKnown(r, off, count, scan);
    return !known;
  }

  method CheckKnown(r: Bytes, first: nat, count: nat, scan: seq<Bssid>) returns (known: bool)
    requires first + 7 * count <= |r|
    ensures known == AllKnown(r, first, count, scan)
  {
    var off := first;
    for i := 0 to count
      invariant off == first + 7 * i
      invariant AllKnown(r, first, count, scan) == AllKnown(r, off, count - i, scan)
    {
      if r[off] != 0x46 { return false; }
      var bssid := r[off + 1..off + 7];
      var found := false;
      for j := 0 to |scan|
        invariant !found && forall k :: 0 <= k < j ==> scan[k] != bssid
      {
        if scan[j] == bssid { found := true; break; }
      }
      if !found { return false; }
      off := off + 7;
    }
    return true;
  }

  /** `encounters_record`: sign the body, and write the record into the ring. */
  method Record(ring: Ring, scan: seq<Bssid>, t: U32, node: Pub, sign: Bytes -> Option<Sig>, persists: bool) returns (rc: int)
    requires ring.shape == ENCOUNTERS && !ring.dedup && Valid(ring.shape, ring.buf)
    modifies ring
    ensures Valid(ring.shape, ring.buf) && ring.initialized == old(ring.initialized)
    ensures var q := old(Contents(ring.shape, ring.buf));
      if !old(ring.initialized) || scan == [] || |scan| > SCAN_MAX || sign(SignedBody(node, t, scan)).None? then
        rc == -1 && Contents(ring.shape, ring.buf) == q
      else
        var sig := sign(SignedBody(node, t, scan)).value;
        Contents(ring.shape, ring.buf) == Push(q, RecordBytes(node, t, scan, sig), 32) && rc == (if persists then 0 else -1)
  {
    hide RecordBytes, SignedBody, Contents;
    if !ring.initialized { return -1; }
    if |scan| == 0 || |scan| > SCAN_MAX { return -1; }
    var sig := sign(SignedBody(node, t, scan));
    if sig.None? { return -1; }
    var rec := RecordBytes(node, t, scan, sig.value);
    RecordIsMap(node, t, scan, sig.value);
    if |rec| == 0 || |rec| > RECORD_ROOM { return -1; }
    rc := ring.Write(rec, persists);
  }

  /** Right after a scan has been recorded, the same set of BSSIDs is refused until it is old enough. */
  lemma {:induction false} JustRecorded(b: Buffer, node: Pub, t: U32, prev: seq<Bssid>, sig: Sig, scan: seq<Bssid>, now: U32, minAge: U32)
    requires Valid(ENCOUNTERS, b) && 0 < |prev| <= SCAN_MAX
    requires scan != [] && (forall i, j :: 0 <= i < j < |scan| ==> scan[i] != scan[j]) && forall i, j :: 0 <= i < j < |prev| ==> prev[i] != prev[j]
    ensures var rec := RecordBytes(node, t, prev, sig);
      0 < |rec| <= 254 && var after := Stored(ENCOUNTERS, b, rec);
      && Valid(ENCOUNTERS, after)
      && (!ShouldRecord(after, true, scan, now, minAge) <==> (forall x: Bssid :: x in prev <==> x in scan) && (now - t) % 0x1_0000_0000 < minAge)
  {
    hide RecordBytes, Stored, Contents, ShouldRecord;
    RecordIsMap(node, t, prev, sig);
    StoredPushes(ENCOUNTERS, b, RecordBytes(node, t, prev, sig));
    var after := Stored(ENCOUNTERS, b, RecordBytes(node, t, prev, sig));
    PushLast(Contents(ENCOUNTERS, b), RecordBytes(node, t, prev, sig), 32);
    ContentsCount(after);
    RefusedExactly(after, node, t, prev, sig, scan, now, minAge);
  }

  lemma {:induction false} PushLast(q: seq<Bytes>, blob: Bytes, cap: nat)
    requires cap > 0
    ensures var r := Push(q, blob, cap); |r| > 0 && r[|r| - 1] == blob
  {
  }

  lemma {:induction false} ContentsCount(b: Buffer)
    requires Valid(ENCOUNTERS, b)
    ensures |Contents(ENCOUNTERS, b)| == UsedCount(b)
  {
  }

  /** The records that `encounters_get` lists. */
  function Newer(records: seq<Bytes>, since: U32): (r: seq<Bytes>)
    decreases |records|
  {
    if records == [] then []
    else
      var c := CapturedAt(records[0]);
      (if c.Some? && c.value > since then [records[0]] else []) + Newer(records[1..], since)
  }
}
