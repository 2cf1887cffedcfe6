/** The formats that leave the device, spelled out: names as the characters they are, maps entry by
    entry, stored slots byte by byte. The other modules build and read these; here they are pinned
    down from outside. */
module Formats {
  import opened Bits
  import opened Cbor
  import opened CborTree
  import opened Commands
  import opened EncounterRecord
  import opened EncounterSession
  import opened PeerSync
  import opened RecordCode
  import opened SyncAnswers
  import opened SyncWire
  import opened Wrappers
  import AttestQuery
  import FileList
  import FileStore
  import Ledger
  import Limbs
  import Nonlinear
  import Png
  import Rings
  import SessionCode

  // ---- names ----

  lemma {:induction false} RequestNames()
    ensures K_CMD == Ascii("cmd") && K_OFFSET == Ascii("offset") && K_NAME == Ascii("name") && K_SIZE == Ascii("size")
    ensures K_BSSIDS == Ascii("bssids")
    ensures C_LS == Ascii("ls") && C_READ_START == Ascii("read_start") && C_READ_CHUNK == Ascii("read_chunk")
    ensures C_READ_META == Ascii("read_meta") && C_ATTEST_QUERY == Ascii("attest_query")
  {
  }

  lemma {:induction false} ReplyNames()
    ensures K_HASH == Ascii("hash") && K_DATA == Ascii("data") && K_META == Ascii("meta") && K_ERROR == Ascii("error")
    ensures K_FILES == Ascii("files") && K_BLOBS == Ascii("blobs") && K_NEXT == Ascii("next_offset")
    ensures K_OK == Ascii("ok") && K_RECORDS == Ascii("records")
  {
  }

  lemma {:induction false} FileNames()
    ensures ENC_PREFIX == Ascii("enc_") && FileStore.SLASH == '/' as int
    ensures FileList.META_SUFFIX == Ascii(".meta") && FileList.HASH_SUFFIX == Ascii(".h8")
    ensures Png.TEXT == Ascii("tEXt") && Png.IDAT == Ascii("IDAT") && Png.KEYWORD == Ascii("Comment")
    ensures Ledger.MAGIC == Ascii("WXPL")
    ensures Rings.ATTESTATIONS == Rings.Shape(Ascii("WXAT"), 64, 200)
    ensures Rings.ATTEST_CACHE == Rings.Shape(Ascii("WXAC"), 64, 200)
    ensures Rings.ENCOUNTERS == Rings.Shape(Ascii("WXEN"), 32, 256)
  {
  }

  // ---- CBOR, from appendix A of RFC 8949 ----

  lemma {:induction false} Integers()
    ensures Encode(UInt(0)) == [0x00] && Encode(UInt(23)) == [0x17] && Encode(UInt(24)) == [0x18, 0x18] && Encode(UInt(100)) == [0x18, 0x64]
    ensures Encode(UInt(1000)) == [0x19, 0x03, 0xe8] && Encode(UInt(1000000)) == [0x1a, 0x00, 0x0f, 0x42, 0x40]
    ensures Encode(UInt(1000000000000)) == [0x1b, 0x00, 0x00, 0x00, 0xe8, 0xd4, 0xa5, 0x10, 0x00]
  {
  }

  lemma {:induction false} Negatives()
    ensures Encode(NInt(0)) == [0x20] && Encode(NInt(9)) == [0x29] && Encode(NInt(99)) == [0x38, 0x63] && Encode(NInt(999)) == [0x39, 0x03, 0xe7]
  {
  }

  lemma {:induction false} StringsAndSimple()
    ensures Encode(Str([0x01, 0x02, 0x03, 0x04])) == [0x44, 0x01, 0x02, 0x03, 0x04]
    ensures Encode(Text(Ascii("IETF"))) == [0x64, 0x49, 0x45, 0x54, 0x46]
    ensures Encode(Bool(false)) == [0xf4] && Encode(Bool(true)) == [0xf5]
  {
    assert Ascii("IETF") == [0x49, 0x45, 0x54, 0x46];
  }

  lemma {:induction false} Containers()
    ensures Encode(Array([UInt(1), UInt(2), UInt(3)])) == [0x83, 0x01, 0x02, 0x03]
    ensures Encode(Map([UInt(1), UInt(2), UInt(3), UInt(4)])) == [0xa2, 0x01, 0x02, 0x03, 0x04]
  {
    hide EncodeAll;
    var (list, pairs) := ([UInt(1), UInt(2), UInt(3)], [UInt(1), UInt(2), UInt(3), UInt(4)]);
    SmallInts(list);
    SmallInts(pairs);
    assert EncodeAll(list) == [1, 2, 3];
    assert EncodeAll(pairs) == [1, 2, 3, 4];
  }

  lemma {:induction false} SmallInts(kids: seq<Value>)
    requires forall i :: 0 <= i < |kids| ==> kids[i].UInt? && kids[i].n < 24
    ensures AllFit(kids) && |EncodeAll(kids)| == |kids| && forall i :: 0 <= i < |kids| ==> EncodeAll(kids)[i] == kids[i].n
    decreases |kids|
  {
    if kids != [] {
      SmallInts(kids[1..]);
      SmallInt(kids[0]);
    }
  }

  lemma {:induction false} SmallInt(v: Value)
    requires v.UInt? && v.n < 24
    ensures Fits(v) && Encode(v) == [v.n]
  {
  }

  // ---- records and handshake messages ----

  function Signed32(x: int): Value {
    if x >= 0 then UInt(x) else NInt(-1 - x)
  }

  /** The 17 signed entries of a record. */
  function SignedEntries(r: Record): seq<Value> {
    [UInt(1), UInt(r.version), UInt(2), Str(r.pubA), UInt(3), Str(r.pubB), UInt(4), UInt(r.meetingCountA), UInt(5), UInt(r.meetingCountB),
     UInt(6), Signed32(r.repOfBByA), UInt(7), Signed32(r.repOfAByB), UInt(8), Array(Strings(r.bssidsA)), UInt(9), Array(Strings(r.bssidsB)),
     UInt(10), Str(r.nonceA), UInt(11), Str(r.nonceB), UInt(12), UInt(r.txBytesAToB), UInt(13), UInt(r.rxBytesAFromB),
     UInt(14), UInt(r.txBytesBToA), UInt(15), UInt(r.rxBytesBFromA), UInt(16), UInt(r.fileCountAFromB), UInt(17), UInt(r.fileCountBFromA)]
  }

  lemma {:induction false} KidsTo5(r: Record)
    ensures Kids(r, 5) == SignedEntries(r)[..10]
  {
    hide Kids, Strings, Signed32;
    NoKids(r);
    KidsNext(r, 1); KidsNext(r, 2); KidsNext(r, 3); KidsNext(r, 4); KidsNext(r, 5);
  }

  lemma {:induction false} KidsTo9(r: Record)
    ensures Kids(r, 9) == SignedEntries(r)[..18]
  {
    hide Kids, Strings;
    KidsTo5(r);
    KidsNext(r, 6); KidsNext(r, 7); KidsNext(r, 8); KidsNext(r, 9);
  }

  lemma {:induction false} KidsTo17(r: Record)
    ensures Kids(r, 17) == SignedEntries(r)
  {
    hide Kids, Strings;
    KidsTo9(r);
    KidsNext(r, 10); KidsNext(r, 11); KidsNext(r, 12); KidsNext(r, 13);
    KidsNext(r, 14); KidsNext(r, 15); KidsNext(r, 16); KidsNext(r, 17);
  }

  lemma {:induction false} KidsTo19(r: Record)
    ensures Kids(r, 19) == SignedEntries(r) + [UInt(18), Str(r.sigA), UInt(19), Str(r.sigB)]
  {
    hide Kids, SignedEntries;
    KidsTo17(r);
    KidsNext(r, 18);
    KidsNext(r, 19);
  }

  /** The signed body and the full record of every record that can be encoded: version 1, and at
      most eight BSSIDs on either side. */
  lemma {:induction false} RecordIs(r: Record)
    ensures var full := SignedEntries(r) + [UInt(18), Str(r.sigA), UInt(19), Str(r.sigB)];
      if r.version == 1 && |r.bssidsA| <= 8 && |r.bssidsB| <= 8 then
        && Fits(Map(SignedEntries(r))) && EncodeBody(r) == Encode(Map(SignedEntries(r)))
        && Fits(Map(full)) && EncodeFull(r) == Encode(Map(full))
      else EncodeBody(r) == [] && EncodeFull(r) == []
  {
    hide Kids, SignedEntries, Encode, Fits;
    if Encodable(r) {
      KidsTo17(r);
      KidsTo19(r);
      KidsFit(r, 17);
      KidsFit(r, 19);
    }
  }

  /** A record verifies when it can be encoded and each side has signed its body. */
  lemma {:induction false} VerifiesExactly(r: Record, check: (Bytes, Bytes, Bytes) -> bool)
    ensures Verify(r, check) <==>
      && r.version == 1 && |r.bssidsA| <= 8 && |r.bssidsB| <= 8
      && var body := Reply(SignedEntries(r));
        check(r.pubA, body, r.sigA) && check(r.pubB, body, r.sigB)
  {
    hide EncodeBody, SignedEntries, Encode, Fits;
    RecordIs(r);
  }

  /** A buffer that might be too small for some record is refused for every record. */
  lemma {:induction false} RecordRoom(r: Record, outMax: nat)
    ensures EncodeRecord(r, outMax, false) == if outMax < 384 then [] else EncodeBody(r)
    ensures EncodeRecord(r, outMax, true) == if outMax < 512 then [] else EncodeFull(r)
  {
  }

  /** One side of a record, as its owner sends it. */
  function SideEntries(msgType: nat, version: nat, pub: Bytes, meetings: nat, rep: int, bssids: seq<Bssid>, nonce: Bytes, tx: nat, rx: nat, files: nat): seq<Value> {
    [UInt(1), UInt(msgType), UInt(2), UInt(version), UInt(3), Str(pub), UInt(4), UInt(meetings), UInt(5), Signed32(rep),
     UInt(6), Array(Strings(bssids)), UInt(7), Str(nonce), UInt(8), UInt(tx), UInt(9), UInt(rx), UInt(10), UInt(files)]
  }

  /** What a session sends of its side: an initiator of the A side, a responder of the B side. */
  lemma {:induction false} HalfIs(msgType: nat, r: Record)
    ensures HalfKids(msgType, r, false, 10)
         == SideEntries(msgType, r.version, r.pubA, r.meetingCountA, r.repOfBByA, r.bssidsA, r.nonceA, r.txBytesAToB, r.rxBytesAFromB, r.fileCountAFromB)
    ensures HalfKids(msgType, r, true, 10)
         == SideEntries(msgType, r.version, r.pubB, r.meetingCountB, r.repOfAByB, r.bssidsB, r.nonceB, r.txBytesBToA, r.rxBytesBFromA, r.fileCountBFromA)
  {
    hide HalfKids, Strings;
    SideA(msgType, r);
    SideB(msgType, r);
  }

  lemma {:induction false} SideATo5(msgType: nat, r: Record)
    ensures HalfKids(msgType, r, false, 5)
         == SideEntries(msgType, r.version, r.pubA, r.meetingCountA, r.repOfBByA, r.bssidsA, r.nonceA, r.txBytesAToB, r.rxBytesAFromB, r.fileCountAFromB)[..10]
  {
    hide HalfKids, Strings;
    SessionCode.HalfFirst(msgType, r, false);
    SessionCode.HalfNext(msgType, r, false, 2);
    SessionCode.HalfNext(msgType, r, false, 3);
    SessionCode.HalfNext(msgType, r, false, 4);
    SessionCode.HalfNext(msgType, r, false, 5);
  }

  lemma {:induction false} SideA(msgType: nat, r: Record)
    ensures HalfKids(msgType, r, false, 10)
         == SideEntries(msgType, r.version, r.pubA, r.meetingCountA, r.repOfBByA, r.bssidsA, r.nonceA, r.txBytesAToB, r.rxBytesAFromB, r.fileCountAFromB)
  {
    hide HalfKids, Strings;
    SideATo5(msgType, r);
    SessionCode.HalfNext(msgType, r, false, 6);
    SessionCode.HalfNext(msgType, r, false, 7);
    SessionCode.HalfNext(msgType, r, false, 8);
    SessionCode.HalfNext(msgType, r, false, 9);
    SessionCode.HalfNext(msgType, r, false, 10);
  }

  lemma {:induction false} SideBTo5(msgType: nat, r: Record)
    ensures HalfKids(msgType, r, true, 5)
         == SideEntries(msgType, r.version, r.pubB, r.meetingCountB, r.repOfAByB, r.bssidsB, r.nonceB, r.txBytesBToA, r.rxBytesBFromA, r.fileCountBFromA)[..10]
  {
    hide HalfKids, Strings;
    SessionCode.HalfFirst(msgType, r, true);
    SessionCode.HalfNext(msgType, r, true, 2);
    SessionCode.HalfNext(msgType, r, true, 3);
    SessionCode.HalfNext(msgType, r, true, 4);
    SessionCode.HalfNext(msgType, r, true, 5);
  }

  lemma {:induction false} SideB(msgType: nat, r: Record)
    ensures HalfKids(msgType, r, true, 10)
         == SideEntries(msgType, r.version, r.pubB, r.meetingCountB, r.repOfAByB, r.bssidsB, r.nonceB, r.txBytesBToA, r.rxBytesBFromA, r.fileCountBFromA)
  {
    hide HalfKids, Strings;
    SideBTo5(msgType, r);
    SessionCode.HalfNext(msgType, r, true, 6);
    SessionCode.HalfNext(msgType, r, true, 7);
    SessionCode.HalfNext(msgType, r, true, 8);
    SessionCode.HalfNext(msgType, r, true, 9);
    SessionCode.HalfNext(msgType, r, true, 10);
  }

  /** The three messages of the handshake: a PROPOSE, an ACCEPT, which has the signature too, and
      a CONFIRM; buffers below 256 bytes get none. */
  lemma {:induction false} MessagesAre(r: Record, sig: Sig, outMax: nat)
    requires r.version == 1 && |r.bssidsA| <= 8 && |r.bssidsB| <= 8
    ensures var propose := HalfKids(1, r, false, 10);
      Fits(Map(propose)) && EncodeHalf(PROPOSE, r, false, outMax) == if outMax >= 256 then Encode(Map(propose)) else []
    ensures var accept := HalfKids(2, r, true, 10) + [UInt(11), Str(r.sigB)];
      Fits(Map(accept)) && EncodeHalf(ACCEPT, r, true, outMax) == if outMax >= 256 then Encode(Map(accept)) else []
    ensures var confirm := [UInt(1), UInt(3), UInt(11), Str(sig)];
      Fits(Map(confirm)) && EncodeConfirm(sig, outMax) == if outMax >= 256 then Encode(Map(confirm)) else []
  {
    hide HalfKids, Encode, Fits;
    HalfKidsFit(1, r, false, 10);
    HalfKidsFit(2, r, true, 11);
    SessionCode.HalfNext(2, r, true, 11);
    assert ToValue(Get(r, RecordKey(true, 11))) == Str(r.sigB);
    ConfirmFits(sig);
  }

  lemma {:induction false} ConfirmFits(sig: Sig)
    ensures Fits(Map([UInt(1), UInt(3), UInt(11), Str(sig)]))
  {
  }

  // ---- the pull protocol ----

  /** The requests of a session. */
  lemma {:induction false} RequestsAre(name: Bytes, offset: U32, size: U32, bssids: seq<Bssid>)
    ensures RequestKids(Ls(offset)) == [Text(Ascii("cmd")), Text(Ascii("ls")), Text(Ascii("offset")), UInt(offset)]
    ensures RequestKids(ReadStart(name)) == [Text(Ascii("cmd")), Text(Ascii("read_start")), Text(Ascii("name")), Text(name)]
    ensures RequestKids(ReadChunk(name, offset, size)) ==
      [Text(Ascii("cmd")), Text(Ascii("read_chunk")), Text(Ascii("name")), Text(name), Text(Ascii("offset")), UInt(offset), Text(Ascii("size")), UInt(size)]
    ensures RequestKids(ReadMeta(name)) == [Text(Ascii("cmd")), Text(Ascii("read_meta")), Text(Ascii("name")), Text(name)]
    ensures RequestKids(AttestQuery(bssids, offset)) ==
      [Text(Ascii("cmd")), Text(Ascii("attest_query")), Text(Ascii("bssids")), Array(Strings(bssids))]
      + if offset > 0 then [Text(Ascii("offset")), UInt(offset)] else []
  {
    hide Ascii, Strings;
    RequestNames();
  }

  /** The replies to them. */
  lemma {:induction false} RepliesAre(page: seq<Entry>, next: nat, e: Entry, n: U32, data: Bytes, blobs: seq<Bytes>, more: bool)
    ensures LsKids(page, next) == [Text(Ascii("files")), Array(EntryValues(page))] + if next > 0 then [Text(Ascii("next_offset")), UInt(next)] else []
    ensures EntryValue(e) == Map([Text(Ascii("name")), Text(e.name), Text(Ascii("size")), UInt(e.size), Text(Ascii("hash")), Str(e.hash)])
    ensures SizeKids(n) == [Text(Ascii("ok")), Bool(true), Text(Ascii("size")), UInt(n)]
    ensures DataKids(data) == [Text(Ascii("ok")), Bool(true), Text(Ascii("data")), Str(data)]
    ensures BlobKids(Ascii("blobs"), blobs, more, next) ==
      [Text(Ascii("ok")), Bool(true), Text(Ascii("blobs")), Array(Strings(blobs))] + if more then [Text(Ascii("next_offset")), UInt(next)] else []
  {
    hide Ascii, Strings, EntryValues;
    ReplyNames();
    RequestNames();
  }

  // ---- stored slots ----

  /** A ledger slot: the key, four 64-bit counters and the reputation as 32 bits of two's
      complement, least significant byte first, and twelve spare bytes. */
  lemma {:induction false} LedgerSlot(e: Ledger.Entry)
    ensures var s := Ledger.EncodeSlot(e);
      && |s| == 80 && s[..32] == e.pub
      && Limbs.ByteVal(s[32..40]) == e.meetings && Limbs.ByteVal(s[40..48]) == e.tx && Limbs.ByteVal(s[48..56]) == e.rx
      && Limbs.ByteVal(s[56..64]) == e.files
      && Limbs.ByteVal(s[64..68]) == (if e.rep >= 0 then e.rep else 0x1_0000_0000 + e.rep)
      && s[68..] == Zeros(12)
  {
    hide Ledger.PutU64, Ledger.PutI32, Limbs.ByteVal;
    var s := Ledger.EncodeSlot(e);
    assert s[..32] == e.pub && s[32..40] == Ledger.PutU64(e.meetings) && s[40..48] == Ledger.PutU64(e.tx);
    assert s[48..56] == Ledger.PutU64(e.rx) && s[56..64] == Ledger.PutU64(e.files) && s[64..68] == Ledger.PutI32(e.rep);
    assert s[68..] == Zeros(12);
    U64Bytes(e.meetings);
    U64Bytes(e.tx);
    U64Bytes(e.rx);
    U64Bytes(e.files);
    I32Bytes(e.rep);
  }

  lemma {:induction false} U64Bytes(v: U64)
    ensures Limbs.ByteVal(Ledger.PutU64(v)) == v
  {
    hide Limbs.ByteVal, Limbs.Load32, Limbs.Store32;
    var (lo, hi) := (Limbs.Store32(v % 0x1_0000_0000), Limbs.Store32(v / 0x1_0000_0000));
    var s := Ledger.PutU64(v);
    assert s == lo + hi && s[..4] == lo && s[4..] == hi && hi[..4] == hi && hi[4..] == [];
    Limbs.ByteValFour(s);
    Limbs.ByteValFour(hi);
    Limbs.NoBytes(hi[4..]);
  }

  lemma {:induction false} I32Bytes(v: I32)
    ensures Limbs.ByteVal(Ledger.PutI32(v)) == if v >= 0 then v else 0x1_0000_0000 + v
  {
    hide Limbs.ByteVal, Limbs.Load32, Limbs.Store32;
    var s := Ledger.PutI32(v);
    assert s[..4] == s && s[4..] == [];
    Limbs.ByteValFour(s);
    Limbs.NoBytes(s[4..]);
  }

  /** The ledger file: `WXPL`, version 1, the number of entries, ten spare bytes, and a slot for
      each of 64 entries, the unused ones zero. */
  lemma {:induction false} LedgerFile(s: seq<Ledger.Entry>, i: nat)
    requires |s| <= 64 && i < 64
    ensures var b := Ledger.Image(s);
      && |b| == 16 + 64 * 80 && b[..4] == Ascii("WXPL") && b[4] == 1 && b[5] == |s| && b[6..16] == Zeros(10)
      && b[16 + 80 * i..96 + 80 * i] == if i < |s| then Ledger.EncodeSlot(s[i]) else Zeros(80)
  {
    hide Ledger.EncodeSlot, Ledger.EncodeSlots;
    FileNames();
    var b := Ledger.Image(s);
    var slots, rest := Ledger.EncodeSlots(s), Zeros(80 * (64 - |s|));
    assert b == (Ledger.MAGIC + [1, |s|] + Zeros(10)) + (slots + rest);
    if i < |s| {
      SlotsAt(s, i);
      assert b[16 + 80 * i..96 + 80 * i] == slots[80 * i..80 * i + 80];
    } else {
      assert b[16 + 80 * i..96 + 80 * i] == rest[80 * (i - |s|)..80 * (i - |s|) + 80];
    }
  }

  lemma {:induction false} SlotsAt(s: seq<Ledger.Entry>, i: nat)
    requires i < |s|
    ensures Ledger.EncodeSlots(s)[80 * i..80 * i + 80] == Ledger.EncodeSlot(s[i])
    decreases |s|
  {
    hide Ledger.EncodeSlot;
    if i < |s| - 1 {
      SlotsAt(s[..|s| - 1], i);
      assert Ledger.EncodeSlots(s)[80 * i..80 * i + 80] == Ledger.EncodeSlots(s[..|s| - 1])[80 * i..80 * i + 80];
    }
  }

  /** A write into a ring: the slot gets the length in two bytes, the low one first, the blob and
      zeros; header byte 6 moves to the next slot, header byte 7 counts up to the capacity, and
      nothing else changes. */
  lemma {:induction false} RingSlot(sh: Rings.Shape, b: Rings.Buffer, blob: Bytes)
    requires Rings.Sound(sh) && Rings.Fits(sh, b) && Rings.HeaderValid(sh, b.header) && 0 < |blob| <= sh.slotBytes - 2
    ensures var (r, k) := (Rings.Stored(sh, b, blob), b.header[6]);
      && |r.slots[k]| == sh.slotBytes
      && r.slots[k][0] as int + 0x100 * r.slots[k][1] as int == |blob| && r.slots[k][2..2 + |blob|] == blob
      && (forall i :: 2 + |blob| <= i < sh.slotBytes ==> r.slots[k][i] == 0)
      && (forall i :: 0 <= i < sh.cap && i != k ==> r.slots[i] == b.slots[i])
      && r.header[6] == (if k as int + 1 == sh.cap then 0 else k + 1)
      && r.header[7] == (if b.header[7] == sh.cap then b.header[7] else b.header[7] + 1)
      && (forall i :: 0 <= i < 16 && i != 6 && i != 7 ==> r.header[i] == b.header[i])
  {
    hide Zeros;
    var k := b.header[6];
    Rings.IndexIsMod(k, 1, sh.cap);
    var s := Rings.SlotOf(sh, blob);
    assert s[2..2 + |blob|] == blob;
    var z := Zeros(sh.slotBytes - 2 - |blob|);
    forall i | 2 + |blob| <= i < sh.slotBytes ensures s[i] == 0 { assert s[i] == z[i - 2 - |blob|]; }
  }

  /** A ring file is taken when it is long enough and its header has the magic, version 1 and counts
      in range; then the ring is its first bytes. Anything else is a blank ring. */
  lemma {:induction false} RingFileTaken(sh: Rings.Shape, d: Bytes)
    requires Rings.Sound(sh)
    ensures var (b, size) := (Rings.Load(sh, Some(d)), 16 + sh.cap * sh.slotBytes);
      if |d| >= size && d[..4] == sh.magic && d[4] == 1 && d[6] < sh.cap && d[7] <= sh.cap then
        b.header == d[..16] && |b.slots| == sh.cap
        && forall i :: 0 <= i < sh.cap ==> SlotAt(d, sh.slotBytes, i).Some? && b.slots[i] == SlotAt(d, sh.slotBytes, i).value
      else b == Rings.Blank(sh)
  {
    if |d| >= 16 {
      SlicesAre(d[16..], sh.slotBytes, sh.cap);
      var slots := Rings.Slices(d[16..], sh.slotBytes, sh.cap);
      if |slots| == sh.cap {
        forall i | 0 <= i < sh.cap ensures SlotAt(d, sh.slotBytes, i).Some? && slots[i] == SlotAt(d, sh.slotBytes, i).value {
          var at := i * sh.slotBytes;
          Nonlinear.MulMono(i + 1, sh.cap, sh.slotBytes);
          Nonlinear.Distribute(i, 1, sh.slotBytes);
          assert d[16..][at..at + sh.slotBytes] == d[16 + at..16 + at + sh.slotBytes];
        }
      }
      assert d[..16][..4] == d[..4];
    }
  }

  /** Slot i of a ring file. */
  function SlotAt(d: Bytes, slotBytes: nat, i: nat): Option<Bytes> {
    var at := 16 + i * slotBytes;
    if at + slotBytes <= |d| then Some(d[at..at + slotBytes]) else None
  }

  lemma {:induction false} SlicesAre(s: Bytes, size: nat, n: nat)
    requires size > 0
    ensures var r := Rings.Slices(s, size, n);
      && |r| <= n && (|r| == n <==> n * size <= |s|)
      && forall i :: 0 <= i < |r| ==> 0 <= i * size && i * size + size <= |s| && r[i] == s[i * size..i * size + size]
    decreases n
  {
    if n > 0 && |s| >= size {
      var (r, rest) := (Rings.Slices(s, size, n), Rings.Slices(s[size..], size, n - 1));
      SlicesAre(s[size..], size, n - 1);
      Nonlinear.Distribute(n - 1, 1, size);
      forall i | 0 <= i < |r| ensures 0 <= i * size && i * size + size <= |s| && r[i] == s[i * size..i * size + size] {
        hide Rings.Slices;
        if i > 0 {
          assert r[i] == rest[i - 1];
          SliceShift(s, size, i);
        }
      }
    } else if n > 0 {
      Nonlinear.MulAtLeast(n, size);
    }
  }

  lemma {:induction false} SliceShift(s: Bytes, size: nat, i: nat)
    requires size <= |s| && 0 < i && 0 <= (i - 1) * size && (i - 1) * size + size <= |s[size..]|
    ensures i * size == (i - 1) * size + size
    ensures s[size..][(i - 1) * size..(i - 1) * size + size] == s[i * size..i * size + size]
  {
    Nonlinear.Distribute(i - 1, 1, size);
    var at := (i - 1) * size;
    SubSlice(s, size, |s|, at, at + size);
  }

  lemma {:induction false} SubSlice(s: Bytes, a: nat, b: nat, c: nat, d: nat)
    requires c <= d && a + d <= b <= |s|
    ensures s[a..b][c..d] == s[a + c..a + d]
  {
    var (x, y) := (s[a..b][c..d], s[a + c..a + d]);
    assert |x| == |y|;
    forall k | 0 <= k < |x| ensures x[k] == y[k] { }
  }

  /** A ledger file is taken when it has 5136 bytes, the magic, version 1 and at most 64 entries. */
  lemma {:induction false} LedgerFileTaken(d: Bytes)
    ensures var s := Ledger.Load(Some(d));
      if |d| >= 5136 && d[..4] == Ascii("WXPL") && d[4] == 1 && d[5] <= 64 then
        |s| == d[5] as int && forall i :: 0 <= i < |s| ==> s[i] == Ledger.DecodeSlot(d[16 + 80 * i..96 + 80 * i])
      else s == []
  {
    hide Ledger.DecodeSlot, Ascii;
    FileNames();
    if |d| >= 5136 {
      var b := d[..5136];
      assert b[..4] == d[..4];
      if b[5] <= 64 {
        SlotsDecoded(b[16..], b[5] as int);
        forall i | 0 <= i < b[5] as int ensures b[16..][80 * i..80 * i + 80] == d[16 + 80 * i..96 + 80 * i] {
          SlotWithin(d, 5136, 80 * i);
        }
      }
    }
  }

  lemma {:induction false} SlotWithin(d: Bytes, end: nat, at: nat)
    requires 96 + at <= end <= |d|
    ensures d[..end][16..][at..at + 80] == d[16 + at..96 + at]
  {
    SubSlice(d[..end], 16, end, at, at + 80);
    SubSlice(d, 0, end, 16 + at, 96 + at);
  }

  lemma {:induction false} SlotsDecoded(b: Bytes, n: nat)
    requires |b| >= 80 * n
    ensures forall i :: 0 <= i < n ==> Ledger.DecodeSlots(b, n)[i] == Ledger.DecodeSlot(b[80 * i..80 * i + 80])
    decreases n
  {
    hide Ledger.DecodeSlot;
    if n > 0 { SlotsDecoded(b, n - 1); }
  }
}
