/** The three-message handshake: message formats and the transition function of one session. */
module EncounterSession {
  import opened Bits
  import opened Cbor
  import opened CborTree
  import opened EncounterRecord
  import opened Wrappers

  const MSG_MAX_BYTES: nat := 256
  const PROPOSE: nat := 1
  const ACCEPT: nat := 2
  const CONFIRM: nat := 3
  const MK_TYPE: nat := 1
  const MK_FILE_LIFETIME: nat := 10
  const MK_SIG: nat := 11

  type Prefix = s: Bytes | |s| == 8 witness seq(8, i => 0)

  datatype Role = Initiator | Responder
  datatype State = Init | AwaitAccept | AwaitConfirm | Done | Failed
  datatype Step = NeedWrite | NeedRead | Finished | Error

  /** What the local side contributes. */
  datatype Input = Input(
    pub: Pub, seed: Pub, nonce: Nonce, expectedPeer: Prefix,
    meetingCount: U64, repOfPeer: I32, bssids: seq<Bssid>,
    txToPeer: U64, rxFromPeer: U64, filesFromPeer: U64)

  datatype PerPeer = PerPeer(repOfPeer: I32, txToPeer: U64, rxFromPeer: U64, filesFromPeer: U64)

  /** The signature scheme and the responder's callback, as they answer during one call. */
  datatype Env = Env(
    sign: (Bytes, Bytes) -> Option<Sig>,
    check: (Bytes, Bytes, Bytes) -> bool,
    lateBind: Bytes -> Option<PerPeer>)

  datatype Session = Session(role: Role, state: State, me: Input, rec: Record)

  /** The result of a call: the session after it, the step code, the message to send, and the
      body that the call signed, if it signed one. */
  datatype Outcome = Outcome(session: Session, step: Step, out: Bytes, signed: Option<Bytes>)

  // ---- half messages ----

  /** The record field that message key m carries, for the side that sends it. */
  function RecordKey(sideB: bool, m: nat): (key: nat)
    requires 2 <= m <= MK_SIG
    ensures 1 <= key <= FULL_KEYS
    ensures ShapeOf(key) == MessageShape(m)
  {
    match m
    case 2 => 1
    case 3 => if sideB then 3 else 2
    case 4 => if sideB then 5 else 4
    case 5 => if sideB then 7 else 6
    case 6 => if sideB then 9 else 8
    case 7 => if sideB then 11 else 10
    case 8 => if sideB then 14 else 12
    case 9 => if sideB then 15 else 13
    case 10 => if sideB then 17 else 16
    case 11 => if sideB then 19 else 18
  }

  function MessageShape(m: nat): Shape
    requires 1 <= m <= MK_SIG
  {
    match m
    case 1 => CountShape
    case 2 => VersionShape
    case 3 => BlobShape(32)
    case 5 => RepShape
    case 6 => ScanShape
    case 7 => BlobShape(16)
    case 11 => BlobShape(64)
    case _ => CountShape
  }

  /** The first n entries of a PROPOSE or ACCEPT. */
  function HalfKids(msgType: nat, r: Record, sideB: bool, n: nat): (kids: seq<Value>)
    requires 1 <= n <= MK_SIG
    ensures |kids| == 2 * n
  {
    if n == 1 then [UInt(MK_TYPE), UInt(msgType)]
    else HalfKids(msgType, r, sideB, n - 1) + [UInt(n), ToValue(Get(r, RecordKey(sideB, n)))]
  }

  function LastKey(msgType: nat): (n: nat)
    ensures 1 <= n <= MK_SIG
  {
    if msgType == ACCEPT then MK_SIG else MK_FILE_LIFETIME
  }

  lemma {:induction false} HalfKidsFit(msgType: nat, r: Record, sideB: bool, n: nat)
    requires 1 <= n <= MK_SIG && msgType < 24 && Encodable(r)
    ensures AllFit(HalfKids(msgType, r, sideB, n)) && DepthAll(HalfKids(msgType, r, sideB, n)) <= 2
    ensures Fits(Map(HalfKids(msgType, r, sideB, n)))
    ensures |EncodeAll(HalfKids(msgType, r, sideB, n))| <= HalfRoom(n)
  {
    hide Get, Encode, ToValue, ShapeOf, Room, RecordKey, Fits, Depth, DepthAll, EncodeAll, Encodable;
    if n == 1 {
      TypeByte(msgType);
      PairEncoding(1, UInt(msgType));
    } else {
      var (before, key) := (HalfKids(msgType, r, sideB, n - 1), RecordKey(sideB, n));
      HalfKidsFit(msgType, r, sideB, n - 1);
      FieldFits(r, key);
      PairEncoding(n, ToValue(Get(r, key)));
      EncodeAllConcat(before, [UInt(n), ToValue(Get(r, key))]);
      DepthConcat(before, [UInt(n), ToValue(Get(r, key))]);
    }
    MapFits(HalfKids(msgType, r, sideB, n));
  }

  lemma {:induction false} TypeByte(t: nat)
    requires t < 24
    ensures Fits(UInt(t)) && |Encode(UInt(t))| == 1 && Depth(UInt(t)) == 0
  {
  }

  /** The most bytes that the first n entries take. */
  function HalfRoom(n: nat): nat
    requires 1 <= n <= MK_SIG
  {
    if n == 1 then 2 else HalfRoom(n - 1) + 1 + Room(MessageShape(n))
  }

  /** Encode a PROPOSE or ACCEPT; no bytes on failure. The version field is the record's own. */
  function EncodeHalf(msgType: nat, r: Record, sideB: bool, outMax: nat): (s: Bytes)
    requires msgType == PROPOSE || msgType == ACCEPT
    ensures s != [] <==> Encodable(r) && outMax >= MSG_MAX_BYTES
  {
    if outMax < MSG_MAX_BYTES || !Encodable(r) then []
    else
      HalfKidsFit(msgType, r, sideB, LastKey(msgType));
      Encode(Map(HalfKids(msgType, r, sideB, LastKey(msgType))))
  }

  /** Every half message fits the staging buffer. */
  lemma {:induction false} HalfLength(msgType: nat, r: Record, sideB: bool, outMax: nat)
    requires msgType == PROPOSE || msgType == ACCEPT
    ensures |EncodeHalf(msgType, r, sideB, outMax)| <= (if msgType == PROPOSE then 162 else 229) <= MSG_MAX_BYTES
  {
    hide HalfKids, EncodeAll, HalfRoom;
    if Encodable(r) && outMax >= MSG_MAX_BYTES {
      HalfKidsFit(msgType, r, sideB, LastKey(msgType));
      HalfTotals();
    }
  }

  lemma {:induction false} HalfTotals()
    ensures HalfRoom(10) == 161 && HalfRoom(11) == 228
  {
    assert HalfRoom(4) == 2 + 2 + 35 + 10;
    assert HalfRoom(8) == HalfRoom(4) + 6 + 58 + 18 + 10;
  }

  /** The field under an integer key, when present and of the right type. */
  function FindField(b: Bytes, p: nat, end: nat, pairs: nat, key: nat, shape: Shape): (f: Option<Field>)
    requires p <= end <= |b|
    ensures f.Some? ==> Accepts(shape, f.value) && (f.value.Scan? ==> |f.value.list| <= BSSID_MAX)
  {
    var item := FindInt(b, p, end, pairs, key);
    if item.None? then None else ReadField(b, end, shape, item.value)
  }

  /** Store message keys m to last into one side of the record. */
  function DecodeKeys(b: Bytes, top: Item, sideB: bool, m: nat, last: nat, r: Record): (out: Option<Record>)
    requires top.data <= |b| && 3 <= m && last <= MK_SIG
    decreases last - m
  {
    if m > last then Some(r)
    else
      var f := FindField(b, top.data, |b|, top.arg, m, MessageShape(m));
      if f.None? then None else DecodeKeys(b, top, sideB, m + 1, last, Set(r, RecordKey(sideB, m), f.value))
  }

  /** Decode a PROPOSE or ACCEPT into one side of the record. */
  function DecodeHalf(b: Bytes, msgType: nat, sideB: bool, r: Record): (out: Option<Record>)
    requires msgType == PROPOSE || msgType == ACCEPT
  {
    var top := Parse(b, 0, |b|, 0);
    if top.None? || top.value.kind != KMap then None
    else
      var t := top.value;
      if FindField(b, t.data, |b|, t.arg, 1, MessageShape(1)) != Some(Number(msgType)) then None
      else if FindField(b, t.data, |b|, t.arg, 2, MessageShape(2)) != Some(Number(RECORD_VERSION)) then None
      else DecodeKeys(b, t, sideB, 3, LastKey(msgType), r.(version := RECORD_VERSION))
  }

  function ConfirmKids(sig: Sig): seq<Value> {
    [UInt(MK_TYPE), UInt(CONFIRM), UInt(MK_SIG), Str(sig)]
  }

  function EncodeConfirm(sig: Sig, outMax: nat): (s: Bytes)
    ensures s != [] <==> outMax >= MSG_MAX_BYTES
  {
    if outMax < MSG_MAX_BYTES then [] else Encode(Map(ConfirmKids(sig)))
  }

  function DecodeConfirm(b: Bytes): (sig: Option<Sig>) {
    var top := Parse(b, 0, |b|, 0);
    if top.None? || top.value.kind != KMap then None
    else
      var t := top.value;
      if FindField(b, t.data, |b|, t.arg, 1, CountShape) != Some(Number(CONFIRM)) then None
      else
        var f := FindField(b, t.data, |b|, t.arg, MK_SIG, BlobShape(64));
        if f.None? then None else Some(f.value.s)
  }

  // ---- the transition function ----

  predicate PrefixMatches(prefix: Prefix, pub: Pub) {
    (forall i :: 0 <= i < 8 ==> prefix[i] == 0) || prefix == pub[..8]
  }

  /** Fill the local side of the record. */
  function FillHalf(r: Record, me: Input, sideB: bool): Record {
    if sideB then
      r.(pubB := me.pub, meetingCountB := me.meetingCount, repOfAByB := me.repOfPeer, bssidsB := me.bssids,
         nonceB := me.nonce, txBytesBToA := me.txToPeer, rxBytesBFromA := me.rxFromPeer, fileCountBFromA := me.filesFromPeer)
    else
      r.(pubA := me.pub, meetingCountA := me.meetingCount, repOfBByA := me.repOfPeer, bssidsA := me.bssids,
         nonceA := me.nonce, txBytesAToB := me.txToPeer, rxBytesAFromB := me.rxFromPeer, fileCountAFromB := me.filesFromPeer)
  }

  function FreshRecord(): Record {
    ZeroRecord().(version := RECORD_VERSION)
  }

  function Fail(s: Session): Outcome {
    Outcome(s.(state := Failed), Error, [], None)
  }

  /** Begin a session. */
  function Start(role: Role, me: Input, outMax: nat): (o: Outcome)
    ensures o.signed.None?
  {
    if |me.bssids| > BSSID_MAX || outMax < MSG_MAX_BYTES then Fail(Session(role, Failed, me, ZeroRecord()))
    else if role == Initiator then
      var rec := FillHalf(FreshRecord(), me, false);
      Outcome(Session(role, AwaitAccept, me, rec), NeedWrite, EncodeHalf(PROPOSE, rec, false, outMax), None)
    else Outcome(Session(role, Init, me, FreshRecord()), NeedRead, [], None)
  }

  /** The initiator receives an ACCEPT: check sig_b, sign, answer with CONFIRM. */
  function HandleAccept(s: Session, env: Env, msg: Bytes, outMax: nat): Outcome {
    var decoded := DecodeHalf(msg, ACCEPT, true, s.rec);
    if decoded.None? then Fail(s)
    else
      var t := s.(rec := decoded.value);
      var body := EncodeBody(t.rec);
      if !PrefixMatches(s.me.expectedPeer, t.rec.pubB) then Fail(t)
      else if body == [] then Fail(t)
      else if !env.check(t.rec.pubB, body, t.rec.sigB) then Fail(t)
      else
        var sig := env.sign(s.me.seed, body);
        if sig.None? then Fail(t)
        else
          var u := t.(rec := t.rec.(sigA := sig.value));
          var out := EncodeConfirm(sig.value, outMax);
          if out == [] then Fail(u).(signed := Some(body))
          else Outcome(u.(state := Done), NeedWrite, out, Some(body))
  }

  function Rebind(me: Input, p: Option<PerPeer>): Input {
    if p.None? then me
    else me.(repOfPeer := p.value.repOfPeer, txToPeer := p.value.txToPeer, rxFromPeer := p.value.rxFromPeer, filesFromPeer := p.value.filesFromPeer)
  }

  /** The responder receives a PROPOSE: fill its own side, sign, answer with ACCEPT. */
  function HandlePropose(s: Session, env: Env, msg: Bytes, outMax: nat): Outcome {
    var decoded := DecodeHalf(msg, PROPOSE, false, s.rec);
    if decoded.None? then Fail(s)
    else if !PrefixMatches(s.me.expectedPeer, decoded.value.pubA) then Fail(s.(rec := decoded.value))
    else
      var me := Rebind(s.me, env.lateBind(decoded.value.pubA));
      var t := s.(me := me, rec := FillHalf(decoded.value, me, true));
      var body := EncodeBody(t.rec);
      if body == [] then Fail(t)
      else
        var sig := env.sign(me.seed, body);
        if sig.None? then Fail(t)
        else
          var u := t.(rec := t.rec.(sigB := sig.value));
          var out := EncodeHalf(ACCEPT, u.rec, true, outMax);
          if out == [] then Fail(u).(signed := Some(body))
          else Outcome(u.(state := AwaitConfirm), NeedWrite, out, Some(body))
  }

  /** The responder receives a CONFIRM: check sig_a over the body it signed itself. */
  function HandleConfirm(s: Session, env: Env, msg: Bytes): Outcome {
    var sig := DecodeConfirm(msg);
    if sig.None? then Fail(s)
    else
      var t := s.(rec := s.rec.(sigA := sig.value));
      var body := EncodeBody(t.rec);
      if body == [] then Fail(t)
      else if !env.check(t.rec.pubA, body, t.rec.sigA) then Fail(t)
      else Outcome(t.(state := Done), Finished, [], None)
  }

  /** Drive a session with an incoming message. Nothing is absorbed: whatever arrives in a
      state that expects no message, DONE included, is an error. */
  function Handle(s: Session, env: Env, msg: Bytes, outMax: nat): Outcome {
    if outMax < MSG_MAX_BYTES then Fail(s)
    else if s.role == Initiator && s.state == AwaitAccept then HandleAccept(s, env, msg, outMax)
    else if s.role == Responder && s.state == Init then HandlePropose(s, env, msg, outMax)
    else if s.role == Responder && s.state == AwaitConfirm then HandleConfirm(s, env, msg)
    else Fail(s)
  }

  function TakeRecord(s: Session): Option<Record> {
    if s.state == Done then Some(s.rec) else None
  }

  // ---- messages read back ----

  /** The first entry with an integer key, read as a tree. */
  function TreeField(kids: seq<Value>, key: nat, shape: Shape): (f: Option<Field>)
    requires AllFit(kids) && |kids| % 2 == 0
    decreases |kids|
  {
    if kids == [] then None
    else if kids[0] == UInt(key) then FieldOf(shape, kids[1])
    else TreeField(kids[2..], key, shape)
  }

  /** Looking a key up in the bytes of an encoded map is looking it up in the map. */
  lemma {:induction false} FindFieldEncoded(kids: seq<Value>, b: Bytes, pos: nat, end: nat, key: nat, shape: Shape)
    requires AllFit(kids) && |kids| % 2 == 0 && DepthAll(kids) <= MAX_DEPTH + 1
    requires Holds(b, pos, end, EncodeAll(kids))
    ensures pos <= end <= |b| && FindField(b, pos, end, |kids| / 2, key, shape) == TreeField(kids, key, shape)
    decreases |kids|
  {
    hide Parse, Encode, EncodeAll, Holds, ItemOf, Fits, Depth, DepthAll, ReadField, FieldOf;
    HoldsInside(b, pos, end, EncodeAll(kids));
    if kids != [] {
      var k, v, rest := kids[0], kids[1], kids[2..];
      var mid, next := PairParsed(kids, b, pos, end);
      if k == UInt(key) {
        ReadFieldEncoded(shape, v, b, mid, end);
      } else {
        FindFieldEncoded(rest, b, next, end, key, shape);
      }
    }
  }

  lemma {:induction false} TreeFieldStep(kids: seq<Value>, key: nat, shape: Shape)
    requires AllFit(kids) && |kids| % 2 == 0 && |kids| >= 2
    ensures AllFit(kids[2..])
    ensures TreeField(kids, key, shape) == if kids[0] == UInt(key) then FieldOf(shape, kids[1]) else TreeField(kids[2..], key, shape)
  {
    hide Fits, FieldOf;
  }

  /** In a map whose keys are 1, 2, 3, ... the entry with key m is the m-th one. */
  lemma {:induction false} TreeFieldAt(kids: seq<Value>, from: nat, m: nat, shape: Shape)
    requires AllFit(kids) && |kids| % 2 == 0 && from < m <= |kids| / 2
    requires forall k :: 0 <= k < |kids| / 2 ==> kids[2 * k] == UInt(k + 1)
    ensures AllFit(kids[2 * from..]) && TreeField(kids[2 * from..], m, shape) == FieldOf(shape, kids[2 * m - 1])
    decreases m - from
  {
    hide Fits, FieldOf, TreeField;
    var rest := kids[2 * from..];
    assert rest[0] == kids[2 * from] && rest[1] == kids[2 * from + 1] && rest[2..] == kids[2 * (from + 1)..];
    TreeFieldStep(rest, m, shape);
    if from + 1 < m { TreeFieldAt(kids, from + 1, m, shape); }
  }

  lemma {:induction false} HalfKidsAt(msgType: nat, r: Record, sideB: bool, n: nat, k: nat)
    requires 1 <= k <= n <= MK_SIG
    ensures HalfKids(msgType, r, sideB, n)[2 * k - 2] == UInt(k)
    ensures HalfKids(msgType, r, sideB, n)[2 * k - 1] == if k == 1 then UInt(msgType) else ToValue(Get(r, RecordKey(sideB, k)))
  {
    hide Get, RecordKey, ToValue;
    if k < n { HalfKidsAt(msgType, r, sideB, n - 1, k); }
  }

  /** Every field that a half message carries is found under its key. */
  lemma {:induction false} HalfFieldFound(msgType: nat, r: Record, sideB: bool, n: nat, m: nat)
    requires Encodable(r) && 2 <= m <= n <= MK_SIG && AllFit(HalfKids(msgType, r, sideB, n))
    ensures TreeField(HalfKids(msgType, r, sideB, n), m, MessageShape(m)) == Some(Get(r, RecordKey(sideB, m)))
  {
    hide Get, ToValue, Fits, FieldOf, TreeField, Encodable, HalfKids, MessageShape, RecordKey;
    var kids, key := HalfKids(msgType, r, sideB, n), RecordKey(sideB, m);
    forall k | 0 <= k < |kids| / 2 ensures kids[2 * k] == UInt(k + 1) { HalfKidsAt(msgType, r, sideB, n, k + 1); }
    HalfKidsAt(msgType, r, sideB, n, m);
    TreeFieldAt(kids, 0, m, MessageShape(m));
    assert kids[2 * 0..] == kids;
    FieldFits(r, key);
    ScanLimit(r, key);
    FieldOfValue(MessageShape(m), Get(r, key));
  }

  lemma {:induction false} HalfTypeFound(msgType: nat, r: Record, sideB: bool, n: nat)
    requires 1 <= n <= MK_SIG && AllFit(HalfKids(msgType, r, sideB, n)) && msgType < 24
    ensures TreeField(HalfKids(msgType, r, sideB, n), 1, MessageShape(1)) == Some(Number(msgType))
  {
    hide Get, ToValue, Fits, TreeField, HalfKids, RecordKey;
    HalfKidsAt(msgType, r, sideB, n, 1);
    TreeFieldStep(HalfKids(msgType, r, sideB, n), 1, MessageShape(1));
  }

  /** The bytes of an encoded map parse as a map with that many entries, whose bytes follow. */
  lemma {:induction false} TopMap(kids: seq<Value>, tail: Bytes) returns (top: Item)
    requires Fits(Map(kids)) && DepthAll(kids) <= MAX_DEPTH
    ensures Parse(Encode(Map(kids)) + tail, 0, |Encode(Map(kids)) + tail|, 0) == Some(top)
    ensures |kids| % 2 == 0 && AllFit(kids) && top.kind == KMap && top.arg == |kids| / 2
    ensures Holds(Encode(Map(kids)) + tail, top.data, |Encode(Map(kids)) + tail|, EncodeAll(kids))
  {
    hide Parse, Header, EncodeAll, Depth, DepthAll;
    var v := Map(kids);
    var h, b := Header(5, |kids| / 2), Encode(v) + tail;
    assert Encode(v) == h + EncodeAll(kids);
    assert b[0..0 + |Encode(v)|] == Encode(v);
    assert b[|h|..|h| + |EncodeAll(kids)|] == EncodeAll(kids);
    MapDepth(kids);
    ParseEncoded(v, b, 0, |b|, 0);
    top := ItemOf(v, 0);
  }

  /** The sender's side of the record replaces the receiver's: message keys m to last. */
  function Received(sideB: bool, m: nat, last: nat, r: Record, from: Record): Record
    requires 3 <= m && last <= MK_SIG
    decreases last - m
  {
    if m > last then r
    else Received(sideB, m + 1, last, Set(r, RecordKey(sideB, m), Get(from, RecordKey(sideB, m))), from)
  }

  lemma {:induction false} DecodeKeysEncoded(b: Bytes, top: Item, msgType: nat, from: Record, sideB: bool, m: nat, last: nat, r: Record)
    requires 3 <= m && last <= MK_SIG && Encodable(from) && top.data <= |b|
    requires last >= 1 && AllFit(HalfKids(msgType, from, sideB, last)) && DepthAll(HalfKids(msgType, from, sideB, last)) <= MAX_DEPTH + 1
    requires Holds(b, top.data, |b|, EncodeAll(HalfKids(msgType, from, sideB, last))) && top.arg == last
    ensures DecodeKeys(b, top, sideB, m, last, r) == Some(Received(sideB, m, last, r, from))
    decreases last - m
  {
    hide Get, Set, HalfKids, EncodeAll, Holds, DepthAll, Fits, RecordKey, MessageShape, FindField, TreeField, Encodable;
    if m <= last {
      FindFieldEncoded(HalfKids(msgType, from, sideB, last), b, top.data, |b|, m, MessageShape(m));
      HalfFieldFound(msgType, from, sideB, last, m);
      DecodeKeysEncoded(b, top, msgType, from, sideB, m + 1, last, Set(r, RecordKey(sideB, m), Get(from, RecordKey(sideB, m))));
    }
  }

  /** Receiving a half message copies the sender's side into the receiver's record, and the
      signature when the message is an ACCEPT. */
  lemma {:induction false} DecodeHalfEncoded(msgType: nat, from: Record, sideB: bool, outMax: nat, tail: Bytes, r: Record)
    requires msgType == PROPOSE || msgType == ACCEPT
    requires Encodable(from) && outMax >= MSG_MAX_BYTES
    ensures DecodeHalf(EncodeHalf(msgType, from, sideB, outMax) + tail, msgType, sideB, r)
         == Some(Received(sideB, 3, LastKey(msgType), r.(version := RECORD_VERSION), from))
  {
    hide Parse, Encode, EncodeAll, HalfKids, Holds, Depth, DepthAll, Fits, FindField, TreeField, DecodeKeys, Received, MessageShape, Encodable;
    var last := LastKey(msgType);
    var kids := HalfKids(msgType, from, sideB, last);
    HalfKidsFit(msgType, from, sideB, last);
    EncodableVersion(from);
    var b := Encode(Map(kids)) + tail;
    var top := TopMap(kids, tail);
    HalfTypeFound(msgType, from, sideB, last);
    FindFieldEncoded(kids, b, top.data, |b|, 1, MessageShape(1));
    HalfFieldFound(msgType, from, sideB, last, 2);
    GetVersion(from);
    FindFieldEncoded(kids, b, top.data, |b|, 2, MessageShape(2));
    DecodeKeysEncoded(b, top, msgType, from, sideB, 3, last, r.(version := RECORD_VERSION));
  }

  lemma {:induction false} MapFits(kids: seq<Value>)
    requires AllFit(kids) && |kids| < 0x1_0000_0000 && |kids| % 2 == 0
    ensures Fits(Map(kids))
  {
  }

  lemma {:induction false} DecodeConfirmEncoded(sig: Sig, outMax: nat, tail: Bytes)
    requires outMax >= MSG_MAX_BYTES
    ensures DecodeConfirm(EncodeConfirm(sig, outMax) + tail) == Some(sig)
  {
    hide Parse, Encode, EncodeAll, Holds, FindField, TreeField;
    var kids := ConfirmKids(sig);
    PairEncoding(MK_TYPE, UInt(CONFIRM));
    PairEncoding(MK_SIG, Str(sig));
    DepthConcat([UInt(MK_TYPE), UInt(CONFIRM)], [UInt(MK_SIG), Str(sig)]);
    assert kids == [UInt(MK_TYPE), UInt(CONFIRM)] + [UInt(MK_SIG), Str(sig)];
    assert AllFit(kids);
    MapFits(kids);
    var b := Encode(Map(kids)) + tail;
    var top := TopMap(kids, tail);
    FindFieldEncoded(kids, b, top.data, |b|, 1, CountShape);
    FindFieldEncoded(kids, b, top.data, |b|, MK_SIG, BlobShape(64));
    TreeFieldStep(kids, 1, CountShape);
    TreeFieldStep(kids, MK_SIG, BlobShape(64));
    TreeFieldStep(kids[2..], MK_SIG, BlobShape(64));
  }
}
