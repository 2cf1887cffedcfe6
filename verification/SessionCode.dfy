/** The handshake session as an object that each message updates in place, proved equal to the
    transition function. */
module SessionCode {
  import opened Bits
  import opened Cbor
  import opened CborCode
  import opened CborTree
  import opened EncounterRecord
  import opened EncounterSession
  import opened RecordCode
  import opened Wrappers

  // ---- messages ----

  lemma {:induction false} HalfNext(msgType: nat, r: Record, sideB: bool, n: nat)
    requires 2 <= n <= MK_SIG
    ensures HalfKids(msgType, r, sideB, n) == HalfKids(msgType, r, sideB, n - 1) + [UInt(n), ToValue(Get(r, RecordKey(sideB, n)))]
  {
  }

  lemma {:induction false} HalfFirst(msgType: nat, r: Record, sideB: bool)
    ensures [] + [UInt(MK_TYPE), UInt(msgType)] == HalfKids(msgType, r, sideB, 1)
  {
  }

  /** Encode one side of a record as a PROPOSE or ACCEPT. */
  method EncodeHalfInto(buf: array<U8>, msgType: nat, r: Record, sideB: bool) returns (n: nat)
    requires msgType == PROPOSE || msgType == ACCEPT
    modifies buf
    ensures n == |EncodeHalf(msgType, r, sideB, buf.Length)| <= buf.Length
    ensures buf[..] == Splice(old(buf[..]), 0, EncodeHalf(msgType, r, sideB, buf.Length))
  {
    hide Splice, Encode, EncodeAll, HalfKids, MapSoFar;
    ghost var orig := buf[..];
    SpliceNothing(orig);
    if buf.Length < MSG_MAX_BYTES || !Encodable(r) { return 0; }
    var last := LastKey(msgType);
    var p := PutHeader(buf, last);
    p := PutNumber(buf, p, 1, msgType, orig, last, []);
    HalfFirst(msgType, r, sideB);
    p := PutNumber(buf, p, 2, r.version, orig, last, HalfKids(msgType, r, sideB, 1));
    HalfNext(msgType, r, sideB, 2);
    p := PutBytes(buf, p, 3, if sideB then r.pubB else r.pubA, orig, last, HalfKids(msgType, r, sideB, 2));
    HalfNext(msgType, r, sideB, 3);
    p := PutNumber(buf, p, 4, if sideB then r.meetingCountB else r.meetingCountA, orig, last, HalfKids(msgType, r, sideB, 3));
    HalfNext(msgType, r, sideB, 4);
    p := PutInt(buf, p, 5, if sideB then r.repOfAByB else r.repOfBByA, orig, last, HalfKids(msgType, r, sideB, 4));
    HalfNext(msgType, r, sideB, 5);
    p := PutBssids(buf, p, 6, if sideB then r.bssidsB else r.bssidsA, orig, last, HalfKids(msgType, r, sideB, 5));
    HalfNext(msgType, r, sideB, 6);
    p := PutOffer(buf, p, msgType, r, sideB, orig, last);
    if msgType == ACCEPT {
      p := PutBytes(buf, p, 11, if sideB then r.sigB else r.sigA, orig, last, HalfKids(msgType, r, sideB, 10));
      HalfNext(msgType, r, sideB, 11);
    }
    MapDone(buf[..], orig, p, last, HalfKids(msgType, r, sideB, last));
    return p;
  }

  /** What a side offers: its nonce and totals. */
  method PutOffer(buf: array<U8>, first: nat, msgType: nat, r: Record, sideB: bool, ghost orig: Bytes, ghost last: nat) returns (p: nat)
    requires (msgType == PROPOSE || msgType == ACCEPT) && last == LastKey(msgType)
    requires MapSoFar(buf[..], orig, first, last, HalfKids(msgType, r, sideB, 6)) && first + 48 <= buf.Length == |orig|
    modifies buf
    ensures MapSoFar(buf[..], orig, p, last, HalfKids(msgType, r, sideB, 10)) && p <= first + 48
  {
    hide Splice, Encode, EncodeAll, HalfKids, MapSoFar;
    p := PutBytes(buf, first, 7, if sideB then r.nonceB else r.nonceA, orig, last, HalfKids(msgType, r, sideB, 6));
    HalfNext(msgType, r, sideB, 7);
    p := PutNumber(buf, p, 8, if sideB then r.txBytesBToA else r.txBytesAToB, orig, last, HalfKids(msgType, r, sideB, 7));
    HalfNext(msgType, r, sideB, 8);
    p := PutNumber(buf, p, 9, if sideB then r.rxBytesBFromA else r.rxBytesAFromB, orig, last, HalfKids(msgType, r, sideB, 8));
    HalfNext(msgType, r, sideB, 9);
    p := PutNumber(buf, p, 10, if sideB then r.fileCountBFromA else r.fileCountAFromB, orig, last, HalfKids(msgType, r, sideB, 9));
    HalfNext(msgType, r, sideB, 10);
  }

  method EncodeConfirmInto(buf: array<U8>, sig: Sig) returns (n: nat)
    modifies buf
    ensures n == |EncodeConfirm(sig, buf.Length)| <= buf.Length
    ensures buf[..] == Splice(old(buf[..]), 0, EncodeConfirm(sig, buf.Length))
  {
    hide Splice, Encode, EncodeAll, MapSoFar;
    ghost var orig := buf[..];
    SpliceNothing(orig);
    if buf.Length < MSG_MAX_BYTES { return 0; }
    var p := PutHeader(buf, 2);
    p := PutNumber(buf, p, MK_TYPE, CONFIRM, orig, 2, []);
    p := PutBytes(buf, p, MK_SIG, sig, orig, 2, [] + [UInt(MK_TYPE), UInt(CONFIRM)]);
    assert [] + [UInt(MK_TYPE), UInt(CONFIRM)] + [UInt(MK_SIG), Str(sig)] == ConfirmKids(sig);
    MapDone(buf[..], orig, p, 2, ConfirmKids(sig));
    return p;
  }

  /** Look a key up and read its value. */
  method ReadKey(b: Bytes, top: Item, key: nat, shape: Shape) returns (f: Option<Field>)
    requires top.data <= |b|
    ensures f == FindField(b, top.data, |b|, top.arg, key, shape)
  {
    hide FindInt, ReadScan;
    var item := FindIntKey(b, top.data, |b|, top.arg, key);
    if item.None? { return None; }
    if shape.ScanShape? {
      if item.value.kind != KArray || item.value.arg > BSSID_MAX { return None; }
      var list := DecodeBssids(b, item.value.data, |b|, item.value.arg);
      return if list.None? then None else Some(Scan(list.value));
    }
    return ReadField(b, |b|, shape, item.value);
  }

  /** Store the field under message key m. */
  method StoreKey(b: Bytes, top: Item, sideB: bool, m: nat, r: Option<Record>, ghost last: nat) returns (out: Option<Record>)
    requires top.data <= |b| && 3 <= m <= last <= MK_SIG
    ensures (if r.None? then None else DecodeKeys(b, top, sideB, m, last, r.value))
         == (if out.None? then None else DecodeKeys(b, top, sideB, m + 1, last, out.value))
  {
    hide FindField;
    if r.None? { return None; }
    var f := ReadKey(b, top, m, MessageShape(m));
    if f.None? { return None; }
    return Some(Set(r.value, RecordKey(sideB, m), f.value));
  }

  method DecodeHalfMessage(b: Bytes, msgType: nat, sideB: bool, r: Record) returns (out: Option<Record>)
    requires msgType == PROPOSE || msgType == ACCEPT
    ensures out == DecodeHalf(b, msgType, sideB, r)
  {
    hide Parse, FindField, DecodeKeys;
    var parsed := CborParse(b, 0, |b|, 0);
    if parsed.None? || parsed.value.kind != KMap { return None; }
    var top := parsed.value;
    var f := ReadKey(b, top, MK_TYPE, MessageShape(1));
    if f != Some(Number(msgType)) { return None; }
    f := ReadKey(b, top, 2, MessageShape(2));
    if f != Some(Number(RECORD_VERSION)) { return None; }
    ghost var last := LastKey(msgType);
    out := Some(r.(version := RECORD_VERSION));
    out := StoreKey(b, top, sideB, 3, out, last);
    out := StoreKey(b, top, sideB, 4, out, last);
    out := StoreKey(b, top, sideB, 5, out, last);
    out := StoreKey(b, top, sideB, 6, out, last);
    out := StoreKey(b, top, sideB, 7, out, last);
    out := StoreKey(b, top, sideB, 8, out, last);
    out := StoreKey(b, top, sideB, 9, out, last);
    out := StoreKey(b, top, sideB, 10, out, last);
    if msgType == ACCEPT {
      out := StoreKey(b, top, sideB, 11, out, last);
    }
    if out.Some? { KeysDone(b, top, sideB, LastKey(msgType), out.value); }
  }

  lemma {:induction false} KeysDone(b: Bytes, top: Item, sideB: bool, last: nat, r: Record)
    requires top.data <= |b| && 2 <= last <= MK_SIG
    ensures DecodeKeys(b, top, sideB, last + 1, last, r) == Some(r)
  {
  }

  method DecodeConfirmMessage(b: Bytes) returns (sig: Option<Sig>)
    ensures sig == DecodeConfirm(b)
  {
    hide Parse, FindField;
    var parsed := CborParse(b, 0, |b|, 0);
    if parsed.None? || parsed.value.kind != KMap { return None; }
    var f := ReadKey(b, parsed.value, MK_TYPE, CountShape);
    if f != Some(Number(CONFIRM)) { return None; }
    f := ReadKey(b, parsed.value, MK_SIG, BlobShape(64));
    if f.None? { return None; }
    return Some(f.value.s);
  }

  // ---- the session object ----

  class SessionObject {
    var role: Role
    var state: State
    var me: Input
    var rec: Record
    const bodyBuf: array<U8>

    ghost function View(): Session
      reads this
    {
      Session(role, state, me, rec)
    }

    predicate Valid() {
      bodyBuf.Length == BODY_MAX_BYTES
    }

    constructor (me: Input)
      ensures Valid() && fresh(bodyBuf)
    {
      role, state := Initiator, Init;
      this.me := me;
      rec := ZeroRecord();
      bodyBuf := new U8[384](i => 0);
    }

    /** The encoded body, through the session's scratch buffer. */
    method Body() returns (body: Bytes)
      requires Valid()
      modifies bodyBuf
      ensures body == EncodeBody(rec)
    {
      hide EncodeRecord;
      var n := EncodeRecordInto(rec, bodyBuf, false);
      body := bodyBuf[..n];
      SplicePrefix(old(bodyBuf[..]), EncodeRecord(rec, bodyBuf.Length, false));
    }

    method StartSession(role: Role, me: Input, outBuf: array<U8>) returns (step: Step, outLen: nat)
      requires Valid() && outBuf != bodyBuf
      modifies this, outBuf
      ensures var o := Start(role, me, outBuf.Length);
        && View() == o.session && step == o.step && outLen == |o.out| <= outBuf.Length
        && outBuf[..] == Splice(old(outBuf[..]), 0, o.out)
    {
      hide EncodeHalf, Splice;
      SpliceNothing(outBuf[..]);
      this.role := role;
      this.me := me;
      rec := ZeroRecord();
      if |me.bssids| > BSSID_MAX || outBuf.Length < MSG_MAX_BYTES {
        state := Failed;
        return Error, 0;
      }
      rec := rec.(version := RECORD_VERSION);
      if role == Initiator {
        rec := FillHalf(rec, me, false);
        outLen := EncodeHalfInto(outBuf, PROPOSE, rec, false);
        state := AwaitAccept;
        return NeedWrite, outLen;
      }
      state := Init;
      return NeedRead, 0;
    }

    method Accepted(env: Env, msg: Bytes, outBuf: array<U8>) returns (step: Step, outLen: nat)
      requires Valid() && outBuf != bodyBuf
      modifies this, bodyBuf, outBuf
      ensures var o := HandleAccept(old(View()), env, msg, outBuf.Length);
        && View() == o.session && step == o.step && outLen == |o.out| <= outBuf.Length
        && outBuf[..] == Splice(old(outBuf[..]), 0, o.out)
    {
      hide EncodeConfirm, Splice, DecodeHalf, EncodeBody, PrefixMatches, Valid;
      SpliceNothing(outBuf[..]);
      var decoded := DecodeHalfMessage(msg, ACCEPT, true, rec);
      if decoded.None? { state := Failed; return Error, 0; }
      rec := decoded.value;
      if !PrefixMatches(me.expectedPeer, rec.pubB) { state := Failed; return Error, 0; }
      var body := Body();
      if body == [] { state := Failed; return Error, 0; }
      if !env.check(rec.pubB, body, rec.sigB) { state := Failed; return Error, 0; }
      var sig := env.sign(me.seed, body);
      if sig.None? { state := Failed; return Error, 0; }
      rec := rec.(sigA := sig.value);
      outLen := EncodeConfirmInto(outBuf, rec.sigA);
      if outLen == 0 { state := Failed; return Error, 0; }
      state := Done;
      return NeedWrite, outLen;
    }

    method Proposed(env: Env, msg: Bytes, outBuf: array<U8>) returns (step: Step, outLen: nat)
      requires Valid() && outBuf != bodyBuf
      modifies this, bodyBuf, outBuf
      ensures var o := HandlePropose(old(View()), env, msg, outBuf.Length);
        && View() == o.session && step == o.step && outLen == |o.out| <= outBuf.Length
        && outBuf[..] == Splice(old(outBuf[..]), 0, o.out)
    {
      hide EncodeHalf, Splice, DecodeHalf, EncodeBody, PrefixMatches, Valid;
      SpliceNothing(outBuf[..]);
      var decoded := DecodeHalfMessage(msg, PROPOSE, false, rec);
      if decoded.None? { state := Failed; return Error, 0; }
      rec := decoded.value;
      if !PrefixMatches(me.expectedPeer, rec.pubA) { state := Failed; return Error, 0; }
      var peer := env.lateBind(rec.pubA);
      if peer.Some? {
        me := me.(repOfPeer := peer.value.repOfPeer, txToPeer := peer.value.txToPeer,
                  rxFromPeer := peer.value.rxFromPeer, filesFromPeer := peer.value.filesFromPeer);
      }
      rec := FillHalf(rec, me, true);
      var body := Body();
      if body == [] { state := Failed; return Error, 0; }
      var sig := env.sign(me.seed, body);
      if sig.None? { state := Failed; return Error, 0; }
      rec := rec.(sigB := sig.value);
      outLen := EncodeHalfInto(outBuf, ACCEPT, rec, true);
      if outLen == 0 { state := Failed; return Error, 0; }
      state := AwaitConfirm;
      return NeedWrite, outLen;
    }

    method Confirmed(env: Env, msg: Bytes) returns (step: Step)
      requires Valid()
      modifies this, bodyBuf
      ensures var o := HandleConfirm(old(View()), env, msg); View() == o.session && step == o.step && o.out == []
    {
      hide DecodeConfirm, EncodeBody, Valid;
      var sig := DecodeConfirmMessage(msg);
      if sig.None? { state := Failed; return Error; }
      rec := rec.(sigA := sig.value);
      var body := Body();
      if body == [] { state := Failed; return Error; }
      if !env.check(rec.pubA, body, rec.sigA) { state := Failed; return Error; }
      state := Done;
      return Finished;
    }

    method HandleMessage(env: Env, msg: Bytes, outBuf: array<U8>) returns (step: Step, outLen: nat)
      requires Valid() && outBuf != bodyBuf
      modifies this, bodyBuf, outBuf
      ensures var o := Handle(old(View()), env, msg, outBuf.Length);
        && View() == o.session && step == o.step && outLen == |o.out| <= outBuf.Length
        && outBuf[..] == Splice(old(outBuf[..]), 0, o.out)
    {
      hide HandleAccept, HandlePropose, HandleConfirm, Splice, Valid;
      SpliceNothing(outBuf[..]);
      if outBuf.Length < MSG_MAX_BYTES { state := Failed; return Error, 0; }
      if role == Initiator {
        if state == AwaitAccept {
          step, outLen := Accepted(env, msg, outBuf);
          return;
        }
      } else {
        if state == Init {
          step, outLen := Proposed(env, msg, outBuf);
          return;
        }
        if state == AwaitConfirm {
          step := Confirmed(env, msg);
          return step, 0;
        }
      }
      state := Failed;
      return Error, 0;
    }

    method Take() returns (out: Option<Record>)
      ensures out == TakeRecord(View())
    {
      if state != Done { return None; }
      return Some(rec);
    }
  }

  lemma {:induction false} SplicePrefix(buf: Bytes, s: Bytes)
    requires |s| <= |buf|
    ensures Splice(buf, 0, s)[..|s|] == s
  {
  }
}
