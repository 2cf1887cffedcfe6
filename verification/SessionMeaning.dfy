/** When a session moves on, and to what: every call of the handshake, success and failure. */
module SessionMeaning {
  import opened Bits
  import opened Cbor
  import opened CborTree
  import opened Commands
  import opened EncounterRecord
  import opened EncounterSession
  import opened Formats
  import opened Handshake
  import opened Wrappers

  predicate Refused(o: Outcome) {
    o.session.state == Failed && o.step == Error && o.out == []
  }

  /** Its own side, as a session sends it. */
  function Own(msgType: nat, me: Input): seq<Value> {
    SideEntries(msgType, 1, me.pub, me.meetingCount, me.repOfPeer, me.bssids, me.nonce, me.txToPeer, me.rxFromPeer, me.filesFromPeer)
  }

  /** A session begins unless it has more than eight BSSIDs or too little room; the initiator
      proposes its side. */
  lemma {:induction false} StartExactly(role: Role, me: Input, outMax: nat)
    ensures var o := Start(role, me, outMax);
      && o.session.role == role && o.session.me == me
      && (|me.bssids| > 8 || outMax < 256 ==> Refused(o))
      && (|me.bssids| <= 8 && outMax >= 256 && role == Responder ==> o.session.state == Init && o.step == NeedRead && o.out == [] && o.session.rec.version == 1)
      && (|me.bssids| <= 8 && outMax >= 256 && role == Initiator ==>
        && o.session.state == AwaitAccept && o.step == NeedWrite && o.out == Reply(Own(1, me))
        && var r := o.session.rec;
          && r.version == 1 && r.pubA == me.pub && r.meetingCountA == me.meetingCount && r.repOfBByA == me.repOfPeer && r.bssidsA == me.bssids
          && r.nonceA == me.nonce && r.txBytesAToB == me.txToPeer && r.rxBytesAFromB == me.rxFromPeer && r.fileCountAFromB == me.filesFromPeer)
  {
    hide HalfKids, EncodeHalf, Encode, SideEntries;
    if |me.bssids| <= 8 && outMax >= 256 && role == Initiator {
      var r := Start(role, me, outMax).session.rec;
      MessagesAre(r, r.sigB, outMax);
      HalfIs(1, r);
    }
  }

  /** What a responder contributes to a record: the callback may replace four of its numbers. */
  function Contribution(me: Input, p: Option<PerPeer>): Input {
    if p.None? then me
    else Input(me.pub, me.seed, me.nonce, me.expectedPeer, me.meetingCount, p.value.repOfPeer, me.bssids, p.value.txToPeer, p.value.rxFromPeer, p.value.filesFromPeer)
  }

  /** The record when a responder has put in its side. */
  function Joined(r: Record, me: Input): Record {
    Record(r.version, r.pubA, me.pub, r.meetingCountA, me.meetingCount, r.repOfBByA, me.repOfPeer, r.bssidsA, me.bssids, r.nonceA, me.nonce,
      r.txBytesAToB, r.rxBytesAFromB, me.txToPeer, me.rxFromPeer, r.fileCountAFromB, me.filesFromPeer, r.sigA, r.sigB)
  }

  /** A responder answers a PROPOSE exactly when it can be read, comes from a peer that is expected,
      makes a record that can be encoded and is signed; the answer is its side with the signature. */
  lemma {:induction false} ProposeExactly(s: Session, env: Env, msg: Bytes, outMax: nat)
    requires s.role == Responder && s.state == Init
    ensures var (o, half) := (Handle(s, env, msg, outMax), DecodeHalf(msg, PROPOSE, false, s.rec));
      if outMax < 256 || half.None? || !Expects(s.me.expectedPeer, half.value.pubA) then Refused(o)
      else
        var me := Contribution(s.me, env.lateBind(half.value.pubA));
        var rec := Joined(half.value, me);
        var sig := env.sign(s.me.seed, EncodeBody(rec));
        if EncodeBody(rec) == [] || sig.None? then Refused(o)
        else
          && o.step == NeedWrite && o.session == Session(Responder, AwaitConfirm, me, rec.(sigB := sig.value))
          && o.out == Reply(Own(2, me) + [UInt(11), Str(sig.value)])
  {
    hide HalfKids, EncodeHalf, EncodeBody, Encode, SideEntries, PrefixMatches, Expects, DecodeHalf;
    var half := DecodeHalf(msg, PROPOSE, false, s.rec);
    if outMax >= 256 && half.Some? {
      ExpectsIs(s.me.expectedPeer, half.value.pubA);
      var me := Contribution(s.me, env.lateBind(half.value.pubA));
      assert me == Rebind(s.me, env.lateBind(half.value.pubA));
      var rec := Joined(half.value, me);
      assert rec == FillHalf(half.value, me, true);
      var sig := env.sign(s.me.seed, EncodeBody(rec));
      if EncodeBody(rec) != [] && sig.Some? {
        var signed := rec.(sigB := sig.value);
        MessagesAre(signed, sig.value, outMax);
        HalfIs(2, signed);
      }
    }
  }

  /** An initiator confirms exactly when the ACCEPT can be read, comes from a peer that is expected
      and carries the peer's signature over the record, and it signs the record too. */
  lemma {:induction false} AcceptExactly(s: Session, env: Env, msg: Bytes, outMax: nat)
    requires s.role == Initiator && s.state == AwaitAccept
    ensures var (o, half) := (Handle(s, env, msg, outMax), DecodeHalf(msg, ACCEPT, true, s.rec));
      if outMax < 256 || half.None? || !Expects(s.me.expectedPeer, half.value.pubB) then Refused(o)
      else
        var (rec, body) := (half.value, EncodeBody(half.value));
        var sig := env.sign(s.me.seed, body);
        if body == [] || !env.check(rec.pubB, body, rec.sigB) || sig.None? then Refused(o)
        else
          && o.step == NeedWrite && o.session == Session(Initiator, Done, s.me, rec.(sigA := sig.value))
          && o.out == Reply([UInt(1), UInt(3), UInt(11), Str(sig.value)])
  {
    hide EncodeBody, Encode, PrefixMatches, Expects, DecodeHalf, EncodeConfirm;
    var half := DecodeHalf(msg, ACCEPT, true, s.rec);
    if outMax >= 256 && half.Some? {
      ExpectsIs(s.me.expectedPeer, half.value.pubB);
      var sig := env.sign(s.me.seed, EncodeBody(half.value));
      if sig.Some? { ConfirmIs(sig.value, outMax); }
    }
  }

  lemma {:induction false} ConfirmIs(sig: Sig, outMax: nat)
    ensures EncodeConfirm(sig, outMax) == if outMax < 256 then [] else Reply([UInt(1), UInt(3), UInt(11), Str(sig)])
  {
    hide Encode, Fits;
    ConfirmFits(sig);
  }

  /** A responder completes exactly when the CONFIRM carries the peer's signature over the record. */
  lemma {:induction false} ConfirmExactly(s: Session, env: Env, msg: Bytes, outMax: nat)
    requires s.role == Responder && s.state == AwaitConfirm
    ensures var (o, sig) := (Handle(s, env, msg, outMax), DecodeConfirm(msg));
      if outMax < 256 || sig.None? || EncodeBody(s.rec) == [] || !env.check(s.rec.pubA, EncodeBody(s.rec), sig.value) then Refused(o)
      else o.step == Finished && o.session == s.(state := Done, rec := s.rec.(sigA := sig.value)) && o.out == []
  {
    hide EncodeBody, DecodeConfirm;
    var sig := DecodeConfirm(msg);
    if sig.Some? { SameBodyEncodes(s.rec, s.rec.(sigA := sig.value)); }
  }

  /** No other state expects a message, and only DONE has a record. */
  lemma {:induction false} NothingElse(s: Session, env: Env, msg: Bytes, outMax: nat)
    ensures (s.role == Initiator && s.state != AwaitAccept) || (s.role == Responder && s.state != Init && s.state != AwaitConfirm)
      ==> Refused(Handle(s, env, msg, outMax))
    ensures TakeRecord(s) == if s.state == Done then Some(s.rec) else None
  {
    hide HandleAccept, HandlePropose, HandleConfirm;
  }
}
