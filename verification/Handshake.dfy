/** What the handshake guarantees: agreement of the two parties over any number of sessions and
    a network that may lose, repeat, reorder, alter or invent messages. */
module Handshake {
  import opened Cbor
  import opened EncounterRecord
  import opened EncounterSession
  import opened Wrappers

  // ---- one call ----

  function PeerPub(s: Session): Pub {
    if s.role == Initiator then s.rec.pubB else s.rec.pubA
  }

  function PeerSig(s: Session): Sig {
    if s.role == Initiator then s.rec.sigB else s.rec.sigA
  }

  /** The record names the session's own key on its own side. */
  predicate OwnSide(s: Session) {
    s.me.pub == (if s.role == Initiator then s.rec.pubA else s.rec.pubB)
  }

  /** The states in which a session has not signed yet. */
  predicate Fresh(s: Session) {
    s.state == Init || s.state == AwaitAccept
  }

  lemma {:induction false} SetKeepsOwn(r: Record, sideB: bool, m: nat, f: Field)
    requires 3 <= m <= MK_SIG && Accepts(MessageShape(m), f)
    ensures var key := RecordKey(sideB, m);
      && 1 <= key <= FULL_KEYS && Accepts(ShapeOf(key), f)
      && if sideB then Set(r, key, f).pubA == r.pubA else Set(r, key, f).pubB == r.pubB
  {
  }

  lemma {:induction false} DecodeKeysKeepsOwn(b: Bytes, top: Item, sideB: bool, m: nat, last: nat, r: Record)
    requires top.data <= |b| && 3 <= m && last <= MK_SIG
    ensures var out := DecodeKeys(b, top, sideB, m, last, r);
      out.Some? ==> (if sideB then out.value.pubA == r.pubA else out.value.pubB == r.pubB)
    decreases last - m
  {
    hide FindField, MessageShape, Set;
    if m <= last {
      var f := FindField(b, top.data, |b|, top.arg, m, MessageShape(m));
      if f.Some? {
        SetKeepsOwn(r, sideB, m, f.value);
        DecodeKeysKeepsOwn(b, top, sideB, m + 1, last, Set(r, RecordKey(sideB, m), f.value));
      }
    }
  }

  lemma {:induction false} DecodeHalfKeepsOwn(b: Bytes, msgType: nat, sideB: bool, r: Record)
    requires msgType == PROPOSE || msgType == ACCEPT
    ensures var out := DecodeHalf(b, msgType, sideB, r);
      out.Some? ==> (if sideB then out.value.pubA == r.pubA else out.value.pubB == r.pubB)
  {
    hide FindField, MessageShape, Parse, DecodeKeys;
    var top := Parse(b, 0, |b|, 0);
    if top.Some? && top.value.kind == KMap {
      DecodeKeysKeepsOwn(b, top.value, sideB, 3, LastKey(msgType), r.(version := RECORD_VERSION));
    }
  }

  lemma {:induction false} SameBodyEncodes(r: Record, s: Record)
    requires SameBody(r, s)
    ensures EncodeBody(r) == EncodeBody(s) && (Encodable(r) <==> Encodable(s))
  {
    hide EncodeBody;
    if Encodable(r) {
      BodyInjective(r, s, [], []);
      assert EncodeBody(r) + [] == EncodeBody(r) && EncodeBody(s) + [] == EncodeBody(s);
    }
  }

  /** What one call does to a session's key, side, signing and verifying. */
  lemma {:induction false} HandleFacts(s: Session, env: Env, msg: Bytes, outMax: nat)
    requires Fresh(s) && s.role == Initiator ==> OwnSide(s)
    ensures var (o, t) := (Handle(s, env, msg, outMax), Handle(s, env, msg, outMax).session);
      && t.role == s.role && t.me.pub == s.me.pub
      && !Fresh(t)
      && (o.signed.Some? ==> Fresh(s) && OwnSide(t) && Encodable(t.rec) && o.signed.value == EncodeBody(t.rec))
      && (o.signed.Some? && t.role == Initiator ==> env.check(t.rec.pubB, EncodeBody(t.rec), t.rec.sigB))
      && (!Fresh(s) ==> t.me == s.me && SameBody(t.rec, s.rec) && o.signed.None?)
      && (t.state == AwaitConfirm ==> OwnSide(t) && o.signed.Some?)
      && (t.state == Done && Fresh(s) ==> o.signed.Some?)
      && (t.state == Done ==> Encodable(t.rec) && env.check(PeerPub(t), EncodeBody(t.rec), PeerSig(t)))
  {
    hide DecodeHalf, DecodeConfirm, EncodeHalf, EncodeConfirm, EncodeBody, Encodable, PrefixMatches;
    if outMax >= MSG_MAX_BYTES && s.role == Initiator && s.state == AwaitAccept {
      DecodeHalfKeepsOwn(msg, ACCEPT, true, s.rec);
      var decoded := DecodeHalf(msg, ACCEPT, true, s.rec);
      if decoded.Some? {
        var body := EncodeBody(decoded.value);
        var sig := env.sign(s.me.seed, body);
        if sig.Some? { SameBodyEncodes(decoded.value, decoded.value.(sigA := sig.value)); }
      }
    } else if outMax >= MSG_MAX_BYTES && s.role == Responder && s.state == Init {
      var decoded := DecodeHalf(msg, PROPOSE, false, s.rec);
      if decoded.Some? {
        var me := Rebind(s.me, env.lateBind(decoded.value.pubA));
        var rec := FillHalf(decoded.value, me, true);
        var sig := env.sign(me.seed, EncodeBody(rec));
        if sig.Some? { SameBodyEncodes(rec, rec.(sigB := sig.value)); }
      }
    } else if outMax >= MSG_MAX_BYTES && s.role == Responder && s.state == AwaitConfirm {
      var sig := DecodeConfirm(msg);
      if sig.Some? { SameBodyEncodes(s.rec, s.rec.(sigA := sig.value)); }
    }
  }

  // ---- the expected peer ----

  /** A session that expects no one in particular, which eight zeros stand for, or the peer whose
      key starts like that. */
  predicate Expects(prefix: Prefix, pub: Pub) {
    prefix == [0, 0, 0, 0, 0, 0, 0, 0] || prefix == pub[..8]
  }

  lemma {:induction false} ExpectsIs(prefix: Prefix, pub: Pub)
    ensures Expects(prefix, pub) <==> PrefixMatches(prefix, pub)
  {
    if forall i :: 0 <= i < 8 ==> prefix[i] == 0 { assert prefix == [0, 0, 0, 0, 0, 0, 0, 0]; }
  }

  /** A session that is DONE, and a responder that has answered, have met a peer they expect. */
  predicate MetExpected(s: Session) {
    s.state == Done || s.state == AwaitConfirm ==> Expects(s.me.expectedPeer, if s.role == Initiator then s.rec.pubB else s.rec.pubA)
  }

  lemma {:induction false} HandleExpected(s: Session, env: Env, msg: Bytes, outMax: nat)
    requires MetExpected(s)
    ensures var t := Handle(s, env, msg, outMax).session;
      MetExpected(t) && t.role == s.role && t.me.expectedPeer == s.me.expectedPeer
  {
    hide DecodeHalf, DecodeConfirm, EncodeHalf, EncodeConfirm, EncodeBody, PrefixMatches, Expects;
    if outMax >= MSG_MAX_BYTES && s.role == Initiator && s.state == AwaitAccept {
      var decoded := DecodeHalf(msg, ACCEPT, true, s.rec);
      if decoded.Some? { ExpectsIs(s.me.expectedPeer, decoded.value.pubB); }
    } else if outMax >= MSG_MAX_BYTES && s.role == Responder && s.state == Init {
      var decoded := DecodeHalf(msg, PROPOSE, false, s.rec);
      if decoded.Some? { ExpectsIs(s.me.expectedPeer, decoded.value.pubA); }
    }
  }

  // ---- many sessions ----

  /** A signature made: by the session with that index, or by no session (-1). */
  datatype Event = Event(session: int, pub: Bytes, body: Bytes)

  /** All sessions ever started, and every signature ever made, in order. */
  datatype World = World(sessions: seq<Session>, log: seq<Event>)

  /** One thing that happens. The network is the choice of the bytes that are delivered. */
  datatype Action =
    | Begin(role: Role, me: Input, outMax: nat)
    | Deliver(i: nat, env: Env, msg: Bytes, outMax: nat)
    | Outside(pub: Bytes, body: Bytes)

  predicate Logged(log: seq<Event>, pub: Bytes, body: Bytes) {
    exists k :: 0 <= k < |log| && log[k].pub == pub && log[k].body == body
  }

  ghost predicate IsBody(b: Bytes) {
    exists r: Record :: Encodable(r) && EncodeBody(r) == b
  }

  /** Honest keys belong to sessions and sign record bodies only through sessions; verification
      succeeds only for what has been signed. */
  ghost predicate Enabled(honest: set<Bytes>, w: World, a: Action) {
    match a
    case Begin(_, me, _) => me.pub in honest
    case Deliver(i, env, _, _) => i < |w.sessions| && forall p, b, s :: env.check(p, b, s) ==> Logged(w.log, p, b)
    case Outside(pub, body) => pub !in honest || !IsBody(body)
  }

  function Apply(w: World, a: Action): World
    requires a.Deliver? ==> a.i < |w.sessions|
  {
    match a
    case Begin(role, me, outMax) => w.(sessions := w.sessions + [Start(role, me, outMax).session])
    case Deliver(i, env, msg, outMax) =>
      var o := Handle(w.sessions[i], env, msg, outMax);
      var log := if o.signed.Some? then w.log + [Event(i, o.session.me.pub, o.signed.value)] else w.log;
      World(w.sessions[i := o.session], log)
    case Outside(pub, body) => w.(log := w.log + [Event(-1, pub, body)])
  }

  /** w is reached by the actions from the empty world. */
  ghost predicate Reached(honest: set<Bytes>, actions: seq<Action>, w: World) {
    if actions == [] then w == World([], [])
    else
      var last := actions[|actions| - 1];
      exists v: World :: Reached(honest, actions[..|actions| - 1], v) && Enabled(honest, v, last) && w == Apply(v, last)
  }

  // ---- the invariant ----

  predicate SessionOk(log: seq<Event>, s: Session) {
    && (Fresh(s) && s.role == Initiator ==> OwnSide(s))
    && (s.state == AwaitConfirm ==> OwnSide(s))
    && (s.state == Done ==> OwnSide(s) && Encodable(s.rec) && Logged(log, PeerPub(s), EncodeBody(s.rec)))
  }

  /** A session's signature covers the body of the record that it still holds. An initiator
      signs only what the responder's key has signed before. */
  predicate EventOk(w: World, k: nat)
    requires k < |w.log|
  {
    var e := w.log[k];
    e.session >= 0 ==>
      && e.session < |w.sessions|
      && var s := w.sessions[e.session];
        && !Fresh(s) && OwnSide(s) && Encodable(s.rec)
        && e.pub == s.me.pub && e.body == EncodeBody(s.rec)
        && (s.role == Initiator ==> Logged(w.log[..k], s.rec.pubB, e.body))
  }

  ghost predicate Inv(honest: set<Bytes>, w: World) {
    && (forall i :: 0 <= i < |w.sessions| ==> SessionOk(w.log, w.sessions[i]) && w.sessions[i].me.pub in honest)
    && (forall k :: 0 <= k < |w.log| ==> EventOk(w, k))
    && (forall k :: 0 <= k < |w.log| ==> w.log[k].session >= 0 || w.log[k].pub !in honest || !IsBody(w.log[k].body))
    && (forall j, k :: 0 <= j < k < |w.log| && w.log[j].session == w.log[k].session ==> w.log[k].session < 0)
  }

  lemma {:induction false} LoggedStill(log: seq<Event>, e: Event, pub: Bytes, body: Bytes)
    requires Logged(log, pub, body)
    ensures Logged(log + [e], pub, body)
  {
    var k :| 0 <= k < |log| && log[k].pub == pub && log[k].body == body;
    assert (log + [e])[k] == log[k];
  }

  lemma {:induction false} SessionStillOk(log: seq<Event>, e: Event, s: Session)
    requires SessionOk(log, s)
    ensures SessionOk(log + [e], s)
  {
    hide EncodeBody, Encodable;
    if s.state == Done { LoggedStill(log, e, PeerPub(s), EncodeBody(s.rec)); }
  }

  lemma {:induction false} OutsideKeeps(honest: set<Bytes>, w: World, e: Event)
    requires Inv(honest, w) && e.session < 0 && (e.pub !in honest || !IsBody(e.body))
    ensures Inv(honest, w.(log := w.log + [e]))
  {
    hide SessionOk, EncodeBody, Encodable, IsBody, OwnSide, Fresh, Logged;
    var w' := w.(log := w.log + [e]);
    forall i | 0 <= i < |w'.sessions| ensures SessionOk(w'.log, w'.sessions[i]) { SessionStillOk(w.log, e, w.sessions[i]); }
    forall k | 0 <= k < |w'.log| ensures EventOk(w', k) {
      if k < |w.log| { assert EventOk(w, k) && w'.log[..k] == w.log[..k]; }
    }
  }

  lemma {:induction false} BeginKeeps(honest: set<Bytes>, w: World, role: Role, me: Input, outMax: nat)
    requires Inv(honest, w) && me.pub in honest
    ensures Inv(honest, w.(sessions := w.sessions + [Start(role, me, outMax).session]))
  {
    hide EncodeBody, Encodable, IsBody, OwnSide, Fresh, Logged, Start, SessionOk;
    var s := Start(role, me, outMax).session;
    var w' := w.(sessions := w.sessions + [s]);
    StartOk(w.log, role, me, outMax);
    forall k | 0 <= k < |w'.log| ensures EventOk(w', k) { assert EventOk(w, k); }
  }

  lemma {:induction false} StartOk(log: seq<Event>, role: Role, me: Input, outMax: nat)
    ensures SessionOk(log, Start(role, me, outMax).session) && Start(role, me, outMax).session.me == me
  {
    hide EncodeHalf;
  }

  /** Replacing session i by a later state that keeps what its event says. */
  lemma {:induction false} EventsStillOk(w: World, i: nat, t: Session, k: nat)
    requires i < |w.sessions| && k < |w.log| && EventOk(w, k) && !Fresh(t)
    requires var s := w.sessions[i];
      t.role == s.role && t.me.pub == s.me.pub && (Fresh(s) || SameBody(t.rec, s.rec))
    ensures EventOk(w.(sessions := w.sessions[i := t]), k)
  {
    hide EncodeBody, Encodable, Logged;
    var s := w.sessions[i];
    if w.log[k].session == i { SameBodyEncodes(t.rec, s.rec); }
  }

  lemma {:induction false} EventExtends(w: World, e: Event, k: nat)
    requires k < |w.log| && EventOk(w, k)
    ensures EventOk(w.(log := w.log + [e]), k)
  {
    hide EncodeBody, Encodable, Logged, OwnSide, Fresh;
    assert (w.log + [e])[..k] == w.log[..k];
  }

  lemma {:induction false} DeliverKeeps(honest: set<Bytes>, w: World, a: Action)
    requires Inv(honest, w) && a.Deliver? && Enabled(honest, w, a)
    ensures Inv(honest, Apply(w, a))
  {
    hide EncodeBody, Encodable, IsBody, Handle, SameBody, EventOk, SessionOk, Logged, OwnSide;
    var i, s := a.i, w.sessions[a.i];
    assert SessionOk(w.log, s);
    SessionOwn(w.log, s);
    HandleFacts(s, a.env, a.msg, a.outMax);
    var o := Handle(s, a.env, a.msg, a.outMax);
    var t := o.session;
    var v := w.(sessions := w.sessions[i := t]);
    forall k | 0 <= k < |v.log| ensures EventOk(v, k) {
      assert EventOk(w, k);
      EventsStillOk(w, i, t, k);
    }
    HandledOk(w.log, s, a.env, a.msg, a.outMax);
    assert forall j :: 0 <= j < |v.sessions| ==> SessionOk(v.log, v.sessions[j]);
    if o.signed.Some? {
      var e := Event(i, t.me.pub, o.signed.value);
      var w' := v.(log := v.log + [e]);
      assert w' == Apply(w, a);
      forall j | 0 <= j < |w'.sessions| ensures SessionOk(w'.log, w'.sessions[j]) { SessionStillOk(v.log, e, v.sessions[j]); }
      forall k | 0 <= k < |w'.log| ensures EventOk(w', k) {
        if k < |v.log| { EventExtends(v, e, k); } else { NewEventOk(w, a); }
      }
      forall k | 0 <= k < |w.log| ensures w.log[k].session != i { FreshUnsigned(w, k, i); }
    } else {
      assert v == Apply(w, a);
    }
  }

  lemma {:induction false} SessionOwn(log: seq<Event>, s: Session)
    requires SessionOk(log, s)
    ensures Fresh(s) && s.role == Initiator ==> OwnSide(s)
  {
  }

  lemma {:induction false} FreshUnsigned(w: World, k: nat, i: nat)
    requires k < |w.log| && EventOk(w, k) && i < |w.sessions| && Fresh(w.sessions[i])
    ensures w.log[k].session != i
  {
  }

  lemma {:induction false} HandledOk(log: seq<Event>, s: Session, env: Env, msg: Bytes, outMax: nat)
    requires SessionOk(log, s) && forall p, b, g :: env.check(p, b, g) ==> Logged(log, p, b)
    ensures SessionOk(log, Handle(s, env, msg, outMax).session)
  {
    hide Handle, EncodeBody, Encodable, Logged;
    HandleFacts(s, env, msg, outMax);
    HandleToDone(s, env, msg, outMax);
  }

  lemma {:induction false} HandleToDone(s: Session, env: Env, msg: Bytes, outMax: nat)
    ensures Handle(s, env, msg, outMax).session.state == Done ==> Fresh(s) || s.state == AwaitConfirm
  {
    hide DecodeHalf, DecodeConfirm, EncodeHalf, EncodeConfirm, EncodeBody, PrefixMatches;
  }

  lemma {:induction false} NewEventOk(w: World, a: Action)
    requires a.Deliver? && a.i < |w.sessions| && SessionOk(w.log, w.sessions[a.i])
    requires forall p, b, g :: a.env.check(p, b, g) ==> Logged(w.log, p, b)
    requires Handle(w.sessions[a.i], a.env, a.msg, a.outMax).signed.Some?
    ensures |Apply(w, a).log| == |w.log| + 1 && EventOk(Apply(w, a), |w.log|)
  {
    hide Handle, EncodeBody, Encodable, Logged;
    HandleFacts(w.sessions[a.i], a.env, a.msg, a.outMax);
    assert Apply(w, a).log[..|w.log|] == w.log;
  }

  /** Every reachable world satisfies the invariant. */
  lemma {:induction false} Invariant(honest: set<Bytes>, actions: seq<Action>, w: World)
    requires Reached(honest, actions, w)
    ensures Inv(honest, w)
  {
    hide Inv;
    if actions == [] {
      EmptyOk(honest);
    } else {
      var last := actions[|actions| - 1];
      var v: World :| Reached(honest, actions[..|actions| - 1], v) && Enabled(honest, v, last) && w == Apply(v, last);
      Invariant(honest, actions[..|actions| - 1], v);
      ActionKeeps(honest, v, last);
    }
  }

  lemma {:induction false} EmptyOk(honest: set<Bytes>)
    ensures Inv(honest, World([], []))
  {
  }

  lemma {:induction false} ActionKeeps(honest: set<Bytes>, v: World, a: Action)
    requires Inv(honest, v) && Enabled(honest, v, a)
    ensures Inv(honest, Apply(v, a))
  {
    hide Inv, IsBody, Logged, Handle, Start;
    match a
    case Begin(role, me, outMax) => BeginKeeps(honest, v, role, me, outMax);
    case Deliver(_, _, _, _) => DeliverKeeps(honest, v, a);
    case Outside(pub, body) => OutsideKeeps(honest, v, Event(-1, pub, body));
  }

  // ---- agreement ----

  /** Session j of the key pub signed, in the role opposite to s, exactly the body of s. */
  ghost predicate Partner(w: World, s: Session, j: nat, pub: Bytes) {
    && j < |w.sessions|
    && w.sessions[j].me.pub == pub && w.sessions[j].role != s.role
    && SameBody(w.sessions[j].rec, s.rec)
    && exists k :: 0 <= k < |w.log| && w.log[k] == Event(j, pub, EncodeBody(s.rec))
  }

  /** An event with an honest key over a record body comes from a session holding that record. */
  lemma {:induction false} SignerHolds(honest: set<Bytes>, w: World, k: nat, r: Record) returns (j: nat)
    requires Inv(honest, w) && k < |w.log| && Encodable(r)
    requires w.log[k].body == EncodeBody(r) && w.log[k].pub in honest
    ensures j < |w.sessions| && w.log[k].session == j && SameBody(w.sessions[j].rec, r)
    ensures OwnSide(w.sessions[j]) && w.sessions[j].me.pub == w.log[k].pub
    ensures w.sessions[j].role == Initiator ==> Logged(w.log[..k], r.pubB, EncodeBody(r))
  {
    hide EncodeBody, Encodable, SessionOk, Logged;
    assert IsBody(w.log[k].body);
    assert EventOk(w, k);
    j := w.log[k].session;
    var s := w.sessions[j].rec;
    assert EncodeBody(s) + [] == EncodeBody(s) && EncodeBody(r) + [] == EncodeBody(r);
    BodyInjective(s, r, [], []);
  }

  /** The key of the responder side signed a body: the first time, a responder did it. */
  lemma {:induction false} ResponderSigned(honest: set<Bytes>, w: World, k: nat, r: Record) returns (j: nat, n: nat)
    requires Inv(honest, w) && k < |w.log| && Encodable(r) && r.pubB in honest
    requires w.log[k].body == EncodeBody(r) && w.log[k].pub == r.pubB
    ensures j < |w.sessions| && w.sessions[j].role == Responder && w.sessions[j].me.pub == r.pubB
    ensures SameBody(w.sessions[j].rec, r) && n < |w.log| && w.log[n] == Event(j, r.pubB, EncodeBody(r))
    decreases k
  {
    hide Inv, EncodeBody, Encodable;
    j := SignerHolds(honest, w, k, r);
    n := k;
    if w.sessions[j].role == Initiator {
      var m :| 0 <= m < |w.log[..k]| && w.log[..k][m].pub == r.pubB && w.log[..k][m].body == EncodeBody(r);
      j, n := ResponderSigned(honest, w, m, r);
    }
  }

  /** Agreement. A party that is DONE, whose peer's key signed the body of its record: if that
      key is honest, a session of that key signed the body in the opposite role and holds a
      record with the same 17 fields. A responder gets this only from a peer with a key other
      than its own; an initiator gets it in any case. */
  lemma {:induction false} Agreement(honest: set<Bytes>, actions: seq<Action>, w: World, i: nat)
    requires Reached(honest, actions, w) && i < |w.sessions| && w.sessions[i].state == Done
    ensures var s := w.sessions[i];
      && OwnSide(s) && Logged(w.log, PeerPub(s), EncodeBody(s.rec))
      && (PeerPub(s) in honest && (s.role == Initiator || PeerPub(s) != s.me.pub) ==> exists j :: Partner(w, s, j, PeerPub(s)))
  {
    hide Inv, EncodeBody, Encodable, Reached, SameBody;
    Invariant(honest, actions, w);
    SessionsOk(honest, w, i);
    var s := w.sessions[i];
    var k :| 0 <= k < |w.log| && w.log[k].pub == PeerPub(s) && w.log[k].body == EncodeBody(s.rec);
    if PeerPub(s) in honest {
      if s.role == Initiator {
        var j, n := ResponderSigned(honest, w, k, s.rec);
        assert Partner(w, s, j, PeerPub(s));
      } else if PeerPub(s) != s.me.pub {
        var j := SignerHolds(honest, w, k, s.rec);
        SameSides(w.sessions[j].rec, s.rec);
        assert w.log[k] == Event(j, PeerPub(s), EncodeBody(s.rec));
        assert Partner(w, s, j, PeerPub(s));
      }
    }
  }

  lemma {:induction false} SameSides(r: Record, s: Record)
    requires SameBody(r, s)
    ensures r.pubA == s.pubA && r.pubB == s.pubB && r.nonceA == s.nonceA && r.nonceB == s.nonceB
  {
  }

  lemma {:induction false} SessionsOk(honest: set<Bytes>, w: World, i: nat)
    requires Inv(honest, w) && i < |w.sessions|
    ensures SessionOk(w.log, w.sessions[i])
  {
  }

  /** Over all runs, with any network and any callbacks, no session gets past a peer that it does
      not expect. */
  lemma {:induction false} AllExpected(honest: set<Bytes>, actions: seq<Action>, w: World)
    requires Reached(honest, actions, w)
    ensures forall i :: 0 <= i < |w.sessions| ==> MetExpected(w.sessions[i])
    decreases |actions|
  {
    hide Handle, MetExpected, Logged, IsBody;
    if actions != [] {
      var last := actions[|actions| - 1];
      var v: World :| Reached(honest, actions[..|actions| - 1], v) && Enabled(honest, v, last) && w == Apply(v, last);
      AllExpected(honest, actions[..|actions| - 1], v);
      match last
      case Begin(role, me, outMax) => StartExpected(role, me, outMax);
      case Deliver(i, env, msg, outMax) =>
        DeliveredTo(honest, v, last);
        HandleExpected(v.sessions[i], env, msg, outMax);
      case Outside(_, _) =>
    }
  }

  lemma {:induction false} StartExpected(role: Role, me: Input, outMax: nat)
    ensures var s := Start(role, me, outMax).session; MetExpected(s) && s.role == role && s.me == me
  {
    hide EncodeHalf;
  }

  lemma {:induction false} DeliveredTo(honest: set<Bytes>, w: World, a: Action)
    requires a.Deliver? && Enabled(honest, w, a)
    ensures a.i < |w.sessions|
  {
  }

  /** Each session signs at most once. */
  lemma {:induction false} SignsOnce(honest: set<Bytes>, actions: seq<Action>, w: World, j: nat, k: nat)
    requires Reached(honest, actions, w) && j < |w.log| && k < |w.log| && w.log[j].session == w.log[k].session >= 0
    ensures j == k
  {
    hide Reached;
    Invariant(honest, actions, w);
  }

  /** With fresh nonces no two sessions of a party share a partner. */
  lemma {:induction false} PartnerUnique(w: World, i: nat, j: nat, p: nat, pub: Bytes)
    requires i < |w.sessions| && j < |w.sessions| && w.sessions[i].role == w.sessions[j].role
    requires Partner(w, w.sessions[i], p, pub) && Partner(w, w.sessions[j], p, pub)
    requires OwnNonce(w.sessions[i]) == OwnNonce(w.sessions[j]) ==> i == j
    ensures i == j
  {
    hide EncodeBody;
    SameSides(w.sessions[p].rec, w.sessions[i].rec);
    SameSides(w.sessions[p].rec, w.sessions[j].rec);
  }

  function OwnNonce(s: Session): Nonce {
    if s.role == Initiator then s.rec.nonceA else s.rec.nonceB
  }

  // ---- the hypothesis on keys is needed ----

  /** The two calls of the run below, with a scheme that accepts only what has been signed. */
  lemma {:induction false} ReflectedSession(me: Input, from: Record, sig: Sig) returns (env0: Env, env1: Env, o1: Outcome, o2: Outcome)
    requires |me.bssids| <= BSSID_MAX && (forall i :: 0 <= i < 8 ==> me.expectedPeer[i] == 0)
    requires Encodable(from) && from.pubA == me.pub
    ensures o1 == Handle(Start(Responder, me, 256).session, env0, EncodeHalf(PROPOSE, from, false, 256), 256)
    ensures o2 == Handle(o1.session, env1, EncodeConfirm(sig, 256), 256)
    ensures o1.signed.Some? && o1.session.me.pub == me.pub && o2.signed.None?
    ensures o2.session.role == Responder && o2.session.state == Done && PeerPub(o2.session) == me.pub
    ensures forall p, b, g :: !env0.check(p, b, g)
    ensures forall p, b, g :: env1.check(p, b, g) ==> p == me.pub && b == o1.signed.value
  {
    hide Handle, Start, EncodeHalf, EncodeConfirm, EncodeBody, Encodable;
    env0 := Env((s, b) => Some(sig), (p, b, g) => false, p => None);
    o1 := Handle(Start(Responder, me, 256).session, env0, EncodeHalf(PROPOSE, from, false, 256), 256);
    ProposeAccepted(me, env0, from);
    var body := o1.signed.value;
    var rec := FillHalf(ReceivedA(FreshRecord(), from), me, true);
    assert o1.session == Session(Responder, AwaitConfirm, me, rec.(sigB := sig)) && body == EncodeBody(rec);
    SameBodyEncodes(rec, rec.(sigB := sig));
    env1 := Env((s, b) => Some(sig), (p, b, g) => p == me.pub && b == body, p => None);
    o2 := Handle(o1.session, env1, EncodeConfirm(sig, 256), 256);
    ConfirmAccepted(o1.session, env1, sig);
  }

  /** A responder whose peer claims the responder's own key completes when its own signature is
      sent back to it, although no initiator exists. */
  lemma {:induction false} ReflectedConfirm(me: Input, from: Record, sig: Sig) returns (actions: seq<Action>, w: World)
    requires |me.bssids| <= BSSID_MAX && (forall i :: 0 <= i < 8 ==> me.expectedPeer[i] == 0)
    requires Encodable(from) && from.pubA == me.pub
    ensures Reached({me.pub}, actions, w) && |w.sessions| == 1
    ensures w.sessions[0].role == Responder && w.sessions[0].state == Done && PeerPub(w.sessions[0]) == me.pub
    ensures forall j: nat :: !Partner(w, w.sessions[0], j, me.pub)
  {
    hide Handle, Start, EncodeHalf, EncodeConfirm, Encodable, Reached, PeerPub;
    var honest, s0 := {me.pub}, Start(Responder, me, 256).session;
    var env0, env1, o1, o2 := ReflectedSession(me, from, sig);
    var e := Event(0, me.pub, o1.signed.value);
    var a0, a1 := Begin(Responder, me, 256), Deliver(0, env0, EncodeHalf(PROPOSE, from, false, 256), 256);
    var a2 := Deliver(0, env1, EncodeConfirm(sig, 256), 256);
    NothingReached(honest);
    assert Apply(World([], []), a0) == World([s0], []);
    ReachedNext(honest, [], World([], []), a0);
    assert Apply(World([s0], []), a1) == World([o1.session], [e]);
    ReachedNext(honest, [] + [a0], World([s0], []), a1);
    assert [e][0].pub == me.pub && [e][0].body == o1.signed.value;
    assert Logged([e], me.pub, o1.signed.value);
    assert Enabled(honest, World([o1.session], [e]), a2);
    assert Apply(World([o1.session], [e]), a2) == World([o2.session], [e]);
    ReachedNext(honest, [] + [a0] + [a1], World([o1.session], [e]), a2);
    actions, w := [] + [a0] + [a1] + [a2], World([o2.session], [e]);
  }

  lemma {:induction false} NothingReached(honest: set<Bytes>)
    ensures Reached(honest, [], World([], []))
  {
  }

  lemma {:induction false} ReachedNext(honest: set<Bytes>, actions: seq<Action>, w: World, a: Action)
    requires Reached(honest, actions, w) && Enabled(honest, w, a)
    ensures Reached(honest, actions + [a], Apply(w, a))
  {
    hide Enabled, Apply;
    assert (actions + [a])[..|actions + [a]| - 1] == actions;
    assert (actions + [a])[|actions + [a]| - 1] == a;
  }

  /** A responder that knows no peer prefix answers any well-formed PROPOSE. */
  lemma {:induction false} ProposeAccepted(me: Input, env: Env, from: Record)
    requires |me.bssids| <= BSSID_MAX && Encodable(from) && PrefixMatches(me.expectedPeer, from.pubA)
    requires forall s, b :: env.sign(s, b).Some?
    ensures var o := Handle(Start(Responder, me, 256).session, env, EncodeHalf(PROPOSE, from, false, 256), 256);
      var rec := FillHalf(ReceivedA(FreshRecord(), from), Rebind(me, env.lateBind(from.pubA)), true);
      && Encodable(rec) && o.signed == Some(EncodeBody(rec)) && o.step == NeedWrite
      && o.session == Session(Responder, AwaitConfirm, Rebind(me, env.lateBind(from.pubA)), rec.(sigB := env.sign(me.seed, EncodeBody(rec)).value))
      && o.out == EncodeHalf(ACCEPT, o.session.rec, true, 256)
  {
    hide DecodeHalf, EncodeHalf, EncodeBody, PrefixMatches, Received, Get, Set;
    var msg := EncodeHalf(PROPOSE, from, false, 256);
    DecodeHalfEncoded(PROPOSE, from, false, 256, [], FreshRecord());
    assert msg + [] == msg;
    ReceivedAIs(FreshRecord(), from);
    assert FreshRecord().(version := RECORD_VERSION) == FreshRecord();
  }

  /** The A side of a record replaced, as a PROPOSE carries it. */
  function ReceivedA(r: Record, from: Record): Record {
    r.(pubA := from.pubA, meetingCountA := from.meetingCountA, repOfBByA := from.repOfBByA, bssidsA := from.bssidsA,
       nonceA := from.nonceA, txBytesAToB := from.txBytesAToB, rxBytesAFromB := from.rxBytesAFromB, fileCountAFromB := from.fileCountAFromB)
  }

  /** The B side and its signature replaced, as an ACCEPT carries them. */
  function ReceivedB(r: Record, from: Record): Record {
    r.(pubB := from.pubB, meetingCountB := from.meetingCountB, repOfAByB := from.repOfAByB, bssidsB := from.bssidsB,
       nonceB := from.nonceB, txBytesBToA := from.txBytesBToA, rxBytesBFromA := from.rxBytesBFromA, fileCountBFromA := from.fileCountBFromA,
       sigB := from.sigB)
  }

  lemma {:induction false} ReceivedAIs(r: Record, from: Record)
    ensures Received(false, 3, 10, r, from) == ReceivedA(r, from)
  {
    var r3 := r.(pubA := from.pubA);
    var r4 := r3.(meetingCountA := from.meetingCountA);
    var r5 := r4.(repOfBByA := from.repOfBByA);
    var r6 := r5.(bssidsA := from.bssidsA);
    var r7 := r6.(nonceA := from.nonceA);
    var r8 := r7.(txBytesAToB := from.txBytesAToB);
    var r9 := r8.(rxBytesAFromB := from.rxBytesAFromB);
    assert Received(false, 9, 10, r8, from) == ReceivedA(r, from);
    assert Received(false, 7, 10, r6, from) == Received(false, 9, 10, r8, from);
    assert Received(false, 5, 10, r4, from) == Received(false, 7, 10, r6, from);
  }

  lemma {:induction false} ReceivedBIs(r: Record, from: Record)
    ensures Received(true, 3, 11, r, from) == ReceivedB(r, from)
  {
    var r3 := r.(pubB := from.pubB);
    var r4 := r3.(meetingCountB := from.meetingCountB);
    var r5 := r4.(repOfAByB := from.repOfAByB);
    var r6 := r5.(bssidsB := from.bssidsB);
    var r7 := r6.(nonceB := from.nonceB);
    var r8 := r7.(txBytesBToA := from.txBytesBToA);
    assert Received(true, 9, 11, r8, from) == ReceivedB(r, from);
    assert Received(true, 7, 11, r6, from) == Received(true, 9, 11, r8, from);
    assert Received(true, 5, 11, r4, from) == Received(true, 7, 11, r6, from);
  }

  lemma {:induction false} ConfirmAccepted(s: Session, env: Env, sig: Sig)
    requires s.role == Responder && s.state == AwaitConfirm && Encodable(s.rec)
    requires env.check(s.rec.pubA, EncodeBody(s.rec), sig)
    ensures Handle(s, env, EncodeConfirm(sig, 256), 256)
         == Outcome(s.(state := Done, rec := s.rec.(sigA := sig)), Finished, [], None)
  {
    hide DecodeConfirm, EncodeConfirm, EncodeBody, Encodable;
    DecodeConfirmEncoded(sig, 256, []);
    assert EncodeConfirm(sig, 256) + [] == EncodeConfirm(sig, 256);
    SameBodyEncodes(s.rec, s.rec.(sigA := sig));
  }

  // ---- an undisturbed run ----

  lemma {:induction false} AcceptAccepted(s: Session, env: Env, from: Record)
    requires s.role == Initiator && s.state == AwaitAccept && s.rec.version == RECORD_VERSION && Encodable(from)
    requires Encodable(ReceivedB(s.rec, from)) && PrefixMatches(s.me.expectedPeer, from.pubB)
    requires var body := EncodeBody(ReceivedB(s.rec, from)); env.check(from.pubB, body, from.sigB) && env.sign(s.me.seed, body).Some?
    ensures var body := EncodeBody(ReceivedB(s.rec, from));
      var sig := env.sign(s.me.seed, body).value;
      Handle(s, env, EncodeHalf(ACCEPT, from, true, 256), 256)
        == Outcome(s.(state := Done, rec := ReceivedB(s.rec, from).(sigA := sig)), NeedWrite, EncodeConfirm(sig, 256), Some(body))
  {
    hide DecodeHalf, EncodeHalf, EncodeBody, PrefixMatches, Received, Encodable, EncodeConfirm;
    var msg := EncodeHalf(ACCEPT, from, true, 256);
    DecodeHalfEncoded(ACCEPT, from, true, 256, [], s.rec);
    assert msg + [] == msg;
    ReceivedBIs(s.rec, from);
    assert s.rec.(version := RECORD_VERSION) == s.rec;
  }

  /** The record that two parties should end with, field by field; p is what the responder's
      callback supplies late. */
  function Met(a: Input, b: Input, p: Option<PerPeer>, sigA: Sig, sigB: Sig): Record {
    var late := if p.Some? then p.value else PerPeer(b.repOfPeer, b.txToPeer, b.rxFromPeer, b.filesFromPeer);
    Record(1, a.pub, b.pub, a.meetingCount, b.meetingCount, a.repOfPeer, late.repOfPeer, a.bssids, b.bssids, a.nonce, b.nonce,
           a.txToPeer, a.rxFromPeer, late.txToPeer, late.rxFromPeer, a.filesFromPeer, late.filesFromPeer, sigA, sigB)
  }

  /** Completeness: when the two parties' messages arrive, both reach DONE with the same record,
      built from what the two put in, and both signatures of it hold. */
  lemma {:induction false} HonestRun(a: Input, b: Input, envA: Env, envB: Env)
    requires |a.bssids| <= BSSID_MAX && |b.bssids| <= BSSID_MAX
    requires Expects(a.expectedPeer, b.pub) && Expects(b.expectedPeer, a.pub)
    requires forall s, m :: envA.sign(s, m).Some? && envB.sign(s, m).Some?
    requires forall m :: envA.check(b.pub, m, envB.sign(b.seed, m).value) && envA.check(a.pub, m, envA.sign(a.seed, m).value)
    requires forall m :: envB.check(a.pub, m, envA.sign(a.seed, m).value)
    ensures var propose := Start(Initiator, a, 256);
      var waiting := Start(Responder, b, 256);
      var accept := Handle(waiting.session, envB, propose.out, 256);
      var confirm := Handle(propose.session, envA, accept.out, 256);
      var last := Handle(accept.session, envB, confirm.out, 256);
      && last.step == Finished && confirm.step == NeedWrite
      && TakeRecord(confirm.session).Some? && TakeRecord(last.session) == TakeRecord(confirm.session)
      && var rec := last.session.rec;
        && rec == Met(a, b, envB.lateBind(a.pub), rec.sigA, rec.sigB)
        && envA.check(a.pub, EncodeBody(rec), rec.sigA) && envA.check(b.pub, EncodeBody(rec), rec.sigB)
  {
    hide Handle, EncodeHalf, EncodeConfirm, EncodeBody, PrefixMatches, Expects;
    ExpectsIs(a.expectedPeer, b.pub);
    ExpectsIs(b.expectedPeer, a.pub);
    var propose, waiting := Start(Initiator, a, 256), Start(Responder, b, 256);
    var recA := propose.session.rec;
    assert recA == FillHalf(FreshRecord(), a, false) && propose.out == EncodeHalf(PROPOSE, recA, false, 256);
    ProposeAccepted(b, envB, recA);
    var accept := Handle(waiting.session, envB, propose.out, 256);
    var rec := FillHalf(recA, Rebind(b, envB.lateBind(a.pub)), true);
    assert ReceivedA(FreshRecord(), recA) == recA;
    var recB := accept.session.rec;
    assert recB == rec.(sigB := recB.sigB) && ReceivedB(recA, recB) == recB;
    SameBodyEncodes(rec, recB);
    AcceptAccepted(propose.session, envA, recB);
    var confirm := Handle(propose.session, envA, accept.out, 256);
    var sigA := confirm.session.rec.sigA;
    ConfirmAccepted(accept.session, envB, sigA);
    SameBodyEncodes(recB, recB.(sigA := sigA));
  }

  // ---- records taken verify ----

  /** What one session is fed: a message, the size of the output buffer, the callback's answers. */
  datatype Feed = Feed(msg: Bytes, outMax: nat, lateBind: Bytes -> Option<PerPeer>)

  /** The session after a sequence of messages, under one signature scheme. */
  function RunSession(s: Session, sign: (Bytes, Bytes) -> Option<Sig>, check: (Bytes, Bytes, Bytes) -> bool, feeds: seq<Feed>): Session
    decreases |feeds|
  {
    if feeds == [] then s
    else RunSession(Handle(s, Env(sign, check, feeds[0].lateBind), feeds[0].msg, feeds[0].outMax).session, sign, check, feeds[1..])
  }

  /** DONE is not final: after one more message, and forever after, no record can be taken. */
  lemma {:induction false} NothingAfterDone(s: Session, sign: (Bytes, Bytes) -> Option<Sig>, check: (Bytes, Bytes, Bytes) -> bool, feeds: seq<Feed>)
    requires s.state == Done || s.state == Failed
    ensures RunSession(s, sign, check, feeds) == if feeds == [] then s else s.(state := Failed)
    ensures feeds != [] ==> TakeRecord(RunSession(s, sign, check, feeds)).None?
    decreases |feeds|
  {
    hide HandleAccept, HandlePropose, HandleConfirm;
    if feeds != [] { NothingAfterDone(s.(state := Failed), sign, check, feeds[1..]); }
  }

  predicate Signed(s: Session, check: (Bytes, Bytes, Bytes) -> bool) {
    && (s.state == AwaitAccept ==> s.role == Initiator) && (s.state == AwaitConfirm ==> s.role == Responder)
    && (Fresh(s) && s.role == Initiator ==> OwnSide(s))
    && (s.state == AwaitConfirm ==> Encodable(s.rec) && check(s.rec.pubB, EncodeBody(s.rec), s.rec.sigB))
    && (s.state == Done ==> Verify(s.rec, check))
  }

  /** Signing makes signatures that verify under the session's own key. */
  ghost predicate KeyPair(me: Input, sign: (Bytes, Bytes) -> Option<Sig>, check: (Bytes, Bytes, Bytes) -> bool) {
    forall m :: sign(me.seed, m).Some? ==> check(me.pub, m, sign(me.seed, m).value)
  }

  lemma {:induction false} HandleSigned(s: Session, env: Env, msg: Bytes, outMax: nat)
    requires Signed(s, env.check) && KeyPair(s.me, env.sign, env.check)
    ensures var t := Handle(s, env, msg, outMax).session;
      Signed(t, env.check) && t.me.pub == s.me.pub && t.me.seed == s.me.seed
  {
    hide DecodeHalf, DecodeConfirm, EncodeHalf, EncodeConfirm, EncodeBody, PrefixMatches;
    if outMax >= MSG_MAX_BYTES && s.role == Initiator && s.state == AwaitAccept {
      DecodeHalfKeepsOwn(msg, ACCEPT, true, s.rec);
      var decoded := DecodeHalf(msg, ACCEPT, true, s.rec);
      if decoded.Some? {
        var sig := env.sign(s.me.seed, EncodeBody(decoded.value));
        if sig.Some? { SameBodyEncodes(decoded.value, decoded.value.(sigA := sig.value)); }
      }
    } else if outMax >= MSG_MAX_BYTES && s.role == Responder && s.state == Init {
      var decoded := DecodeHalf(msg, PROPOSE, false, s.rec);
      if decoded.Some? {
        var me := Rebind(s.me, env.lateBind(decoded.value.pubA));
        var rec := FillHalf(decoded.value, me, true);
        var sig := env.sign(me.seed, EncodeBody(rec));
        if sig.Some? { SameBodyEncodes(rec, rec.(sigB := sig.value)); }
      }
    } else if outMax >= MSG_MAX_BYTES && s.role == Responder && s.state == AwaitConfirm {
      var sig := DecodeConfirm(msg);
      if sig.Some? { SameBodyEncodes(s.rec, s.rec.(sigA := sig.value)); }
    }
  }

  /** Whatever a session is fed from its start on: if it is DONE, or has answered as a responder,
      it expects no one in particular or its peer's key starts with what it expects. */
  lemma {:induction false} ExpectedPeer(role: Role, me: Input, outMax: nat, sign: (Bytes, Bytes) -> Option<Sig>,
                                        check: (Bytes, Bytes, Bytes) -> bool, feeds: seq<Feed>)
    ensures var t := RunSession(Start(role, me, outMax).session, sign, check, feeds);
      t.role == role && (t.state == Done || t.state == AwaitConfirm ==>
        me.expectedPeer == [0, 0, 0, 0, 0, 0, 0, 0] || me.expectedPeer == (if role == Initiator then t.rec.pubB else t.rec.pubA)[..8])
  {
    hide Handle, Start, RunSession;
    StartExpected(role, me, outMax);
    RunExpected(Start(role, me, outMax).session, sign, check, feeds);
  }

  lemma {:induction false} RunExpected(s: Session, sign: (Bytes, Bytes) -> Option<Sig>, check: (Bytes, Bytes, Bytes) -> bool, feeds: seq<Feed>)
    requires MetExpected(s)
    ensures var t := RunSession(s, sign, check, feeds);
      MetExpected(t) && t.role == s.role && t.me.expectedPeer == s.me.expectedPeer
    decreases |feeds|
  {
    hide Handle, MetExpected;
    if feeds != [] {
      var env := Env(sign, check, feeds[0].lateBind);
      HandleExpected(s, env, feeds[0].msg, feeds[0].outMax);
      RunExpected(Handle(s, env, feeds[0].msg, feeds[0].outMax).session, sign, check, feeds[1..]);
    }
  }

  /** Whatever a session is fed, a record taken from it verifies. */
  lemma {:induction false} TakenVerifies(s: Session, sign: (Bytes, Bytes) -> Option<Sig>, check: (Bytes, Bytes, Bytes) -> bool, feeds: seq<Feed>)
    requires Signed(s, check) && KeyPair(s.me, sign, check)
    ensures var taken := TakeRecord(RunSession(s, sign, check, feeds)); taken.Some? ==> Verify(taken.value, check)
    decreases |feeds|
  {
    hide Handle, Verify;
    if feeds != [] {
      HandleSigned(s, Env(sign, check, feeds[0].lateBind), feeds[0].msg, feeds[0].outMax);
      TakenVerifies(Handle(s, Env(sign, check, feeds[0].lateBind), feeds[0].msg, feeds[0].outMax).session, sign, check, feeds[1..]);
    }
  }

  /** ... in particular from a session right after its start. */
  lemma {:induction false} StartedVerifies(role: Role, me: Input, outMax: nat, sign: (Bytes, Bytes) -> Option<Sig>,
                                           check: (Bytes, Bytes, Bytes) -> bool, feeds: seq<Feed>)
    requires KeyPair(me, sign, check)
    ensures var taken := TakeRecord(RunSession(Start(role, me, outMax).session, sign, check, feeds));
      taken.Some? ==> Verify(taken.value, check)
  {
    hide Handle, Verify, EncodeHalf, RunSession;
    TakenVerifies(Start(role, me, outMax).session, sign, check, feeds);
  }
}
