/** `encounters_get`: the two passes over the ring of encounter records. */
module EncountersGet {
  import opened Bits
  import opened Cbor
  import opened CborTree
  import opened Commands
  import opened CommandsCode
  import opened EncounterRecord
  import opened Encounters
  import opened Pagination
  import opened PeerSync
  import opened SyncWire

  /** Whether a record is listed: its time can be read and is later than `since`. */
  predicate Listed(record: Bytes, since: U32) {
    var t := CapturedAt(record);
    t.Some? && t.value > since
  }

  lemma {:induction false} NewerConcat(a: seq<Bytes>, b: seq<Bytes>, since: U32)
    ensures Newer(a + b, since) == Newer(a, since) + Newer(b, since)
    decreases |a|
  {
    hide CapturedAt;
    if a == [] {
      assert a + b == b;
    } else {
      assert (a + b)[0] == a[0] && (a + b)[1..] == a[1..] + b;
      NewerConcat(a[1..], b, since);
    }
  }

  /** Of the records that the device wrote, those with a later time are listed, in order. */
  lemma {:induction false} NewerExactly(records: seq<Bytes>, node: Pub, t: U32, scan: seq<Bssid>, sig: Sig, since: U32)
    requires |scan| <= SCAN_MAX
    ensures var r := RecordBytes(node, t, scan, sig);
      Newer(records + [r], since) == Newer(records, since) + if t > since then [r] else []
  {
    hide RecordBytes, CapturedAt;
    var r := RecordBytes(node, t, scan, sig);
    CapturedAtRecorded(node, t, scan, sig);
    NewerConcat(records, [r], since);
    NewerOne(r, since);
  }

  lemma {:induction false} NewerOne(r: Bytes, since: U32)
    ensures var c := CapturedAt(r); Newer([r], since) == if c.Some? && c.value > since then [r] else []
  {
    hide CapturedAt;
    var one := [r];
    assert one[1..] == [] && Newer([], since) == [];
  }

  lemma {:induction false} NewerNext(records: seq<Bytes>, i: nat, since: U32)
    requires i < |records|
    ensures Newer(records[..i + 1], since) == Newer(records[..i], since) + if Listed(records[i], since) then [records[i]] else []
  {
    hide CapturedAt;
    assert records[..i + 1] == records[..i] + [records[i]];
    NewerConcat(records[..i], [records[i]], since);
    var one := [records[i]];
    assert one[1..] == [] && Newer([], since) == [];
  }

  lemma {:induction false} NewerShort(records: seq<Bytes>, since: U32)
    requires forall i :: 0 <= i < |records| ==> |records[i]| < 0x1_0000
    ensures |Newer(records, since)| <= |records| && forall r :: r in Newer(records, since) ==> |r| < 0x1_0000
    decreases |records|
  {
    hide CapturedAt;
    if records != [] { NewerShort(records[1..], since); }
  }

  /** The first pass: how many records fit, and whether some remain. */
  method CountRecords(records: seq<Bytes>, since: U32, offset: nat, room: nat) returns (n: nat, more: bool)
    ensures var (page, rest) := BlobPage(Newer(records, since), offset, room); n == |page| && more == rest
  {
    hide Listed, CapturedAt, CountAll, BlobSize, Newer, BlobPage;
    var w := new Walk(offset, room, 0, []);
    ghost var t := w.Counted();
    NoRecords(since);
    assert records[..0] == [];
    CountNothing(t, room);
    CountedPage(t, Newer(records, since), offset, room);
    for i := 0 to |records|
      invariant w.room == room && !w.overflow && w.Counted() == CountAll(t, Newer(records[..i], since), room)
    {
      NewerNext(records, i, since);
      assert Newer(records[..i], since) + [] == Newer(records[..i], since);
      if !Listed(records[i], since) { continue; }
      CountConcat(t, Newer(records[..i], since), [records[i]], room);
      var stop := w.Count(records[i]);
      if stop {
        assert records[..i + 1] + records[i + 1..] == records;
        NewerConcat(records[..i + 1], records[i + 1..], since);
        CountConcat(t, Newer(records[..i + 1], since), Newer(records[i + 1..], since), room);
        CountStops(w.Counted(), Newer(records[i + 1..], since), room);
        return w.toEmit, true;
      }
    }
    assert records[..|records|] == records;
    return w.toEmit, false;
  }

  lemma {:induction false} NoRecords(since: U32)
    ensures Newer([], since) == []
  {
  }

  lemma {:induction false} CountedPage(t: Tally, list: seq<Bytes>, offset: nat, room: nat)
    requires t == Tally(offset, 0, 0, false)
    ensures var (page, rest) := BlobPage(list, offset, room);
      CountAll(t, list, room).toEmit == |page| && CountAll(t, list, room).overflow == rest
  {
    hide CountAll, BlobSize;
    CountIsPage(t, list, room);
  }

  /** The second pass: emit what the first one counted. */
  method EmitRecords(w: Walk, records: seq<Bytes>, since: U32)
    requires w.emitted == 0 && (forall i :: 0 <= i < |records| ==> |records[i]| < 0x1_0000)
    modifies w
    ensures var out := EmitAll(old(w.skipRemaining), old(w.toEmit), Newer(records, since));
      AllFit(Strings(out)) && w.p == old(w.p) + EncodeAll(Strings(out))
  {
    hide Listed, CapturedAt, Newer, EmitAll, Encode, EncodeAll, EmitSoFar;
    ghost var skip, n, start := w.skipRemaining, w.toEmit, w.p;
    EmitBegins(start, skip, n);
    NoRecords(since);
    assert records[..0] == [];
    for i := 0 to |records|
      invariant w.emitted <= w.toEmit == n
      invariant EmitSoFar(w.p, start, skip, n, Newer(records[..i], since), w.skipRemaining, w.toEmit - w.emitted)
    {
      NewerNext(records, i, since);
      if !Listed(records[i], since) {
        assert Newer(records[..i], since) + [] == Newer(records[..i], since);
        continue;
      }
      ghost var p0, s0, n0 := w.p, w.skipRemaining, w.toEmit - w.emitted;
      var stop := w.Emit(records[i]);
      EmitOne(p0, start, skip, n, Newer(records[..i], since), s0, n0, records[i], w.p);
      if stop {
        assert records[..i + 1] + records[i + 1..] == records;
        NewerConcat(records[..i + 1], records[i + 1..], since);
        EmitStops(w.p, start, skip, n, Newer(records[..i + 1], since), Newer(records[i + 1..], since));
        return;
      }
    }
    assert records[..|records|] == records;
    EmitEnds(w.p, start, skip, n, Newer(records, since), w.skipRemaining, w.toEmit - w.emitted);
  }

  /** The second pass emits the page that the first one counted. */
  lemma {:induction false} EmitsPage(records: seq<Bytes>, since: U32, offset: nat, room: nat)
    requires |records| < 0x100 && forall i :: 0 <= i < |records| ==> |records[i]| < 0x1_0000
    ensures var page := BlobPage(Newer(records, since), offset, room).0;
      && |page| < 0x100 && (forall i :: 0 <= i < |page| ==> |page[i]| < 0x1_0000)
      && EmitAll(offset, |page|, Newer(records, since)) == page
  {
    hide CapturedAt, BlobSize, Newer, BlobPage, EmitAll;
    var listed := Newer(records, since);
    var page := BlobPage(listed, offset, room).0;
    BlobPageMeans(listed, offset, room);
    NewerShort(records, since);
    assert forall i :: 0 <= i < |page| ==> page[i] in listed;
    if offset <= |listed| { EmitIsPage(offset, |page|, listed); } else { EmitNoMore(offset, listed); }
  }

  /** Answer `encounters_get`: the page of the records later than `since`, in full. */
  method AnswerEncountersGet(records: seq<Bytes>, since: U32, offset: U32, mtu: nat, outMax: nat) returns (reply: Bytes)
    requires |records| < 0x100 && forall i :: 0 <= i < |records| ==> |records[i]| < 0x1_0000
    ensures var (page, more) := BlobPage(Newer(records, since), offset, BlobRoom(Budget(mtu, outMax)));
      reply == Reply(BlobKids(K_RECORDS, page, more, (offset + |page|) % 0x1_0000_0000))
  {
    hide Newer, Reply, BlobPage, BlobKids, EmitAll, Encode, EncodeAll, Header, Strings, TextBytes, Fits;
    var budget := if mtu > 3 then mtu - 3 else 20;
    if budget > outMax { budget := outMax; }
    var room := if budget > 32 then budget - 32 else 0;
    var n, more := CountRecords(records, since, offset, room);
    var next := (offset + n) % 0x1_0000_0000;
    EmitsPage(records, since, offset, room);
    BlobReplyBytes(K_RECORDS, BlobPage(Newer(records, since), offset, room).0, more, next);
    reply := Header(5, if more then 3 else 2);
    reply := reply + (TextBytes(K_OK) + [0xf5]);
    reply := reply + (TextBytes(K_RECORDS) + Header(4, n));
    var emit := new Walk(offset, 0, n, reply);
    EmitRecords(emit, records, since);
    reply := emit.p;
    if more {
      reply := reply + (TextBytes(K_NEXT) + Header(0, next));
    } else {
      assert reply + [] == reply;
    }
  }

  /** Following next_offset from 0, the pages are exactly the records later than `since`, each
      once and in order, on any link that holds the largest record. */
  lemma {:induction false} PagesAreRecords(records: seq<Bytes>, since: U32, budget: nat)
    requires budget >= 203 && forall i :: 0 <= i < |records| ==> |records[i]| <= 169
    ensures AllShort(Newer(records, since), BlobRoom(budget))
    ensures Concat(BlobPages(Newer(records, since), 0, BlobRoom(budget))) == Newer(records, since)
  {
    hide BlobPage, Concat, BlobPages;
    NewerFrom(records, since);
    var listed := Newer(records, since);
    forall i | 0 <= i < |listed| ensures BlobSize(listed[i]) <= BlobRoom(budget) {
      assert listed[i] in listed;
    }
    BlobPagesComplete(listed, 0, BlobRoom(budget));
    assert listed[0..] == listed;
  }

  lemma {:induction false} NewerFrom(records: seq<Bytes>, since: U32)
    ensures forall r :: r in Newer(records, since) ==> r in records && Listed(r, since)
    decreases |records|
  {
    hide CapturedAt;
    if records != [] { NewerFrom(records[1..], since); }
  }
}
