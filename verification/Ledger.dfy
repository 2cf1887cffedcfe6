/** The per-peer ledger: an array of entries that behaves as a bounded map with eviction, and its
    whole-blob persistence. */
module Ledger {
  import opened Bits
  import opened Cbor
  import opened CborCode
  import opened EncounterRecord
  import opened Limbs
  import opened Wrappers

  const CAP: nat := 64
  const SLOT_BYTES: nat := 80
  const HEADER_BYTES: nat := 16
  const BLOB_BYTES: nat := 5136

  datatype Entry = Entry(pub: Pub, meetings: U64, tx: U64, rx: U64, files: U64, rep: I32)

  function Fresh(pub: Pub): Entry {
    Entry(pub, 0, 0, 0, 0, 0)
  }

  ghost predicate Distinct(s: seq<Entry>) {
    forall i, j :: 0 <= i < j < |s| ==> s[i].pub != s[j].pub
  }

  function SatAdd(a: U64, b: U64): U64 {
    if b > 0xffff_ffff_ffff_ffff - a then 0xffff_ffff_ffff_ffff else a + b
  }

  /** The running totals after one more session. */
  function Applied(e: Entry, tx: U64, rx: U64, files: U64, seen: U64): Entry {
    e.(tx := SatAdd(e.tx, tx), rx := SatAdd(e.rx, rx), files := SatAdd(e.files, files), meetings := if seen > e.meetings then seen else e.meetings)
  }

  function IndexOf(s: seq<Entry>, pub: Pub): (r: Option<nat>)
    ensures r.Some? ==> r.value < |s| && s[r.value].pub == pub && forall i :: 0 <= i < r.value ==> s[i].pub != pub
    ensures r.None? ==> forall i :: 0 <= i < |s| ==> s[i].pub != pub
  {
    if s == [] then None
    else if s[0].pub == pub then Some(0)
    else
      var rest := IndexOf(s[1..], pub);
      if rest.None? then None else Some(rest.value + 1)
  }

  /** The slot to evict: the first with the lowest meeting count. */
  ghost predicate Victim(s: seq<Entry>, v: nat) {
    v < |s| && (forall i :: 0 <= i < |s| ==> s[v].meetings <= s[i].meetings) && forall i :: 0 <= i < v ==> s[v].meetings < s[i].meetings
  }

  /** The ledger as a map: the entry of a key. */
  function Find(s: seq<Entry>, k: Pub): (e: Option<Entry>) {
    var i := IndexOf(s, k);
    if i.None? then None else Some(s[i.value])
  }

  lemma {:induction false} FindAt(s: seq<Entry>, i: nat)
    requires Distinct(s) && i < |s|
    ensures IndexOf(s, s[i].pub) == Some(i) && Find(s, s[i].pub) == Some(s[i])
  {
    hide IndexOf;
    var r := IndexOf(s, s[i].pub);
    assert r.Some?;
    assert s[r.value].pub == s[i].pub;
  }

  /** Replacing the entry in one slot. */
  lemma {:induction false} FindUpdate(s: seq<Entry>, i: nat, e: Entry, k: Pub)
    requires Distinct(s) && i < |s| && Distinct(s[i := e])
    ensures Find(s[i := e], k) == if k == e.pub then Some(e) else if k == s[i].pub then None else Find(s, k)
  {
    hide IndexOf, Distinct;
    var r := s[i := e];
    var x, y := IndexOf(s, k), IndexOf(r, k);
    if k == e.pub {
      FindAt(r, i);
    } else if k == s[i].pub {
      Elsewhere(s, i, k);
    } else if x.Some? {
      FindAt(s, x.value);
      assert r[x.value] == s[x.value];
      FindAt(r, x.value);
    } else {
      forall j | 0 <= j < |r| ensures r[j].pub != k { }
    }
  }

  lemma {:induction false} Elsewhere(s: seq<Entry>, i: nat, k: Pub)
    requires Distinct(s) && i < |s| && s[i].pub == k
    ensures forall e: Entry :: e.pub != k ==> IndexOf(s[i := e], k).None?
  {
    hide IndexOf;
    forall e: Entry | e.pub != k ensures IndexOf(s[i := e], k).None? {
      var r := s[i := e];
      forall j | 0 <= j < |r| ensures r[j].pub != k { }
    }
  }

  /** A further entry with a new key. */
  lemma {:induction false} FindSnoc(s: seq<Entry>, e: Entry, k: Pub)
    requires IndexOf(s, e.pub).None? && Distinct(s)
    ensures Distinct(s + [e]) && Find(s + [e], k) == if k == e.pub then Some(e) else Find(s, k)
  {
    hide IndexOf;
    var r := s + [e];
    var x, y := IndexOf(s, k), IndexOf(r, k);
    if k == e.pub {
      FindAt(r, |s|);
    } else if x.Some? {
      FindAt(s, x.value);
      assert r[x.value] == s[x.value];
      FindAt(r, x.value);
    } else {
      forall j | 0 <= j < |r| ensures r[j].pub != k { }
    }
  }

  // ---- serialisation ----

  function PutU64(v: U64): (s: Bytes)
    ensures |s| == 8
  {
    Store32(v % 0x1_0000_0000) + Store32(v / 0x1_0000_0000)
  }

  function GetU64(s: Bytes): U64
    requires |s| == 8
  {
    Load32(s[..4]) + 0x1_0000_0000 * Load32(s[4..])
  }

  lemma {:induction false} U64RoundTrip(v: U64)
    ensures GetU64(PutU64(v)) == v
  {
    hide Store32, Load32;
    var s := PutU64(v);
    assert s[..4] == Store32(v % 0x1_0000_0000) && s[4..] == Store32(v / 0x1_0000_0000);
  }

  function PutI32(v: I32): (s: Bytes)
    ensures |s| == 4
  {
    Store32(v % 0x1_0000_0000)
  }

  /** The conversion back to a signed integer. */
  function GetI32(s: Bytes): I32
    requires |s| == 4
  {
    var u := Load32(s);
    if u >= 0x8000_0000 then u - 0x1_0000_0000 else u
  }

  lemma {:induction false} I32RoundTrip(v: I32)
    ensures GetI32(PutI32(v)) == v
  {
    hide Store32, Load32;
  }

  function EncodeSlot(e: Entry): (s: Bytes)
    ensures |s| == SLOT_BYTES
  {
    e.pub + PutU64(e.meetings) + PutU64(e.tx) + PutU64(e.rx) + PutU64(e.files) + PutI32(e.rep) + Zeros(12)
  }

  function DecodeSlot(s: Bytes): Entry
    requires |s| == SLOT_BYTES
  {
    Entry(s[..32], GetU64(s[32..40]), GetU64(s[40..48]), GetU64(s[48..56]), GetU64(s[56..64]), GetI32(s[64..68]))
  }

  lemma {:induction false} SlotRoundTrip(e: Entry)
    ensures DecodeSlot(EncodeSlot(e)) == e
  {
    hide PutU64, GetU64, PutI32, GetI32;
    var s := EncodeSlot(e);
    assert s[..32] == e.pub && s[32..40] == PutU64(e.meetings) && s[40..48] == PutU64(e.tx);
    assert s[48..56] == PutU64(e.rx) && s[56..64] == PutU64(e.files) && s[64..68] == PutI32(e.rep);
    U64RoundTrip(e.meetings);
    U64RoundTrip(e.tx);
    U64RoundTrip(e.rx);
    U64RoundTrip(e.files);
    I32RoundTrip(e.rep);
  }

  /** The slots of some entries, one after the other. */
  function EncodeSlots(s: seq<Entry>): (b: Bytes)
    ensures |b| == 80 * |s|
  {
    if s == [] then [] else EncodeSlots(s[..|s| - 1]) + EncodeSlot(s[|s| - 1])
  }

  function DecodeSlots(b: Bytes, n: nat): (s: seq<Entry>)
    requires |b| >= 80 * n
    ensures |s| == n
  {
    if n == 0 then [] else DecodeSlots(b, n - 1) + [DecodeSlot(b[80 * (n - 1)..80 * n])]
  }

  lemma {:induction false} SlotsRoundTrip(s: seq<Entry>, tail: Bytes)
    ensures DecodeSlots(EncodeSlots(s) + tail, |s|) == s
    decreases |s|
  {
    hide EncodeSlot, DecodeSlot;
    if s != [] {
      var n := |s| - 1;
      var last := EncodeSlot(s[n]);
      assert EncodeSlots(s) + tail == EncodeSlots(s[..n]) + (last + tail);
      SlotsRoundTrip(s[..n], last + tail);
      assert (EncodeSlots(s) + tail)[80 * n..80 * (n + 1)] == last;
      SlotRoundTrip(s[n]);
    }
  }

  const MAGIC: Bytes := [87, 88, 80, 76]

  /** The blob with the header for n entries and some slots filled. */
  function ImageSoFar(n: nat, s: seq<Entry>): (b: Bytes)
    requires |s| <= n <= CAP
    ensures |b| == BLOB_BYTES
  {
    MAGIC + [1, n] + Zeros(10) + EncodeSlots(s) + Zeros(80 * (CAP - |s|))
  }

  /** The persisted blob. */
  function Image(s: seq<Entry>): (b: Bytes)
    requires |s| <= CAP
    ensures |b| == BLOB_BYTES
  {
    ImageSoFar(|s|, s)
  }

  lemma {:induction false} NoSlots(b: Bytes, n: nat)
    requires |b| == BLOB_BYTES && n <= CAP && b[..4] == MAGIC && b[4] == 1 && b[5] == n
    requires forall i :: 6 <= i < BLOB_BYTES ==> b[i] == 0
    ensures b == ImageSoFar(n, [])
  {
  }

  /** Writing the next slot. */
  lemma {:induction false} SlotPut(s: seq<Entry>, i: nat)
    requires i < |s| <= CAP
    ensures Splice(ImageSoFar(|s|, s[..i]), HEADER_BYTES + i * SLOT_BYTES, EncodeSlot(s[i])) == ImageSoFar(|s|, s[..i + 1])
  {
    hide EncodeSlot, EncodeSlots;
    var (done, slot) := (EncodeSlots(s[..i]), EncodeSlot(s[i]));
    var (head, rest) := (MAGIC + [1, |s|] + Zeros(10), Zeros(80 * (CAP - i)));
    SlotsNext(s, i);
    assert rest == Zeros(80) + Zeros(80 * (CAP - (i + 1)));
    SpliceMiddle(head + done, Zeros(80), slot, Zeros(80 * (CAP - (i + 1))));
    assert ImageSoFar(|s|, s[..i]) == head + done + (Zeros(80) + Zeros(80 * (CAP - (i + 1))));
    assert ImageSoFar(|s|, s[..i + 1]) == head + done + (slot + Zeros(80 * (CAP - (i + 1))));
  }

  lemma {:induction false} SlotsNext(s: seq<Entry>, i: nat)
    requires i < |s|
    ensures EncodeSlots(s[..i + 1]) == EncodeSlots(s[..i]) + EncodeSlot(s[i])
  {
    hide EncodeSlot;
    assert s[..i + 1][..i] == s[..i];
  }

  lemma {:induction false} SpliceMiddle(a: Bytes, was: Bytes, b: Bytes, c: Bytes)
    requires |was| == |b|
    ensures Splice(a + (was + c), |a|, b) == a + (b + c)
  {
  }

  lemma {:induction false} NoSlotsRead(b: Bytes)
    ensures |b| == BLOB_BYTES ==> DecodeSlots(b[HEADER_BYTES..], 0) == []
  {
  }

  lemma {:induction false} SlotAt(b: Bytes, i: nat)
    requires |b| == BLOB_BYTES && i < CAP
    ensures DecodeSlots(b[HEADER_BYTES..], i + 1)
         == DecodeSlots(b[HEADER_BYTES..], i) + [DecodeSlot(b[HEADER_BYTES + i * SLOT_BYTES..HEADER_BYTES + (i + 1) * SLOT_BYTES])]
  {
    hide DecodeSlot;
    assert b[HEADER_BYTES..][80 * i..80 * (i + 1)] == b[HEADER_BYTES + i * SLOT_BYTES..HEADER_BYTES + (i + 1) * SLOT_BYTES];
  }

  /** `peer_ledger_init`: as many bytes as the blob has, when the file has them and the header is
      valid; an empty ledger otherwise. */
  function Load(disk: Option<Bytes>): (s: seq<Entry>)
    ensures |s| <= CAP
  {
    if disk.None? || |disk.value| < BLOB_BYTES then []
    else
      var b := disk.value[..BLOB_BYTES];
      if b[..4] != MAGIC || b[4] != 1 || b[5] > CAP then [] else DecodeSlots(b[HEADER_BYTES..], b[5])
  }

  /** Init after a successful persist restores the ledger exactly, whatever an older and longer
      file left behind it. */
  lemma {:induction false} Reload(s: seq<Entry>, tail: Bytes)
    requires |s| <= CAP
    ensures Load(Some(Image(s) + tail)) == s
  {
    hide EncodeSlots, DecodeSlots;
    var b := Image(s);
    assert (b + tail)[..BLOB_BYTES] == b;
    var rest := EncodeSlots(s) + Zeros(80 * (CAP - |s|));
    assert b == (MAGIC + [1, |s|] + Zeros(10)) + rest;
    assert b[..4] == MAGIC && b[4] == 1 && b[5] == |s| && b[16..] == rest;
    SlotsRoundTrip(s, Zeros(80 * (CAP - |s|)));
  }

  // ---- the module ----

  /** What upsert leaves: the key's entry if there is one; else a fresh one, in a new slot or in
      place of the victim v. */
  function Upserted(s: seq<Entry>, pub: Pub, v: nat): (r: seq<Entry>)
    requires |s| <= CAP && (|s| == CAP && IndexOf(s, pub).None? ==> v < |s|)
    ensures |s| <= |r| <= CAP
  {
    if IndexOf(s, pub).Some? then s
    else if |s| < CAP then s + [Fresh(pub)]
    else s[v := Fresh(pub)]
  }

  function Later(r: Option<nat>, i: nat): Option<nat> {
    if r.None? then None else Some(r.value + i)
  }

  lemma {:induction false} IndexStep(s: seq<Entry>, i: nat, pub: Pub)
    requires i < |s|
    ensures IndexOf(s[i..], pub) == if s[i].pub == pub then Some(0) else Later(IndexOf(s[i + 1..], pub), 1)
  {
    assert s[i..][0] == s[i] && s[i..][1..] == s[i + 1..];
  }

  lemma {:induction false} NoIndex(pub: Pub)
    ensures IndexOf([], pub) == None
  {
  }

  class PeerLedger {
    var entries: seq<Entry>
    var disk: Option<Bytes>

    ghost predicate Valid()
      reads this
    {
      |entries| <= CAP && Distinct(entries)
    }

    constructor (disk: Option<Bytes>)
      ensures Valid() && entries == [] && this.disk == disk
    {
      entries, this.disk := [], disk;
    }

    /** Load the persisted ledger. */
    method Init()
      modifies this
      ensures entries == Load(disk) && disk == old(disk)
    {
      hide DecodeSlot, DecodeSlots;
      entries := [];
      if disk.None? || |disk.value| < BLOB_BYTES { return; }
      var b := disk.value[..BLOB_BYTES];
      NoSlotsRead(b);
      if b[..4] != MAGIC || b[4] != 1 || b[5] > CAP { return; }
      for i := 0 to b[5]
        invariant disk == old(disk) && entries == DecodeSlots(b[HEADER_BYTES..], i)
      {
        SlotAt(b, i);
        entries := entries + [DecodeSlot(b[HEADER_BYTES + i * SLOT_BYTES..HEADER_BYTES + (i + 1) * SLOT_BYTES])];
      }
    }

    method FindIndex(pub: Pub) returns (r: Option<nat>)
      ensures r == IndexOf(entries, pub)
    {
      hide IndexOf;
      assert entries[0..] == entries;
      for i := 0 to |entries|
        invariant IndexOf(entries, pub) == Later(IndexOf(entries[i..], pub), i)
      {
        IndexStep(entries, i, pub);
        if entries[i].pub == pub { return Some(i); }
      }
      NoIndex(pub);
      assert entries[|entries|..] == [];
      return None;
    }

    method PickVictim() returns (victim: nat)
      requires |entries| > 0
      ensures Victim(entries, victim)
      ensures victim < |entries| && forall i :: 0 <= i < |entries| ==>
        entries[victim].meetings <= entries[i].meetings && (i < victim ==> entries[victim].meetings < entries[i].meetings)
    {
      victim := 0;
      var best := entries[0].meetings;
      for i := 1 to |entries|
        invariant victim < i && best == entries[victim].meetings
        invariant forall k :: 0 <= k < i ==> best <= entries[k].meetings
        invariant forall k :: 0 <= k < victim ==> best < entries[k].meetings
      {
        if entries[i].meetings < best {
          best := entries[i].meetings;
          victim := i;
        }
      }
    }

    /** Get or insert; at capacity the victim makes room. */
    method Upsert(pub: Pub) returns (slot: nat, ghost v: nat)
      requires Valid()
      modifies this`entries
      ensures Valid() && slot < |entries| && entries[slot].pub == pub
      ensures IndexOf(old(entries), pub).None? && |old(entries)| == CAP ==> Victim(old(entries), v) && slot == v
      ensures entries == Upserted(old(entries), pub, v)
      ensures IndexOf(old(entries), pub).None? ==> entries[slot] == Fresh(pub)
      ensures IndexOf(old(entries), pub).Some? ==> slot == IndexOf(old(entries), pub).value
    {
      v := 0;
      var existing := FindIndex(pub);
      if existing.Some? { return existing.value, 0; }
      if |entries| < CAP {
        slot := |entries|;
        entries := entries + [Fresh(pub)];
      } else {
        slot := PickVictim();
        v := slot;
        entries := entries[slot := Fresh(pub)];
      }
    }

    method Persist(writes: bool) returns (rc: int)
      requires |entries| <= CAP
      modifies this`disk
      ensures disk == (if writes then Some(Image(entries)) else old(disk)) && rc == (if writes then 0 else -1)
    {
      hide EncodeSlot, EncodeSlots, ImageSoFar, Splice;
      var buf := new U8[BLOB_BYTES](i => 0);
      buf[0], buf[1], buf[2], buf[3] := MAGIC[0], MAGIC[1], MAGIC[2], MAGIC[3];
      buf[4] := 1;
      buf[5] := |entries|;
      NoSlots(buf[..], |entries|);
      for i := 0 to |entries|
        invariant disk == old(disk) && buf[..] == ImageSoFar(|entries|, entries[..i])
      {
        SlotPut(entries, i);
        Put(buf, HEADER_BYTES + i * SLOT_BYTES, EncodeSlot(entries[i]));
      }
      assert entries[..|entries|] == entries;
      if !writes { return -1; }
      disk := Some(buf[..]);
      return 0;
    }

    /** Add a session's deltas to a peer's totals. */
    method Apply(pub: Pub, tx: U64, rx: U64, files: U64, seen: U64, writes: bool) returns (rc: int)
      requires Valid()
      modifies this
      ensures Valid() && rc == (if writes then 0 else -1) && (writes ==> disk == Some(Image(entries)))
      ensures exists v :: SetTo(old(entries), entries, pub, v, Applied(Lookup(old(entries), pub), tx, rx, files, seen))
    {
      hide IndexOf, SatAdd, Distinct;
      var slot, v := Upsert(pub);
      ghost var mid := entries;
      entries := entries[slot := Applied(entries[slot], tx, rx, files, seen)];
      rc := Persist(writes);
      SetAt(old(entries), mid, entries, pub, v, slot, Applied(Lookup(old(entries), pub), tx, rx, files, seen));
    }

    /** Set a peer's reputation score. */
    method SetRep(pub: Pub, rep: I32, writes: bool) returns (rc: int)
      requires Valid()
      modifies this
      ensures Valid() && rc == (if writes then 0 else -1) && (writes ==> disk == Some(Image(entries)))
      ensures exists v :: SetTo(old(entries), entries, pub, v, Lookup(old(entries), pub).(rep := rep))
    {
      hide IndexOf, Distinct;
      var slot, v := Upsert(pub);
      ghost var mid := entries;
      entries := entries[slot := entries[slot].(rep := rep)];
      rc := Persist(writes);
      SetAt(old(entries), mid, entries, pub, v, slot, Lookup(old(entries), pub).(rep := rep));
    }

    method Get(pub: Pub) returns (out: Option<Entry>)
      ensures out == Find(entries, pub)
    {
      var i := FindIndex(pub);
      return if i.None? then None else Some(entries[i.value]);
    }
  }

  /** The entry of a key, fresh when there is none. */
  function Lookup(s: seq<Entry>, pub: Pub): Entry {
    if Find(s, pub).None? then Fresh(pub) else Find(s, pub).value
  }

  /** One call as an operation on the map: the key's entry becomes e; at capacity an absent key
      first evicts the victim; no other entry changes. */
  ghost predicate SetTo(s: seq<Entry>, r: seq<Entry>, pub: Pub, v: nat, e: Entry) {
    var evicts := Find(s, pub).None? && |s| == CAP;
    && (evicts ==> Victim(s, v)) && |r| == (if Find(s, pub).None? && !evicts then |s| + 1 else |s|)
    && forall k: Pub {:trigger Find(r, k)} :: Find(r, k) == if k == pub then Some(e) else if evicts && k == s[v].pub then None else Find(s, k)
  }

  lemma {:induction false} SetAt(s: seq<Entry>, mid: seq<Entry>, r: seq<Entry>, pub: Pub, v: nat, slot: nat, e: Entry)
    requires |s| <= CAP && Distinct(s) && (IndexOf(s, pub).None? && |s| == CAP ==> Victim(s, v) && slot == v)
    requires mid == Upserted(s, pub, v) && slot < |mid| && mid[slot].pub == pub && Distinct(mid)
    requires r == mid[slot := e] && e.pub == pub
    ensures Distinct(r) && SetTo(s, r, pub, v, e)
  {
    hide IndexOf;
    forall k: Pub ensures Find(r, k) == if k == pub then Some(e)
        else if Find(s, pub).None? && |s| == CAP && k == s[v].pub then None else Find(s, k)
    {
      FindUpdate(mid, slot, e, k);
      if IndexOf(s, pub).None? {
        if |s| < CAP { FindSnoc(s, Fresh(pub), k); } else { FindUpdate(s, v, Fresh(pub), k); }
      }
    }
  }

  // ---- running totals ----

  /** One session's contribution. */
  datatype Delta = Delta(tx: U64, rx: U64, files: U64, seen: U64)

  datatype Call = ApplyCall(pub: Pub, d: Delta) | RepCall(pub: Pub, rep: I32)

  /** The entry of the call's key after the call. */
  function AfterCall(e: Entry, c: Call): Entry {
    match c
    case ApplyCall(_, d) => Applied(e, d.tx, d.rx, d.files, d.seen)
    case RepCall(_, rep) => e.(rep := rep)
  }

  /** A call as it leaves the ledger, whichever victim it evicts. */
  ghost predicate Called(s: seq<Entry>, r: seq<Entry>, c: Call) {
    exists v :: SetTo(s, r, c.pub, v, AfterCall(Lookup(s, c.pub), c))
  }

  /** A run: the ledgers before and after each of some calls. */
  ghost predicate RunOf(ledgers: seq<seq<Entry>>, calls: seq<Call>) {
    |ledgers| == |calls| + 1 && forall i :: 0 <= i < |calls| ==> Called(ledgers[i], ledgers[i + 1], calls[i])
  }

  function DeltasOf(calls: seq<Call>, pub: Pub): seq<Delta> {
    if calls == [] then []
    else
      var c := calls[|calls| - 1];
      DeltasOf(calls[..|calls| - 1], pub) + if c.ApplyCall? && c.pub == pub then [c.d] else []
  }

  function LastRep(calls: seq<Call>, pub: Pub): I32 {
    if calls == [] then 0
    else
      var c := calls[|calls| - 1];
      if c.RepCall? && c.pub == pub then c.rep else LastRep(calls[..|calls| - 1], pub)
  }

  function Capped(x: nat): U64 {
    if x > 0xffff_ffff_ffff_ffff then 0xffff_ffff_ffff_ffff else x
  }

  function SumTx(deltas: seq<Delta>): nat {
    if deltas == [] then 0 else SumTx(deltas[..|deltas| - 1]) + deltas[|deltas| - 1].tx
  }

  function SumRx(deltas: seq<Delta>): nat {
    if deltas == [] then 0 else SumRx(deltas[..|deltas| - 1]) + deltas[|deltas| - 1].rx
  }

  function SumFiles(deltas: seq<Delta>): nat {
    if deltas == [] then 0 else SumFiles(deltas[..|deltas| - 1]) + deltas[|deltas| - 1].files
  }

  function MaxSeen(deltas: seq<Delta>): U64 {
    if deltas == [] then 0
    else
      var (m, x) := (MaxSeen(deltas[..|deltas| - 1]), deltas[|deltas| - 1].seen);
      if x > m then x else m
  }

  /** The entry that a key's calls since its insertion amount to: each total is their sum, capped
      at the largest counter, and the meeting count is the largest seen. */
  function Totals(pub: Pub, calls: seq<Call>): Entry {
    var deltas := DeltasOf(calls, pub);
    Entry(pub, MaxSeen(deltas), Capped(SumTx(deltas)), Capped(SumRx(deltas)), Capped(SumFiles(deltas)), LastRep(calls, pub))
  }

  lemma {:induction false} TotalsNext(pub: Pub, calls: seq<Call>, c: Call)
    ensures Totals(pub, calls + [c]) == if c.pub == pub then AfterCall(Totals(pub, calls), c) else Totals(pub, calls)
  {
    assert (calls + [c])[..|calls|] == calls;
    var deltas := DeltasOf(calls, pub);
    assert deltas + [] == deltas;
    if c.ApplyCall? && c.pub == pub {
      assert (deltas + [c.d])[..|deltas|] == deltas;
    }
  }

  /** Over any run that inserts a key with its first call and never evicts it, whatever happens
      to other keys meanwhile, the key's entry is what its calls amount to. */
  lemma {:induction false} History(ledgers: seq<seq<Entry>>, calls: seq<Call>, pub: Pub)
    requires RunOf(ledgers, calls) && Find(ledgers[0], pub).None?
    requires forall i :: 1 <= i < |ledgers| ==> Find(ledgers[i], pub).Some?
    ensures calls != [] ==> Find(ledgers[|calls|], pub) == Some(Totals(pub, calls))
    decreases |calls|
  {
    hide Find, AfterCall, Totals, SetTo;
    if calls != [] {
      var n := |calls| - 1;
      var c := calls[n];
      assert Called(ledgers[n], ledgers[n + 1], c);
      History(ledgers[..n + 1], calls[..n], pub);
      TotalsNext(pub, calls[..n], c);
      assert calls[..n] + [c] == calls;
      CallFinds(ledgers[n], ledgers[n + 1], c, pub);
      if n == 0 {
        NoTotals(pub);
        assert calls[..n] == [];
      }
    }
  }

  lemma {:induction false} NoTotals(pub: Pub)
    ensures Totals(pub, []) == Fresh(pub)
  {
  }

  /** What a call leaves under a key that is still there. */
  lemma {:induction false} CallFinds(s: seq<Entry>, r: seq<Entry>, c: Call, k: Pub)
    requires Called(s, r, c) && Find(r, k).Some?
    ensures k == c.pub ==> Find(r, k) == Some(AfterCall(if Find(s, k).None? then Fresh(k) else Find(s, k).value, c))
    ensures k != c.pub ==> Find(r, k) == Find(s, k)
  {
    hide Find, AfterCall;
    var v :| SetTo(s, r, c.pub, v, AfterCall(Lookup(s, c.pub), c));
    assert Find(r, k) == Find(r, k);
  }

  /** A key that a run loses was evicted on the way: a call for an absent key found the ledger full,
      and no entry had a lower meeting count. */
  lemma {:induction false} EvictedAsLeast(ledgers: seq<seq<Entry>>, calls: seq<Call>, k: Pub) returns (i: nat)
    requires RunOf(ledgers, calls) && forall j :: 0 <= j < |ledgers| ==> Distinct(ledgers[j])
    requires Find(ledgers[0], k).Some? && Find(ledgers[|calls|], k).None?
    ensures i < |calls| && |ledgers[i]| == CAP && Find(ledgers[i], calls[i].pub).None?
    ensures Find(ledgers[i], k).Some? && Find(ledgers[i + 1], k).None?
    ensures forall q: Pub :: Find(ledgers[i], q).Some? ==> Find(ledgers[i], k).value.meetings <= Find(ledgers[i], q).value.meetings
    decreases |calls|
  {
    hide Find, AfterCall, SetTo, Distinct;
    var n := |calls| - 1;
    assert Called(ledgers[n], ledgers[n + 1], calls[n]);
    if Find(ledgers[n], k).None? {
      i := EvictedAsLeast(ledgers[..n + 1], calls[..n], k);
    } else {
      i := n;
      GoesAsLeast(ledgers[n], ledgers[n + 1], calls[n], k);
    }
  }

  /** One call makes only the victim disappear. */
  lemma {:induction false} GoesAsLeast(s: seq<Entry>, r: seq<Entry>, c: Call, k: Pub)
    requires Called(s, r, c) && Distinct(s) && Find(s, k).Some? && Find(r, k).None?
    ensures |s| == CAP && Find(s, c.pub).None?
    ensures forall q: Pub :: Find(s, q).Some? ==> Find(s, k).value.meetings <= Find(s, q).value.meetings
  {
    hide AfterCall, Distinct;
    var v :| SetTo(s, r, c.pub, v, AfterCall(Lookup(s, c.pub), c));
    assert Find(r, k) == Find(r, k);
    FindAt(s, v);
  }
}
