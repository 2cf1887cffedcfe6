/** The output buffer that a session needs: what it sends fits exactly when the buffer holds 73
    bytes, not the 64 that the session itself asks for. */
module RequestRoom {
  import opened Cbor
  import opened CborTree
  import opened Commands
  import opened FileStore
  import opened PeerSync
  import opened RequestCode
  import opened SyncAnswers
  import opened SyncSafety
  import opened SyncWire
  import opened Wrappers

  /** The request that an event makes the session send, and the room that its caller gives. */
  function SentBy(w: World, e: Event): Option<Request>
    requires PeerSync.Ready(w.dev, w.s)
  {
    match e
    case Open(outMax) => Begin(w.dev, w.s, outMax).request
    case Reply(pl, bytes, io, outMax) => HandleReply(pl, w.dev, w.s, bytes, io, outMax).request
    case Close => None
  }

  function RoomOf(e: Event): nat {
    match e
    case Open(outMax) => outMax
    case Reply(_, _, _, outMax) => outMax
    case Close => 0
  }

  // ---- what is sent stays within bounds ----

  /** Names that fit the session's name buffers. */
  ghost predicate Small(s: Sync) {
    |s.curName| < 32 && forall i :: 0 <= i < |s.page| ==> |s.page[i].name| < 32
  }

  predicate Sendable(r: Request, outMax: nat) {
    Bounded(r) && outMax >= 64 && (r.ReadChunk? ==> r.size <= CHUNK_SIZE) && (r.AttestQuery? ==> outMax >= 200)
  }

  ghost predicate SmallOutcome(o: Outcome, outMax: nat) {
    Small(o.s) && (o.request.Some? ==> Sendable(o.request.value, outMax))
  }

  lemma {:induction false} ReadEntriesSmall(b: Bytes, p: nat, n: nat, room: nat)
    requires p <= |b|
    ensures forall i :: 0 <= i < |ReadEntries(b, p, n, room)| ==> |ReadEntries(b, p, n, room)[i].name| < 32
    decreases n
  {
    hide ReadEntry, Parse;
    if n > 0 && room > 0 {
      var e := Parse(b, p, |b|, 0);
      if e.Some? && e.value.kind == KMap {
        ReadEntriesSmall(b, e.value.next, n - 1, room);
        ReadEntriesSmall(b, e.value.next, n - 1, room - 1);
      }
    }
  }

  lemma {:induction false} EnterAttestSmall(dev: Device, s: Sync, outMax: nat)
    requires Small(s) && outMax >= 64
    ensures SmallOutcome(EnterAttest(dev, s, outMax), outMax)
  {
  }

  /** A batch is asked for in buffers of 200 bytes and more; a smaller one ends the session. */
  lemma {:induction false} BatchRoom(dev: Device, s: Sync, outMax: nat)
    requires s.pendingNext < |s.pending|
    ensures var o := EnterAttest(dev, s, outMax);
      if outMax >= 200 then o.step == NeedWrite && o.request.Some? && o.request.value.AttestQuery? && |o.request.value.bssids| <= 12
      else o.step == Error && o.request.None?
  {
  }

  lemma {:induction false} StartNextSmall(pl: Platform, dev: Device, s: Sync, outMax: nat)
    requires Small(s) && outMax >= 64
    ensures SmallOutcome(StartNext(pl, dev, s, outMax), outMax)
    decreases |s.page| - s.pageIdx
  {
    hide Skipped, EnterAttest;
    if s.pageIdx < |s.page| {
      StartNextSmall(pl, dev, s.(pageIdx := s.pageIdx + 1), outMax);
    } else if s.lsNext == 0 {
      EnterAttestSmall(dev, BeginAttest(pl, dev, s), outMax);
    }
  }

  lemma {:induction false} AdvanceSmall(pl: Platform, dev: Device, s: Sync, reply: Bytes, io: Io, outMax: nat)
    requires PeerSync.Ready(dev, s) && Small(s) && outMax >= 64
    ensures SmallOutcome(Advance(pl, dev, s, Interpret(s.phase, reply), io, outMax), outMax)
  {
    hide Interpret, StartNext, EnterAttest, ChunkedAppend, ChunkedStart, ChunkedFinish, ChunkedAbort, CacheWriteAll;
    var a := Interpret(s.phase, reply);
    match s.phase
    case PhLs =>
      if a.Listing? {
        ListingSmall(reply);
        StartNextSmall(pl, dev, s.(page := a.files, pageIdx := 0, lsNext := a.next), outMax);
      }
    case PhReadStart => SizeSmall(pl, dev, s, a, io, outMax);
    case PhReadMeta =>
      var d := if a.Meta? && a.raw.Some? then dev.(store := WriteMeta(dev.store, s.curName, a.raw.value, io.metaOpens)) else dev;
      StartNextSmall(pl, d, s.(pageIdx := s.pageIdx + 1), outMax);
    case PhAttestQuery =>
      if a.Blobs? {
        var d := dev.(cache := CacheWriteAll(dev.cache, a.blobs));
        EnterAttestSmall(d, if a.nextBlob > 0 then s.(attestOffset := a.nextBlob % 0x1_0000_0000)
                            else s.(pendingNext := s.pendingNext + s.batchSize, batchSize := 0, attestOffset := 0), outMax);
      }
    case _ =>
  }

  lemma {:induction false} SizeSmall(pl: Platform, dev: Device, s: Sync, a: Answer, io: Io, outMax: nat)
    requires Small(s) && outMax >= 64
    ensures SmallOutcome(OnSize(pl, dev, s, a, io, outMax), outMax)
  {
    hide StartNext, ChunkedStart;
    StartNextSmall(pl, dev, s.(pageIdx := s.pageIdx + 1), outMax);
    if a.Size? {
      var t := s.(curTotal := a.n);
      StartNextSmall(pl, dev, t.(pageIdx := t.pageIdx + 1), outMax);
      var store := ChunkedStart(dev.store, t.curName, t.curTotal, io.opens).0;
      StartNextSmall(pl, dev.(store := store), t.(pageIdx := t.pageIdx + 1), outMax);
    }
  }

  lemma {:induction false} ListingSmall(b: Bytes)
    ensures var a := Interpret(PhLs, b);
      a.Listing? ==> forall i :: 0 <= i < |a.files| ==> |a.files[i].name| < 32
  {
    hide OuterMap, MapFind, ReadEntries;
    var top := OuterMap(b);
    if top.Some? {
      var files := MapFind(b, top.value.data, |b|, top.value.arg, K_FILES);
      if files.Some? && files.value.kind == KArray {
        ReadEntriesSmall(b, files.value.data, files.value.arg, PAGE);
      }
    }
  }

  lemma {:induction false} EventSmall(w: World, e: Event)
    requires PeerSync.Ready(w.dev, w.s) && Small(w.s)
    ensures Small(SyncSafety.Apply(w, e).s) && (SentBy(w, e).Some? ==> Sendable(SentBy(w, e).value, RoomOf(e)))
  {
    hide Advance, Interpret;
    match e
    case Open(_) =>
    case Reply(pl, bytes, io, outMax) =>
      if w.s.inUse && outMax >= 64 { AdvanceSmall(pl, w.dev, w.s, bytes, io, outMax); }
    case Close =>
  }

  lemma {:induction false} RunSmall(dev: Device, events: seq<Event>)
    requires dev.store.chunk.None?
    ensures Small(Run(dev, events).s)
    decreases |events|
  {
    hide Small, SyncSafety.Apply, Safe;
    if events == [] {
      IdleSmall();
    } else {
      var before := events[..|events| - 1];
      RunSmall(dev, before);
      EventSmall(Run(dev, before), events[|events| - 1]);
    }
  }

  lemma {:induction false} IdleSmall()
    ensures Small(IdleSync())
  {
  }

  // ---- a run that needs 73 bytes ----

  lemma {:induction false} RunNext(dev: Device, events: seq<Event>, e: Event)
    requires dev.store.chunk.None?
    ensures Run(dev, events + [e]) == SyncSafety.Apply(Run(dev, events), e)
  {
    hide SyncSafety.Apply;
    assert (events + [e])[..|events|] == events;
  }

  /** A file with the longest name, too long for one reply's worth of offsets below 2^16. */
  function LongEntry(): Entry {
    Entry(seq(31, i => 97), 70000, ZeroHash())
  }

  function EmptyDevice(): Device {
    Device(Store(map[], map[], None), 0, [])
  }

  function RoomyPlatform(): Platform {
    Platform(files => [], store => 100000, [])
  }

  function ListingBytes(): Bytes {
    Commands.Reply(LsKids([LongEntry()], 0))
  }

  function SizeBytes(): Bytes {
    Commands.Reply([Text(K_OK), Bool(true), Text(K_SIZE), UInt(70000)])
  }

  function Half(): Bytes {
    seq(0x1_0000, i => 0)
  }

  function DataBytes(): Bytes {
    Commands.Reply([Text(K_OK), Bool(true), Text(K_DATA), Str(Half())])
  }

  function FullIo(): Io {
    Io(true, 0x1_0000, true)
  }

  /** The session once the file is locked in, and once its bytes are arriving. */
  function Locked(): Sync {
    IdleSync().(inUse := true, page := [LongEntry()], curName := LongEntry().name, curTotal := 70000, phase := PhReadStart)
  }

  function Arriving(): Sync {
    Locked().(chunkedOpen := true, phase := PhReadChunk)
  }

  function OpenDevice(): Device {
    EmptyDevice().(store := Store(map[LongEntry().name := []], map[], Some(Chunk(LongEntry().name, 70000, 0))))
  }

  lemma {:induction false} LongEntryListable()
    ensures Listable(LongEntry()) && ValidName(LongEntry().name) && |LongEntry().name| == 31
  {
  }

  lemma {:induction false} LocksLong(outMax: nat)
    requires outMax >= 64
    ensures HandleReply(RoomyPlatform(), EmptyDevice(), IdleSync().(inUse := true), ListingBytes(), FullIo(), outMax)
         == Send(EmptyDevice(), Locked(), PhReadStart, ReadStart(LongEntry().name))
  {
    hide Interpret, LsKids, Commands.Reply;
    LongEntryListable();
    ListingRead([LongEntry()], 0);
    var s := IdleSync().(inUse := true, page := [LongEntry()]);
    NotSkipped();
    StartNextLocks(RoomyPlatform(), EmptyDevice(), s, outMax);
  }

  lemma {:induction false} NotSkipped()
    ensures !Skipped(RoomyPlatform(), EmptyDevice().store, LongEntry())
  {
  }

  lemma {:induction false} OpensLong(outMax: nat)
    requires outMax >= 64
    ensures HandleReply(RoomyPlatform(), EmptyDevice(), Locked(), SizeBytes(), FullIo(), outMax)
         == Send(OpenDevice(), Arriving(), PhReadChunk, ReadChunk(LongEntry().name, 0, CHUNK_SIZE))
  {
    hide Interpret, Commands.Reply, StartNext;
    LongEntryListable();
    SizeRead(70000);
  }

  lemma {:induction false} AsksLong(outMax: nat)
    requires outMax >= 64
    ensures PeerSync.Ready(OpenDevice(), Arriving())
    ensures HandleReply(RoomyPlatform(), OpenDevice(), Arriving(), DataBytes(), FullIo(), outMax).request
         == Some(ReadChunk(LongEntry().name, 0x1_0000, CHUNK_SIZE))
  {
    hide Interpret, Commands.Reply;
    DataRead(Half());
    assert Half()[..0x1_0000] == Half();
  }

  /** Whatever room the caller gives, some run makes the session send 73 bytes. */
  lemma {:induction false} LongRequest(outMax: nat) returns (dev: Device, events: seq<Event>, e: Event, r: Request)
    requires outMax >= 64
    ensures dev.store.chunk.None? && RoomOf(e) == outMax && forall i :: 0 <= i < |events| ==> RoomOf(events[i]) == outMax
    ensures SentBy(Run(dev, events), e) == Some(r) && |Message(r)| == 73
  {
    hide HandleReply, Message, ListingBytes, SizeBytes, DataBytes, Safe;
    dev := EmptyDevice();
    var pl := RoomyPlatform();
    var open, listing, size := Open(outMax), SyncSafety.Reply(pl, ListingBytes(), FullIo(), outMax), SyncSafety.Reply(pl, SizeBytes(), FullIo(), outMax);
    events := [open, listing, size];
    e := SyncSafety.Reply(pl, DataBytes(), FullIo(), outMax);
    r := ReadChunk(LongEntry().name, 0x1_0000, CHUNK_SIZE);
    RunNext(dev, [], open);
    RunNext(dev, [open], listing);
    RunNext(dev, [open, listing], size);
    assert [] + [open] == [open] && [open] + [listing] == [open, listing] && [open, listing] + [size] == events;
    LocksLong(outMax);
    OpensLong(outMax);
    AsksLong(outMax);
    LongEntryListable();
    RequestSizes(r);
  }

  // ---- the exact condition ----

  /** Every request that any session ever sends into a buffer of this size fits it. */
  ghost predicate RequestsFit(outMax: nat) {
    forall dev: Device, events: seq<Event>, e: Event :: Fitting(dev, events, e, outMax)
  }

  ghost predicate Fitting(dev: Device, events: seq<Event>, e: Event, outMax: nat) {
    dev.store.chunk.None? && RoomOf(e) == outMax ==>
      var r := SentBy(Run(dev, events), e);
      r.Some? ==> |Message(r.value)| <= outMax
  }

  /** The session itself refuses buffers below 64 bytes and sends nothing then; from there on its
      requests fit exactly if the buffer holds 73 bytes. */
  lemma {:induction false} RoomExactly(outMax: nat)
    ensures RequestsFit(outMax) <==> outMax < 64 || outMax >= 73
  {
    hide Fitting;
    if outMax < 64 || outMax >= 73 {
      forall dev: Device, events: seq<Event>, e: Event ensures Fitting(dev, events, e, outMax) {
        RoomEnough(dev, events, e, outMax);
      }
    } else {
      var dev, events, e, r := LongRequest(outMax);
      TooLong(dev, events, e, r, outMax);
    }
  }

  lemma {:induction false} RoomEnough(dev: Device, events: seq<Event>, e: Event, outMax: nat)
    requires outMax < 64 || outMax >= 73
    ensures Fitting(dev, events, e, outMax)
  {
    hide Small, SyncSafety.Apply, Message, SentBy, Safe;
    if dev.store.chunk.None? && RoomOf(e) == outMax {
      var w := Run(dev, events);
      RunSmall(dev, events);
      EventSmall(w, e);
      if SentBy(w, e).Some? { RequestSizes(SentBy(w, e).value); }
    }
  }

  lemma {:induction false} TooLong(dev: Device, events: seq<Event>, e: Event, r: Request, outMax: nat)
    requires dev.store.chunk.None? && RoomOf(e) == outMax && outMax < 73
    requires SentBy(Run(dev, events), e) == Some(r) && |Message(r)| == 73
    ensures !Fitting(dev, events, e, outMax)
  {
    hide SentBy, Run, Message;
  }
}
