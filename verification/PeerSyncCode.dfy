/** The session slot as the firmware keeps it: fields that every reply updates in place, proved
    equal to the transition function. */
module PeerSyncCode {
  import opened Bits
  import opened Cbor
  import opened CborCode
  import opened CborTree
  import opened Commands
  import opened EncounterRecord
  import opened FileStore
  import opened PeerSync
  import opened Wrappers

  // ---- the file helpers ----

  /** Page through the local listing, looking for a hash. */
  method FsHashExists(list: seq<Entry>, hash: Hash) returns (found: bool)
    ensures found == HashExists(list, hash)
  {
    if hash == ZeroHash() { return false; }
    var offset: nat := 0;
    while true
      invariant offset <= |list| && forall i :: 0 <= i < offset ==> list[i].hash != hash
      decreases |list| - offset
    {
      var (page, next) := FsPage(list, offset, 16);
      if |page| <= 0 { break; }
      for i := 0 to |page|
        invariant forall j :: 0 <= j < i ==> page[j].hash != hash
      {
        if page[i].hash == hash {
          assert list[offset + i].hash == hash;
          return true;
        }
      }
      assert forall k :: offset <= k < offset + |page| ==> list[k].hash == page[k - offset].hash;
      if next <= offset { break; }
      offset := next;
    }
    return false;
  }

  /** Append the BSSIDs that are new and unattested. */
  method EnqueueAll(pending: seq<Bssid>, list: seq<Bssid>, own: seq<Bytes>, cache: seq<Bytes>) returns (r: seq<Bssid>)
    requires |pending| <= BSSID_TOTAL_MAX
    ensures r == Enqueue(pending, list, own, cache)
  {
    hide Attested;
    r := pending;
    assert list[0..] == list;
    for i := 0 to |list|
      invariant |r| <= BSSID_TOTAL_MAX
      invariant Enqueue(pending, list, own, cache) == Enqueue(r, list[i..], own, cache)
    {
      assert list[i..][0] == list[i] && list[i..][1..] == list[i + 1..];
      if |r| >= BSSID_TOTAL_MAX { return; }
      if list[i] in r { continue; }
      if Attested(own, cache, list[i]) { continue; }
      r := r + [list[i]];
    }
  }

  /** Scan the local encounter records, page by page. */
  method GatherAll(list: seq<Entry>, files: map<Bytes, Bytes>, own: seq<Bytes>, cache: seq<Bytes>) returns (r: seq<Bssid>)
    ensures r == Gather([], list, files, own, cache)
  {
    hide Attested, RecordOf, Enqueue, Gather;
    r := [];
    var offset: nat := 0;
    assert list[0..] == list;
    while |r| < BSSID_TOTAL_MAX
      invariant |r| <= BSSID_TOTAL_MAX && offset <= |list|
      invariant Gather([], list, files, own, cache) == Gather(r, list[offset..], files, own, cache)
      decreases |list| - offset
    {
      var (page, next) := FsPage(list, offset, PAGE);
      if |page| <= 0 {
        GatherEnds(r, list[offset..], files, own, cache);
        return;
      }
      var i := 0;
      while i < |page| && |r| < BSSID_TOTAL_MAX
        invariant i <= |page| && |r| <= BSSID_TOTAL_MAX
        invariant Gather([], list, files, own, cache) == Gather(r, list[offset + i..], files, own, cache)
      {
        GatherNext(r, list, offset + i, files, own, cache);
        var rec := RecordOf(files, page[i]);
        if rec.Some? {
          r := EnqueueAll(r, rec.value.bssidsA, own, cache);
          r := EnqueueAll(r, rec.value.bssidsB, own, cache);
        }
        i := i + 1;
      }
      GatherEnds(r, list[offset + i..], files, own, cache);
      if |r| >= BSSID_TOTAL_MAX { return; }
      if next <= offset { return; }
      offset := next;
    }
    GatherEnds(r, list[offset..], files, own, cache);
  }

  lemma {:induction false} GatherNext(r: seq<Bssid>, list: seq<Entry>, i: nat, files: map<Bytes, Bytes>, own: seq<Bytes>, cache: seq<Bytes>)
    requires |r| < BSSID_TOTAL_MAX && i < |list|
    ensures var rec := RecordOf(files, list[i]);
      Gather(r, list[i..], files, own, cache) == Gather(
        if rec.None? then r else Enqueue(Enqueue(r, rec.value.bssidsA, own, cache), rec.value.bssidsB, own, cache),
        list[i + 1..], files, own, cache)
  {
    hide RecordOf, Enqueue;
    assert list[i..][0] == list[i] && list[i..][1..] == list[i + 1..];
  }

  lemma {:induction false} GatherEnds(r: seq<Bssid>, rest: seq<Entry>, files: map<Bytes, Bytes>, own: seq<Bytes>, cache: seq<Bytes>)
    requires |r| <= BSSID_TOTAL_MAX
    ensures rest == [] || |r| >= BSSID_TOTAL_MAX ==> Gather(r, rest, files, own, cache) == r
  {
  }

  /** Decode the entries of a listing, dropping malformed ones, up to a page. */
  method DecodeEntries(b: Bytes, p: nat, n: nat) returns (page: seq<Entry>)
    requires p <= |b|
    ensures page == ReadEntries(b, p, n, PAGE)
  {
    hide Parse, ReadEntry;
    page := [];
    var q: nat := p;
    assert [] + ReadEntries(b, p, n, PAGE) == ReadEntries(b, p, n, PAGE);
    for i := 0 to n
      invariant q <= |b| && |page| <= PAGE
      invariant ReadEntries(b, p, n, PAGE) == page + ReadEntries(b, q, n - i, PAGE - |page|)
    {
      if |page| >= PAGE { break; }
      var e := CborParse(b, q, |b|, 0);
      if e.None? || e.value.kind != KMap { break; }
      q := e.value.next;
      var entry := ReadEntry(b, e.value);
      if entry.None? { continue; }
      ghost var rest := ReadEntries(b, q, n - i - 1, PAGE - |page| - 1);
      assert page + ([entry.value] + rest) == page + [entry.value] + rest;
      page := page + [entry.value];
    }
    assert page + [] == page;
  }

  // ---- the device and the session ----

  /** What a session changes besides itself. */
  class DeviceObject {
    const card: Card
    var counter: U8
    var cache: seq<Bytes>

    ghost function View(): Device
      reads this, card
    {
      Device(card.View(), counter, cache)
    }

    constructor (card: Card, counter: U8, cache: seq<Bytes>)
      ensures this.card == card && this.counter == counter && this.cache == cache
    {
      this.card, this.counter, this.cache := card, counter, cache;
    }

    /** Store one blob in the cache of peers' attestations. */
    method Ingest(blob: Bytes)
      modifies this
      ensures cache == CacheWrite(old(cache), blob) && counter == old(counter)
    {
      if blob == [] || |blob| > BLOB_MAX { return; }
      if blob in cache { return; }
      cache := if |cache| < CACHE_CAP then cache + [blob] else cache[1..] + [blob];
    }
  }

  class SyncSession {
    var phase: Phase
    var inUse: bool
    var lsNext: U32
    var page: seq<Entry>
    var pageIdx: nat
    var curName: Bytes
    var curTotal: U32
    var curReceived: nat
    var chunkedOpen: bool
    var attestStarted: bool
    var pending: seq<Bssid>
    var pendingNext: nat
    var batchSize: nat
    var attestOffset: U32

    ghost function View(): Sync
      reads this
    {
      Sync(phase, inUse, lsNext, page, pageIdx, curName, curTotal, curReceived, chunkedOpen,
           attestStarted, pending, pendingNext, batchSize, attestOffset)
    }

    constructor ()
      ensures View() == IdleSync()
    {
      phase, inUse, lsNext, page, pageIdx := PhLs, false, 0, [], 0;
      curName, curTotal, curReceived, chunkedOpen := [], 0, 0, false;
      attestStarted, pending, pendingNext, batchSize, attestOffset := false, [], 0, 0, 0;
    }

    method Begin(d: DeviceObject, outMax: nat) returns (step: Step, request: Option<Request>)
      modifies this
      ensures var o := PeerSync.Begin(old(d.View()), old(View()), outMax);
        d.View() == o.dev && View() == o.s && step == o.step && request == o.request
    {
      if inUse || outMax < 64 { return Error, None; }
      Wipe();
      inUse := true;
      return NeedWrite, Some(Ls(0));
    }

    /** Zero the whole session. */
    method Wipe()
      modifies this
      ensures View() == IdleSync()
    {
      phase, inUse, lsNext, page, pageIdx := PhLs, false, 0, [], 0;
      curName, curTotal, curReceived, chunkedOpen := [], 0, 0, false;
      attestStarted, pending, pendingNext, batchSize, attestOffset := false, [], 0, 0, 0;
    }

    method AbortInflight(d: DeviceObject)
      modifies this`chunkedOpen, d.card
      ensures (d.View(), View()) == PeerSync.AbortInflight(old(d.View()), old(View()))
    {
      if chunkedOpen {
        d.card.Abort(Some(curName));
        chunkedOpen := false;
      }
    }

    method Finish(d: DeviceObject)
      modifies this, d.card
      ensures (d.View(), View()) == End(old(d.View()), old(View()))
    {
      if !inUse { return; }
      AbortInflight(d);
      inUse := false;
    }

    method EnterAttestPhase(outMax: nat, ghost dev: Device) returns (step: Step, request: Option<Request>)
      modifies this
      ensures var o := EnterAttest(dev, old(View()), outMax); View() == o.s && step == o.step && request == o.request && o.dev == dev
    {
      if pendingNext >= |pending| {
        phase := PhDone;
        return Done, None;
      }
      var batch := |pending| - pendingNext;
      if batch > BSSID_BATCH_MAX { batch := BSSID_BATCH_MAX; }
      batchSize := batch;
      if outMax < 200 {
        phase := PhError;
        return Error, None;
      }
      phase := PhAttestQuery;
      return NeedWrite, Some(AttestQuery(pending[pendingNext..pendingNext + batch], attestOffset));
    }

    /** Advance past the entries of the page that are not to be fetched. */
    method SkipFiles(pl: Platform, d: DeviceObject, ghost outMax: nat)
      modifies this`pageIdx
      ensures View() == old(View()).(pageIdx := pageIdx)
      ensures StartNext(pl, d.View(), old(View()), outMax) == StartNext(pl, d.View(), View(), outMax)
      ensures pageIdx < |page| ==> !Skipped(pl, d.View().store, page[pageIdx])
    {
      hide StartNext, HashExists;
      while pageIdx < |page|
        invariant View() == old(View()).(pageIdx := pageIdx)
        invariant StartNext(pl, d.View(), old(View()), outMax) == StartNext(pl, d.View(), View(), outMax)
        decreases |page| - pageIdx
      {
        var e := page[pageIdx];
        var known := FsHashExists(pl.list(d.card.files), e.hash);
        var size := FileSizeOf(d, e.name);
        var free := FreeSpace(pl, d);
        if !size.Some? && !known && e.size <= free { break; }
        StartNextSkips(pl, d.View(), View(), outMax);
        pageIdx := pageIdx + 1;
      }
    }

    /** Lock in the current entry and ask for its size. */
    method LockFile(pl: Platform, d: DeviceObject, outMax: nat) returns (step: Step, request: Option<Request>)
      requires pageIdx < |page| && !Skipped(pl, d.View().store, page[pageIdx])
      modifies this
      ensures var o := StartNext(pl, d.View(), old(View()), outMax);
        View() == o.s && d.View() == o.dev && step == o.step && request == o.request
    {
      hide StartNext, Skipped;
      StartNextLocks(pl, d.View(), View(), outMax);
      var e := page[pageIdx];
      curName, curTotal, curReceived, chunkedOpen := e.name, e.size, 0, false;
      if outMax < 64 {
        phase := PhError;
        return Error, None;
      }
      phase := PhReadStart;
      return NeedWrite, Some(ReadStart(curName));
    }

    /** The page is exhausted: ask for the next one, or for attestations. */
    method LeavePage(pl: Platform, d: DeviceObject, outMax: nat) returns (step: Step, request: Option<Request>)
      requires pageIdx >= |page|
      modifies this
      ensures var o := StartNext(pl, d.View(), old(View()), outMax);
        View() == o.s && d.View() == o.dev && step == o.step && request == o.request
    {
      hide StartNext, EnterAttest, BeginAttest;
      StartNextEnds(pl, d.View(), View(), outMax);
      if lsNext > 0 {
        page, pageIdx := [], 0;
        phase := PhLs;
        return NeedWrite, Some(Ls(lsNext));
      }
      GatherOnce(pl, d);
      step, request := EnterAttestPhase(outMax, d.View());
    }

    method GatherOnce(pl: Platform, d: DeviceObject)
      modifies this
      ensures View() == BeginAttest(pl, d.View(), old(View()))
    {
      hide Gather;
      if !attestStarted {
        attestStarted := true;
        pending := GatherAll(pl.list(d.card.files), d.card.files, pl.own, d.cache);
        pendingNext, batchSize, attestOffset := 0, 0, 0;
      }
    }

    method StartNextFile(pl: Platform, d: DeviceObject, outMax: nat) returns (step: Step, request: Option<Request>)
      modifies this
      ensures var o := StartNext(pl, d.View(), old(View()), outMax);
        View() == o.s && d.View() == old(d.View()) == o.dev && step == o.step && request == o.request
    {
      hide StartNext, Skipped;
      SkipFiles(pl, d, outMax);
      if pageIdx < |page| {
        step, request := LockFile(pl, d, outMax);
      } else {
        step, request := LeavePage(pl, d, outMax);
      }
    }

    method FileSizeOf(d: DeviceObject, name: Bytes) returns (r: Option<nat>)
      ensures r == FileSize(d.View().store, name)
    {
      if !ValidName(name) || name !in d.card.files { return None; }
      return Some(|d.card.files[name]|);
    }

    /** The platform's free-space query, about the card as it is. */
    method FreeSpace(pl: Platform, d: DeviceObject) returns (n: nat)
      ensures n == pl.free(d.View().store)
    {
      var store := Store(d.card.files, d.card.meta, if d.card.active then Some(Chunk(d.card.name, d.card.expected, d.card.written)) else None);
      n := pl.free(store);
    }

    method HandleListing(pl: Platform, d: DeviceObject, a: Answer, outMax: nat) returns (step: Step, request: Option<Request>)
      modifies this
      ensures var o := OnListing(pl, d.View(), old(View()), a, outMax);
        View() == o.s && d.View() == old(d.View()) == o.dev && step == o.step && request == o.request
    {
      hide StartNext;
      if !a.Listing? {
        phase := PhError;
        DeviceSame(pl, d.View(), old(View()), a, outMax);
        return Error, None;
      }
      page, pageIdx, lsNext := a.files, 0, a.next;
      step, request := StartNextFile(pl, d, outMax);
    }

    method HandleSize(pl: Platform, d: DeviceObject, a: Answer, io: Io, outMax: nat) returns (step: Step, request: Option<Request>)
      modifies this, d.card
      ensures var o := OnSize(pl, old(d.View()), old(View()), a, io, outMax);
        View() == o.s && d.View() == o.dev && step == o.step && request == o.request
    {
      hide StartNext, ChunkedStart;
      if !a.Size? {
        pageIdx := pageIdx + 1;
        step, request := StartNextFile(pl, d, outMax);
        return;
      }
      curTotal := a.n;
      if curTotal == 0 {
        pageIdx := pageIdx + 1;
        step, request := StartNextFile(pl, d, outMax);
        return;
      }
      var ok := d.card.Start(curName, curTotal, io.opens);
      if !ok {
        pageIdx := pageIdx + 1;
        step, request := StartNextFile(pl, d, outMax);
        return;
      }
      chunkedOpen := true;
      phase := PhReadChunk;
      return NeedWrite, Some(ReadChunk(curName, 0, CHUNK_SIZE));
    }

    method HandleData(d: DeviceObject, a: Answer, io: Io) returns (step: Step, request: Option<Request>)
      requires Ready(d.View(), View()) && curReceived <= curTotal
      modifies this, d, d.card
      ensures var o := OnData(old(d.View()), old(View()), a, io);
        View() == o.s && d.View() == o.dev && step == o.step && request == o.request
    {
      hide ChunkedAppend, ChunkedAbort, OnReceived;
      if !a.Data? {
        AbortInflight(d);
        phase := PhError;
        return Error, None;
      }
      var ok := d.card.Append(a.bytes, if io.taken < |a.bytes| then io.taken else |a.bytes|);
      if !ok {
        AbortInflight(d);
        phase := PhError;
        return Error, None;
      }
      curReceived := curReceived + |a.bytes|;
      step, request := ContinueFile(d);
    }

    /** Ask for the rest of the file, or finish it. */
    method ContinueFile(d: DeviceObject) returns (step: Step, request: Option<Request>)
      modifies this, d, d.card
      ensures var o := OnReceived(old(d.View()), old(View()));
        View() == o.s && d.View() == o.dev && step == o.step && request == o.request
    {
      hide ChunkedFinish, ChunkedAbort;
      if curReceived < curTotal {
        var remaining := curTotal - curReceived;
        var want := if remaining < CHUNK_SIZE then remaining else CHUNK_SIZE;
        phase := PhReadChunk;
        return NeedWrite, Some(ReadChunk(curName, curReceived, want));
      }
      var finished := d.card.Finish(curName);
      if !finished {
        AbortInflight(d);
        phase := PhError;
        return Error, None;
      }
      chunkedOpen := false;
      d.counter := (d.counter + 1) % 0x100;
      phase := PhReadMeta;
      return NeedWrite, Some(ReadMeta(curName));
    }

    method HandleMeta(pl: Platform, d: DeviceObject, a: Answer, io: Io, outMax: nat) returns (step: Step, request: Option<Request>)
      modifies this, d.card
      ensures var o := OnMeta(pl, old(d.View()), old(View()), a, io, outMax);
        View() == o.s && d.View() == o.dev && step == o.step && request == o.request
    {
      hide StartNext, WriteMeta;
      if a.Meta? && a.raw.Some? {
        d.card.PutMeta(curName, a.raw.value, io.metaOpens);
      }
      pageIdx := pageIdx + 1;
      step, request := StartNextFile(pl, d, outMax);
    }

    method HandleBlobs(d: DeviceObject, a: Answer, outMax: nat) returns (step: Step, request: Option<Request>)
      modifies this, d
      ensures var o := OnBlobs(old(d.View()), old(View()), a, outMax);
        View() == o.s && d.View() == o.dev && step == o.step && request == o.request
    {
      hide EnterAttest, CacheWrite;
      if !a.Blobs? {
        phase := PhDone;
        return Done, None;
      }
      ghost var before := d.View();
      assert a.blobs[0..] == a.blobs;
      for i := 0 to |a.blobs|
        invariant View() == old(View()) && d.View() == before.(cache := d.cache)
        invariant CacheWriteAll(before.cache, a.blobs) == CacheWriteAll(d.cache, a.blobs[i..])
      {
        assert a.blobs[i..][0] == a.blobs[i] && a.blobs[i..][1..] == a.blobs[i + 1..];
        d.Ingest(a.blobs[i]);
      }
      if a.nextBlob > 0 {
        attestOffset := a.nextBlob % 0x1_0000_0000;
      } else {
        pendingNext := pendingNext + batchSize;
        batchSize, attestOffset := 0, 0;
      }
      step, request := EnterAttestPhase(outMax, d.View());
    }

    method HandleResponse(pl: Platform, d: DeviceObject, reply: Bytes, io: Io, outMax: nat) returns (step: Step, request: Option<Request>)
      requires Ready(d.View(), View())
      modifies this, d, d.card
      ensures var o := HandleReply(pl, old(d.View()), old(View()), reply, io, outMax);
        View() == o.s && d.View() == o.dev && step == o.step && request == o.request
    {
      hide Interpret, OnListing, OnSize, OnData, OnMeta, OnBlobs;
      if !inUse || outMax < 64 { return Error, None; }
      var a := ReadReply(phase, reply);
      match phase {
        case PhLs => step, request := HandleListing(pl, d, a, outMax);
        case PhReadStart => step, request := HandleSize(pl, d, a, io, outMax);
        case PhReadChunk => step, request := HandleData(d, a, io);
        case PhReadMeta => step, request := HandleMeta(pl, d, a, io, outMax);
        case PhAttestQuery => step, request := HandleBlobs(d, a, outMax);
        case PhDone => return Done, None;
        case PhError => return Error, None;
      }
    }
  }

  lemma {:induction false} DeviceSame(pl: Platform, dev: Device, s: Sync, a: Answer, outMax: nat)
    requires !a.Listing?
    ensures OnListing(pl, dev, s, a, outMax).dev == dev
  {
  }

  lemma {:induction false} ReadBlobsNext(b: Bytes, p: nat, n: nat)
    requires p <= |b| && n > 0
    ensures var item := Parse(b, p, |b|, 0);
      ReadBlobs(b, p, n) == if item.None? then []
        else (if item.value.kind == KBytes && item.value.arg != 0 then [b[item.value.data..item.value.next]] else []) + ReadBlobs(b, item.value.next, n - 1)
  {
    hide Parse;
  }

  /** The non-empty byte strings of an array. */
  method DecodeBlobs(b: Bytes, p: nat, n: nat) returns (blobs: seq<Bytes>)
    requires p <= |b|
    ensures blobs == ReadBlobs(b, p, n)
  {
    hide Parse, ReadBlobs;
    blobs := [];
    var q: nat := p;
    ghost var rest := ReadBlobs(b, p, n);
    for i := 0 to n
      invariant q <= |b| && rest == ReadBlobs(b, q, n - i) && ReadBlobs(b, p, n) == blobs + rest
    {
      ReadBlobsNext(b, q, n - i);
      var item := CborParse(b, q, |b|, 0);
      if item.None? { return; }
      q := item.value.next;
      rest := ReadBlobs(b, q, n - i - 1);
      if item.value.kind != KBytes || item.value.arg == 0 {
        assert [] + rest == rest;
        continue;
      }
      blobs := blobs + [b[item.value.data..item.value.next]];
    }
    NoBlobsLeft(b, q);
  }

  lemma {:induction false} NoBlobsLeft(b: Bytes, p: nat)
    requires p <= |b|
    ensures ReadBlobs(b, p, 0) == []
  {
  }

  /** Parse a reply in the phase that waits for it. */
  method ReadReply(phase: Phase, b: Bytes) returns (a: Answer)
    ensures a == Interpret(phase, b)
  {
    hide Parse, MapFind, ReadEntries, ReadBlobs;
    var top := CborParse(b, 0, |b|, 0);
    var bad := top.None? || top.value.kind != KMap;
    if !bad {
      var failed := CborMapFind(b, top.value.data, |b|, top.value.arg, K_ERROR);
      bad := failed.Some?;
    }
    if bad { return if phase == PhReadMeta then Meta(None) else Refused; }
    var t := top.value;
    match phase {
      case PhLs =>
        var files := CborMapFind(b, t.data, |b|, t.arg, K_FILES);
        if files.None? || files.value.kind != KArray { return Refused; }
        var page := DecodeEntries(b, files.value.data, files.value.arg);
        return Listing(page, NextOffset(b, t) % 0x1_0000_0000);
      case PhReadStart =>
        var size := UIntField(b, t, K_SIZE);
        return Size(if size.None? then 0 else size.value % 0x1_0000_0000);
      case PhReadChunk =>
        var data := BytesField(b, t, K_DATA);
        return if data.None? then Refused else Data(data.value);
      case PhReadMeta =>
        var meta := CborMapFind(b, t.data, |b|, t.arg, K_META);
        if meta.None? || meta.value.kind != KMap { return Meta(None); }
        return Meta(Some(b[meta.value.start..meta.value.next]));
      case PhAttestQuery =>
        var found := CborMapFind(b, t.data, |b|, t.arg, K_BLOBS);
        var blobs: seq<Bytes> := [];
        if found.Some? && found.value.kind == KArray {
          blobs := DecodeBlobs(b, found.value.data, found.value.arg);
        }
        return Blobs(blobs, NextOffset(b, t));
      case _ => return Refused;
    }
  }
}
