/** What each reply makes a session do, success and failure, down to the bytes on the card. */
module SyncMeaning {
  import opened Cbor
  import opened FileStore
  import opened PeerSync
  import opened SyncSafety
  import opened Wrappers

  /** One session at a time, and only with room for a request. */
  lemma {:induction false} BeginsExactly(dev: Device, s: Sync, outMax: nat)
    ensures Begin(dev, s, outMax) == if s.inUse || outMax < 64 then Outcome(dev, s, Error, None, None)
      else Outcome(dev, Sync(PhLs, true, 0, [], 0, [], 0, 0, false, false, [], 0, 0, 0), NeedWrite, Some(Ls(0)), None)
  {
  }

  /** Without a session or room, and after the end, a reply changes nothing. */
  lemma {:induction false} Ignored(pl: Platform, dev: Device, s: Sync, reply: Bytes, io: Io, outMax: nat)
    requires Ready(dev, s)
    ensures !s.inUse || outMax < 64 || s.phase == PhError ==> HandleReply(pl, dev, s, reply, io, outMax) == Outcome(dev, s, Error, None, None)
    ensures s.inUse && outMax >= 64 && s.phase == PhDone ==> HandleReply(pl, dev, s, reply, io, outMax) == Outcome(dev, s, Done, None, None)
  {
    hide Interpret;
  }

  /** Ending a session frees the slot, and removes what was being written. */
  lemma {:induction false} StopsExactly(dev: Device, s: Sync)
    requires ViewsAgree(dev.store, s)
    ensures End(dev, s) == if !s.inUse then (dev, s)
      else if s.phase != PhReadChunk then (dev, s.(inUse := false))
      else (Device(Store(dev.store.files - {s.curName}, dev.store.meta, None), dev.counter, dev.cache), s.(inUse := false, chunkedOpen := false))
  {
  }

  /** A page of the listing is scanned from its first line on; anything else ends the session. */
  lemma {:induction false} ListingExactly(pl: Platform, dev: Device, s: Sync, a: Answer, io: Io, outMax: nat)
    requires Ready(dev, s) && s.phase == PhLs
    ensures Advance(pl, dev, s, a, io, outMax) == match a
      case Listing(files, next) => StartNext(pl, dev, s.(page := files, pageIdx := 0, lsNext := next), outMax)
      case _ => Outcome(dev, s.(phase := PhError), Error, None, None)
  {
    hide StartNext;
  }

  /** A file is begun exactly when it has a size from 1 to 524288 and a name of 1 to 31 bytes without
      a slash, and the card opens it; otherwise the scan goes on behind it and no file changes. */
  lemma {:induction false} SizeExactly(pl: Platform, dev: Device, s: Sync, a: Answer, io: Io, outMax: nat)
    requires Ready(dev, s) && ViewsAgree(dev.store, s) && s.inUse && s.phase == PhReadStart
    ensures Advance(pl, dev, s, a, io, outMax) ==
      if a.Size? && 0 < a.n <= 524288 && 1 <= |s.curName| <= 31 && 0x2f !in s.curName && io.opens then
        Outcome(Device(Store(dev.store.files[s.curName := []], dev.store.meta, Some(Chunk(s.curName, a.n, 0))), dev.counter, dev.cache),
          s.(curTotal := a.n, chunkedOpen := true, phase := PhReadChunk), NeedWrite, Some(ReadChunk(s.curName, 0, 200)), None)
      else StartNext(pl, dev, s.(curTotal := if a.Size? then a.n else s.curTotal, pageIdx := s.pageIdx + 1), outMax)
  {
    hide StartNext;
  }

  /** Data is kept exactly when it does not overrun the file and the card takes all of it; the file
      is complete when nothing is missing, and otherwise the session is over and the file gone. */
  lemma {:induction false} DataExactly(pl: Platform, dev: Device, s: Sync, a: Answer, io: Io, outMax: nat)
    requires Ready(dev, s) && ViewsAgree(dev.store, s) && s.inUse && s.phase == PhReadChunk
    ensures Advance(pl, dev, s, a, io, outMax) ==
      if !a.Data? || s.curReceived + |a.bytes| > s.curTotal || io.taken < |a.bytes| then
        Outcome(Device(Store(dev.store.files - {s.curName}, dev.store.meta, None), dev.counter, dev.cache),
          s.(chunkedOpen := false, phase := PhError), Error, None, None)
      else
        var (files, got) := (dev.store.files[s.curName := dev.store.files[s.curName] + a.bytes], s.curReceived + |a.bytes|);
        var left := s.curTotal - got;
        if left > 0 then
          Outcome(Device(Store(files, dev.store.meta, Some(Chunk(s.curName, s.curTotal, got))), dev.counter, dev.cache),
            s.(curReceived := got), NeedWrite, Some(ReadChunk(s.curName, got, if left < 200 then left else 200)), None)
        else
          Outcome(Device(Store(files, dev.store.meta, None), (dev.counter + 1) % 256, dev.cache),
            s.(curReceived := got, chunkedOpen := false, phase := PhReadMeta), NeedWrite, Some(ReadMeta(s.curName)), Some(s.curName))
  {
    var (files, name) := (dev.store.files, s.curName);
    if a.Data? {
      var taken := if io.taken < |a.bytes| then io.taken else |a.bytes|;
      assert a.bytes[..|a.bytes|] == a.bytes;
      assert files[name := files[name] + a.bytes[..taken]] - {name} == files - {name};
    }
  }

  /** A sidecar is stored when there is one; the scan goes on behind the file in any case. */
  lemma {:induction false} MetaExactly(pl: Platform, dev: Device, s: Sync, a: Answer, io: Io, outMax: nat)
    requires Ready(dev, s) && s.phase == PhReadMeta
    ensures var put := a.Meta? && a.raw.Some? && 1 <= |s.curName| <= 31 && 0x2f !in s.curName && io.metaOpens;
      Advance(pl, dev, s, a, io, outMax) == StartNext(pl,
        if put then Device(Store(dev.store.files, dev.store.meta[s.curName := a.raw.value], dev.store.chunk), dev.counter, dev.cache) else dev,
        s.(pageIdx := s.pageIdx + 1), outMax)
  {
    hide StartNext;
  }

  /** The questions of a session: batches of twelve, for which there must be 200 bytes of room. */
  function Asking(dev: Device, s: Sync, outMax: nat): Outcome {
    var left := |s.pending| - s.pendingNext;
    var batch := if left < 12 then left else 12;
    if left <= 0 then Outcome(dev, s.(phase := PhDone), Done, None, None)
    else if outMax < 200 then Outcome(dev, s.(batchSize := batch, phase := PhError), Error, None, None)
    else Outcome(dev, s.(batchSize := batch, phase := PhAttestQuery), NeedWrite,
      Some(AttestQuery(s.pending[s.pendingNext..s.pendingNext + batch], s.attestOffset)), None)
  }

  lemma {:induction false} AskingIs(dev: Device, s: Sync, outMax: nat)
    ensures EnterAttest(dev, s, outMax) == Asking(dev, s, outMax)
  {
  }

  /** Behind the last page the session asks for attestations: the pending BSSIDs are gathered the
      first time, and every answer is cached before the next question. */
  lemma {:induction false} LeavesListing(pl: Platform, dev: Device, s: Sync, outMax: nat)
    requires s.pageIdx >= |s.page|
    ensures StartNext(pl, dev, s, outMax) ==
      if s.lsNext > 0 then Outcome(dev, s.(page := [], pageIdx := 0, phase := PhLs), NeedWrite, Some(Ls(s.lsNext)), None)
      else if s.attestStarted then Asking(dev, s, outMax)
      else Asking(dev, s.(attestStarted := true, pending := Gather([], pl.list(dev.store.files), dev.store.files, pl.own, dev.cache),
             pendingNext := 0, batchSize := 0, attestOffset := 0), outMax)
  {
    hide Asking, EnterAttest, Gather;
    StartNextEnds(pl, dev, s, outMax);
    AskingIs(dev, BeginAttest(pl, dev, s), outMax);
  }

  lemma {:induction false} BlobsExactly(pl: Platform, dev: Device, s: Sync, a: Answer, io: Io, outMax: nat)
    requires Ready(dev, s) && s.phase == PhAttestQuery
    ensures Advance(pl, dev, s, a, io, outMax) ==
      if !a.Blobs? then Outcome(dev, s.(phase := PhDone), Done, None, None)
      else if a.nextBlob > 0 then Asking(dev.(cache := CacheWriteAll(dev.cache, a.blobs)), s.(attestOffset := a.nextBlob % 0x1_0000_0000), outMax)
      else Asking(dev.(cache := CacheWriteAll(dev.cache, a.blobs)), s.(pendingNext := s.pendingNext + s.batchSize, batchSize := 0, attestOffset := 0), outMax)
  {
    hide Asking, EnterAttest, CacheWriteAll;
    if a.Blobs? {
      var d := dev.(cache := CacheWriteAll(dev.cache, a.blobs));
      AskingIs(d, s.(attestOffset := a.nextBlob % 0x1_0000_0000), outMax);
      AskingIs(d, s.(pendingNext := s.pendingNext + s.batchSize, batchSize := 0, attestOffset := 0), outMax);
    }
  }
}
