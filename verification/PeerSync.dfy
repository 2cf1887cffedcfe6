/** The pull protocol of a sync session: requests, the interpretation of replies, and the
    session's transition function. */
module PeerSync {
  import opened AttestQuery
  import opened Bits
  import opened Cbor
  import opened CborTree
  import opened EncounterRecord
  import opened FileStore
  import opened Wrappers

  const CHUNK_SIZE: nat := 200
  const PAGE: nat := 16
  const BSSID_TOTAL_MAX: nat := 64
  const BSSID_BATCH_MAX: nat := 12
  const CACHE_CAP: nat := 64
  const BLOB_MAX: nat := 198

  type Hash = s: Bytes | |s| == 8 witness seq(8, i => 0)

  /** One line of a listing. */
  datatype Entry = Entry(name: Bytes, size: U32, hash: Hash)

  datatype Phase = PhLs | PhReadStart | PhReadChunk | PhReadMeta | PhAttestQuery | PhDone | PhError
  datatype Step = NeedWrite | Done | Error

  datatype Request =
    | Ls(offset: U32)
    | ReadStart(name: Bytes)
    | ReadChunk(name: Bytes, offset: U32, size: U32)
    | ReadMeta(name: Bytes)
    | AttestQuery(bssids: seq<Bssid>, offset: U32)

  /** The session slot. */
  datatype Sync = Sync(
    phase: Phase, inUse: bool,
    lsNext: U32, page: seq<Entry>, pageIdx: nat,
    curName: Bytes, curTotal: U32, curReceived: nat, chunkedOpen: bool,
    attestStarted: bool, pending: seq<Bssid>, pendingNext: nat, batchSize: nat, attestOffset: U32)

  /** What the session changes on the device: files, the manifest counter, the cache of peers'
      attestations (oldest first). */
  datatype Device = Device(store: Store, counter: U8, cache: seq<Bytes>)

  /** What the session asks the device: the listing of its files, its free space, and its own
      attestations. */
  datatype Platform = Platform(list: map<Bytes, Bytes> -> seq<Entry>, free: Store -> nat, own: seq<Bytes>)

  /** Outcomes of the card during one call. */
  datatype Io = Io(opens: bool, taken: nat, metaOpens: bool)

  /** A call's result; `committed` is the file it finished, if any. */
  datatype Outcome = Outcome(dev: Device, s: Sync, step: Step, request: Option<Request>, committed: Option<Bytes>)

  // ---- keys and command names ----

  const K_CMD: Bytes := [99, 109, 100]
  const K_OFFSET: Bytes := [111, 102, 102, 115, 101, 116]
  const K_NAME: Bytes := [110, 97, 109, 101]
  const K_SIZE: Bytes := [115, 105, 122, 101]
  const K_HASH: Bytes := [104, 97, 115, 104]
  const K_DATA: Bytes := [100, 97, 116, 97]
  const K_META: Bytes := [109, 101, 116, 97]
  const K_ERROR: Bytes := [101, 114, 114, 111, 114]
  const K_FILES: Bytes := [102, 105, 108, 101, 115]
  const K_BSSIDS: Bytes := [98, 115, 115, 105, 100, 115]
  const K_BLOBS: Bytes := [98, 108, 111, 98, 115]
  const K_NEXT: Bytes := [110, 101, 120, 116, 95, 111, 102, 102, 115, 101, 116]
  const C_LS: Bytes := [108, 115]
  const C_READ_START: Bytes := [114, 101, 97, 100, 95, 115, 116, 97, 114, 116]
  const C_READ_CHUNK: Bytes := [114, 101, 97, 100, 95, 99, 104, 117, 110, 107]
  const C_READ_META: Bytes := [114, 101, 97, 100, 95, 109, 101, 116, 97]
  const C_ATTEST_QUERY: Bytes := [97, 116, 116, 101, 115, 116, 95, 113, 117, 101, 114, 121]
  const ENC_PREFIX: Bytes := [101, 110, 99, 95]

  /** The map entries of a request. */
  function RequestKids(r: Request): (kids: seq<Value>) {
    match r
    case Ls(offset) => [Text(K_CMD), Text(C_LS), Text(K_OFFSET), UInt(offset)]
    case ReadStart(name) => [Text(K_CMD), Text(C_READ_START), Text(K_NAME), Text(name)]
    case ReadChunk(name, offset, size) =>
      [Text(K_CMD), Text(C_READ_CHUNK), Text(K_NAME), Text(name), Text(K_OFFSET), UInt(offset), Text(K_SIZE), UInt(size)]
    case ReadMeta(name) => [Text(K_CMD), Text(C_READ_META), Text(K_NAME), Text(name)]
    case AttestQuery(bssids, offset) =>
      [Text(K_CMD), Text(C_ATTEST_QUERY), Text(K_BSSIDS), Array(Strings(bssids))]
      + if offset > 0 then [Text(K_OFFSET), UInt(offset)] else []
  }

  // ---- replies ----

  /** What a reply says, in the terms of the phase that waits for it. */
  datatype Answer =
    | Refused
    | Listing(files: seq<Entry>, next: U32)
    | Size(n: U32)
    | Data(bytes: Bytes)
    | Meta(raw: Option<Bytes>)
    | Blobs(blobs: seq<Bytes>, nextBlob: U64)

  /** The outer map of a reply that is not an error. */
  function OuterMap(b: Bytes): (top: Option<Item>)
    ensures top.Some? ==> top.value.kind == KMap && top.value.data <= |b|
  {
    var top := Parse(b, 0, |b|, 0);
    if top.None? || top.value.kind != KMap then None
    else if MapFind(b, top.value.data, |b|, top.value.arg, K_ERROR).Some? then None
    else top
  }

  function UIntField(b: Bytes, m: Item, key: Bytes): (n: Option<U64>)
    requires m.data <= |b|
  {
    var v := MapFind(b, m.data, |b|, m.arg, key);
    if v.None? || v.value.kind != KUInt then None
    else
      var arg: U64 := v.value.arg;
      Some(arg)
  }

  /** A text shorter than the buffer, as the C string it becomes. */
  function TextField(b: Bytes, m: Item, key: Bytes, room: nat): (s: Option<Bytes>)
    requires m.data <= |b|
    ensures s.Some? ==> |s.value| < room
  {
    var v := MapFind(b, m.data, |b|, m.arg, key);
    if v.None? || v.value.kind != KText || v.value.arg >= room then None
    else Some(UpToNul(b[v.value.data..v.value.next]))
  }

  function UpToNul(s: Bytes): (r: Bytes)
    ensures |r| <= |s| && r == s[..|r|] && 0 !in r
    ensures 0 !in s ==> r == s
  {
    if s == [] || s[0] == 0 then [] else [s[0]] + UpToNul(s[1..])
  }

  function BytesField(b: Bytes, m: Item, key: Bytes): (s: Option<Bytes>)
    requires m.data <= |b|
  {
    var v := MapFind(b, m.data, |b|, m.arg, key);
    if v.None? || v.value.kind != KBytes then None else Some(b[v.value.data..v.value.next])
  }

  function ZeroHash(): Hash {
    Zeros(8)
  }

  /** One entry of a listing; malformed ones are dropped. */
  function ReadEntry(b: Bytes, e: Item): (r: Option<Entry>)
    requires e.data <= |b|
    ensures r.Some? ==> |r.value.name| < MAX_NAME_LEN
  {
    var name, size := TextField(b, e, K_NAME, MAX_NAME_LEN), UIntField(b, e, K_SIZE);
    if name.None? || size.None? then None
    else
      var hash := BytesField(b, e, K_HASH);
      Some(Entry(name.value, size.value % 0x1_0000_0000, if hash.Some? && |hash.value| == 8 then hash.value else ZeroHash()))
  }

  /** The well-formed entries of a listing, up to a page. */
  function ReadEntries(b: Bytes, p: nat, n: nat, room: nat): (r: seq<Entry>)
    requires p <= |b|
    ensures |r| <= room
    decreases n
  {
    if n == 0 || room == 0 then []
    else
      var e := Parse(b, p, |b|, 0);
      if e.None? || e.value.kind != KMap then []
      else
        var entry := ReadEntry(b, e.value);
        if entry.None? then ReadEntries(b, e.value.next, n - 1, room)
        else [entry.value] + ReadEntries(b, e.value.next, n - 1, room - 1)
  }

  /** The non-empty byte strings of an array, up to the first entry that does not parse. */
  function ReadBlobs(b: Bytes, p: nat, n: nat): (r: seq<Bytes>)
    requires p <= |b|
    decreases n
  {
    if n == 0 then []
    else
      var item := Parse(b, p, |b|, 0);
      if item.None? then []
      else
        (if item.value.kind == KBytes && item.value.arg != 0 then [b[item.value.data..item.value.next]] else [])
        + ReadBlobs(b, item.value.next, n - 1)
  }

  function NextOffset(b: Bytes, top: Item): U64
    requires top.data <= |b|
  {
    var n := UIntField(b, top, K_NEXT);
    if n.None? then 0 else n.value
  }

  /** Read a reply in the phase that waits for it. */
  function Interpret(phase: Phase, b: Bytes): (a: Answer) {
    var top := OuterMap(b);
    if top.None? then (if phase == PhReadMeta then Meta(None) else Refused)
    else
      var t := top.value;
      match phase
      case PhLs =>
        var files := MapFind(b, t.data, |b|, t.arg, K_FILES);
        if files.None? || files.value.kind != KArray then Refused
        else Listing(ReadEntries(b, files.value.data, files.value.arg, PAGE), NextOffset(b, t) % 0x1_0000_0000)
      case PhReadStart =>
        var size := UIntField(b, t, K_SIZE);
        Size(if size.None? then 0 else size.value % 0x1_0000_0000)
      case PhReadChunk =>
        var data := BytesField(b, t, K_DATA);
        if data.None? then Refused else Data(data.value)
      case PhReadMeta =>
        var meta := MapFind(b, t.data, |b|, t.arg, K_META);
        if meta.None? || meta.value.kind != KMap then Meta(None) else Meta(Some(b[meta.value.start..meta.value.next]))
      case PhAttestQuery =>
        var blobs := MapFind(b, t.data, |b|, t.arg, K_BLOBS);
        Blobs(if blobs.Some? && blobs.value.kind == KArray then ReadBlobs(b, blobs.value.data, blobs.value.arg) else [], NextOffset(b, t))
      case _ => Refused
  }

  // ---- the device ----

  /** Some listed file has this hash; the zero hash stands for an unknown one. */
  predicate HashExists(list: seq<Entry>, hash: Hash) {
    hash != ZeroHash() && exists i :: 0 <= i < |list| && list[i].hash == hash
  }

  /** Add a blob to the cache of peers' attestations: a bounded queue without duplicates. */
  function CacheWrite(cache: seq<Bytes>, blob: Bytes): (r: seq<Bytes>) {
    if blob == [] || |blob| > BLOB_MAX || blob in cache then cache
    else if |cache| < CACHE_CAP then cache + [blob]
    else cache[1..] + [blob]
  }

  function CacheWriteAll(cache: seq<Bytes>, blobs: seq<Bytes>): (r: seq<Bytes>)
    decreases |blobs|
  {
    if blobs == [] then cache else CacheWriteAll(CacheWrite(cache, blobs[0]), blobs[1..])
  }

  /** A stored attestation, own or cached, claims the BSSID. */
  predicate Attested(own: seq<Bytes>, cache: seq<Bytes>, bssid: Bssid) {
    Matching(own + cache, [bssid]) != []
  }

  /** Queue the BSSIDs that are neither queued nor attested, up to the total. */
  function Enqueue(pending: seq<Bssid>, list: seq<Bssid>, own: seq<Bytes>, cache: seq<Bytes>): (r: seq<Bssid>)
    requires |pending| <= BSSID_TOTAL_MAX
    ensures |r| <= BSSID_TOTAL_MAX
    decreases |list|
  {
    if list == [] || |pending| >= BSSID_TOTAL_MAX then pending
    else if list[0] in pending || Attested(own, cache, list[0]) then Enqueue(pending, list[1..], own, cache)
    else Enqueue(pending + [list[0]], list[1..], own, cache)
  }

  /** The encounter record that a listed file holds, if it is one. */
  function RecordOf(files: map<Bytes, Bytes>, e: Entry): Option<Record> {
    if |e.name| < 4 || e.name[..4] != ENC_PREFIX then None
    else if e.size == 0 || e.size > RECORD_MAX_BYTES then None
    else if !ValidName(e.name) || e.name !in files || files[e.name] == [] then None
    else Decode(files[e.name][..if |files[e.name]| < RECORD_MAX_BYTES then |files[e.name]| else RECORD_MAX_BYTES])
  }

  /** The BSSIDs of the listed encounter records that have no attestation yet. */
  function Gather(pending: seq<Bssid>, list: seq<Entry>, files: map<Bytes, Bytes>, own: seq<Bytes>, cache: seq<Bytes>): (r: seq<Bssid>)
    requires |pending| <= BSSID_TOTAL_MAX
    ensures |r| <= BSSID_TOTAL_MAX
    decreases |list|
  {
    if list == [] || |pending| >= BSSID_TOTAL_MAX then pending
    else
      var rec := RecordOf(files, list[0]);
      var more := if rec.None? then pending
        else Enqueue(Enqueue(pending, rec.value.bssidsA, own, cache), rec.value.bssidsB, own, cache);
      Gather(more, list[1..], files, own, cache)
  }

  // ---- the transition function ----

  function Fail(dev: Device, s: Sync): Outcome {
    Outcome(dev, s.(phase := PhError), Error, None, None)
  }

  function Send(dev: Device, s: Sync, phase: Phase, r: Request): Outcome {
    Outcome(dev, s.(phase := phase), NeedWrite, Some(r), None)
  }

  /** Drop the session's open write. */
  function AbortInflight(dev: Device, s: Sync): (Device, Sync) {
    if s.chunkedOpen then (dev.(store := ChunkedAbort(dev.store, Some(s.curName))), s.(chunkedOpen := false)) else (dev, s)
  }

  /** Ask for the next batch of attestations, or finish. */
  function EnterAttest(dev: Device, s: Sync, outMax: nat): Outcome {
    if s.pendingNext >= |s.pending| then Outcome(dev, s.(phase := PhDone), Done, None, None)
    else
      var left := |s.pending| - s.pendingNext;
      var batch := if left > BSSID_BATCH_MAX then BSSID_BATCH_MAX else left;
      var t := s.(batchSize := batch);
      if outMax < 200 then Fail(dev, t)
      else Send(dev, t, PhAttestQuery, AttestQuery(s.pending[s.pendingNext..s.pendingNext + batch], s.attestOffset))
  }

  /** A page entry that is not to be fetched: present by name or by hash, or too big. */
  predicate Skipped(pl: Platform, store: Store, e: Entry) {
    FileSize(store, e.name).Some? || HashExists(pl.list(store.files), e.hash) || e.size > pl.free(store)
  }

  /** Move on: to the next file worth fetching, the next page, or the attestations. */
  function StartNext(pl: Platform, dev: Device, s: Sync, outMax: nat): Outcome
    decreases |s.page| - s.pageIdx
  {
    if s.pageIdx < |s.page| then
      var e := s.page[s.pageIdx];
      if Skipped(pl, dev.store, e) then StartNext(pl, dev, s.(pageIdx := s.pageIdx + 1), outMax)
      else
        var t := s.(curName := e.name, curTotal := e.size, curReceived := 0, chunkedOpen := false);
        if outMax < 64 then Fail(dev, t) else Send(dev, t, PhReadStart, ReadStart(e.name))
    else if s.lsNext > 0 then Send(dev, s.(page := [], pageIdx := 0), PhLs, Ls(s.lsNext))
    else EnterAttest(dev, BeginAttest(pl, dev, s), outMax)
  }

  lemma {:induction false} StartNextSkips(pl: Platform, dev: Device, s: Sync, outMax: nat)
    requires s.pageIdx < |s.page| && Skipped(pl, dev.store, s.page[s.pageIdx])
    ensures StartNext(pl, dev, s, outMax) == StartNext(pl, dev, s.(pageIdx := s.pageIdx + 1), outMax)
  {
    hide Skipped;
  }

  lemma {:induction false} StartNextLocks(pl: Platform, dev: Device, s: Sync, outMax: nat)
    requires s.pageIdx < |s.page| && !Skipped(pl, dev.store, s.page[s.pageIdx])
    ensures var e := s.page[s.pageIdx];
      var t := s.(curName := e.name, curTotal := e.size, curReceived := 0, chunkedOpen := false);
      StartNext(pl, dev, s, outMax) == if outMax < 64 then Fail(dev, t) else Send(dev, t, PhReadStart, ReadStart(e.name))
  {
    hide Skipped;
  }

  lemma {:induction false} StartNextEnds(pl: Platform, dev: Device, s: Sync, outMax: nat)
    requires s.pageIdx >= |s.page|
    ensures StartNext(pl, dev, s, outMax)
      == if s.lsNext > 0 then Send(dev, s.(page := [], pageIdx := 0), PhLs, Ls(s.lsNext))
         else EnterAttest(dev, BeginAttest(pl, dev, s), outMax)
  {
    hide EnterAttest, BeginAttest;
  }

  /** A line that is not worth fetching: a file of its name is there, or one with its hash, unless
      that is unknown, or it does not fit the free space. */
  predicate Unwanted(pl: Platform, store: Store, e: Entry) {
    var list := pl.list(store.files);
    || (ValidName(e.name) && e.name in store.files)
    || (e.hash != [0, 0, 0, 0, 0, 0, 0, 0] && exists k :: 0 <= k < |list| && list[k].hash == e.hash)
    || e.size > pl.free(store)
  }

  lemma {:induction false} UnwantedSkipped(pl: Platform, store: Store, e: Entry)
    ensures Unwanted(pl, store, e) <==> Skipped(pl, store, e)
  {
    assert ZeroHash() == [0, 0, 0, 0, 0, 0, 0, 0];
  }

  /** The scan of a page: the entry locked in is the first one that is not unwanted, and when every
      entry left is unwanted the session leaves the page. */
  lemma {:induction false} ScanFindsFirst(pl: Platform, dev: Device, s: Sync, outMax: nat, k: nat)
    requires s.pageIdx <= k <= |s.page| && outMax >= 64
    requires forall i :: s.pageIdx <= i < k ==> Unwanted(pl, dev.store, s.page[i])
    requires k < |s.page| ==> !Unwanted(pl, dev.store, s.page[k])
    ensures var o := StartNext(pl, dev, s, outMax);
      if k < |s.page| then
        && o.request == Some(ReadStart(s.page[k].name)) && o.step == NeedWrite && o.dev == dev && o.committed.None?
        && o.s == s.(pageIdx := k, curName := s.page[k].name, curTotal := s.page[k].size, curReceived := 0, chunkedOpen := false, phase := PhReadStart)
      else if s.lsNext > 0 then
        && o.request == Some(Ls(s.lsNext)) && o.step == NeedWrite && o.dev == dev && o.committed.None?
        && o.s == s.(page := [], pageIdx := 0, phase := PhLs)
      else o == EnterAttest(dev, BeginAttest(pl, dev, s.(pageIdx := k)), outMax)
    decreases k - s.pageIdx
  {
    hide Skipped, Unwanted, EnterAttest, BeginAttest;
    if s.pageIdx < |s.page| { UnwantedSkipped(pl, dev.store, s.page[s.pageIdx]); }
    if s.pageIdx < k {
      StartNextSkips(pl, dev, s, outMax);
      ScanFindsFirst(pl, dev, s.(pageIdx := s.pageIdx + 1), outMax, k);
    } else if k < |s.page| {
      StartNextLocks(pl, dev, s, outMax);
    } else {
      StartNextEnds(pl, dev, s, outMax);
    }
  }

  /** Gather the BSSIDs to ask for, once per session. */
  function BeginAttest(pl: Platform, dev: Device, s: Sync): Sync {
    if s.attestStarted then s
    else
      s.(attestStarted := true, pending := Gather([], pl.list(dev.store.files), dev.store.files, pl.own, dev.cache),
         pendingNext := 0, batchSize := 0, attestOffset := 0)
  }

  function NextFile(pl: Platform, dev: Device, s: Sync, outMax: nat): Outcome {
    StartNext(pl, dev, s.(pageIdx := s.pageIdx + 1), outMax)
  }

  function OnListing(pl: Platform, dev: Device, s: Sync, a: Answer, outMax: nat): Outcome {
    if !a.Listing? then Fail(dev, s)
    else StartNext(pl, dev, s.(page := a.files, pageIdx := 0, lsNext := a.next), outMax)
  }

  function OnSize(pl: Platform, dev: Device, s: Sync, a: Answer, io: Io, outMax: nat): Outcome {
    if !a.Size? then NextFile(pl, dev, s, outMax)
    else
      var t := s.(curTotal := a.n);
      if a.n == 0 then NextFile(pl, dev, t, outMax)
      else
        var (store, ok) := ChunkedStart(dev.store, t.curName, t.curTotal, io.opens);
        if !ok then NextFile(pl, dev.(store := store), t, outMax)
        else Send(dev.(store := store), t.(chunkedOpen := true), PhReadChunk, ReadChunk(t.curName, 0, CHUNK_SIZE))
  }

  function AbortAndFail(dev: Device, s: Sync): Outcome {
    var (d, t) := AbortInflight(dev, s);
    Fail(d, t)
  }

  function OnData(dev: Device, s: Sync, a: Answer, io: Io): Outcome
    requires dev.store.chunk.Some? ==> dev.store.chunk.value.name in dev.store.files
    requires s.curReceived <= s.curTotal
  {
    if !a.Data? then AbortAndFail(dev, s)
    else
      var (store, ok) := ChunkedAppend(dev.store, a.bytes, if io.taken < |a.bytes| then io.taken else |a.bytes|);
      if !ok then AbortAndFail(dev.(store := store), s)
      else OnReceived(dev.(store := store), s.(curReceived := s.curReceived + |a.bytes|))
  }

  /** More of the file is there: ask for the rest, or finish it. */
  function OnReceived(dev: Device, s: Sync): Outcome {
    if s.curReceived < s.curTotal then
      var remaining := s.curTotal - s.curReceived;
      Send(dev, s, PhReadChunk, ReadChunk(s.curName, s.curReceived, if remaining < CHUNK_SIZE then remaining else CHUNK_SIZE))
    else
      var (store, finished) := ChunkedFinish(dev.store, s.curName);
      if !finished then AbortAndFail(dev.(store := store), s)
      else
        Send(dev.(store := store, counter := (dev.counter + 1) % 0x100), s.(chunkedOpen := false), PhReadMeta, ReadMeta(s.curName))
          .(committed := Some(s.curName))
  }

  function OnMeta(pl: Platform, dev: Device, s: Sync, a: Answer, io: Io, outMax: nat): Outcome {
    if a.Meta? && a.raw.Some? then
      NextFile(pl, dev.(store := WriteMeta(dev.store, s.curName, a.raw.value, io.metaOpens)), s, outMax)
    else NextFile(pl, dev, s, outMax)
  }

  function OnBlobs(dev: Device, s: Sync, a: Answer, outMax: nat): Outcome {
    if !a.Blobs? then Outcome(dev, s.(phase := PhDone), Done, None, None)
    else
      var d := dev.(cache := CacheWriteAll(dev.cache, a.blobs));
      if a.nextBlob > 0 then EnterAttest(d, s.(attestOffset := a.nextBlob % 0x1_0000_0000), outMax)
      else EnterAttest(d, s.(pendingNext := s.pendingNext + s.batchSize, batchSize := 0, attestOffset := 0), outMax)
  }

  /** What a call needs of the state it finds; every call keeps it. */
  predicate Ready(dev: Device, s: Sync) {
    && (dev.store.chunk.Some? ==> dev.store.chunk.value.name in dev.store.files)
    && (s.phase == PhReadChunk ==> s.curReceived <= s.curTotal)
  }

  /** Handle the answer in the current phase. */
  function Advance(pl: Platform, dev: Device, s: Sync, a: Answer, io: Io, outMax: nat): Outcome
    requires Ready(dev, s)
  {
    match s.phase
    case PhLs => OnListing(pl, dev, s, a, outMax)
    case PhReadStart => OnSize(pl, dev, s, a, io, outMax)
    case PhReadChunk => OnData(dev, s, a, io)
    case PhReadMeta => OnMeta(pl, dev, s, a, io, outMax)
    case PhAttestQuery => OnBlobs(dev, s, a, outMax)
    case PhDone => Outcome(dev, s, Done, None, None)
    case PhError => Outcome(dev, s, Error, None, None)
  }

  /** Handle a reply's bytes. */
  function HandleReply(pl: Platform, dev: Device, s: Sync, reply: Bytes, io: Io, outMax: nat): Outcome
    requires Ready(dev, s)
  {
    if !s.inUse || outMax < 64 then Outcome(dev, s, Error, None, None)
    else Advance(pl, dev, s, Interpret(s.phase, reply), io, outMax)
  }

  function IdleSync(): Sync {
    Sync(PhLs, false, 0, [], 0, [], 0, 0, false, false, [], 0, 0, 0)
  }

  /** Start a session in the one slot. */
  function Begin(dev: Device, s: Sync, outMax: nat): Outcome {
    if s.inUse || outMax < 64 then Outcome(dev, s, Error, None, None)
    else Outcome(dev, IdleSync().(inUse := true), NeedWrite, Some(Ls(0)), None)
  }

  /** End the session: the open write goes, the slot is free. */
  function End(dev: Device, s: Sync): (Device, Sync) {
    if !s.inUse then (dev, s)
    else
      var (d, t) := AbortInflight(dev, s);
      (d, t.(inUse := false))
  }
}
