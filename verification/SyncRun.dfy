/** A whole session against a responder that serves a fixed library: when the listing and the
    batches end, it reaches DONE and leaves exactly what pulling the files one by one leaves. */
module SyncRun {
  import opened AttestQuery
  import opened Bits
  import opened Cbor
  import opened Commands
  import opened EncounterRecord
  import opened FileStore
  import opened Pagination
  import opened PeerSync
  import opened SyncAnswers
  import opened SyncWire
  import opened Wrappers

  const SESSION_BUFFER: nat := 256

  /** The receiving device's platform, the peer's library, the link. */
  datatype Setup = Setup(pl: Platform, lib: Library, mtu: nat)

  /** The session with its device, the request under way, and all requests answered so far. */
  datatype Net = Net(dev: Device, s: Sync, request: Option<Request>, log: seq<Request>)

  /** The card does what it is asked. */
  function GoodIo(): Io {
    Io(true, 0x1000, true)
  }

  ghost predicate Healthy(u: Setup) {
    Good(u.lib) && u.mtu >= MTU_MIN
  }

  function LsBudget(u: Setup): nat {
    Budget(u.mtu, REPLY_BUFFER)
  }

  /** The room for blobs in one reply. */
  function PageRoom(u: Setup): nat {
    BlobRoom(Budget(u.mtu, REPLY_BUFFER))
  }

  function BlobsFor(u: Setup, query: seq<Bssid>): seq<Bytes> {
    Matching(u.lib.own + u.lib.cache, query)
  }

  function After(o: Outcome, log: seq<Request>): Net {
    Net(o.dev, o.s, o.request, log)
  }

  /** The request reaches the responder, and what the link carries of its reply the session. */
  function Deliver(u: Setup, n: Net): Net {
    if n.request.None? || !Ready(n.dev, n.s) then n
    else
      var reply := Respond(u.lib, u.mtu, REPLY_BUFFER, Message(n.request.value));
      if reply.None? then n
      else After(HandleReply(u.pl, n.dev, n.s, Carried(u.mtu, reply.value), GoodIo(), SESSION_BUFFER), n.log + [n.request.value])
  }

  function Steps(u: Setup, k: nat, n: Net): Net {
    if k == 0 then n else Steps(u, k - 1, Deliver(u, n))
  }

  lemma {:induction false} StepsAdd(u: Setup, j: nat, k: nat, n: Net)
    ensures Steps(u, j + k, n) == Steps(u, k, Steps(u, j, n))
  {
    hide Deliver;
    if j > 0 { StepsAdd(u, j - 1, k, Deliver(u, n)); }
  }

  lemma {:induction false} OneStep(u: Setup, n: Net)
    ensures Steps(u, 1, n) == Deliver(u, n)
  {
    hide Deliver;
    assert Steps(u, 0, Deliver(u, n)) == Deliver(u, n);
  }

  /** One exchange, in terms of what the reply means. */
  lemma {:induction false} DeliverIs(u: Setup, n: Net, r: Request)
    requires Healthy(u) && n.request == Some(r) && Proper(u.lib, r) && Ready(n.dev, n.s)
    requires n.s.inUse && n.s.phase == PhaseOf(r)
    ensures Deliver(u, n) == After(Advance(u.pl, n.dev, n.s, AnswerTo(u.lib, u.mtu, r), GoodIo(), SESSION_BUFFER), n.log + [r])
  {
    hide Respond, Interpret, AnswerTo, Good, Proper, Message, Advance, Carried, ReplyFits;
    Answered(u.lib, u.mtu, r);
  }

  // ---- what a session should do ----

  /** Pull one listed file, if it is to be fetched and can be stored. */
  function PullFile(u: Setup, dev: Device, e: Entry): (d: Device) {
    var f := FileBytes(u.lib, e.name);
    if Skipped(u.pl, dev.store, e) || f.None? || f.value == [] || |f.value| > MAX_CHUNKED then dev
    else
      var stored := dev.store.(files := dev.store.files[e.name := f.value]);
      var meta := MetaAnswer(u.lib, u.mtu, e.name);
      dev.(counter := (dev.counter + 1) % 0x100, store := if meta.None? then stored else WriteMeta(stored, e.name, meta.value, true))
  }

  function PullAll(u: Setup, dev: Device, list: seq<Entry>): (d: Device)
    decreases |list|
  {
    if list == [] then dev else PullAll(u, PullFile(u, dev, list[0]), list[1..])
  }

  lemma {:induction false} PullConcat(u: Setup, dev: Device, a: seq<Entry>, b: seq<Entry>)
    ensures PullAll(u, dev, a + b) == PullAll(u, PullAll(u, dev, a), b)
    decreases |a|
  {
    hide PullFile;
    if a == [] {
      assert a + b == b;
    } else {
      assert (a + b)[0] == a[0] && (a + b)[1..] == a[1..] + b;
      PullConcat(u, PullFile(u, dev, a[0]), a[1..], b);
    }
  }

  lemma {:induction false} PullKeeps(u: Setup, dev: Device, e: Entry)
    ensures PullFile(u, dev, e).store.chunk == dev.store.chunk && PullFile(u, dev, e).cache == dev.cache
  {
    hide Skipped, MetaAnswer;
  }

  lemma {:induction false} PullAllKeeps(u: Setup, dev: Device, list: seq<Entry>)
    ensures PullAll(u, dev, list).store.chunk == dev.store.chunk && PullAll(u, dev, list).cache == dev.cache
    decreases |list|
  {
    hide PullFile;
    if list != [] {
      PullKeeps(u, dev, list[0]);
      PullAllKeeps(u, PullFile(u, dev, list[0]), list[1..]);
    }
  }

  /** The BSSIDs that first requests of batches ask for. */
  function Asked(log: seq<Request>): seq<Bssid> {
    if log == [] then []
    else
      var last := log[|log| - 1];
      Asked(log[..|log| - 1]) + if last.AttestQuery? && last.offset == 0 then last.bssids else []
  }

  lemma {:induction false} AskedNext(log: seq<Request>, r: Request)
    ensures Asked(log + [r]) == Asked(log) + if r.AttestQuery? && r.offset == 0 then r.bssids else []
  {
    assert (log + [r])[..|log|] == log;
  }

  // ---- one file ----

  /** The device in the middle of pulling f. */
  function Pulling(dev: Device, name: Bytes, f: Bytes, k: nat): Device
    requires k <= |f|
  {
    dev.(store := dev.store.(files := dev.store.files[name := f[..k]], chunk := Some(Chunk(name, |f|, k))))
  }

  function Stored(dev: Device, name: Bytes, f: Bytes): Device {
    dev.(store := dev.store.(files := dev.store.files[name := f]), counter := (dev.counter + 1) % 0x100)
  }

  lemma {:induction false} SliceOf(f: Bytes, k: nat, size: nat) returns (d: nat)
    requires k < |f| && size > 0
    ensures d == |Slice(f, k, size)| && 0 < d <= size && k + d <= |f|
    ensures Slice(f, k, size) == f[k..k + d] && f[..k] + f[k..k + d] == f[..k + d]
  {
    d := |Slice(f, k, size)|;
  }

  /** One chunk on the device. */
  lemma {:induction false} AppendChunk(dev: Device, name: Bytes, f: Bytes, k: nat, d: nat)
    requires 0 < d && k + d <= |f|
    ensures Pulling(dev, name, f, k).store.chunk.Some? && name in Pulling(dev, name, f, k).store.files
    ensures ChunkedAppend(Pulling(dev, name, f, k).store, f[k..k + d], d) == (Pulling(dev, name, f, k + d).store, true)
  {
    assert f[..k] + f[k..k + d][..d] == f[..k + d];
    assert dev.store.files[name := f[..k]][name := f[..k + d]] == dev.store.files[name := f[..k + d]];
  }

  lemma {:induction false} LastChunk(dev: Device, name: Bytes, f: Bytes)
    requires dev.store.chunk.None?
    ensures ChunkedFinish(Pulling(dev, name, f, |f|).store, name) == (Stored(dev, name, f).store, true)
  {
    assert f[..|f|] == f;
  }

  predicate Receiving(s: Sync, name: Bytes, f: Bytes, k: nat) {
    s.inUse && s.phase == PhReadChunk && s.chunkedOpen && s.curName == name && s.curTotal == |f| && s.curReceived == k
  }

  /** Pulling the rest of a file's bytes. */
  lemma {:induction false} ChunkRun(u: Setup, dev: Device, s: Sync, name: Bytes, f: Bytes, k: nat, want: U32, log: seq<Request>)
    returns (n: nat, log': seq<Request>)
    requires Healthy(u) && dev.store.chunk.None? && k < |f| < 0x1_0000_0000 && FileBytes(u.lib, name) == Some(f)
    requires Receiving(s, name, f, k) && |name| < 32 && 0 !in name && 0 < want <= 200
    ensures Steps(u, n, Net(Pulling(dev, name, f, k), s, Some(ReadChunk(name, k, want)), log))
         == Net(Stored(dev, name, f), s.(curReceived := |f|, chunkedOpen := false, phase := PhReadMeta), Some(ReadMeta(name)), log')
    ensures Asked(log') == Asked(log)
    decreases |f| - k
  {
    hide Steps, Good, Respond, SafeChunk, Asked, FileBytes, Deliver, Pulling, Stored;
    var r := ReadChunk(name, k, want);
    var net := Net(Pulling(dev, name, f, k), s, Some(r), log);
    var size := if want > SafeChunk(u.mtu) then SafeChunk(u.mtu) else want;
    var d := SliceOf(f, k, size);
    AppendChunk(dev, name, f, k, d);
    ReadyPulling(dev, s, name, f, k);
    DeliverIs(u, net, r);
    OneStep(u, net);
    AskedNext(log, r);
    ChunkStep(u, dev, s, name, f, k, d, want, log);
    if k + d < |f| {
      var want' := if |f| - (k + d) < CHUNK_SIZE then |f| - (k + d) else CHUNK_SIZE;
      var m, l := ChunkRun(u, dev, s.(curReceived := k + d), name, f, k + d, want', log + [r]);
      StepsAdd(u, 1, m, net);
      n, log' := 1 + m, l;
    } else {
      n, log' := 1, log + [r];
    }
  }

  lemma {:induction false} ReadyPulling(dev: Device, s: Sync, name: Bytes, f: Bytes, k: nat)
    requires k <= |f| && Receiving(s, name, f, k)
    ensures Ready(Pulling(dev, name, f, k), s)
  {
  }

  /** What one data reply does. */
  lemma {:induction false} ChunkStep(u: Setup, dev: Device, s: Sync, name: Bytes, f: Bytes, k: nat, d: nat, want: U32, log: seq<Request>)
    requires dev.store.chunk.None? && 0 < d <= 220 && k + d <= |f| < 0x1_0000_0000 && FileBytes(u.lib, name) == Some(f)
    requires Receiving(s, name, f, k) && Ready(Pulling(dev, name, f, k), s)
    requires AnswerTo(u.lib, u.mtu, ReadChunk(name, k, want)) == Data(f[k..k + d])
    ensures var o := Advance(u.pl, Pulling(dev, name, f, k), s, AnswerTo(u.lib, u.mtu, ReadChunk(name, k, want)), GoodIo(), SESSION_BUFFER);
      if k + d < |f| then
        After(o, log) == Net(Pulling(dev, name, f, k + d), s.(curReceived := k + d),
                             Some(ReadChunk(name, k + d, if |f| - (k + d) < CHUNK_SIZE then |f| - (k + d) else CHUNK_SIZE)), log)
      else
        After(o, log) == Net(Stored(dev, name, f), s.(curReceived := |f|, chunkedOpen := false, phase := PhReadMeta), Some(ReadMeta(name)), log)
  {
    hide AnswerTo, FileBytes, ChunkedAppend, ChunkedFinish;
    AppendChunk(dev, name, f, k, d);
    LastChunk(dev, name, f);
  }

  /** The fields of a session that pulling files leaves alone. */
  predicate SameSession(s: Sync, t: Sync) {
    && t.inUse == s.inUse && t.lsNext == s.lsNext && t.page == s.page
    && t.attestStarted == s.attestStarted && t.pending == s.pending && t.pendingNext == s.pendingNext
    && t.batchSize == s.batchSize && t.attestOffset == s.attestOffset
  }

  predicate Idle(dev: Device, s: Sync) {
    dev.store.chunk.None? && s.inUse && !s.chunkedOpen
  }

  ghost predicate Listed(lib: Library, e: Entry) {
    && Listable(e) && ValidName(e.name) && e.name in lib.files && e.size == |lib.files[e.name]|
    && FileBytes(lib, e.name) == Some(lib.files[e.name])
  }

  /** What the reply to read_start does. */
  lemma {:induction false} SizeStep(u: Setup, dev: Device, s: Sync, e: Entry, f: Bytes)
    requires Listed(u.lib, e) && f == u.lib.files[e.name] && Idle(dev, s)
    requires s.phase == PhReadStart && s.curName == e.name && s.curReceived == 0 && s.curTotal == e.size
    ensures Ready(dev, s) && |f| < 0x1_0000_0000
    ensures var o := Advance(u.pl, dev, s, AnswerTo(u.lib, u.mtu, ReadStart(e.name)), GoodIo(), SESSION_BUFFER);
      if f == [] || |f| > MAX_CHUNKED then o == NextFile(u.pl, dev, s, SESSION_BUFFER)
      else
        && Receiving(o.s, e.name, f, 0) && SameSession(s, o.s) && o.s.pageIdx == s.pageIdx
        && o.dev == Pulling(dev, e.name, f, 0) && o.request == Some(ReadChunk(e.name, 0, CHUNK_SIZE))
  {
    hide StartNext, Skipped;
    assert f[..0] == [];
    assert s.(curTotal := |f|) == s;
  }

  /** What the reply to read_meta does. */
  lemma {:induction false} MetaStep(u: Setup, dev: Device, s: Sync, e: Entry, f: Bytes)
    requires Listed(u.lib, e) && f == u.lib.files[e.name] && dev.store.chunk.None?
    requires f != [] && |f| <= MAX_CHUNKED && !Skipped(u.pl, dev.store, e)
    requires s.phase == PhReadMeta && s.curName == e.name
    ensures Ready(Stored(dev, e.name, f), s)
    ensures Advance(u.pl, Stored(dev, e.name, f), s, AnswerTo(u.lib, u.mtu, ReadMeta(e.name)), GoodIo(), SESSION_BUFFER)
         == NextFile(u.pl, PullFile(u, dev, e), s, SESSION_BUFFER)
  {
    hide StartNext, Skipped, MetaAnswer;
  }

  /** From the moment a file is locked in to the moment the session moves on. */
  lemma {:induction false} FetchRun(u: Setup, dev: Device, s: Sync, e: Entry, log: seq<Request>) returns (n: nat, t: Sync, log': seq<Request>)
    requires Healthy(u) && Listed(u.lib, e) && Idle(dev, s)
    requires s.pageIdx < |s.page| && s.page[s.pageIdx] == e && !Skipped(u.pl, dev.store, e)
    ensures Steps(u, n, After(StartNext(u.pl, dev, s, SESSION_BUFFER), log))
         == After(StartNext(u.pl, PullFile(u, dev, e), t, SESSION_BUFFER), log')
    ensures SameSession(s, t) && t.pageIdx == s.pageIdx + 1 && !t.chunkedOpen && Asked(log') == Asked(log)
  {
    hide Steps, Good, Respond, Asked, FileBytes, Deliver, Skipped, Pulling, Stored, AnswerTo, Advance, PullFile, Interpret;
    var f := u.lib.files[e.name];
    var s0 := s.(curName := e.name, curTotal := e.size, curReceived := 0, chunkedOpen := false, phase := PhReadStart);
    var net0 := Net(dev, s0, Some(ReadStart(e.name)), log);
    LockIn(u, dev, s, e, log);
    SizeStep(u, dev, s0, e, f);
    DeliverIs(u, net0, ReadStart(e.name));
    OneStep(u, net0);
    AskedNext(log, ReadStart(e.name));
    var log1 := log + [ReadStart(e.name)];
    if f == [] || |f| > MAX_CHUNKED {
      PullNothing(u, dev, e);
      n, t, log' := 1, s0.(pageIdx := s.pageIdx + 1), log1;
    } else {
      var o := Advance(u.pl, dev, s0, AnswerTo(u.lib, u.mtu, ReadStart(e.name)), GoodIo(), SESSION_BUFFER);
      var net1 := Net(Pulling(dev, e.name, f, 0), o.s, Some(ReadChunk(e.name, 0, CHUNK_SIZE)), log1);
      assert Deliver(u, net0) == net1;
      var m, log2 := ChunkRun(u, dev, o.s, e.name, f, 0, CHUNK_SIZE, log1);
      var s2 := o.s.(curReceived := |f|, chunkedOpen := false, phase := PhReadMeta);
      var net2 := Net(Stored(dev, e.name, f), s2, Some(ReadMeta(e.name)), log2);
      MetaStep(u, dev, s2, e, f);
      DeliverIs(u, net2, ReadMeta(e.name));
      OneStep(u, net2);
      AskedNext(log2, ReadMeta(e.name));
      StepsAdd(u, 1, m, net0);
      StepsAdd(u, 1 + m, 1, net0);
      n, t, log' := 1 + m + 1, s2.(pageIdx := s.pageIdx + 1), log2 + [ReadMeta(e.name)];
    }
  }

  lemma {:induction false} LockIn(u: Setup, dev: Device, s: Sync, e: Entry, log: seq<Request>)
    requires s.pageIdx < |s.page| && s.page[s.pageIdx] == e && !Skipped(u.pl, dev.store, e)
    ensures After(StartNext(u.pl, dev, s, SESSION_BUFFER), log)
         == Net(dev, s.(curName := e.name, curTotal := e.size, curReceived := 0, chunkedOpen := false, phase := PhReadStart), Some(ReadStart(e.name)), log)
  {
    hide Skipped;
  }

  lemma {:induction false} PullNothing(u: Setup, dev: Device, e: Entry)
    requires Listed(u.lib, e) && (u.lib.files[e.name] == [] || |u.lib.files[e.name]| > MAX_CHUNKED)
    ensures PullFile(u, dev, e) == dev
  {
    hide Skipped, MetaAnswer;
  }

  // ---- a page, the listing ----

  lemma {:induction false} SkipOne(u: Setup, dev: Device, s: Sync)
    requires s.pageIdx < |s.page| && Skipped(u.pl, dev.store, s.page[s.pageIdx])
    ensures StartNext(u.pl, dev, s, SESSION_BUFFER) == StartNext(u.pl, dev, s.(pageIdx := s.pageIdx + 1), SESSION_BUFFER)
    ensures PullFile(u, dev, s.page[s.pageIdx]) == dev
  {
    hide Skipped;
  }

  lemma {:induction false} PullHead(u: Setup, dev: Device, list: seq<Entry>, i: nat)
    requires i < |list|
    ensures PullAll(u, dev, list[i..]) == PullAll(u, PullFile(u, dev, list[i]), list[i + 1..])
  {
    hide PullFile;
    assert list[i..][0] == list[i] && list[i..][1..] == list[i + 1..];
  }

  lemma {:induction false} PageRun(u: Setup, dev: Device, s: Sync, log: seq<Request>) returns (n: nat, t: Sync, log': seq<Request>)
    requires Healthy(u) && Idle(dev, s) && s.pageIdx <= |s.page|
    requires forall i :: 0 <= i < |s.page| ==> Listed(u.lib, s.page[i])
    ensures Steps(u, n, After(StartNext(u.pl, dev, s, SESSION_BUFFER), log))
         == After(StartNext(u.pl, PullAll(u, dev, s.page[s.pageIdx..]), t, SESSION_BUFFER), log')
    ensures SameSession(s, t) && t.pageIdx == |s.page| && !t.chunkedOpen && Asked(log') == Asked(log)
    decreases |s.page| - s.pageIdx
  {
    hide Steps, Good, Asked, Deliver, Skipped, StartNext, PullFile, PullAll, Listed;
    if s.pageIdx == |s.page| {
      PullNone(u, dev, s.page[s.pageIdx..]);
      StepsNone(u, After(StartNext(u.pl, dev, s, SESSION_BUFFER), log));
      n, t, log' := 0, s, log;
    } else {
      var e := s.page[s.pageIdx];
      PullHead(u, dev, s.page, s.pageIdx);
      if Skipped(u.pl, dev.store, e) {
        SkipOne(u, dev, s);
        n, t, log' := PageRun(u, dev, s.(pageIdx := s.pageIdx + 1), log);
      } else {
        var m, t1, log1 := FetchRun(u, dev, s, e, log);
        PullKeeps(u, dev, e);
        var k, t2, log2 := PageRun(u, PullFile(u, dev, e), t1, log1);
        StepsAdd(u, m, k, After(StartNext(u.pl, dev, s, SESSION_BUFFER), log));
        n, t, log' := m + k, t2, log2;
      }
    }
  }

  lemma {:induction false} PullNone(u: Setup, dev: Device, list: seq<Entry>)
    requires list == []
    ensures PullAll(u, dev, list) == dev
  {
  }

  lemma {:induction false} StepsNone(u: Setup, n: Net)
    ensures Steps(u, 0, n) == n
  {
  }

  lemma {:induction false} ListingListed(lib: Library)
    requires Good(lib)
    ensures forall i :: 0 <= i < |lib.listing| ==> Listed(lib, lib.listing[i])
  {
  }

  /** What follows the last file of a page. */
  lemma {:induction false} PageEnd(pl: Platform, dev: Device, s: Sync, log: seq<Request>)
    requires s.pageIdx == |s.page|
    ensures After(StartNext(pl, dev, s, SESSION_BUFFER), log)
         == if s.lsNext > 0 then Net(dev, s.(page := [], pageIdx := 0, phase := PhLs), Some(Ls(s.lsNext)), log)
            else After(EnterAttest(dev, BeginAttest(pl, dev, s), SESSION_BUFFER), log)
  {
    hide Skipped, EnterAttest, BeginAttest;
  }

  predicate SameAttest(s: Sync, t: Sync) {
    t.attestStarted == s.attestStarted && t.pending == s.pending && t.pendingNext == s.pendingNext
    && t.batchSize == s.batchSize && t.attestOffset == s.attestOffset
  }

  /** The session after the last file of a page with more to come. */
  function PageLeft(s: Sync): Sync {
    s.(page := [], pageIdx := 0, phase := PhLs)
  }

  /** One page: the listing reply and the files in it. */
  lemma {:induction false} PageExchange(u: Setup, dev: Device, s: Sync, offset: U32, log: seq<Request>) returns (n: nat, t: Sync, log': seq<Request>)
    requires Healthy(u) && Idle(dev, s) && s.phase == PhLs && offset <= |u.lib.listing|
    ensures var (page, next) := LsPage(u.lib.listing, offset, LsBudget(u));
      var d := PullAll(u, dev, page);
      && Steps(u, n, Net(dev, s, Some(Ls(offset)), log)) == (if next > 0 then Net(d, PageLeft(t), Some(Ls(next)), log')
                                                            else After(EnterAttest(d, BeginAttest(u.pl, d, t), SESSION_BUFFER), log'))
      && t.lsNext == next < 0x1_0000_0000
    ensures SameAttest(s, t) && t.inUse && !t.chunkedOpen && Asked(log') == Asked(log)
  {
    hide Steps, Good, Asked, Deliver, StartNext, PullAll, Listed, LsPage, EnterAttest, BeginAttest, Interpret, Respond, LsBudget;
    var net := Net(dev, s, Some(Ls(offset)), log);
    var (page, next) := LsPage(u.lib.listing, offset, LsBudget(u));
    PageOf(u, offset);
    LsStep(u, dev, s, offset);
    DeliverIs(u, net, Ls(offset));
    OneStep(u, net);
    AskedNext(log, Ls(offset));
    var s1, log1 := s.(page := page, pageIdx := 0, lsNext := next), log + [Ls(offset)];
    assert page[0..] == page;
    var m, t1, log2 := PageRun(u, dev, s1, log1);
    StepsAdd(u, 1, m, net);
    PageEnd(u.pl, PullAll(u, dev, page), t1, log2);
    n, t, log' := 1 + m, t1, log2;
  }

  /** What the reply to ls does. */
  lemma {:induction false} LsStep(u: Setup, dev: Device, s: Sync, offset: U32)
    requires Idle(dev, s) && s.phase == PhLs && LsPage(u.lib.listing, offset, LsBudget(u)).1 < 0x1_0000_0000
    ensures var (page, next) := LsPage(u.lib.listing, offset, LsBudget(u));
      Ready(dev, s) && Advance(u.pl, dev, s, AnswerTo(u.lib, u.mtu, Ls(offset)), GoodIo(), SESSION_BUFFER)
        == StartNext(u.pl, dev, s.(page := page, pageIdx := 0, lsNext := next), SESSION_BUFFER)
  {
    hide StartNext, LsPage;
  }

  lemma {:induction false} ListRun(u: Setup, dev: Device, s: Sync, offset: U32, log: seq<Request>) returns (n: nat, t: Sync, log': seq<Request>)
    requires Healthy(u) && Idle(dev, s) && s.phase == PhLs && offset <= |u.lib.listing| && LinesFit(u.lib.listing, LsBudget(u))
    ensures var d := PullAll(u, dev, u.lib.listing[offset..]);
      Steps(u, n, Net(dev, s, Some(Ls(offset)), log)) == After(EnterAttest(d, BeginAttest(u.pl, d, t), SESSION_BUFFER), log')
    ensures SameAttest(s, t) && t.inUse && !t.chunkedOpen && Asked(log') == Asked(log)
    decreases |u.lib.listing| - offset
  {
    hide Steps, Good, Asked, PullAll, LsPage, EnterAttest, BeginAttest, LsBudget, LsEntrySize;
    var (page, next) := LsPage(u.lib.listing, offset, LsBudget(u));
    LsPageMeans(u.lib.listing, offset, LsBudget(u));
    PullAllKeeps(u, dev, page);
    var m, t1, log1 := PageExchange(u, dev, s, offset, log);
    if next == 0 {
      assert page == u.lib.listing[offset..];
      n, t, log' := m, t1, log1;
    } else {
      var k, t2, log2 := ListRun(u, PullAll(u, dev, page), PageLeft(t1), next, log1);
      assert u.lib.listing[offset..] == page + u.lib.listing[next..];
      PullConcat(u, dev, page, u.lib.listing[next..]);
      StepsAdd(u, m, k, Net(dev, s, Some(Ls(offset)), log));
      n, t, log' := m + k, t2, log2;
    }
  }

  /** The lines of a page are listed ones. */
  lemma {:induction false} PageOf(u: Setup, offset: nat)
    requires Good(u.lib) && offset <= |u.lib.listing|
    ensures var (page, next) := LsPage(u.lib.listing, offset, LsBudget(u));
      next < 0x1_0000_0000 && forall i :: 0 <= i < |page| ==> Listed(u.lib, page[i])
  {
    hide LsPage, LsEntrySize, Listed, LsBudget;
    GoodListable(u.lib);
    LsPageMeans(u.lib.listing, offset, LsBudget(u));
    var (page, next) := LsPage(u.lib.listing, offset, LsBudget(u));
    ListingListed(u.lib);
    forall i | 0 <= i < |page| ensures Listed(u.lib, page[i]) { assert page[i] == u.lib.listing[offset + i]; }
  }

  lemma {:induction false} GoodListable(lib: Library)
    requires Good(lib)
    ensures |lib.listing| < 0x8000_0000 && forall i :: 0 <= i < |lib.listing| ==> Listable(lib.listing[i])
  {
  }

  // ---- the attestations ----

  lemma {:induction false} CacheConcat(cache: seq<Bytes>, a: seq<Bytes>, b: seq<Bytes>)
    ensures CacheWriteAll(cache, a + b) == CacheWriteAll(CacheWriteAll(cache, a), b)
    decreases |a|
  {
    hide CacheWrite;
    if a == [] {
      assert a + b == b;
    } else {
      assert (a + b)[0] == a[0] && (a + b)[1..] == a[1..] + b;
      CacheConcat(CacheWrite(cache, a[0]), a[1..], b);
    }
  }

  /** The batch under way. */
  predicate Asking(s: Sync, offset: nat) {
    && s.inUse && s.phase == PhAttestQuery && s.attestOffset == offset && s.pendingNext < |s.pending|
    && s.batchSize == (if |s.pending| - s.pendingNext > BSSID_BATCH_MAX then BSSID_BATCH_MAX else |s.pending| - s.pendingNext)
  }

  function Batch(s: Sync): seq<Bssid>
    requires s.pendingNext + s.batchSize <= |s.pending|
  {
    s.pending[s.pendingNext..s.pendingNext + s.batchSize]
  }

  lemma {:induction false} EnterBatch(dev: Device, s: Sync, log: seq<Request>)
    requires s.pendingNext < |s.pending| && s.inUse
    ensures Asking(BatchOf(s), s.attestOffset)
    ensures After(EnterAttest(dev, s, SESSION_BUFFER), log) == Net(dev, BatchOf(s), Some(AttestQuery(Batch(BatchOf(s)), s.attestOffset)), log)
  {
  }

  function WithCache(dev: Device, cache: seq<Bytes>): Device {
    dev.(cache := cache)
  }

  /** The session after a page, and after a batch. */
  function PagedOn(s: Sync, offset: U32): Sync {
    s.(attestOffset := offset)
  }

  function BatchedOn(s: Sync): Sync {
    s.(pendingNext := s.pendingNext + s.batchSize, batchSize := 0, attestOffset := 0)
  }

  lemma {:induction false} PagedFacts(dev: Device, s: Sync, offset: U32, next: U32, log: seq<Request>)
    requires Asking(s, offset)
    ensures Asking(PagedOn(s, next), next) && Batch(PagedOn(s, next)) == Batch(s) && BatchedOn(PagedOn(s, next)) == BatchedOn(s)
    ensures After(EnterAttest(dev, PagedOn(s, next), SESSION_BUFFER), log) == Net(dev, PagedOn(s, next), Some(AttestQuery(Batch(s), next)), log)
  {
  }

  lemma {:induction false} CacheFacts(dev: Device, a: seq<Bytes>, b: seq<Bytes>)
    ensures WithCache(WithCache(dev, a), b) == WithCache(dev, b) && WithCache(dev, a).cache == a
    ensures WithCache(dev, a).store == dev.store
  {
  }

  /** What one reply of blobs does. */
  lemma {:induction false} BlobsStep(u: Setup, dev: Device, s: Sync, offset: U32, page: seq<Bytes>, more: bool)
    requires dev.store.chunk.None? && Asking(s, offset) && offset + |page| < 0x1_0000_0000 && (more ==> offset + |page| > 0)
    requires (page, more) == BlobPage(BlobsFor(u, Batch(s)), offset, PageRoom(u))
    ensures var d := WithCache(dev, CacheWriteAll(dev.cache, page));
      Ready(dev, s) && Advance(u.pl, dev, s, AnswerTo(u.lib, u.mtu, AttestQuery(Batch(s), offset)), GoodIo(), SESSION_BUFFER)
        == EnterAttest(d, if more then PagedOn(s, offset + |page|) else BatchedOn(s), SESSION_BUFFER)
  {
    hide EnterAttest, Matching, BlobPage, CacheWriteAll, Batch;
  }

  lemma {:induction false} BlobsGood(u: Setup, query: seq<Bssid>)
    requires Good(u.lib)
    ensures |BlobsFor(u, query)| < 0x100
  {
    hide Matching;
    MatchingGood(u.lib, query);
  }

  /** Drain a batch, page by page. */
  lemma {:induction false} BatchRun(u: Setup, dev: Device, s: Sync, offset: U32, log: seq<Request>) returns (n: nat, log': seq<Request>)
    requires Healthy(u) && dev.store.chunk.None? && Asking(s, offset)
    requires offset <= |BlobsFor(u, Batch(s))| && AllShort(BlobsFor(u, Batch(s)), PageRoom(u))
    ensures var d := WithCache(dev, CacheWriteAll(dev.cache, BlobsFor(u, Batch(s))[offset..]));
      Steps(u, n, Net(dev, s, Some(AttestQuery(Batch(s), offset)), log)) == After(EnterAttest(d, BatchedOn(s), SESSION_BUFFER), log')
    ensures Asked(log') == Asked(log) + if offset == 0 then Batch(s) else []
    decreases |BlobsFor(u, Batch(s))| - offset
  {
    hide Steps, Good, Asked, Deliver, EnterAttest, BlobsFor, BlobPage, BlobSize, CacheWriteAll, PageRoom, Interpret, Respond, Batch, PagedOn, BatchedOn, WithCache, Advance, AnswerTo;
    var blobs, r := BlobsFor(u, Batch(s)), AttestQuery(Batch(s), offset);
    var net := Net(dev, s, Some(r), log);
    var (page, more) := BlobPage(blobs, offset, PageRoom(u));
    BlobsGood(u, Batch(s));
    BlobPageMeans(blobs, offset, PageRoom(u));
    BatchSmall(s, offset);
    BlobsStep(u, dev, s, offset, page, more);
    DeliverIs(u, net, r);
    OneStep(u, net);
    AskedNext(log, r);
    var d := WithCache(dev, CacheWriteAll(dev.cache, page));
    if more {
      var next := offset + |page|;
      PagedFacts(d, s, offset, next, log + [r]);
      CacheFacts(dev, CacheWriteAll(dev.cache, page), CacheWriteAll(d.cache, blobs[next..]));
      var m, l := BatchRun(u, d, PagedOn(s, next), next, log + [r]);
      StepsAdd(u, 1, m, net);
      assert blobs[offset..] == page + blobs[next..];
      CacheConcat(dev.cache, page, blobs[next..]);
      n, log' := 1 + m, l;
    } else {
      assert blobs[offset..] == page;
      n, log' := 1, log + [r];
    }
  }

  lemma {:induction false} BatchSmall(s: Sync, offset: nat)
    requires Asking(s, offset)
    ensures 0 < |Batch(s)| <= QUERY_MAX
  {
  }

  /** What a caller sees of a batch's blobs: none when the first one does not fit, since the
      empty page at offset 0 then reads as the end. */
  function Shown(blobs: seq<Bytes>, room: nat): seq<Bytes> {
    if blobs != [] && room < BlobSize(blobs[0]) then [] else blobs
  }

  /** Ask for the attestations of all pending BSSIDs, a batch at a time. */
  function AskAll(u: Setup, cache: seq<Bytes>, pending: seq<Bssid>): seq<Bytes>
    decreases |pending|
  {
    if pending == [] then cache
    else
      var b := if |pending| > BSSID_BATCH_MAX then BSSID_BATCH_MAX else |pending|;
      AskAll(u, CacheWriteAll(cache, Shown(BlobsFor(u, pending[..b]), PageRoom(u))), pending[b..])
  }

  /** Every batch ends: its first blob does not fit, or all of them do. */
  predicate BatchesEnd(u: Setup, pending: seq<Bssid>)
    decreases |pending|
  {
    if pending == [] then true
    else
      var b := if |pending| > BSSID_BATCH_MAX then BSSID_BATCH_MAX else |pending|;
      AllShort(Shown(BlobsFor(u, pending[..b]), PageRoom(u)), PageRoom(u)) && BatchesEnd(u, pending[b..])
  }

  /** A whole batch. */
  lemma {:induction false} WholeBatch(u: Setup, dev: Device, s: Sync, log: seq<Request>) returns (n: nat, log': seq<Request>)
    requires Healthy(u) && dev.store.chunk.None? && Asking(s, 0) && AllShort(Shown(BlobsFor(u, Batch(s)), PageRoom(u)), PageRoom(u))
    ensures var d := WithCache(dev, CacheWriteAll(dev.cache, Shown(BlobsFor(u, Batch(s)), PageRoom(u))));
      Steps(u, n, Net(dev, s, Some(AttestQuery(Batch(s), 0)), log)) == After(EnterAttest(d, BatchedOn(s), SESSION_BUFFER), log')
    ensures Asked(log') == Asked(log) + Batch(s)
  {
    hide Steps, Good, Asked, Deliver, EnterAttest, BlobsFor, BlobSize, CacheWriteAll, PageRoom, Batch, BatchedOn, WithCache, BlobPage;
    var blobs := BlobsFor(u, Batch(s));
    assert blobs[0..] == blobs;
    if Shown(blobs, PageRoom(u)) == blobs {
      n, log' := BatchRun(u, dev, s, 0, log);
    } else {
      log' := FirstTooLong(u, dev, s, log);
      n := 1;
    }
  }

  /** When the first blob does not fit, its batch is over after one exchange. */
  lemma {:induction false} FirstTooLong(u: Setup, dev: Device, s: Sync, log: seq<Request>) returns (log': seq<Request>)
    requires Healthy(u) && dev.store.chunk.None? && Asking(s, 0)
    requires var blobs := BlobsFor(u, Batch(s)); blobs != [] && PageRoom(u) < BlobSize(blobs[0])
    ensures Steps(u, 1, Net(dev, s, Some(AttestQuery(Batch(s), 0)), log))
         == After(EnterAttest(WithCache(dev, CacheWriteAll(dev.cache, [])), BatchedOn(s), SESSION_BUFFER), log')
    ensures Asked(log') == Asked(log) + Batch(s)
  {
    hide Steps, Good, Asked, Deliver, EnterAttest, BlobsFor, BlobPage, BlobSize, CacheWriteAll, PageRoom, Batch, BatchedOn, WithCache, Advance, AnswerTo, Interpret, Respond;
    var r := AttestQuery(Batch(s), 0);
    var net := Net(dev, s, Some(r), log);
    BlobsStuck(BlobsFor(u, Batch(s)), 0, PageRoom(u), 0);
    BatchSmall(s, 0);
    NoNextStep(u, dev, s);
    DeliverIs(u, net, r);
    OneStep(u, net);
    AskedNext(log, r);
    log' := log + [r];
  }

  /** An empty first page says 0 for the next offset, which reads as no next page. */
  lemma {:induction false} NoNextStep(u: Setup, dev: Device, s: Sync)
    requires dev.store.chunk.None? && Asking(s, 0) && BlobPage(BlobsFor(u, Batch(s)), 0, PageRoom(u)) == ([], true)
    ensures Ready(dev, s) && Advance(u.pl, dev, s, AnswerTo(u.lib, u.mtu, AttestQuery(Batch(s), 0)), GoodIo(), SESSION_BUFFER)
      == EnterAttest(WithCache(dev, CacheWriteAll(dev.cache, [])), BatchedOn(s), SESSION_BUFFER)
  {
    hide EnterAttest, Matching, BlobPage, CacheWriteAll, Batch;
  }

  /** Drain all batches. */
  lemma {:induction false} AttestRun(u: Setup, dev: Device, s: Sync, log: seq<Request>) returns (n: nat, t: Sync, log': seq<Request>)
    requires Healthy(u) && dev.store.chunk.None? && s.inUse && s.attestOffset == 0 && s.pendingNext <= |s.pending|
    requires BatchesEnd(u, s.pending[s.pendingNext..])
    ensures Steps(u, n, After(EnterAttest(dev, s, SESSION_BUFFER), log))
         == Net(WithCache(dev, AskAll(u, dev.cache, s.pending[s.pendingNext..])), t, None, log')
    ensures t.phase == PhDone && Asked(log') == Asked(log) + s.pending[s.pendingNext..]
    decreases |s.pending| - s.pendingNext
  {
    hide Steps, Good, Asked, Deliver, EnterAttest, BlobsFor, CacheWriteAll, AskAll, Batch, BatchesEnd, Shown, AllShort;
    var start := After(EnterAttest(dev, s, SESSION_BUFFER), log);
    if s.pendingNext == |s.pending| {
      var rest := s.pending[s.pendingNext..];
      NothingLeft(u, dev, s, log);
      StepsNone(u, start);
      assert rest == [] && Asked(log) + [] == Asked(log);
      n, t, log' := 0, s.(phase := PhDone), log;
    } else {
      var s1 := BatchOf(s);
      EnterBatch(dev, s, log);
      FirstBatchEnds(u, s);
      var m, log1 := WholeBatch(u, dev, s1, log);
      var cache := CacheWriteAll(dev.cache, Shown(BlobsFor(u, Batch(s1)), PageRoom(u)));
      var k, t2, log2 := AttestRun(u, WithCache(dev, cache), BatchedOn(s1), log1);
      JoinBatches(u, dev, s, log, m, log1, k, t2, log2);
      n, t, log' := m + k, t2, log2;
    }
  }

  /** The first batch of what is pending, and the rest. */
  lemma {:induction false} FirstBatchEnds(u: Setup, s: Sync)
    requires s.pendingNext < |s.pending|
    ensures var s1 := BatchOf(s);
      && s1.pendingNext + s1.batchSize <= |s1.pending|
      && (BatchesEnd(u, s.pending[s.pendingNext..]) <==>
            AllShort(Shown(BlobsFor(u, Batch(s1)), PageRoom(u)), PageRoom(u)) && BatchesEnd(u, s.pending[BatchedOn(s1).pendingNext..]))
  {
    hide BlobsFor, Shown, AllShort;
    var rest, b := s.pending[s.pendingNext..], BatchOf(s).batchSize;
    assert Batch(BatchOf(s)) == rest[..b] && rest[b..] == s.pending[s.pendingNext + b..];
  }

  /** The session with its next batch under way. */
  function BatchOf(s: Sync): Sync
    requires s.pendingNext < |s.pending|
  {
    var left := |s.pending| - s.pendingNext;
    s.(phase := PhAttestQuery, batchSize := if left > BSSID_BATCH_MAX then BSSID_BATCH_MAX else left)
  }

  /** One batch, and then the rest. */
  lemma {:induction false} JoinBatches(u: Setup, dev: Device, s: Sync, log: seq<Request>, m: nat, log1: seq<Request>, k: nat, t: Sync, log2: seq<Request>)
    requires s.pendingNext < |s.pending|
    requires var s1 := BatchOf(s);
      var c := CacheWriteAll(dev.cache, Shown(BlobsFor(u, Batch(s1)), PageRoom(u)));
      && Steps(u, m, After(EnterAttest(dev, s, SESSION_BUFFER), log)) == After(EnterAttest(WithCache(dev, c), BatchedOn(s1), SESSION_BUFFER), log1)
      && Asked(log1) == Asked(log) + Batch(s1)
      && Steps(u, k, After(EnterAttest(WithCache(dev, c), BatchedOn(s1), SESSION_BUFFER), log1))
         == Net(WithCache(WithCache(dev, c), AskAll(u, c, s.pending[BatchedOn(s1).pendingNext..])), t, None, log2)
      && Asked(log2) == Asked(log1) + s.pending[BatchedOn(s1).pendingNext..]
    ensures Steps(u, m + k, After(EnterAttest(dev, s, SESSION_BUFFER), log))
         == Net(WithCache(dev, AskAll(u, dev.cache, s.pending[s.pendingNext..])), t, None, log2)
    ensures Asked(log2) == Asked(log) + s.pending[s.pendingNext..]
  {
    hide Steps, Asked, EnterAttest, After, BlobsFor, CacheWriteAll, WithCache, AskAll, Shown;
    var rest := s.pending[s.pendingNext..];
    var batch := Batch(BatchOf(s));
    var b := BatchOf(s).batchSize;
    assert batch == rest[..b] && rest[b..] == s.pending[s.pendingNext + b..];
    var c := CacheWriteAll(dev.cache, Shown(BlobsFor(u, batch), PageRoom(u)));
    CacheFacts(dev, c, AskAll(u, c, rest[b..]));
    StepsAdd(u, m, k, After(EnterAttest(dev, s, SESSION_BUFFER), log));
    assert Asked(log) + batch + rest[b..] == Asked(log) + rest;
    AskBatch(u, dev.cache, rest);
  }

  lemma {:induction false} AskBatch(u: Setup, cache: seq<Bytes>, pending: seq<Bssid>)
    requires pending != []
    ensures var b := if |pending| > BSSID_BATCH_MAX then BSSID_BATCH_MAX else |pending|;
      AskAll(u, cache, pending) == AskAll(u, CacheWriteAll(cache, Shown(BlobsFor(u, pending[..b]), PageRoom(u))), pending[b..])
  {
    hide CacheWriteAll, BlobsFor, Shown;
  }

  lemma {:induction false} NothingLeft(u: Setup, dev: Device, s: Sync, log: seq<Request>)
    requires s.pendingNext == |s.pending|
    ensures After(EnterAttest(dev, s, SESSION_BUFFER), log) == Net(WithCache(dev, AskAll(u, dev.cache, [])), s.(phase := PhDone), None, log)
  {
  }

  // ---- the whole session ----

  function Started(dev: Device): Net {
    After(Begin(dev, IdleSync(), SESSION_BUFFER), [])
  }

  /** What the session asks for in the end. */
  function PendingAfter(u: Setup, dev: Device): seq<Bssid> {
    Gather([], u.pl.list(dev.store.files), dev.store.files, u.pl.own, dev.cache)
  }

  /** The lines of the listing that a session sees: none when the first one does not fit, since
      the empty page at offset 0 then reads as the end. */
  function Offered(u: Setup): (list: seq<Entry>)
    ensures list == u.lib.listing || list == []
  {
    if u.lib.listing != [] && LsRoom(LsBudget(u)) < LsEntrySize(u.lib.listing[0]) then [] else u.lib.listing
  }

  /** The listing ends, and so do all batches. */
  ghost predicate Finite(u: Setup, dev: Device) {
    LinesFit(Offered(u), LsBudget(u)) && BatchesEnd(u, PendingAfter(u, PullAll(u, dev, Offered(u))))
  }

  /** The state in which a session is done: what pulling the offered files one by one and asking
      for every pending BSSID once makes of the device. */
  ghost predicate Finished(u: Setup, dev: Device, end: Net) {
    var pulled := PullAll(u, dev, Offered(u));
    && end.s.phase == PhDone && end.request.None?
    && end.dev == pulled.(cache := AskAll(u, dev.cache, PendingAfter(u, pulled)))
    && Asked(end.log) == PendingAfter(u, pulled)
  }

  /** Up to the attestations. */
  lemma {:induction false} OfferedRun(u: Setup, dev: Device) returns (n: nat, t: Sync, log: seq<Request>)
    requires Healthy(u) && dev.store.chunk.None? && LinesFit(Offered(u), LsBudget(u))
    ensures var d := PullAll(u, dev, Offered(u));
      Steps(u, n, Started(dev)) == After(EnterAttest(d, BeginAttest(u.pl, d, t), SESSION_BUFFER), log)
    ensures SameAttest(IdleSync(), t) && t.inUse && Asked(log) == []
    ensures PullAll(u, dev, Offered(u)).store.chunk.None? && PullAll(u, dev, Offered(u)).cache == dev.cache
  {
    hide Steps, Asked, Deliver, EnterAttest, BeginAttest, PullAll, Good, LsPage, LsBudget, LsRoom, LsEntrySize;
    var s := IdleSync().(inUse := true);
    assert Started(dev) == Net(dev, s, Some(Ls(0)), []);
    NothingAsked();
    PullAllKeeps(u, dev, Offered(u));
    if Offered(u) == u.lib.listing {
      n, t, log := ListRun(u, dev, s, 0, []);
      assert u.lib.listing[0..] == u.lib.listing;
    } else {
      LsStuck(u.lib.listing, 0, LsBudget(u));
      n, t, log := PageExchange(u, dev, s, 0, []);
    }
  }

  /** When the listing and the batches end, every session reaches DONE in finitely many exchanges. */
  lemma {:induction false} Ends(u: Setup, dev: Device) returns (n: nat)
    requires Healthy(u) && dev.store.chunk.None? && Finite(u, dev)
    ensures Finished(u, dev, Steps(u, n, Started(dev)))
  {
    hide Steps, Asked, Deliver, EnterAttest, PullAll, AskAll, Gather, Good, BatchesEnd, LinesFit, Offered;
    var m, t, log1 := OfferedRun(u, dev);
    var pulled := PullAll(u, dev, Offered(u));
    var s1 := BeginAttest(u.pl, pulled, t);
    assert s1.pending == PendingAfter(u, pulled) && s1.pendingNext == 0;
    assert s1.pending[0..] == s1.pending;
    var k, t2, log2 := AttestRun(u, pulled, s1, log1);
    StepsAdd(u, m, k, Started(dev));
    assert [] + s1.pending == s1.pending;
    n := m + k;
  }

  lemma {:induction false} NothingAsked()
    ensures Asked([]) == []
  {
  }
}
