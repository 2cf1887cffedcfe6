/** Safety of a sync session against any peer: whatever bytes arrive, however the card behaves,
    and whenever the session is ended. */
module SyncSafety {
  import opened Cbor
  import opened FileStore
  import opened PeerSync
  import opened Wrappers

  /** A file that a session finished, with the size the peer had declared for it. */
  datatype Commit = Commit(name: Bytes, size: nat)

  datatype World = World(dev: Device, s: Sync, commits: seq<Commit>)

  datatype Event =
    | Open(outMax: nat)
    | Reply(pl: Platform, bytes: Bytes, io: Io, outMax: nat)
    | Close

  function Apply(w: World, e: Event): World
    requires Ready(w.dev, w.s)
  {
    match e
    case Open(outMax) => var o := Begin(w.dev, w.s, outMax); World(o.dev, o.s, w.commits)
    case Reply(pl, bytes, io, outMax) =>
      var o := HandleReply(pl, w.dev, w.s, bytes, io, outMax);
      World(o.dev, o.s, if o.committed.None? then w.commits else w.commits + [Commit(o.committed.value, o.s.curTotal)])
    case Close => var (d, s) := End(w.dev, w.s); World(d, s, w.commits)
  }

  function Names(commits: seq<Commit>): set<Bytes> {
    set i | 0 <= i < |commits| :: commits[i].name
  }

  /** The store holds the files it began with, the finished ones at their declared sizes, and
      besides those at most the one being written. */
  ghost predicate Kept(was: map<Bytes, Bytes>, commits: seq<Commit>, files: map<Bytes, Bytes>, writing: set<Bytes>) {
    && files.Keys == was.Keys + Names(commits) + writing
    && was.Keys !! Names(commits) && writing !! was.Keys + Names(commits)
    && (forall n :: n in was ==> n in files && files[n] == was[n])
    && (forall i :: 0 <= i < |commits| ==> commits[i].name in files && |files[commits[i].name]| == commits[i].size > 0)
    && (forall i, j :: 0 <= i < j < |commits| ==> commits[i].name != commits[j].name)
  }

  /** The session's own view of the open write is the store's. */
  predicate ViewsAgree(store: Store, s: Sync) {
    && s.chunkedOpen == store.chunk.Some?
    && s.chunkedOpen == (s.inUse && s.phase == PhReadChunk)
    && (s.chunkedOpen ==>
          && store.chunk == Some(Chunk(s.curName, s.curTotal, s.curReceived)) && s.curReceived <= s.curTotal
          && 0 < s.curTotal && s.curName in store.files && |store.files[s.curName]| == s.curReceived)
    && (s.inUse && s.phase == PhReadStart ==> FileSize(store, s.curName).None? && s.curReceived == 0)
    && (s.phase == PhReadChunk ==> s.curReceived <= s.curTotal)
  }

  function Writing(s: Sync): set<Bytes> {
    if s.chunkedOpen then {s.curName} else {}
  }

  ghost predicate Safe(was: map<Bytes, Bytes>, counter: nat, w: World) {
    && ViewsAgree(w.dev.store, w.s)
    && Kept(was, w.commits, w.dev.store.files, Writing(w.s))
    && w.dev.counter == (counter + |w.commits|) % 0x100
  }

  /** Moving on touches neither the device nor the open write, and locks in only absent files. */
  lemma {:induction false} StartNextFacts(pl: Platform, dev: Device, s: Sync, outMax: nat)
    requires !s.chunkedOpen
    ensures var o := StartNext(pl, dev, s, outMax);
      && o.dev == dev && o.committed.None? && o.s.inUse == s.inUse && !o.s.chunkedOpen
      && o.s.phase != PhReadChunk && o.s.phase != PhReadMeta
      && (o.s.phase == PhReadStart ==> FileSize(dev.store, o.s.curName).None? && o.s.curReceived == 0)
    decreases |s.page| - s.pageIdx
  {
    hide Gather, HashExists;
    if s.pageIdx < |s.page| && Skipped(pl, dev.store, s.page[s.pageIdx]) {
      StartNextFacts(pl, dev, s.(pageIdx := s.pageIdx + 1), outMax);
    }
  }

  lemma {:induction false} AbortKeeps(was: map<Bytes, Bytes>, commits: seq<Commit>, files: map<Bytes, Bytes>, name: Bytes)
    requires Kept(was, commits, files, {name})
    ensures Kept(was, commits, files - {name}, {})
  {
    assert was.Keys + Names(commits) + {name} - {name} == was.Keys + Names(commits) + {};
    forall i | 0 <= i < |commits| ensures commits[i].name != name { assert commits[i].name in Names(commits); }
  }

  lemma {:induction false} OpenKeeps(was: map<Bytes, Bytes>, commits: seq<Commit>, files: map<Bytes, Bytes>, name: Bytes)
    requires Kept(was, commits, files, {}) && name !in files
    ensures Kept(was, commits, files[name := []], {name})
  {
    forall i | 0 <= i < |commits| ensures commits[i].name != name { assert commits[i].name in files; }
  }

  lemma {:induction false} AppendKeeps(was: map<Bytes, Bytes>, commits: seq<Commit>, files: map<Bytes, Bytes>, name: Bytes, data: Bytes)
    requires Kept(was, commits, files, {name})
    ensures Kept(was, commits, files[name := data], {name})
  {
    assert name in files;
    assert files[name := data].Keys == files.Keys;
    forall i | 0 <= i < |commits| ensures commits[i].name != name { assert commits[i].name in Names(commits); }
  }

  lemma {:induction false} CommitKeeps(was: map<Bytes, Bytes>, commits: seq<Commit>, files: map<Bytes, Bytes>, name: Bytes)
    requires Kept(was, commits, files, {name}) && |files[name]| > 0
    ensures Kept(was, commits + [Commit(name, |files[name]|)], files, {})
  {
    var c := Commit(name, |files[name]|);
    var more := commits + [c];
    assert Names(more) == Names(commits) + {name} by {
      assert more[|commits|].name == name;
      forall i | 0 <= i < |commits| ensures commits[i].name in Names(more) { assert more[i] == commits[i]; }
      assert forall n :: n in Names(commits) ==> n in Names(more);
    }
    forall i | 0 <= i < |commits| ensures commits[i].name != name { assert commits[i].name in Names(commits); }
  }

  lemma {:induction false} ListingSafe(was: map<Bytes, Bytes>, counter: nat, w: World, pl: Platform, s: Sync, outMax: nat)
    requires Safe(was, counter, w) && !w.s.chunkedOpen && !s.chunkedOpen && w.s.inUse && s.inUse
    ensures var o := StartNext(pl, w.dev, s, outMax); Safe(was, counter, World(o.dev, o.s, w.commits)) && o.committed.None?
  {
    hide Kept, StartNext;
    StartNextFacts(pl, w.dev, s, outMax);
  }

  lemma {:induction false} OnSizeSafe(was: map<Bytes, Bytes>, counter: nat, w: World, pl: Platform, a: Answer, io: Io, outMax: nat)
    requires Safe(was, counter, w) && w.s.phase == PhReadStart && w.s.inUse
    ensures var o := OnSize(pl, w.dev, w.s, a, io, outMax); Safe(was, counter, World(o.dev, o.s, w.commits)) && o.committed.None?
  {
    hide Kept, StartNext;
    var s := w.s;
    if !a.Size? {
      ListingSafe(was, counter, w, pl, s.(pageIdx := s.pageIdx + 1), outMax);
    } else {
      var t := s.(curTotal := a.n);
      var (store, ok) := ChunkedStart(w.dev.store, t.curName, t.curTotal, io.opens);
      if a.n == 0 || !ok {
        assert store == w.dev.store;
        ListingSafe(was, counter, w, pl, t.(pageIdx := s.pageIdx + 1), outMax);
      } else {
        OpenKeeps(was, w.commits, w.dev.store.files, s.curName);
      }
    }
  }

  /** Giving up on the open file. */
  lemma {:induction false} AbortSafe(was: map<Bytes, Bytes>, counter: nat, dev: Device, s: Sync, commits: seq<Commit>)
    requires s.phase == PhReadChunk && s.chunkedOpen && s.curReceived <= s.curTotal
    requires Kept(was, commits, dev.store.files, {s.curName}) && dev.counter == (counter + |commits|) % 0x100
    requires dev.store.chunk.Some? && dev.store.chunk.value.name == s.curName
    ensures var o := AbortAndFail(dev, s);
      Safe(was, counter, World(o.dev, o.s, commits)) && o.committed.None?
  {
    hide Kept;
    AbortKeeps(was, commits, dev.store.files, s.curName);
  }

  /** Going on once some bytes have been appended. */
  lemma {:induction false} ReceivedSafe(was: map<Bytes, Bytes>, counter: nat, dev: Device, s: Sync, commits: seq<Commit>)
    requires Safe(was, counter, World(dev, s, commits)) && s.phase == PhReadChunk && s.inUse
    ensures var o := OnReceived(dev, s);
      Safe(was, counter, World(o.dev, o.s, if o.committed.None? then commits else commits + [Commit(o.committed.value, o.s.curTotal)]))
  {
    hide Kept;
    if s.curReceived == s.curTotal { CommitKeeps(was, commits, dev.store.files, s.curName); }
  }

  lemma {:induction false} OnDataSafe(was: map<Bytes, Bytes>, counter: nat, w: World, a: Answer, io: Io)
    requires Safe(was, counter, w) && w.s.phase == PhReadChunk && w.s.inUse
    ensures var o := OnData(w.dev, w.s, a, io);
      var commits := if o.committed.None? then w.commits else w.commits + [Commit(o.committed.value, o.s.curTotal)];
      Safe(was, counter, World(o.dev, o.s, commits))
  {
    hide Kept, OnReceived, AbortAndFail;
    var s, store, name := w.s, w.dev.store, w.s.curName;
    if !a.Data? {
      AbortSafe(was, counter, w.dev, s, w.commits);
    } else {
      var taken := if io.taken < |a.bytes| then io.taken else |a.bytes|;
      var appended := ChunkedAppend(store, a.bytes, taken);
      var dev := w.dev.(store := appended.0);
      if s.curReceived + |a.bytes| > s.curTotal {
        AbortKeeps(was, w.commits, store.files, name);
        OverrunSafe(was, counter, dev, s, w.commits);
      } else {
        AppendKeeps(was, w.commits, store.files, name, store.files[name] + a.bytes[..taken]);
        if taken < |a.bytes| {
          AbortSafe(was, counter, dev, s, w.commits);
        } else {
          ReceivedSafe(was, counter, dev, s.(curReceived := s.curReceived + |a.bytes|), w.commits);
        }
      }
    }
  }

  /** Giving up after the store has already dropped the file. */
  lemma {:induction false} OverrunSafe(was: map<Bytes, Bytes>, counter: nat, dev: Device, s: Sync, commits: seq<Commit>)
    requires s.phase == PhReadChunk && s.chunkedOpen && s.curReceived <= s.curTotal
    requires Kept(was, commits, dev.store.files, {}) && dev.store.chunk.None? && dev.counter == (counter + |commits|) % 0x100
    ensures var o := AbortAndFail(dev, s);
      Safe(was, counter, World(o.dev, o.s, commits)) && o.committed.None?
  {
    hide Kept;
  }

  lemma {:induction false} OnMetaSafe(was: map<Bytes, Bytes>, counter: nat, w: World, pl: Platform, a: Answer, io: Io, outMax: nat)
    requires Safe(was, counter, w) && w.s.phase == PhReadMeta && w.s.inUse
    ensures var o := OnMeta(pl, w.dev, w.s, a, io, outMax); Safe(was, counter, World(o.dev, o.s, w.commits)) && o.committed.None?
  {
    hide Kept, StartNext;
    var s := w.s.(pageIdx := w.s.pageIdx + 1);
    if a.Meta? && a.raw.Some? {
      var d := w.dev.(store := WriteMeta(w.dev.store, w.s.curName, a.raw.value, io.metaOpens));
      ListingSafe(was, counter, w.(dev := d), pl, s, outMax);
    } else {
      ListingSafe(was, counter, w, pl, s, outMax);
    }
  }

  lemma {:induction false} ReplySafe(was: map<Bytes, Bytes>, counter: nat, w: World, e: Event)
    requires Safe(was, counter, w) && e.Reply? && Ready(w.dev, w.s)
    ensures Safe(was, counter, Apply(w, e))
  {
    hide Kept, StartNext, Interpret, OnSize, OnData, OnMeta;
    if w.s.inUse && e.outMax >= 64 {
      var a := Interpret(w.s.phase, e.bytes);
      match w.s.phase
      case PhLs =>
        if a.Listing? { ListingSafe(was, counter, w, e.pl, w.s.(page := a.files, pageIdx := 0, lsNext := a.next), e.outMax); }
      case PhReadStart => OnSizeSafe(was, counter, w, e.pl, a, e.io, e.outMax);
      case PhReadChunk => OnDataSafe(was, counter, w, a, e.io);
      case PhReadMeta => OnMetaSafe(was, counter, w, e.pl, a, e.io, e.outMax);
      case PhAttestQuery =>
      case PhDone =>
      case PhError =>
    }
  }

  lemma {:induction false} EventSafe(was: map<Bytes, Bytes>, counter: nat, w: World, e: Event)
    requires Safe(was, counter, w) && Ready(w.dev, w.s)
    ensures Safe(was, counter, Apply(w, e)) && Ready(Apply(w, e).dev, Apply(w, e).s)
    ensures e.Close? ==> Apply(w, e).dev.store.chunk.None?
  {
    hide Kept, HandleReply;
    match e
    case Open(_) =>
    case Reply(_, _, _, _) => ReplySafe(was, counter, w, e);
    case Close => if w.s.chunkedOpen { AbortKeeps(was, w.commits, w.dev.store.files, w.s.curName); }
  }

  /** The world after a sequence of events on a device with no write open and a free slot. */
  ghost function Run(dev: Device, events: seq<Event>): (w: World)
    requires dev.store.chunk.None?
    ensures Safe(dev.store.files, dev.counter, w) && Ready(w.dev, w.s)
    decreases |events|
  {
    if events == [] then
      NothingYet(dev);
      World(dev, IdleSync(), [])
    else
      var w := Run(dev, events[..|events| - 1]);
      EventSafe(dev.store.files, dev.counter, w, events[|events| - 1]);
      Apply(w, events[|events| - 1])
  }

  lemma {:induction false} NothingYet(dev: Device)
    requires dev.store.chunk.None?
    ensures Safe(dev.store.files, dev.counter, World(dev, IdleSync(), []))
  {
    assert dev.store.files.Keys + Names([]) + {} == dev.store.files.Keys;
  }

  /** Safety, spelled out: for all events, the open write is the session's, with what it has
      received so far; earlier files keep their bytes; each new file is a finished one of its
      declared size or the one being written; the counter counts the finished files. */
  lemma {:induction false} AnyPeer(dev: Device, events: seq<Event>)
    requires dev.store.chunk.None?
    ensures var (w, was) := (Run(dev, events), dev.store.files);
      && w.s.chunkedOpen == w.dev.store.chunk.Some?
      && (w.s.chunkedOpen ==> w.dev.store.chunk == Some(Chunk(w.s.curName, w.s.curTotal, w.s.curReceived)) && w.s.curReceived <= w.s.curTotal)
      && (forall n :: n in was ==> n in w.dev.store.files && w.dev.store.files[n] == was[n])
      && (forall n :: n in w.dev.store.files && n !in was ==>
            (w.s.chunkedOpen && n == w.s.curName) || exists i :: 0 <= i < |w.commits| && w.commits[i] == Commit(n, |w.dev.store.files[n]|))
      && w.dev.counter == (dev.counter + |w.commits|) % 0x100
  {
    hide Kept, Ready;
    var w := Run(dev, events);
    KeptMeans(dev.store.files, w.commits, w.dev.store.files, Writing(w.s));
  }

  lemma {:induction false} KeptMeans(was: map<Bytes, Bytes>, commits: seq<Commit>, files: map<Bytes, Bytes>, writing: set<Bytes>)
    requires Kept(was, commits, files, writing)
    ensures forall n :: n in was ==> n in files && files[n] == was[n]
    ensures forall n :: n in files && n !in was ==> n in writing || exists i :: 0 <= i < |commits| && commits[i] == Commit(n, |files[n]|)
  {
    forall n | n in files && n !in was && n !in writing
      ensures exists i :: 0 <= i < |commits| && commits[i] == Commit(n, |files[n]|)
    {
      assert n in was.Keys + Names(commits) + writing;
      var i :| 0 <= i < |commits| && commits[i].name == n;
      assert commits[i] == Commit(n, |files[n]|);
    }
  }

  /** Ending the session at any point leaves no write open. */
  lemma {:induction false} EndLeavesNothingOpen(dev: Device, events: seq<Event>)
    requires dev.store.chunk.None?
    ensures Run(dev, events + [Close]).dev.store.chunk.None? && !Run(dev, events + [Close]).s.inUse
  {
    var all := events + [Close];
    assert all[..|all| - 1] == events && all[|all| - 1] == Close;
    EventSafe(dev.store.files, dev.counter, Run(dev, events), Close);
  }

  // ---- replies without data ----

  /** A data reply makes progress exactly when it holds a byte: an empty one leaves the device and
      the session as they are and the same bytes are asked for again. */
  lemma {:induction false} ChunkAdvances(pl: Platform, dev: Device, s: Sync, bytes: Bytes, io: Io, outMax: nat)
    requires ViewsAgree(dev.store, s) && s.inUse && s.phase == PhReadChunk && s.curReceived < s.curTotal
    ensures var o := Advance(pl, dev, s, Data(bytes), io, outMax);
      var left := s.curTotal - s.curReceived;
      && (bytes == [] <==> o.dev == dev && o.s == s)
      && (bytes == [] ==> o.step == NeedWrite && o.committed.None?)
      && (bytes == [] ==> o.request == Some(ReadChunk(s.curName, s.curReceived, if left < 200 then left else 200)))
      && (o.step == NeedWrite ==> o.s.curReceived == s.curReceived + |bytes|)
  {
    var files := dev.store.files;
    assert files[s.curName] + [] == files[s.curName];
    assert files[s.curName := files[s.curName]] == files;
  }

  /** While a session receives a file, some of it is missing. */
  predicate Incomplete(s: Sync) {
    s.inUse && s.phase == PhReadChunk ==> s.curReceived < s.curTotal
  }

  lemma {:induction false} EventIncomplete(w: World, e: Event)
    requires ViewsAgree(w.dev.store, w.s) && Ready(w.dev, w.s) && Incomplete(w.s)
    ensures Incomplete(Apply(w, e).s)
  {
    hide Interpret, StartNext, Gather, WriteMeta, EnterAttest, CacheWriteAll;
    if e.Reply? && w.s.inUse && e.outMax >= 64 {
      var a := Interpret(w.s.phase, e.bytes);
      match w.s.phase
      case PhLs =>
        if a.Listing? { StartNextFacts(e.pl, w.dev, w.s.(page := a.files, pageIdx := 0, lsNext := a.next), e.outMax); }
      case PhReadStart => SizeIncomplete(e.pl, w.dev, w.s, a, e.io, e.outMax);
      case PhReadChunk =>
      case PhReadMeta => MetaIncomplete(e.pl, w.dev, w.s, a, e.io, e.outMax);
      case PhAttestQuery => BlobsIncomplete(w.dev, w.s, a, e.outMax);
      case PhDone =>
      case PhError =>
    }
  }

  lemma {:induction false} SizeIncomplete(pl: Platform, dev: Device, s: Sync, a: Answer, io: Io, outMax: nat)
    requires ViewsAgree(dev.store, s) && s.phase == PhReadStart && s.inUse
    ensures Incomplete(OnSize(pl, dev, s, a, io, outMax).s)
  {
    hide StartNext;
    StartNextFacts(pl, dev, s.(pageIdx := s.pageIdx + 1), outMax);
    if a.Size? {
      var (store, ok) := ChunkedStart(dev.store, s.curName, a.n, io.opens);
      StartNextFacts(pl, dev, s.(curTotal := a.n, pageIdx := s.pageIdx + 1), outMax);
      StartNextFacts(pl, dev.(store := store), s.(curTotal := a.n, pageIdx := s.pageIdx + 1), outMax);
    }
  }

  lemma {:induction false} MetaIncomplete(pl: Platform, dev: Device, s: Sync, a: Answer, io: Io, outMax: nat)
    requires ViewsAgree(dev.store, s) && s.phase == PhReadMeta && s.inUse
    ensures Incomplete(OnMeta(pl, dev, s, a, io, outMax).s)
  {
    hide StartNext, WriteMeta;
    StartNextFacts(pl, dev, s.(pageIdx := s.pageIdx + 1), outMax);
    if a.Meta? && a.raw.Some? {
      StartNextFacts(pl, dev.(store := WriteMeta(dev.store, s.curName, a.raw.value, io.metaOpens)), s.(pageIdx := s.pageIdx + 1), outMax);
    }
  }

  lemma {:induction false} BlobsIncomplete(dev: Device, s: Sync, a: Answer, outMax: nat)
    ensures Incomplete(OnBlobs(dev, s, a, outMax).s)
  {
    hide CacheWriteAll;
  }

  lemma {:induction false} RunIncomplete(dev: Device, events: seq<Event>)
    requires dev.store.chunk.None?
    ensures Incomplete(Run(dev, events).s)
    decreases |events|
  {
    hide Apply, Kept, Incomplete;
    if events == [] {
      NothingIncomplete();
    } else {
      RunIncomplete(dev, events[..|events| - 1]);
      EventIncomplete(Run(dev, events[..|events| - 1]), events[|events| - 1]);
    }
  }

  lemma {:induction false} NothingIncomplete()
    ensures Incomplete(IdleSync())
  {
  }

  /** At any point of any run, a peer that answers only with empty data holds the session where
      it is, for as long as it likes. */
  lemma {:induction false} EmptyDataHolds(dev: Device, events: seq<Event>, more: seq<Event>)
    requires dev.store.chunk.None? && Run(dev, events).s.inUse && Run(dev, events).s.phase == PhReadChunk
    requires forall i :: 0 <= i < |more| ==> more[i].Reply? && more[i].outMax >= 64 && Interpret(PhReadChunk, more[i].bytes) == Data([])
    ensures Run(dev, events + more) == Run(dev, events)
    decreases |more|
  {
    hide Advance, Interpret, Kept, Apply;
    if more == [] {
      assert events + more == events;
    } else {
      var (rest, last) := (more[..|more| - 1], more[|more| - 1]);
      EmptyDataHolds(dev, events, rest);
      var w := Run(dev, events);
      RunIncomplete(dev, events);
      assert (events + more)[..|events + more| - 1] == events + rest && (events + more)[|events + more| - 1] == last;
      EmptyDataStays(w, last);
    }
  }

  lemma {:induction false} EmptyDataStays(w: World, e: Event)
    requires ViewsAgree(w.dev.store, w.s) && Ready(w.dev, w.s) && Incomplete(w.s)
    requires w.s.inUse && w.s.phase == PhReadChunk && e.Reply? && e.outMax >= 64 && Interpret(PhReadChunk, e.bytes) == Data([])
    ensures Apply(w, e) == w
  {
    hide Advance, Interpret;
    ChunkAdvances(e.pl, w.dev, w.s, [], e.io, e.outMax);
  }
}
