/** What an end-to-end session means file by file and BSSID by BSSID. */
module SyncOutcome {
  import opened AttestQuery
  import opened Cbor
  import opened CborTree
  import opened Commands
  import opened EncounterRecord
  import opened FileStore
  import opened PeerSync
  import opened SyncAnswers
  import opened SyncEnds
  import opened SyncRun
  import opened SyncWire
  import Rings

  /** Pulling one file touches no other, and never one that is there. */
  lemma {:induction false} PullFileFrame(u: Setup, dev: Device, e: Entry, name: Bytes)
    requires ValidName(name) && (name != e.name || name in dev.store.files)
    ensures var d := PullFile(u, dev, e);
      (name in d.store.files <==> name in dev.store.files) && (name in dev.store.files ==> d.store.files[name] == dev.store.files[name])
  {
    hide HashExists, MetaAnswer;
  }

  lemma {:induction false} PullAllFrame(u: Setup, dev: Device, list: seq<Entry>, name: Bytes)
    requires ValidName(name) && ((forall i :: 0 <= i < |list| ==> list[i].name != name) || name in dev.store.files)
    ensures var d := PullAll(u, dev, list);
      (name in d.store.files <==> name in dev.store.files) && (name in dev.store.files ==> d.store.files[name] == dev.store.files[name])
    decreases |list|
  {
    hide PullFile;
    if list != [] {
      PullFileFrame(u, dev, list[0], name);
      PullAllFrame(u, PullFile(u, dev, list[0]), list[1..], name);
    }
  }

  /** Whether a listed file with bytes f is to be stored: no file has its name; its hash is
      unknown, which is eight zeros, or no local file has it; its listed size fits the free
      space; and it is neither empty nor over the chunked limit. */
  predicate Wanted(pl: Platform, store: Store, e: Entry, f: Bytes) {
    var list := pl.list(store.files);
    && e.name !in store.files
    && (e.hash == [0, 0, 0, 0, 0, 0, 0, 0] || forall k :: 0 <= k < |list| ==> list[k].hash != e.hash)
    && e.size <= pl.free(store)
    && 0 < |f| <= 524288
  }

  lemma {:induction false} WantedExactly(pl: Platform, store: Store, e: Entry, f: Bytes)
    requires ValidName(e.name)
    ensures Wanted(pl, store, e, f) <==> !Skipped(pl, store, e) && f != [] && |f| <= MAX_CHUNKED
    ensures Wanted(pl, store, e, f) ==> e.name !in store.files
  {
    assert ZeroHash() == [0, 0, 0, 0, 0, 0, 0, 0];
  }

  /** What the i-th listed file comes to in the end: stored with exactly the peer's bytes, if it
      was wanted at its turn; otherwise its name means what it meant before. */
  ghost predicate AsListed(u: Setup, dev: Device, i: nat, files: map<Bytes, Bytes>)
    requires Good(u.lib) && i < |u.lib.listing|
  {
    var (e, turn) := (u.lib.listing[i], PullAll(u, dev, u.lib.listing[..i]));
    var f := u.lib.files[e.name];
    if Wanted(u.pl, turn.store, e, f) then
      e.name !in dev.store.files && e.name in files && files[e.name] == f
    else
      && (e.name in files <==> e.name in dev.store.files)
      && (e.name in dev.store.files ==> files[e.name] == dev.store.files[e.name])
  }

  /** File by file. */
  lemma {:induction false} FileOutcome(u: Setup, dev: Device, i: nat)
    requires Good(u.lib) && i < |u.lib.listing|
    ensures AsListed(u, dev, i, PullAll(u, dev, u.lib.listing).store.files)
  {
    hide PullAll, HashExists, MetaAnswer, Listable, Wanted;
    var list := u.lib.listing;
    var e := list[i];
    var turn := PullAll(u, dev, list[..i]);
    WantedExactly(u.pl, turn.store, e, u.lib.files[e.name]);
    assert list == list[..i] + list[i..];
    PullConcat(u, dev, list[..i], list[i..]);
    PullHead(u, turn, list, i);
    PullAllFrame(u, dev, list[..i], e.name);
    PullAllFrame(u, PullFile(u, turn, e), list[i + 1..], e.name);
  }

  // ---- sidecars ----

  lemma {:induction false} PullFileMeta(u: Setup, dev: Device, e: Entry, name: Bytes)
    requires name != e.name
    ensures var d := PullFile(u, dev, e);
      (name in d.store.meta <==> name in dev.store.meta) && (name in dev.store.meta ==> d.store.meta[name] == dev.store.meta[name])
  {
    hide Skipped, MetaAnswer;
  }

  lemma {:induction false} PullAllMeta(u: Setup, dev: Device, list: seq<Entry>, name: Bytes)
    requires forall i :: 0 <= i < |list| ==> list[i].name != name
    ensures var d := PullAll(u, dev, list);
      (name in d.store.meta <==> name in dev.store.meta) && (name in dev.store.meta ==> d.store.meta[name] == dev.store.meta[name])
    decreases |list|
  {
    hide PullFile;
    if list != [] {
      PullFileMeta(u, dev, list[0], name);
      PullAllMeta(u, PullFile(u, dev, list[0]), list[1..], name);
    }
  }

  /** What the sidecar of the i-th listed file comes to in the end: if the file was stored, and
      the reply to read_meta arrived with a map, those bytes; otherwise what it was before. */
  ghost predicate SidecarAsListed(u: Setup, dev: Device, i: nat, meta: map<Bytes, Bytes>)
    requires Good(u.lib) && i < |u.lib.listing|
  {
    var (e, turn) := (u.lib.listing[i], PullAll(u, dev, u.lib.listing[..i]));
    var (f, m) := (u.lib.files[e.name], MetaAnswer(u.lib, u.mtu, e.name));
    if Wanted(u.pl, turn.store, e, f) && m.Some? then
      e.name in meta && meta[e.name] == m.value
    else
      && (e.name in meta <==> e.name in dev.store.meta)
      && (e.name in dev.store.meta ==> meta[e.name] == dev.store.meta[e.name])
  }

  lemma {:induction false} SidecarOutcome(u: Setup, dev: Device, i: nat)
    requires Good(u.lib) && i < |u.lib.listing|
    ensures SidecarAsListed(u, dev, i, PullAll(u, dev, u.lib.listing).store.meta)
  {
    hide PullAll, Skipped, MetaAnswer, Listable, Wanted;
    var list := u.lib.listing;
    var e := list[i];
    var turn := PullAll(u, dev, list[..i]);
    WantedExactly(u.pl, turn.store, e, u.lib.files[e.name]);
    assert list == list[..i] + list[i..];
    PullConcat(u, dev, list[..i], list[i..]);
    PullHead(u, turn, list, i);
    PullAllMeta(u, dev, list[..i], e.name);
    PullAllMeta(u, PullFile(u, turn, e), list[i + 1..], e.name);
  }

  /** A stored file's sidecar, when the peer's is an encoded map or missing: the peer's bytes (or
      an empty map) if they fit the read buffer and the link, and otherwise what it was before. */
  lemma {:induction false} SidecarStored(u: Setup, dev: Device, i: nat, kids: seq<Value>)
    requires Healthy(u) && i < |u.lib.listing| && Fits(Map(kids)) && DepthAll(kids) < MAX_DEPTH
    requires var name := u.lib.listing[i].name;
      if HasSidecar(u.lib, name) then u.lib.meta[name] == Encode(Map(kids)) else kids == []
    requires var (e, turn) := (u.lib.listing[i], PullAll(u, dev, u.lib.listing[..i]));
      Wanted(u.pl, turn.store, e, u.lib.files[e.name])
    ensures var (name, meta) := (u.lib.listing[i].name, PullAll(u, dev, u.lib.listing).store.meta);
      var bytes := Encode(Map(kids));
      if |bytes| <= 200 && 6 + |bytes| <= LinkBytes(u.mtu) then name in meta && meta[name] == bytes
      else (name in meta <==> name in dev.store.meta) && (name in meta ==> meta[name] == dev.store.meta[name])
  {
    hide PullAll, Wanted, MetaAnswer, Fits, Encode, DepthAll;
    SidecarArrives(u.lib, u.mtu, u.lib.listing[i].name, kids);
    SidecarOutcome(u, dev, i);
  }

  /** No other file changes, and files that were there keep their bytes. */
  lemma {:induction false} OtherFiles(u: Setup, dev: Device, name: Bytes)
    requires Good(u.lib) && ValidName(name)
    ensures var end := PullAll(u, dev, u.lib.listing);
      && (name in dev.store.files ==> name in end.store.files && end.store.files[name] == dev.store.files[name])
      && ((forall i :: 0 <= i < |u.lib.listing| ==> u.lib.listing[i].name != name) ==>
            (name in end.store.files <==> name in dev.store.files))
  {
    hide PullAll, Listable;
    if name in dev.store.files || forall i :: 0 <= i < |u.lib.listing| ==> u.lib.listing[i].name != name {
      PullAllFrame(u, dev, u.lib.listing, name);
    }
  }

  /** Each BSSID that is asked for is queued once, and has no attestation yet. */
  ghost predicate Queued(pending: seq<Bssid>, own: seq<Bytes>, cache: seq<Bytes>) {
    && |pending| <= BSSID_TOTAL_MAX
    && (forall i, j :: 0 <= i < j < |pending| ==> pending[i] != pending[j])
    && (forall i :: 0 <= i < |pending| ==> !Attested(own, cache, pending[i]))
  }

  lemma {:induction false} EnqueueKeeps(pending: seq<Bssid>, list: seq<Bssid>, own: seq<Bytes>, cache: seq<Bytes>)
    requires Queued(pending, own, cache)
    ensures Queued(Enqueue(pending, list, own, cache), own, cache)
    ensures |Enqueue(pending, list, own, cache)| < BSSID_TOTAL_MAX ==>
      forall b :: b in list && !Attested(own, cache, b) ==> b in Enqueue(pending, list, own, cache)
    ensures forall b :: b in pending ==> b in Enqueue(pending, list, own, cache)
    ensures forall b :: b in Enqueue(pending, list, own, cache) ==> b in pending || b in list
    decreases |list|
  {
    hide Attested;
    if list != [] && |pending| < BSSID_TOTAL_MAX {
      if list[0] in pending || Attested(own, cache, list[0]) {
        EnqueueKeeps(pending, list[1..], own, cache);
      } else {
        EnqueueKeeps(pending + [list[0]], list[1..], own, cache);
        assert list[0] in pending + [list[0]];
      }
      assert list == [list[0]] + list[1..];
    }
  }

  /** The BSSIDs of a record. */
  predicate Carries(rec: Record, b: Bssid) {
    b in rec.bssidsA || b in rec.bssidsB
  }

  /** The gathered BSSIDs: distinct, unattested, from the local encounter records; and all of
      those, when fewer than the limit were found. */
  lemma {:induction false} GatherMeans(pending: seq<Bssid>, list: seq<Entry>, files: map<Bytes, Bytes>, own: seq<Bytes>, cache: seq<Bytes>)
    requires Queued(pending, own, cache)
    ensures var all := Gather(pending, list, files, own, cache);
      && Queued(all, own, cache) && (forall b :: b in pending ==> b in all)
      && (forall b :: b in all ==> b in pending || exists i :: 0 <= i < |list| && RecordOf(files, list[i]).Some? && Carries(RecordOf(files, list[i]).value, b))
      && (|all| < BSSID_TOTAL_MAX ==> forall i, b {:trigger list[i], b in all} ::
            0 <= i < |list| && RecordOf(files, list[i]).Some? && Carries(RecordOf(files, list[i]).value, b) && !Attested(own, cache, b) ==> b in all)
    decreases |list|
  {
    hide Attested, RecordOf, Enqueue, Queued;
    QueuedFew(pending, own, cache);
    var all := Gather(pending, list, files, own, cache);
    if list == [] || |pending| >= BSSID_TOTAL_MAX {
    } else {
      var rec := RecordOf(files, list[0]);
      var more := pending;
      if rec.Some? {
        QueuedFew(pending, own, cache);
        EnqueueKeeps(pending, rec.value.bssidsA, own, cache);
        var half := Enqueue(pending, rec.value.bssidsA, own, cache);
        EnqueueKeeps(half, rec.value.bssidsB, own, cache);
        more := Enqueue(half, rec.value.bssidsB, own, cache);
        EnqueueGrows(pending, rec.value.bssidsA, own, cache);
        EnqueueGrows(half, rec.value.bssidsB, own, cache);
      }
      GatherMeans(more, list[1..], files, own, cache);
      GatherGrows(more, list[1..], files, own, cache);
      forall b | b in all && b !in pending
        ensures exists i :: 0 <= i < |list| && RecordOf(files, list[i]).Some? && Carries(RecordOf(files, list[i]).value, b)
      {
        if b in more {
          assert RecordOf(files, list[0]).Some? && Carries(rec.value, b);
        } else {
          var i :| 0 <= i < |list[1..]| && RecordOf(files, list[1..][i]).Some? && Carries(RecordOf(files, list[1..][i]).value, b);
          assert list[i + 1] == list[1..][i];
        }
      }
      if |all| < BSSID_TOTAL_MAX {
        forall i, b {:trigger list[i], b in all} |
          0 <= i < |list| && RecordOf(files, list[i]).Some? && Carries(RecordOf(files, list[i]).value, b) && !Attested(own, cache, b)
          ensures b in all
        {
          if i > 0 { assert list[i] == list[1..][i - 1]; }
        }
      }
    }
  }

  lemma {:induction false} QueuedFew(pending: seq<Bssid>, own: seq<Bytes>, cache: seq<Bytes>)
    requires Queued(pending, own, cache)
    ensures |pending| <= BSSID_TOTAL_MAX
  {
  }

  lemma {:induction false} EnqueueGrows(pending: seq<Bssid>, list: seq<Bssid>, own: seq<Bytes>, cache: seq<Bytes>)
    requires |pending| <= BSSID_TOTAL_MAX
    ensures |pending| <= |Enqueue(pending, list, own, cache)|
    decreases |list|
  {
    hide Attested;
    if list != [] && |pending| < BSSID_TOTAL_MAX {
      if list[0] in pending || Attested(own, cache, list[0]) { EnqueueGrows(pending, list[1..], own, cache); }
      else { EnqueueGrows(pending + [list[0]], list[1..], own, cache); }
    }
  }

  lemma {:induction false} GatherGrows(pending: seq<Bssid>, list: seq<Entry>, files: map<Bytes, Bytes>, own: seq<Bytes>, cache: seq<Bytes>)
    requires |pending| <= BSSID_TOTAL_MAX
    ensures |pending| <= |Gather(pending, list, files, own, cache)|
    decreases |list|
  {
    hide RecordOf, Enqueue;
    if list != [] && |pending| < BSSID_TOTAL_MAX {
      var rec := RecordOf(files, list[0]);
      if rec.None? {
        GatherGrows(pending, list[1..], files, own, cache);
      } else {
        var half := Enqueue(pending, rec.value.bssidsA, own, cache);
        EnqueueGrows(pending, rec.value.bssidsA, own, cache);
        EnqueueGrows(half, rec.value.bssidsB, own, cache);
        GatherGrows(Enqueue(half, rec.value.bssidsB, own, cache), list[1..], files, own, cache);
      }
    }
  }

  /** The counter advances by the number of files pulled. */
  function Pulled(u: Setup, dev: Device, list: seq<Entry>): nat
    decreases |list|
  {
    if list == [] then 0
    else (if PullFile(u, dev, list[0]).store.files == dev.store.files then 0 else 1) + Pulled(u, PullFile(u, dev, list[0]), list[1..])
  }

  lemma {:induction false} CounterAdvances(u: Setup, dev: Device, list: seq<Entry>)
    requires forall i :: 0 <= i < |list| ==> ValidName(list[i].name)
    ensures PullAll(u, dev, list).counter == (dev.counter + Pulled(u, dev, list)) % 0x100
    decreases |list|
  {
    hide PullFile;
    if list != [] {
      var d := PullFile(u, dev, list[0]);
      PullFileCounter(u, dev, list[0]);
      CounterAdvances(u, d, list[1..]);
      CountedOn(dev.counter, if d.store.files == dev.store.files then 0 else 1, Pulled(u, d, list[1..]));
    }
  }

  lemma {:induction false} CountedOn(c: nat, k: nat, n: nat)
    ensures ((c + k) % 0x100 + n) % 0x100 == (c + (k + n)) % 0x100
  {
  }

  lemma {:induction false} PullFileCounter(u: Setup, dev: Device, e: Entry)
    requires ValidName(e.name)
    ensures PullFile(u, dev, e).counter
      == if PullFile(u, dev, e).store.files == dev.store.files then dev.counter else (dev.counter + 1) % 0x100
  {
    hide HashExists, MetaAnswer;
    var d := PullFile(u, dev, e);
    if e.name !in dev.store.files { assert e.name in d.store.files ==> d.store.files != dev.store.files; }
  }

  /** A listed local file is an encounter record that has the BSSID, on either side: its name
      starts with `enc_`, it is small enough, and it decodes. */
  predicate LocalBssid(files: map<Bytes, Bytes>, e: Entry, b: Bssid) {
    && 4 <= |e.name| < 32 && e.name[..4] == [0x65, 0x6e, 0x63, 0x5f] && 0x2f !in e.name
    && 1 <= e.size <= 512 && e.name in files && files[e.name] != []
    && var r := Decode(files[e.name][..if |files[e.name]| < 512 then |files[e.name]| else 512]);
      r.Some? && (b in r.value.bssidsA || b in r.value.bssidsB)
  }

  lemma {:induction false} LocalBssidIs(files: map<Bytes, Bytes>, e: Entry, b: Bssid)
    ensures LocalBssid(files, e, b) <==> RecordOf(files, e).Some? && Carries(RecordOf(files, e).value, b)
  {
    hide Decode;
    assert |e.name| >= 4 ==> (e.name[..4] == ENC_PREFIX <==> e.name[..4] == [0x65, 0x6e, 0x63, 0x5f]);
  }

  /** Some attestation, own or cached, claims the BSSID. */
  predicate Attests(blobs: seq<Bytes>, b: Bssid) {
    exists k :: 0 <= k < |blobs| && var list := Extract(blobs[k], 8); list.Some? && b in list.value
  }

  lemma {:induction false} AttestsIs(blobs: seq<Bytes>, b: Bssid)
    ensures Attests(blobs, b) <==> Matching(blobs, [b]) != []
    decreases |blobs|
  {
    hide Extract;
    if blobs != [] {
      AttestsIs(blobs[1..], b);
      var list := Extract(blobs[0], 8);
      assert Matches(blobs[0], [b]) <==> list.Some? && b in list.value;
      if Attests(blobs[1..], b) {
        var k :| 0 <= k < |blobs[1..]| && var l := Extract(blobs[1..][k], 8); l.Some? && b in l.value;
        assert blobs[k + 1] == blobs[1..][k];
      }
      if Attests(blobs, b) {
        var k :| 0 <= k < |blobs| && var l := Extract(blobs[k], 8); l.Some? && b in l.value;
        if k > 0 { assert blobs[1..][k - 1] == blobs[k]; }
      }
    }
  }

  /** The BSSIDs of local encounter records that have no attestation yet: each asked for once, and
      all of them unless the session's limit is reached. */
  ghost predicate AskedRight(u: Setup, dev: Device, files: map<Bytes, Bytes>, asked: seq<Bssid>) {
    var (list, blobs) := (u.pl.list(files), u.pl.own + dev.cache);
    && |asked| <= 64 && (forall i, j :: 0 <= i < j < |asked| ==> asked[i] != asked[j])
    && (forall b :: b in asked ==> !Attests(blobs, b) && exists i :: 0 <= i < |list| && LocalBssid(files, list[i], b))
    && (|asked| < 64 ==> forall i, b {:trigger list[i], b in asked} ::
          0 <= i < |list| && LocalBssid(files, list[i], b) && !Attests(blobs, b) ==> b in asked)
  }

  /** The peer lists a file of this name, with these bytes. */
  ghost predicate FromPeer(lib: Library, name: Bytes, bytes: Bytes) {
    name in lib.files && lib.files[name] == bytes && exists i :: 0 <= i < |lib.listing| && lib.listing[i].name == name
  }

  /** The end of every session against a fixed library on a healthy link, in terms of the listing:
      each listed file and its sidecar are as they should be, all others are untouched, the counter
      has advanced by the files stored, and the right BSSIDs have been asked for. */
  lemma {:induction false} FinalDevice(u: Setup, dev: Device) returns (n: nat)
    requires Healthy(u) && Roomy(u, dev) && dev.store.chunk.None?
    ensures var end := Steps(u, n, Started(dev));
      var files := end.dev.store.files;
      && end.s.phase == PhDone && end.request.None? && end.dev.store.chunk.None?
      && (forall i :: 0 <= i < |u.lib.listing| ==> AsListed(u, dev, i, files))
      && (forall i :: 0 <= i < |u.lib.listing| ==> SidecarAsListed(u, dev, i, end.dev.store.meta))
      && UnlistedSidecars(u.lib, dev.store.meta, end.dev.store.meta)
      && (forall name :: ValidName(name) && name in dev.store.files ==> name in files && files[name] == dev.store.files[name])
      && (forall name :: ValidName(name) && name in files && name !in dev.store.files ==> FromPeer(u.lib, name, files[name]))
      && end.dev.counter == (dev.counter + Pulled(u, dev, u.lib.listing)) % 0x100
      && AskedRight(u, dev, files, Asked(end.log))
  {
    hide Steps, Asked, PullAll, AskFull, Roomy, Good, Gather, AsListed, SidecarAsListed, UnlistedSidecars, Pulled, AskedRight, PendingAfter;
    n := EndToEnd(u, dev);
    var pulled := PullAll(u, dev, u.lib.listing);
    PullAllKeeps(u, dev, u.lib.listing);
    forall i | 0 <= i < |u.lib.listing| ensures AsListed(u, dev, i, pulled.store.files) {
      FileOutcome(u, dev, i);
    }
    forall i | 0 <= i < |u.lib.listing| ensures SidecarAsListed(u, dev, i, pulled.store.meta) {
      SidecarOutcome(u, dev, i);
    }
    OtherSidecars(u, dev);
    forall name | ValidName(name) && name in dev.store.files
      ensures name in pulled.store.files && pulled.store.files[name] == dev.store.files[name]
    {
      OtherFiles(u, dev, name);
    }
    forall name | ValidName(name) && name in pulled.store.files && name !in dev.store.files
      ensures FromPeer(u.lib, name, pulled.store.files[name])
    {
      NewIsListed(u, dev, name);
    }
    GoodNames(u);
    CounterAdvances(u, dev, u.lib.listing);
    PendingRight(u, dev, pulled);
  }

  ghost predicate UnlistedSidecars(lib: Library, was: map<Bytes, Bytes>, meta: map<Bytes, Bytes>) {
    forall name :: (forall i :: 0 <= i < |lib.listing| ==> lib.listing[i].name != name) ==>
      (name in meta <==> name in was) && (name in was ==> meta[name] == was[name])
  }

  lemma {:induction false} OtherSidecars(u: Setup, dev: Device)
    ensures UnlistedSidecars(u.lib, dev.store.meta, PullAll(u, dev, u.lib.listing).store.meta)
  {
    hide PullAll;
    var (was, meta) := (dev.store.meta, PullAll(u, dev, u.lib.listing).store.meta);
    forall name | forall i :: 0 <= i < |u.lib.listing| ==> u.lib.listing[i].name != name
      ensures (name in meta <==> name in was) && (name in was ==> meta[name] == was[name])
    {
      PullAllMeta(u, dev, u.lib.listing, name);
    }
  }

  lemma {:induction false} PendingRight(u: Setup, dev: Device, pulled: Device)
    requires pulled.cache == dev.cache
    ensures AskedRight(u, dev, pulled.store.files, PendingAfter(u, pulled))
  {
    hide Gather, RecordOf, Attests, Matching, Carries, LocalBssid;
    NothingQueued(u.pl.own, dev.cache);
    var files := pulled.store.files;
    var list := u.pl.list(files);
    GatherMeans([], list, files, u.pl.own, dev.cache);
    forall i, b | 0 <= i < |list|
      ensures LocalBssid(files, list[i], b) <==> RecordOf(files, list[i]).Some? && Carries(RecordOf(files, list[i]).value, b)
    {
      LocalBssidIs(files, list[i], b);
    }
    forall b ensures Attests(u.pl.own + dev.cache, b) <==> Attested(u.pl.own, dev.cache, b) {
      AttestsIs(u.pl.own + dev.cache, b);
    }
    var asked := PendingAfter(u, pulled);
    forall b | b in asked ensures !Attests(u.pl.own + dev.cache, b) {
      var i :| 0 <= i < |asked| && asked[i] == b;
    }
  }

  /** A file that was not there before is a listed one, with the peer's bytes. */
  lemma {:induction false} NewIsListed(u: Setup, dev: Device, name: Bytes)
    requires Good(u.lib) && ValidName(name) && name !in dev.store.files
    requires name in PullAll(u, dev, u.lib.listing).store.files
    ensures FromPeer(u.lib, name, PullAll(u, dev, u.lib.listing).store.files[name])
  {
    hide PullAll, Wanted, Listable, ValidName;
    OtherFiles(u, dev, name);
    var i :| 0 <= i < |u.lib.listing| && u.lib.listing[i].name == name;
    FileOutcome(u, dev, i);
  }

  lemma {:induction false} GoodNames(u: Setup)
    requires Good(u.lib)
    ensures forall i :: 0 <= i < |u.lib.listing| ==> ValidName(u.lib.listing[i].name)
  {
  }

  lemma {:induction false} NothingQueued(own: seq<Bytes>, cache: seq<Bytes>)
    ensures Queued([], own, cache)
  {
  }

  // ---- the cache ----

  /** The session's view of the cache is the ring with deduplication. */
  lemma {:induction false} CacheIsRing(cache: seq<Bytes>, blob: Bytes)
    ensures CacheWrite(cache, blob) ==
      if blob == [] || |blob| > Rings.ATTEST_CACHE.slotBytes - 2 || blob in cache then cache
      else Rings.Push(cache, blob, Rings.ATTEST_CACHE.cap)
  {
  }

  ghost predicate NoRepeats(cache: seq<Bytes>) {
    forall i, j :: 0 <= i < j < |cache| ==> cache[i] != cache[j]
  }

  /** Whatever a peer sends, the cache never holds two equal blobs and never outgrows the ring. */
  lemma {:induction false} CacheNeverRepeats(cache: seq<Bytes>, blobs: seq<Bytes>)
    requires NoRepeats(cache) && |cache| <= CACHE_CAP
    ensures NoRepeats(CacheWriteAll(cache, blobs)) && |CacheWriteAll(cache, blobs)| <= CACHE_CAP
    decreases |blobs|
  {
    if blobs != [] {
      CacheIsRing(cache, blobs[0]);
      if CacheWrite(cache, blobs[0]) != cache { Rings.CacheDistinct(cache, blobs[0], CACHE_CAP); }
      CacheNeverRepeats(CacheWrite(cache, blobs[0]), blobs[1..]);
    }
  }
}
