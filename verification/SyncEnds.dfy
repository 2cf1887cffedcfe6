/** When a session ends: the whole outcome on a link that holds every element, the exact condition
    for reaching DONE on any link, and the states in which a session asks the same forever. */
module SyncEnds {
  import opened AttestQuery
  import opened Bits
  import opened Cbor
  import opened Commands
  import opened EncounterRecord
  import opened Pagination
  import opened PeerSync
  import opened SyncAnswers
  import opened SyncRun
  import opened SyncWire
  import opened Wrappers

  // ---- links that hold everything ----

  /** Every listed line, and every blob that the session asks for, fits a page of the link. */
  ghost predicate Roomy(u: Setup, dev: Device) {
    && LinesFit(u.lib.listing, LsBudget(u))
    && AllShort(BlobsFor(u, PendingAfter(u, PullAll(u, dev, u.lib.listing))), PageRoom(u))
  }

  /** Any link of mtu 235 or more is such a link. */
  lemma {:induction false} WideLink(u: Setup, dev: Device)
    requires Good(u.lib) && u.mtu >= 235
    ensures Healthy(u) && Roomy(u, dev)
  {
    hide Good, PullAll, Gather, LinesFit, Storable;
    GoodListable(u.lib);
    LinesFitWideLink(u.lib.listing, LsBudget(u));
    var pending := PendingAfter(u, PullAll(u, dev, u.lib.listing));
    MatchingGood(u.lib, pending);
    StorableShort(BlobsFor(u, pending), Budget(u.mtu, REPLY_BUFFER));
  }

  /** The cache after asking for everything that is pending, a batch at a time. */
  function AskFull(u: Setup, cache: seq<Bytes>, pending: seq<Bssid>): seq<Bytes>
    decreases |pending|
  {
    if pending == [] then cache
    else
      var b := if |pending| > 12 then 12 else |pending|;
      AskFull(u, CacheWriteAll(cache, BlobsFor(u, pending[..b])), pending[b..])
  }

  /** Blobs that match some of the BSSIDs match all of them together. */
  lemma {:induction false} ShortPart(blobs: seq<Bytes>, part: seq<Bssid>, whole: seq<Bssid>, room: nat)
    requires (forall b :: b in part ==> b in whole) && AllShort(Matching(blobs, whole), room)
    ensures AllShort(Matching(blobs, part), room)
    decreases |blobs|
  {
    hide BlobSize, AttestQuery.Extract;
    if blobs != [] {
      var rest := Matching(blobs[1..], whole);
      var all := Matching(blobs, whole);
      assert all == rest || all == [blobs[0]] + rest;
      forall i | 0 <= i < |rest| ensures BlobSize(rest[i]) <= room {
        if all != rest { assert all[i + 1] == rest[i]; }
      }
      ShortPart(blobs[1..], part, whole, room);
      if Matches(blobs[0], part) { assert all[0] == blobs[0]; }
    }
  }

  lemma {:induction false} AskedInFull(u: Setup, cache: seq<Bytes>, pending: seq<Bssid>)
    requires AllShort(BlobsFor(u, pending), PageRoom(u))
    ensures BatchesEnd(u, pending) && AskAll(u, cache, pending) == AskFull(u, cache, pending)
    decreases |pending|
  {
    hide Matching, CacheWriteAll, BlobSize, PageRoom;
    if pending != [] {
      var b := if |pending| > BSSID_BATCH_MAX then BSSID_BATCH_MAX else |pending|;
      ShortPart(u.lib.own + u.lib.cache, pending[..b], pending, PageRoom(u));
      ShortPart(u.lib.own + u.lib.cache, pending[b..], pending, PageRoom(u));
      AskedInFull(u, CacheWriteAll(cache, BlobsFor(u, pending[..b])), pending[b..]);
    }
  }

  lemma {:induction false} OfferedAll(u: Setup)
    requires LinesFit(u.lib.listing, LsBudget(u))
    ensures Offered(u) == u.lib.listing
  {
    hide LsEntrySize, LsRoom, LsBudget;
  }

  /** End to end: against a fixed library, on a link that holds every element, every session
      reaches DONE in finitely many exchanges, and then the device is exactly what pulling the
      listed files one by one and asking for every pending BSSID once makes of it. */
  lemma {:induction false} EndToEnd(u: Setup, dev: Device) returns (n: nat)
    requires Healthy(u) && Roomy(u, dev) && dev.store.chunk.None?
    ensures var end := Steps(u, n, Started(dev));
      var pulled := PullAll(u, dev, u.lib.listing);
      && end.s.phase == PhDone && end.request.None?
      && end.dev == pulled.(cache := AskFull(u, dev.cache, PendingAfter(u, pulled)))
      && Asked(end.log) == PendingAfter(u, pulled)
  {
    hide Steps, Asked, PullAll, Good, LinesFit, PendingAfter, BlobsFor, PageRoom, AllShort, Offered, AskAll, AskFull, BatchesEnd;
    OfferedAll(u);
    AskedInFull(u, dev.cache, PendingAfter(u, PullAll(u, dev, u.lib.listing)));
    n := Ends(u, dev);
  }

  // ---- a line that does not fit ----

  /** The session waits for the page that starts with a line that does not fit. */
  ghost predicate LineStuck(u: Setup, n: Net, k: U32) {
    && n.request == Some(Ls(k)) && Idle(n.dev, n.s) && n.s.phase == PhLs && n.s.page == [] && n.s.pageIdx == 0 && n.s.lsNext == k
    && 0 < k < |u.lib.listing| && LsRoom(LsBudget(u)) < LsEntrySize(u.lib.listing[k])
  }

  /** Its reply leaves the device and the session as they are, and the same is asked again. */
  lemma {:induction false} StuckListing(u: Setup, n: Net, k: U32, steps: nat)
    requires Healthy(u) && LineStuck(u, n, k)
    ensures var end := Steps(u, steps, n);
      LineStuck(u, end, k) && end.dev == n.dev && end.s == n.s && |end.log| == |n.log| + steps
    decreases steps
  {
    hide Steps, Good, Deliver, LsPage, LsEntrySize, LsBudget, LsRoom, Interpret, Respond, Advance;
    if steps == 0 {
      StepsNone(u, n);
    } else {
      LsStuck(u.lib.listing, k, LsBudget(u));
      LsStep(u, n.dev, n.s, k);
      DeliverIs(u, n, Ls(k));
      OneStep(u, n);
      var log := n.log + [Ls(k)];
      PageEnd(u.pl, n.dev, n.s, log);
      var next := n.(log := log);
      assert Deliver(u, n) == next;
      StuckListing(u, next, k, steps - 1);
      StepsAdd(u, 1, steps - 1, n);
    }
  }

  /** A listing session whose lines fit up to line k comes to ask for line k. */
  lemma {:induction false} ReachLine(u: Setup, dev: Device, s: Sync, offset: U32, k: U32, log: seq<Request>) returns (n: nat)
    requires Healthy(u) && Idle(dev, s) && s.phase == PhLs && offset <= k < |u.lib.listing| && 0 < k
    requires forall i :: offset <= i < k ==> LsEntrySize(u.lib.listing[i]) <= LsRoom(LsBudget(u))
    requires LsRoom(LsBudget(u)) < LsEntrySize(u.lib.listing[k])
    requires offset == k ==> s.page == [] && s.pageIdx == 0 && s.lsNext == k
    ensures LineStuck(u, Steps(u, n, Net(dev, s, Some(Ls(offset)), log)), k)
    decreases k - offset
  {
    hide Steps, Good, PullAll, LsPage, LsEntrySize, LsBudget, LsRoom, Asked;
    var net := Net(dev, s, Some(Ls(offset)), log);
    if offset == k {
      StepsNone(u, net);
      n := 0;
    } else {
      var (page, next) := LsPage(u.lib.listing, offset, LsBudget(u));
      LsPageMeans(u.lib.listing, offset, LsBudget(u));
      PageStopsBefore(u.lib.listing, offset, LsBudget(u), k);
      PullAllKeeps(u, dev, page);
      var m, t, log1 := PageExchange(u, dev, s, offset, log);
      var j := ReachLine(u, PullAll(u, dev, page), PageLeft(t), next, k, log1);
      StepsAdd(u, m, j, net);
      n := m + j;
    }
  }

  lemma {:induction false} FirstLong(sizes: seq<nat>, room: nat, i: nat) returns (k: nat)
    requires i < |sizes| && exists j :: i <= j < |sizes| && room < sizes[j]
    ensures i <= k < |sizes| && room < sizes[k] && forall j :: i <= j < k ==> sizes[j] <= room
    decreases |sizes| - i
  {
    if room < sizes[i] { k := i; } else { k := FirstLong(sizes, room, i + 1); }
  }

  // ---- a blob that does not fit ----

  /** The session waits for the page that starts with a blob that does not fit. */
  predicate BlobStuck(u: Setup, n: Net, k: U32) {
    && n.dev.store.chunk.None? && Asking(n.s, k) && n.request == Some(AttestQuery(Batch(n.s), k))
    && var blobs := BlobsFor(u, Batch(n.s));
      0 < k < |blobs| && PageRoom(u) < BlobSize(blobs[k])
  }

  lemma {:induction false} EmptyBlobPage(u: Setup, n: Net, k: U32)
    requires Good(u.lib) && BlobStuck(u, n, k)
    ensures k < 0x100 && BlobPage(BlobsFor(u, Batch(n.s)), k, PageRoom(u)) == ([], true)
  {
    hide Good, BlobsFor, BlobPage, BlobSize, PageRoom, Batch;
    BlobsGood(u, Batch(n.s));
    BlobsStuck(BlobsFor(u, Batch(n.s)), k, PageRoom(u), 0);
  }

  /** Nothing is written to the cache, and the same is asked again. */
  lemma {:induction false} StuckExchange(u: Setup, n: Net, k: U32)
    requires Healthy(u) && BlobStuck(u, n, k)
    ensures Deliver(u, n) == n.(log := n.log + [n.request.value])
  {
    hide Good, Deliver, EnterAttest, BlobsFor, BlobPage, PageRoom, BlobSize, Interpret, Respond, Batch, Advance, AnswerTo;
    EmptyBlobPage(u, n, k);
    BatchSmall(n.s, k);
    BlobsStep(u, n.dev, n.s, k, [], true);
    DeliverIs(u, n, n.request.value);
    PagedFacts(n.dev, n.s, k, k, n.log + [n.request.value]);
    NothingCached(n.dev);
  }

  lemma {:induction false} NothingCached(dev: Device)
    ensures WithCache(dev, CacheWriteAll(dev.cache, [])) == dev
  {
  }

  lemma {:induction false} StuckBatch(u: Setup, n: Net, k: U32, steps: nat)
    requires Healthy(u) && BlobStuck(u, n, k)
    ensures var end := Steps(u, steps, n);
      BlobStuck(u, end, k) && end.dev == n.dev && end.s == n.s && |end.log| == |n.log| + steps
    decreases steps
  {
    hide Good, Steps, Deliver, BlobSize, BlobsFor, PageRoom, Batch;
    if steps == 0 {
      StepsNone(u, n);
    } else {
      StuckExchange(u, n, k);
      OneStep(u, n);
      StuckBatch(u, n.(log := n.log + [n.request.value]), k, steps - 1);
      StepsAdd(u, 1, steps - 1, n);
    }
  }

  /** A batch whose blobs fit up to blob k comes to ask for blob k. */
  lemma {:induction false} ReachBlob(u: Setup, dev: Device, s: Sync, offset: U32, k: U32, log: seq<Request>) returns (n: nat)
    requires Healthy(u) && dev.store.chunk.None? && Asking(s, offset) && offset <= k < |BlobsFor(u, Batch(s))| && 0 < k
    requires forall i :: offset <= i < k ==> BlobSize(BlobsFor(u, Batch(s))[i]) <= PageRoom(u)
    requires PageRoom(u) < BlobSize(BlobsFor(u, Batch(s))[k])
    ensures BlobStuck(u, Steps(u, n, Net(dev, s, Some(AttestQuery(Batch(s), offset)), log)), k)
    decreases k - offset
  {
    hide Steps, Good, Deliver, EnterAttest, BlobsFor, BlobPage, BlobSize, CacheWriteAll, PageRoom, Interpret, Respond, Batch, PagedOn, WithCache, Advance, AnswerTo;
    var blobs, r := BlobsFor(u, Batch(s)), AttestQuery(Batch(s), offset);
    var net := Net(dev, s, Some(r), log);
    if offset == k {
      StepsNone(u, net);
      n := 0;
    } else {
      var (page, more) := BlobPage(blobs, offset, PageRoom(u));
      BlobsGood(u, Batch(s));
      BlobPageMeans(blobs, offset, PageRoom(u));
      BlobPageStopsBefore(blobs, offset, PageRoom(u), k);
      BatchSmall(s, offset);
      BlobsStep(u, dev, s, offset, page, more);
      DeliverIs(u, net, r);
      OneStep(u, net);
      var d, next := WithCache(dev, CacheWriteAll(dev.cache, page)), offset + |page|;
      PagedFacts(d, s, offset, next, log + [r]);
      CacheFacts(dev, CacheWriteAll(dev.cache, page), []);
      var m := ReachBlob(u, d, PagedOn(s, next), next, k, log + [r]);
      StepsAdd(u, 1, m, net);
      n := 1 + m;
    }
  }

  /** When a batch does not end, the session gets stuck in the first such batch. */
  lemma {:induction false} ReachBatch(u: Setup, dev: Device, s: Sync, log: seq<Request>) returns (n: nat, k: U32)
    requires Healthy(u) && dev.store.chunk.None? && s.inUse && s.attestOffset == 0 && s.pendingNext <= |s.pending|
    requires !BatchesEnd(u, s.pending[s.pendingNext..])
    ensures BlobStuck(u, Steps(u, n, After(EnterAttest(dev, s, SESSION_BUFFER), log)), k)
    decreases |s.pending| - s.pendingNext
  {
    hide Steps, Good, Asked, EnterAttest, BlobsFor, CacheWriteAll, Batch, BatchesEnd, BlobSize, PageRoom, BlobStuck;
    NothingEnds(u, s.pending[s.pendingNext..]);
    var s1 := BatchOf(s);
    EnterBatch(dev, s, log);
    FirstBatchEnds(u, s);
    var blobs := BlobsFor(u, Batch(s1));
    if AllShort(Shown(blobs, PageRoom(u)), PageRoom(u)) {
      var m, log1 := WholeBatch(u, dev, s1, log);
      var d := WithCache(dev, CacheWriteAll(dev.cache, Shown(blobs, PageRoom(u))));
      var j: nat;
      j, k := ReachBatch(u, d, BatchedOn(s1), log1);
      StepsAdd(u, m, j, After(EnterAttest(dev, s, SESSION_BUFFER), log));
      n := m + j;
    } else {
      BlobsGood(u, Batch(s1));
      assert exists j :: 0 <= j < |blobs| && PageRoom(u) < BlobSizes(blobs)[j];
      var first := FirstLong(BlobSizes(blobs), PageRoom(u), 0);
      k := first;
      n := ReachBlob(u, dev, s1, 0, k, log);
    }
  }

  lemma {:induction false} NothingEnds(u: Setup, pending: seq<Bssid>)
    requires !BatchesEnd(u, pending)
    ensures pending != []
  {
    hide BlobsFor;
  }

  // ---- exactly when a session ends ----

  lemma {:induction false} DoneStays(u: Setup, n: Net, k: nat)
    requires n.s.phase == PhDone
    ensures Steps(u, k, n).s.phase == PhDone
    decreases k
  {
    hide Respond, Carried, Interpret, Message;
    if k > 0 { DoneStays(u, Deliver(u, n), k - 1); }
  }

  /** The session is stuck, on a line or on a blob. */
  ghost predicate Stuck(u: Setup, n: Net, k: U32) {
    LineStuck(u, n, k) || BlobStuck(u, n, k)
  }

  /** A session that does not end gets stuck. */
  lemma {:induction false} GetsStuck(u: Setup, dev: Device) returns (n: nat, k: U32)
    requires Healthy(u) && dev.store.chunk.None? && !Finite(u, dev)
    ensures Stuck(u, Steps(u, n, Started(dev)), k)
  {
    hide Steps, Asked, EnterAttest, PullAll, Gather, Good, BatchesEnd, LsEntrySize, LsRoom, LsBudget, LineStuck, BlobStuck;
    if LinesFit(Offered(u), LsBudget(u)) {
      var m, t, log := OfferedRun(u, dev);
      var pulled := PullAll(u, dev, Offered(u));
      var s1 := BeginAttest(u.pl, pulled, t);
      assert s1.pending == PendingAfter(u, pulled) && s1.pendingNext == 0;
      assert s1.pending[0..] == s1.pending;
      var j: nat;
      j, k := ReachBatch(u, pulled, s1, log);
      StepsAdd(u, m, j, Started(dev));
      n := m + j;
    } else {
      var listing := u.lib.listing;
      GoodListable(u.lib);
      var long :| 0 <= long < |listing| && LsRoom(LsBudget(u)) < LsEntrySize(listing[long]);
      assert LsRoom(LsBudget(u)) < LineSizes(listing)[long];
      var first := FirstLong(LineSizes(listing), LsRoom(LsBudget(u)), 0);
      k := first;
      var s := IdleSync().(inUse := true);
      assert Started(dev) == Net(dev, s, Some(Ls(0)), []);
      n := ReachLine(u, dev, s, 0, k, []);
    }
  }

  /** A session that is stuck stays so. */
  lemma {:induction false} StaysStuck(u: Setup, n: Net, k: U32, steps: nat)
    requires Healthy(u) && Stuck(u, n, k)
    ensures Stuck(u, Steps(u, steps, n), k) && Steps(u, steps, n).s.phase != PhDone
    ensures Steps(u, steps, n).dev == n.dev && Steps(u, steps, n).s == n.s
  {
    hide Steps, Good, LsEntrySize, LsRoom, LsBudget, BlobSize, BlobsFor, PageRoom, Batch;
    if LineStuck(u, n, k) { StuckListing(u, n, k, steps); } else { StuckBatch(u, n, k, steps); }
  }

  /** A session reaches DONE exactly when the listing and all batches end on its link: in each,
      the first element does not fit (and reads as the end), or all of them do. */
  lemma {:induction false} EndsExactly(u: Setup, dev: Device)
    requires Healthy(u) && dev.store.chunk.None?
    ensures (exists n: nat :: Steps(u, n, Started(dev)).s.phase == PhDone) <==> Finite(u, dev)
  {
    hide Steps, Finite, Good, Stuck, Finished;
    if Finite(u, dev) {
      var n := Ends(u, dev);
      FinishedDone(u, dev, Steps(u, n, Started(dev)));
      assert Steps(u, n, Started(dev)).s.phase == PhDone;
    } else {
      var m, k := GetsStuck(u, dev);
      StaysStuck(u, Steps(u, m, Started(dev)), k, 0);
      StepsNone(u, Steps(u, m, Started(dev)));
      forall n: nat ensures Steps(u, n, Started(dev)).s.phase != PhDone {
        if n <= m {
          StepsAdd(u, n, m - n, Started(dev));
          if Steps(u, n, Started(dev)).s.phase == PhDone { DoneStays(u, Steps(u, n, Started(dev)), m - n); }
        } else {
          StepsAdd(u, m, n - m, Started(dev));
          StaysStuck(u, Steps(u, m, Started(dev)), k, n - m);
        }
      }
    }
  }

  lemma {:induction false} FinishedDone(u: Setup, dev: Device, end: Net)
    requires Finished(u, dev, end)
    ensures end.s.phase == PhDone
  {
    hide PullAll, AskAll, Asked, PendingAfter, Offered;
  }
}
