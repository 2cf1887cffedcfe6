/** Pages: every reply fits its budget, and following next_offset from 0 yields the full listing,
    each element once and in order. */
module Pagination {
  import opened Bits
  import opened Cbor
  import opened CborTree
  import opened Commands
  import opened PeerSync
  import opened SyncWire

  // ---- lengths ----

  lemma {:induction false} NextLength(next: nat)
    requires next < 0x1_0000_0000
    ensures AllFit([Text(K_NEXT), UInt(next)]) && 13 <= |EncodeAll([Text(K_NEXT), UInt(next)])| <= 17
  {
    hide Header;
    var kids := [Text(K_NEXT), UInt(next)];
    assert kids[1..] == [UInt(next)] && kids[1..][1..] == [];
    assert EncodeAll(kids[1..]) == Encode(UInt(next)) + EncodeAll([]);
    assert |Header(3, 11)| == 1 && |Header(0, next)| <= 5;
  }

  lemma {:induction false} FilesLength(page: seq<Entry>)
    requires (forall i :: 0 <= i < |page| ==> Listable(page[i])) && |page| <= LS_PAGE
    ensures AllFit([Text(K_FILES), Array(EntryValues(page))])
    ensures |EncodeAll([Text(K_FILES), Array(EntryValues(page))])| == 7 + Sum(LineSizes(page))
  {
    hide Header, EntryValues, LineSizes, Listable;
    LinesLength(page);
    var kids := [Text(K_FILES), Array(EntryValues(page))];
    assert kids[1..] == [Array(EntryValues(page))] && kids[1..][1..] == [];
    assert EncodeAll(kids[1..]) == Encode(Array(EntryValues(page))) + EncodeAll([]);
    assert |Header(3, 5)| == 1 && |Header(4, |page|)| == 1;
  }

  lemma {:induction false} LsPageMeans(listing: seq<Entry>, offset: nat, budget: nat)
    ensures var (page, next) := LsPage(listing, offset, budget);
      && Sum(LineSizes(page)) <= LsRoom(budget)
      && (offset <= |listing| ==> offset + |page| <= |listing| && page == listing[offset..offset + |page|])
      && (offset > |listing| ==> page == [])
      && (next != 0 ==> next == offset + |page| < |listing|)
      && (next == 0 ==> offset + |page| >= |listing| || (offset == 0 && page == []))
      && (offset < |listing| && LsEntrySize(listing[offset]) <= LsRoom(budget) ==> page != [])
  {
    hide LsEntrySize;
    var (avail, fsNext) := FsPage(listing, offset, LS_PAGE);
    FittingExact(LineSizes(avail), 0, LsRoom(budget));
    var (page, next) := LsPage(listing, offset, budget);
    assert LineSizes(page) == LineSizes(avail)[..|page|];
  }

  /** A page is as long as it can be: it ends with the listing, at 16 lines, or where the next line
      would not leave 27 bytes of the budget for the rest of the reply. */
  lemma {:induction false} LsPageMaximal(listing: seq<Entry>, offset: nat, budget: nat)
    requires offset <= |listing|
    ensures var n := |LsPage(listing, offset, budget).0|;
      && n <= 16 && offset + n <= |listing| && LsPage(listing, offset, budget).0 == listing[offset..offset + n]
      && (n > 0 ==> Sum(LineSizes(listing[offset..offset + n])) + 27 <= budget)
      && (n < 16 && offset + n < |listing| ==> Sum(LineSizes(listing[offset..offset + n])) + LsEntrySize(listing[offset + n]) + 27 > budget)
  {
    hide LsEntrySize, Fitting, Sum;
    LsPageMeans(listing, offset, budget);
    var (avail, fsNext) := FsPage(listing, offset, LS_PAGE);
    FittingExact(LineSizes(avail), 0, LsRoom(budget));
    var n := |LsPage(listing, offset, budget).0|;
    assert avail == listing[offset..offset + |avail|] && n == Fitting(LineSizes(avail), 0, LsRoom(budget));
    assert LineSizes(avail)[..n] == LineSizes(listing[offset..offset + n]);
    if n < |avail| { assert LineSizes(avail)[n] == LsEntrySize(listing[offset + n]); }
    if n > 0 {
      SumMember(LineSizes(listing[offset..offset + n]), 0);
      LineTakesRoom(listing[offset]);
    }
  }

  lemma {:induction false} LineTakesRoom(e: Entry)
    ensures LsEntrySize(e) > 0
  {
  }

  /** ... and so is a page of blobs or records, with 32 bytes for the rest. */
  lemma {:induction false} BlobPageMaximal(blobs: seq<Bytes>, skip: nat, budget: nat)
    requires skip <= |blobs|
    ensures var n := |BlobPage(blobs, skip, BlobRoom(budget)).0|;
      && skip + n <= |blobs| && BlobPage(blobs, skip, BlobRoom(budget)).0 == blobs[skip..skip + n]
      && (n > 0 ==> Sum(BlobSizes(blobs[skip..skip + n])) + 32 <= budget)
      && (skip + n < |blobs| ==> Sum(BlobSizes(blobs[skip..skip + n])) + BlobSize(blobs[skip + n]) + 32 > budget)
  {
    hide BlobSize, Fitting, Sum;
    BlobPageMeans(blobs, skip, BlobRoom(budget));
    var rest := blobs[skip..];
    FittingExact(BlobSizes(rest), 0, BlobRoom(budget));
    var n := |BlobPage(blobs, skip, BlobRoom(budget)).0|;
    assert skip == |blobs| ==> rest == [];
    assert n == Fitting(BlobSizes(rest), 0, BlobRoom(budget));
    assert BlobSizes(rest)[..n] == BlobSizes(blobs[skip..skip + n]);
    if n < |rest| { assert BlobSizes(rest)[n] == BlobSize(blobs[skip + n]); }
    if n > 0 {
      SumMember(BlobSizes(blobs[skip..skip + n]), 0);
      BlobTakesRoom(blobs[skip]);
    }
  }

  lemma {:induction false} BlobTakesRoom(blob: Bytes)
    ensures BlobSize(blob) > 0
  {
  }

  /** An `ls` reply fits its budget, as soon as that holds an empty page. */
  lemma {:induction false} LsReplyLength(listing: seq<Entry>, offset: nat, budget: nat)
    requires (forall i :: 0 <= i < |listing| ==> Listable(listing[i])) && |listing| < 0x1_0000_0000
    ensures var (page, next) := LsPage(listing, offset, budget);
      |Reply(LsKids(page, next))| <= (if budget >= 25 then budget else 25)
  {
    hide Encode, EncodeAll, Listable, LineSizes, LsPage, Fits;
    var (page, next) := LsPage(listing, offset, budget);
    LsPageMeans(listing, offset, budget);
    FilesLength(page);
    NextLength(next);
    var files, more := [Text(K_FILES), Array(EntryValues(page))], [Text(K_NEXT), UInt(next)];
    EncodeAllConcat(files, more);
    if next == 0 { assert LsKids(page, next) == files; }
    MapLength(LsKids(page, next));
  }

  lemma {:induction false} MapLength(kids: seq<Value>)
    requires AllFit(kids) && |kids| < 48 && |kids| % 2 == 0
    ensures Fits(Map(kids)) && Reply(kids) == Encode(Map(kids)) && |Encode(Map(kids))| == 1 + |EncodeAll(kids)|
  {
    hide Header, EncodeAll;
    assert |Header(5, |kids| / 2)| == 1;
  }

  lemma {:induction false} BlobsHeadLength(key: Bytes, page: seq<Bytes>)
    requires (forall i :: 0 <= i < |page| ==> |page[i]| < 0x1_0000) && |page| < 0x100 && |key| < 24
    ensures AllFit([Text(K_OK), Bool(true), Text(key), Array(Strings(page))])
    ensures |EncodeAll([Text(K_OK), Bool(true), Text(key), Array(Strings(page))])| == 5 + |key| + ArgSize(|page|) + Sum(BlobSizes(page))
  {
    hide Header, Strings, BlobSizes;
    BlobsLength(page);
    var kids := [Text(K_OK), Bool(true), Text(key), Array(Strings(page))];
    assert kids[1..][1..] == kids[2..] && kids[2..][1..] == kids[3..] && kids[3..][1..] == [];
    assert EncodeAll(kids[3..]) == Encode(kids[3]) + EncodeAll([]);
    assert EncodeAll(kids[2..]) == Encode(kids[2]) + EncodeAll(kids[3..]);
    assert EncodeAll(kids[1..]) == Encode(kids[1]) + EncodeAll(kids[2..]);
    assert |Header(3, 2)| == 1 && |Header(3, |key|)| == 1 && |Header(4, |page|)| == ArgSize(|page|) by { HeaderSize(|page|); }
  }

  lemma {:induction false} HeaderSize(n: nat)
    requires n < 0x1_0000
    ensures |Header(4, n)| == ArgSize(n)
  {
  }

  lemma {:induction false} BlobPageMeans(blobs: seq<Bytes>, skip: nat, room: nat)
    ensures var (page, more) := BlobPage(blobs, skip, room);
      && Sum(BlobSizes(page)) <= room
      && (skip <= |blobs| ==> skip + |page| <= |blobs| && page == blobs[skip..skip + |page|])
      && (skip > |blobs| ==> page == [])
      && (more <==> skip + |page| < |blobs|)
      && (skip < |blobs| && BlobSize(blobs[skip]) <= room ==> page != [])
  {
    hide BlobSize;
    var rest := if skip < |blobs| then blobs[skip..] else [];
    FittingExact(BlobSizes(rest), 0, room);
    var (page, more) := BlobPage(blobs, skip, room);
    assert BlobSizes(page) == BlobSizes(rest)[..|page|];
  }

  /** A reply of blobs (`attest_query`) or records (`encounters_get`) fits its budget, as soon
      as that holds an empty page. The rings hold fewer than 256 elements. */
  lemma {:induction false} BlobReplyLength(key: Bytes, blobs: seq<Bytes>, skip: nat, budget: nat)
    requires (forall i :: 0 <= i < |blobs| ==> |blobs[i]| < 0x1_0000) && |blobs| < 0x100 && |key| <= 7
    ensures var (page, more) := BlobPage(blobs, skip, BlobRoom(budget));
      forall next: U32 {:trigger BlobKids(key, page, more, next)} ::
        |Reply(BlobKids(key, page, more, next))| <= (if budget >= 31 then budget else 31)
  {
    hide Encode, EncodeAll, BlobSizes, BlobPage, Fits;
    var (page, more) := BlobPage(blobs, skip, BlobRoom(budget));
    BlobPageMeans(blobs, skip, BlobRoom(budget));
    BlobsHeadLength(key, page);
    var head := [Text(K_OK), Bool(true), Text(key), Array(Strings(page))];
    forall next: U32 ensures |Reply(BlobKids(key, page, more, next))| <= (if budget >= 31 then budget else 31) {
      NextLength(next);
      var tail := [Text(K_NEXT), UInt(next)];
      EncodeAllConcat(head, tail);
      if !more { assert BlobKids(key, page, more, next) == head; }
      MapLength(BlobKids(key, page, more, next));
      NoBlobs(page);
    }
  }

  lemma {:induction false} NoBlobs(page: seq<Bytes>)
    ensures Sum(BlobSizes(page)) == 0 <==> page == []
  {
  }

  // ---- completeness ----

  /** The room that holds any line of a listing. */
  const LINE_MAX: nat := 63

  lemma {:induction false} LineBound(e: Entry)
    requires Listable(e)
    ensures LsEntrySize(e) <= LINE_MAX
  {
  }

  /** Every page starts further on, on any link of mtu 93 or more. */
  lemma {:induction false} LsProgress(listing: seq<Entry>, offset: nat, budget: nat)
    requires (forall i :: 0 <= i < |listing| ==> Listable(listing[i])) && budget >= 90
    ensures var (_, next) := LsPage(listing, offset, budget); next != 0 ==> offset < next < |listing|
  {
    hide LsPage, LsEntrySize, Listable;
    LsPageMeans(listing, offset, budget);
    if offset < |listing| { LineBound(listing[offset]); }
  }

  /** Every line of the listing fits a page on its own. */
  ghost predicate LinesFit(listing: seq<Entry>, budget: nat) {
    forall i :: 0 <= i < |listing| ==> LsEntrySize(listing[i]) <= LsRoom(budget)
  }

  /** Any link of mtu 93 or more holds any line. */
  lemma {:induction false} LinesFitWideLink(listing: seq<Entry>, budget: nat)
    requires (forall i :: 0 <= i < |listing| ==> Listable(listing[i])) && budget >= 90
    ensures LinesFit(listing, budget)
  {
    hide LsEntrySize, Listable;
    forall i | 0 <= i < |listing| ensures LsEntrySize(listing[i]) <= LsRoom(budget) {
      LineBound(listing[i]);
    }
  }

  /** All pages from an offset on, following next_offset. */
  ghost function LsPages(listing: seq<Entry>, offset: nat, budget: nat): seq<seq<Entry>>
    requires LinesFit(listing, budget)
    decreases |listing| - offset
  {
    var (page, next) := LsPage(listing, offset, budget);
    LsPageMeans(listing, offset, budget);
    if next == 0 then [page] else [page] + LsPages(listing, next, budget)
  }

  function Concat<T>(pages: seq<seq<T>>): seq<T> {
    if pages == [] then [] else pages[0] + Concat(pages[1..])
  }

  /** The pages of `ls` are the listing, whenever each of its lines fits. */
  lemma {:induction false} LsPagesComplete(listing: seq<Entry>, offset: nat, budget: nat)
    requires LinesFit(listing, budget) && offset <= |listing|
    ensures Concat(LsPages(listing, offset, budget)) == listing[offset..]
    decreases |listing| - offset
  {
    hide LsPage, LsEntrySize;
    var (page, next) := LsPage(listing, offset, budget);
    LsPageMeans(listing, offset, budget);
    if next == 0 {
      assert [page][1..] == [];
      assert Concat([page]) == page + Concat([]);
    } else {
      LsPagesComplete(listing, next, budget);
      assert ([page] + LsPages(listing, next, budget))[1..] == LsPages(listing, next, budget);
      assert listing[offset..] == page + listing[next..];
    }
  }

  /** What a caller that follows next_offset has after at most n replies, and whether the last
      of them was the last one. */
  function Follow(listing: seq<Entry>, offset: nat, budget: nat, n: nat): (r: (seq<Entry>, bool))
    decreases n
  {
    if n == 0 then ([], false)
    else
      var (page, next) := LsPage(listing, offset, budget);
      if next == 0 then (page, true)
      else
        var (rest, done) := Follow(listing, next, budget, n - 1);
        (page + rest, done)
  }

  lemma {:induction false} SumMember(sizes: seq<nat>, k: nat)
    requires k < |sizes|
    ensures sizes[k] <= Sum(sizes)
    decreases |sizes|
  {
    if k > 0 { SumMember(sizes[1..], k - 1); }
  }

  /** A line that does not fit is in no page. */
  lemma {:induction false} PageStopsBefore(listing: seq<Entry>, offset: nat, budget: nat, i: nat)
    requires offset <= i < |listing| && LsRoom(budget) < LsEntrySize(listing[i])
    ensures offset + |LsPage(listing, offset, budget).0| <= i
  {
    hide LsPage, LsEntrySize;
    var page := LsPage(listing, offset, budget).0;
    LsPageMeans(listing, offset, budget);
    if offset + |page| > i {
      SumMember(LineSizes(page), i - offset);
      assert false;
    }
  }

  lemma {:induction false} NothingMore<T>(s: seq<T>)
    ensures [] + s == s
  {
  }

  /** At a line that does not fit, the reply is empty and gives its own offset again. */
  lemma {:induction false} LsStuck(listing: seq<Entry>, k: nat, budget: nat)
    requires k < |listing| && LsRoom(budget) < LsEntrySize(listing[k])
    ensures LsPage(listing, k, budget) == ([], k)
  {
    hide LsPage, LsEntrySize;
    PageStopsBefore(listing, k, budget, k);
    LsPageMeans(listing, k, budget);
  }

  /** So behind the first line a caller asks for the same empty page forever. */
  lemma {:induction false} LsStuckForever(listing: seq<Entry>, k: nat, budget: nat, n: nat)
    requires 0 < k < |listing| && LsRoom(budget) < LsEntrySize(listing[k])
    ensures Follow(listing, k, budget, n) == ([], false)
    decreases n
  {
    hide LsPage, LsEntrySize;
    LsStuck(listing, k, budget);
    if n > 0 {
      LsStuckForever(listing, k, budget, n - 1);
      NothingMore<Entry>([]);
    }
  }

  lemma {:induction false} FollowStopsBefore(listing: seq<Entry>, offset: nat, budget: nat, n: nat, i: nat)
    requires offset <= i < |listing| && LsRoom(budget) < LsEntrySize(listing[i])
    ensures offset + |Follow(listing, offset, budget, n).0| <= i
    decreases n
  {
    hide LsPage, LsEntrySize;
    if n > 0 {
      var (page, next) := LsPage(listing, offset, budget);
      PageStopsBefore(listing, offset, budget, i);
      LsPageMeans(listing, offset, budget);
      if next != 0 { FollowStopsBefore(listing, next, budget, n - 1, i); }
    }
  }

  lemma {:induction false} FollowReaches(listing: seq<Entry>, offset: nat, budget: nat, n: nat)
    requires LinesFit(listing, budget) && offset <= |listing| && n > |listing| - offset
    ensures Follow(listing, offset, budget, n) == (listing[offset..], true)
    decreases n
  {
    hide LsPage, LsEntrySize;
    var (page, next) := LsPage(listing, offset, budget);
    LsPageMeans(listing, offset, budget);
    if next == 0 {
      assert offset < |listing| ==> LsEntrySize(listing[offset]) <= LsRoom(budget);
      assert page == listing[offset..];
    } else {
      FollowReaches(listing, next, budget, n - 1);
      assert listing[offset..] == page + listing[next..];
    }
  }

  /** Following next_offset from 0 ends with the whole listing exactly when every line of it fits
      a page of the link. */
  lemma {:induction false} LsCompleteExactly(listing: seq<Entry>, budget: nat)
    ensures (exists n: nat :: Follow(listing, 0, budget, n) == (listing, true)) <==> LinesFit(listing, budget)
  {
    hide LsEntrySize, Follow;
    if LinesFit(listing, budget) {
      FollowReaches(listing, 0, budget, |listing| + 1);
      assert listing[0..] == listing;
      assert Follow(listing, 0, budget, |listing| + 1) == (listing, true);
    } else {
      var i :| 0 <= i < |listing| && LsRoom(budget) < LsEntrySize(listing[i]);
      forall n: nat ensures Follow(listing, 0, budget, n) != (listing, true) {
        FollowStopsBefore(listing, 0, budget, n, i);
      }
    }
  }

  predicate AllShort(blobs: seq<Bytes>, room: nat) {
    forall i :: 0 <= i < |blobs| ==> BlobSize(blobs[i]) <= room
  }

  /** All pages of blobs from an offset on, following next_offset. */
  function BlobPages(blobs: seq<Bytes>, skip: nat, room: nat): seq<seq<Bytes>>
    requires AllShort(blobs, room)
    decreases |blobs| - skip
  {
    var (page, more) := BlobPage(blobs, skip, room);
    BlobPageMeans(blobs, skip, room);
    if !more then [page] else [page] + BlobPages(blobs, skip + |page|, room)
  }

  /** The pages of `attest_query`, or of `encounters_get`, are all matching elements. */
  lemma {:induction false} BlobPagesComplete(blobs: seq<Bytes>, skip: nat, room: nat)
    requires AllShort(blobs, room) && skip <= |blobs|
    ensures Concat(BlobPages(blobs, skip, room)) == blobs[skip..]
    decreases |blobs| - skip
  {
    hide BlobPage, BlobSize;
    var (page, more) := BlobPage(blobs, skip, room);
    BlobPageMeans(blobs, skip, room);
    if !more {
      assert [page][1..] == [];
      assert Concat([page]) == page + Concat([]);
    } else {
      assert BlobSize(blobs[skip]) <= room;
      BlobPagesComplete(blobs, skip + |page|, room);
      assert ([page] + BlobPages(blobs, skip + |page|, room))[1..] == BlobPages(blobs, skip + |page|, room);
      assert blobs[skip..] == page + blobs[skip + |page|..];
    }
  }

  /** Stored blobs are short enough for any link of mtu 235 or more. */
  lemma {:induction false} StorableShort(blobs: seq<Bytes>, budget: nat)
    requires budget >= 232 && forall i :: 0 <= i < |blobs| ==> Storable(blobs[i])
    ensures AllShort(blobs, BlobRoom(budget))
  {
  }

  /** What a caller that follows next_offset has of the elements after at most n replies, and
      whether the last of them was the last one. */
  function FollowBlobs(blobs: seq<Bytes>, skip: nat, room: nat, n: nat): (r: (seq<Bytes>, bool))
    decreases n
  {
    if n == 0 then ([], false)
    else
      var (page, more) := BlobPage(blobs, skip, room);
      if !more then (page, true)
      else
        var (rest, done) := FollowBlobs(blobs, skip + |page|, room, n - 1);
        (page + rest, done)
  }

  /** An element that does not fit is in no page. */
  lemma {:induction false} BlobPageStopsBefore(blobs: seq<Bytes>, skip: nat, room: nat, i: nat)
    requires skip <= i < |blobs| && room < BlobSize(blobs[i])
    ensures skip + |BlobPage(blobs, skip, room).0| <= i
  {
    hide BlobPage, BlobSize;
    var page := BlobPage(blobs, skip, room).0;
    BlobPageMeans(blobs, skip, room);
    if skip + |page| > i {
      SumMember(BlobSizes(page), i - skip);
      assert false;
    }
  }

  /** At an element that does not fit, the reply is empty and asks to go on at its own offset;
      a caller asks for it forever. */
  lemma {:induction false} BlobsStuck(blobs: seq<Bytes>, k: nat, room: nat, n: nat)
    requires k < |blobs| && room < BlobSize(blobs[k])
    ensures BlobPage(blobs, k, room) == ([], true) && FollowBlobs(blobs, k, room, n) == ([], false)
    decreases n
  {
    hide BlobPage, BlobSize;
    BlobPageStopsBefore(blobs, k, room, k);
    BlobPageMeans(blobs, k, room);
    if n > 0 {
      BlobsStuck(blobs, k, room, n - 1);
      NothingMore<Bytes>([]);
    }
  }

  lemma {:induction false} FollowBlobsStopsBefore(blobs: seq<Bytes>, skip: nat, room: nat, n: nat, i: nat)
    requires skip <= i < |blobs| && room < BlobSize(blobs[i])
    ensures skip + |FollowBlobs(blobs, skip, room, n).0| <= i && !FollowBlobs(blobs, skip, room, n).1
    decreases n
  {
    hide BlobPage, BlobSize;
    if n > 0 {
      BlobPageStopsBefore(blobs, skip, room, i);
      BlobPageMeans(blobs, skip, room);
      FollowBlobsStopsBefore(blobs, skip + |BlobPage(blobs, skip, room).0|, room, n - 1, i);
    }
  }

  lemma {:induction false} FollowBlobsReaches(blobs: seq<Bytes>, skip: nat, room: nat, n: nat)
    requires AllShort(blobs, room) && skip <= |blobs| && n > |blobs| - skip
    ensures FollowBlobs(blobs, skip, room, n) == (blobs[skip..], true)
    decreases n
  {
    hide BlobPage, BlobSize;
    var (page, more) := BlobPage(blobs, skip, room);
    BlobPageMeans(blobs, skip, room);
    if !more {
      assert page == blobs[skip..];
    } else {
      assert BlobSize(blobs[skip]) <= room;
      FollowBlobsReaches(blobs, skip + |page|, room, n - 1);
      assert blobs[skip..] == page + blobs[skip + |page|..];
    }
  }

  /** Following next_offset from 0 ends, and then with all the elements, exactly when every one of
      them fits a page. */
  lemma {:induction false} BlobsCompleteExactly(blobs: seq<Bytes>, room: nat)
    ensures (exists n: nat :: FollowBlobs(blobs, 0, room, n) == (blobs, true)) <==> AllShort(blobs, room)
    ensures (exists n: nat :: FollowBlobs(blobs, 0, room, n).1) <==> AllShort(blobs, room)
  {
    hide BlobSize, FollowBlobs;
    if AllShort(blobs, room) {
      FollowBlobsReaches(blobs, 0, room, |blobs| + 1);
      assert blobs[0..] == blobs;
      assert FollowBlobs(blobs, 0, room, |blobs| + 1) == (blobs, true);
    } else {
      var i :| 0 <= i < |blobs| && room < BlobSize(blobs[i]);
      forall n: nat ensures !FollowBlobs(blobs, 0, room, n).1 {
        FollowBlobsStopsBefore(blobs, 0, room, n, i);
      }
    }
  }
}
