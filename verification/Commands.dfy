/** The responder: how the command handlers answer, page by page, within the link's budget. */
module Commands {
  import opened AttestQuery
  import opened Bits
  import opened Cbor
  import opened CborTree
  import opened EncounterRecord
  import opened FileStore
  import opened PeerSync
  import opened SyncWire
  import opened Wrappers

  const MAX_INLINE_DATA: nat := 220
  const LS_PAGE: nat := 16
  const QUERY_MAX: nat := 12
  const META_MAX: nat := 200

  const K_OK: Bytes := [111, 107]
  const K_RECORDS: Bytes := [114, 101, 99, 111, 114, 100, 115]

  /** What a responder serves. */
  datatype Library = Library(listing: seq<Entry>, files: map<Bytes, Bytes>, meta: map<Bytes, Bytes>, own: seq<Bytes>, cache: seq<Bytes>)

  // ---- budgets ----

  /** The bytes that one notification of the link carries. */
  function LinkBytes(mtu: nat): nat {
    if mtu > 3 then mtu - 3 else 20
  }

  /** The bytes that a reply may take. */
  function Budget(mtu: nat, outMax: nat): nat {
    if LinkBytes(mtu) > outMax then outMax else LinkBytes(mtu)
  }

  /** What arrives of a reply: the link cuts what is longer than a notification. */
  function Carried(mtu: nat, reply: Bytes): (r: Bytes)
    ensures |reply| <= LinkBytes(mtu) ==> r == reply
  {
    if |reply| > LinkBytes(mtu) then reply[..LinkBytes(mtu)] else reply
  }

  /** The largest payload of an inline data reply. */
  function SafeChunk(mtu: nat): (n: nat)
    ensures 16 <= n <= MAX_INLINE_DATA
  {
    var budget := mtu - 3 - 16;
    if budget < 16 then 16 else if budget > MAX_INLINE_DATA then MAX_INLINE_DATA else budget
  }

  /** With 16 bytes around it, a chunk fits the link, and so would no longer one; but it is never
      shorter than 16 bytes and never longer than 220. */
  lemma {:induction false} SafeChunkIs(mtu: nat)
    ensures var n := SafeChunk(mtu);
      && 16 <= n <= 220 && (n > 16 ==> n + 16 <= LinkBytes(mtu)) && (n < 220 ==> LinkBytes(mtu) < n + 17 || mtu <= 3)
  {
  }

  function ArgSize(v: nat): nat {
    if v <= 23 then 1 else if v <= 0xff then 2 else if v <= 0xffff then 3 else 5
  }

  /** The handler's estimate of an encoded line. */
  function LsEntrySize(e: Entry): nat {
    1 + 1 + 4 + ArgSize(|e.name|) + |e.name| + 1 + 4 + ArgSize(e.size) + 1 + 4 + 1 + 8
  }

  /** The handlers' estimate of an encoded blob. */
  function BlobSize(blob: Bytes): nat {
    if |blob| <= 23 then 1 + |blob| else if |blob| <= 0xff then 2 + |blob| else 3 + |blob|
  }

  /** How many leading items fit. */
  function Fitting(sizes: seq<nat>, used: nat, room: nat): (n: nat)
    ensures n <= |sizes|
    decreases |sizes|
  {
    if sizes == [] || used + sizes[0] > room then 0 else 1 + Fitting(sizes[1..], used + sizes[0], room)
  }

  function Sum(sizes: seq<nat>): nat {
    if sizes == [] then 0 else sizes[0] + Sum(sizes[1..])
  }

  /** As many as possible, and no more. */
  lemma {:induction false} FittingExact(sizes: seq<nat>, used: nat, room: nat)
    requires used <= room
    ensures var n := Fitting(sizes, used, room);
      used + Sum(sizes[..n]) <= room && (n < |sizes| ==> used + Sum(sizes[..n]) + sizes[n] > room)
    decreases |sizes|
  {
    if sizes != [] && used + sizes[0] <= room {
      var n := Fitting(sizes, used, room);
      FittingExact(sizes[1..], used + sizes[0], room);
      assert sizes[..n][1..] == sizes[1..][..n - 1];
    }
  }

  function LineSizes(list: seq<Entry>): (r: seq<nat>)
    ensures |r| == |list| && forall i :: 0 <= i < |list| ==> r[i] == LsEntrySize(list[i])
  {
    seq(|list|, i requires 0 <= i < |list| => LsEntrySize(list[i]))
  }

  function BlobSizes(list: seq<Bytes>): (r: seq<nat>)
    ensures |r| == |list| && forall i :: 0 <= i < |list| ==> r[i] == BlobSize(list[i])
  {
    seq(|list|, i requires 0 <= i < |list| => BlobSize(list[i]))
  }

  // ---- ls ----

  /** The slice of the listing that the store hands out, and where the next one starts (0 at
      the end). */
  function FsPage(listing: seq<Entry>, offset: nat, limit: nat): (r: (seq<Entry>, nat))
    ensures |r.0| <= limit
  {
    var total := |listing|;
    var start := if offset < total then offset else total;
    var end := if start + limit > total then total else start + limit;
    (listing[start..end], if end < total then end else 0)
  }

  function LsRoom(budget: nat): nat {
    if budget > 27 then budget - 27 else 0
  }

  /** The entries of one reply and its next_offset (0 for none). */
  function LsPage(listing: seq<Entry>, offset: nat, budget: nat): (r: (seq<Entry>, nat))
    ensures |r.0| <= LS_PAGE
  {
    var (avail, fsNext) := FsPage(listing, offset, LS_PAGE);
    var cnt := Fitting(LineSizes(avail), 0, LsRoom(budget));
    (avail[..cnt], if cnt < |avail| then offset + cnt else fsNext)
  }

  function LsKids(page: seq<Entry>, next: nat): (kids: seq<Value>)
    ensures |kids| % 2 == 0
  {
    [Text(K_FILES), Array(EntryValues(page))] + if next > 0 then [Text(K_NEXT), UInt(next)] else []
  }

  // ---- blobs ----

  /** The blobs of one reply, and whether some remain. */
  function BlobPage(blobs: seq<Bytes>, skip: nat, room: nat): (r: (seq<Bytes>, bool)) {
    var rest := if skip < |blobs| then blobs[skip..] else [];
    var n := Fitting(BlobSizes(rest), 0, room);
    (rest[..n], n < |rest|)
  }

  function BlobRoom(budget: nat): nat {
    if budget > 32 then budget - 32 else 0
  }

  /** `attest_query` and `encounters_get` answer alike, under different keys. */
  function BlobKids(key: Bytes, page: seq<Bytes>, more: bool, next: nat): (kids: seq<Value>)
    ensures |kids| % 2 == 0
  {
    [Text(K_OK), Bool(true), Text(key), Array(Strings(page))] + if more then [Text(K_NEXT), UInt(next)] else []
  }

  // ---- handlers ----

  function Reply(kids: seq<Value>): Bytes {
    if Fits(Map(kids)) then Encode(Map(kids)) else []
  }

  /** An error reply, or none when the buffer is too small. */
  function ErrorReply(outMax: nat): Option<Bytes> {
    if outMax < 40 then None else Some(Reply([Text(K_ERROR), Text([])]))
  }

  function FirstWithHash(listing: seq<Entry>, hash: Bytes): Option<Bytes> {
    if listing == [] then None
    else if listing[0].hash == hash then Some(listing[0].name)
    else FirstWithHash(listing[1..], hash)
  }

  /** A hash names the first line of the listing that has it. */
  lemma {:induction false} FirstWithHashIs(listing: seq<Entry>, hash: Bytes)
    ensures var r := FirstWithHash(listing, hash);
      if r.None? then forall i :: 0 <= i < |listing| ==> listing[i].hash != hash
      else exists i :: 0 <= i < |listing| && listing[i].hash == hash && listing[i].name == r.value && forall j :: 0 <= j < i ==> listing[j].hash != hash
    decreases |listing|
  {
    if listing != [] && listing[0].hash != hash {
      FirstWithHashIs(listing[1..], hash);
      var r := FirstWithHash(listing[1..], hash);
      if r.Some? {
        var i :| 0 <= i < |listing[1..]| && listing[1..][i].hash == hash && listing[1..][i].name == r.value
          && forall j :: 0 <= j < i ==> listing[1..][j].hash != hash;
        assert listing[i + 1] == listing[1..][i];
        forall j | 0 <= j < i + 1 ensures listing[j].hash != hash { if j > 0 { assert listing[j] == listing[1..][j - 1]; } }
      }
    }
  }

  /** The file that a command names, by name or by hash. */
  function ResolveName(lib: Library, b: Bytes, top: Item): Option<Bytes>
    requires top.data <= |b|
  {
    var name := TextField(b, top, K_NAME, MAX_NAME_LEN);
    if name.Some? then name
    else
      var hash := BytesField(b, top, K_HASH);
      if hash.Some? && |hash.value| == 8 then FirstWithHash(lib.listing, hash.value) else None
  }

  function FileBytes(lib: Library, name: Bytes): Option<Bytes> {
    if ValidName(name) && name in lib.files then Some(lib.files[name]) else None
  }

  function Or0(n: Option<U64>): U64 {
    if n.None? then 0 else n.value
  }

  function CmdLs(lib: Library, b: Bytes, top: Item, mtu: nat, outMax: nat): Option<Bytes>
    requires top.data <= |b|
  {
    var (page, next) := LsPage(lib.listing, Or0(UIntField(b, top, K_OFFSET)), Budget(mtu, outMax));
    Some(Reply(LsKids(page, next)))
  }

  function CmdReadStart(lib: Library, b: Bytes, top: Item, outMax: nat): Option<Bytes>
    requires top.data <= |b|
  {
    if outMax < 64 then ErrorReply(outMax)
    else
      var name := ResolveName(lib, b, top);
      if name.None? || FileBytes(lib, name.value).None? then ErrorReply(outMax)
      else Some(Reply([Text(K_OK), Bool(true), Text(K_SIZE), UInt(|FileBytes(lib, name.value).value|)]))
  }

  /** At most `size` bytes of a file from an offset on. */
  function Slice(f: Bytes, offset: nat, size: nat): Bytes {
    if offset > |f| then [] else if offset + size > |f| then f[offset..] else f[offset..offset + size]
  }

  function CmdReadChunk(lib: Library, b: Bytes, top: Item, mtu: nat, outMax: nat): Option<Bytes>
    requires top.data <= |b|
  {
    if outMax < 256 then ErrorReply(outMax)
    else
      var name := ResolveName(lib, b, top);
      if name.None? then ErrorReply(outMax)
      else
        var offset := Or0(UIntField(b, top, K_OFFSET)) % 0x1_0000_0000;
        var asked := UIntField(b, top, K_SIZE);
        var size := if asked.None? then MAX_INLINE_DATA else asked.value;
        var f := FileBytes(lib, name.value);
        if f.None? || offset > |f.value| then ErrorReply(outMax)
        else Some(Reply([Text(K_OK), Bool(true), Text(K_DATA), Str(Slice(f.value, offset, if size > SafeChunk(mtu) then SafeChunk(mtu) else size))]))
  }

  predicate HasSidecar(lib: Library, name: Bytes) {
    ValidName(name) && name in lib.meta
  }

  /** The sidecar, at most a buffer of it; an empty map when there is none. */
  function SidecarBytes(lib: Library, name: Bytes): Bytes {
    if HasSidecar(lib, name) then lib.meta[name][..if |lib.meta[name]| < META_MAX then |lib.meta[name]| else META_MAX]
    else [0xa0]
  }

  function CmdReadMeta(lib: Library, b: Bytes, top: Item, outMax: nat): Option<Bytes>
    requires top.data <= |b|
  {
    var name := ResolveName(lib, b, top);
    if name.None? then ErrorReply(outMax)
    else
      var head := Header(5, 1) + Header(3, 4) + K_META;
      var raw := SidecarBytes(lib, name.value);
      if HasSidecar(lib, name.value) && |head| + |raw| > outMax then ErrorReply(outMax) else Some(head + raw)
  }

  /** The BSSIDs of a query: the well-formed ones among the array's entries, up to the limit; no
      value when an entry does not parse. */
  function ReadQuery(b: Bytes, p: nat, n: nat, room: nat): (r: Option<seq<Bssid>>)
    requires p <= |b|
    ensures r.Some? ==> |r.value| <= room
    decreases n
  {
    if n == 0 || room == 0 then Some([])
    else
      var item := Parse(b, p, |b|, 0);
      if item.None? then None
      else if item.value.kind != KBytes || item.value.arg != 6 then ReadQuery(b, item.value.next, n - 1, room)
      else
        var rest := ReadQuery(b, item.value.next, n - 1, room - 1);
        if rest.None? then None else Some([b[item.value.data..item.value.next]] + rest.value)
  }

  function CmdAttestQuery(lib: Library, b: Bytes, top: Item, mtu: nat, outMax: nat): Option<Bytes>
    requires top.data <= |b|
  {
    var arr := MapFind(b, top.data, |b|, top.arg, K_BSSIDS);
    if arr.None? || arr.value.kind != KArray then ErrorReply(outMax)
    else
      var query := ReadQuery(b, arr.value.data, arr.value.arg, QUERY_MAX);
      if query.None? || query.value == [] then ErrorReply(outMax)
      else
        var offset := Or0(UIntField(b, top, K_OFFSET)) % 0x1_0000_0000;
        var (page, more) := BlobPage(Matching(lib.own + lib.cache, query.value), offset, BlobRoom(Budget(mtu, outMax)));
        Some(Reply(BlobKids(K_BLOBS, page, more, (offset + |page|) % 0x1_0000_0000)))
  }

  /** Answer one command of the pull protocol; no value for other commands and when the buffer
      is too small for any answer. */
  function Respond(lib: Library, mtu: nat, outMax: nat, cmd: Bytes): Option<Bytes> {
    if cmd == [] || outMax < 32 then None
    else
      var top := Parse(cmd, 0, |cmd|, 0);
      if top.None? || top.value.kind != KMap then ErrorReply(outMax)
      else
        var name := TextField(cmd, top.value, K_CMD, 24);
        if name.None? then ErrorReply(outMax)
        else if name.value == C_LS then CmdLs(lib, cmd, top.value, mtu, outMax)
        else if name.value == C_READ_START then CmdReadStart(lib, cmd, top.value, outMax)
        else if name.value == C_READ_CHUNK then CmdReadChunk(lib, cmd, top.value, mtu, outMax)
        else if name.value == C_READ_META then CmdReadMeta(lib, cmd, top.value, outMax)
        else if name.value == C_ATTEST_QUERY then CmdAttestQuery(lib, cmd, top.value, mtu, outMax)
        else None
  }

  // ---- lengths ----

  /** The estimate of a line is exact. */
  lemma {:induction false} LsEntrySizeExact(e: Entry)
    requires Listable(e)
    ensures Fits(EntryValue(e)) && |Encode(EntryValue(e))| == LsEntrySize(e)
  {
    hide Be2, Be4, Be8;
    EntryFits(e);
    var kids := EntryKids(e);
    var rest := kids[2..];
    assert EncodeAll(kids) == Encode(kids[0]) + (Encode(kids[1]) + EncodeAll(rest)) by { PairSplit(kids); }
    assert rest[2..] == [Text(K_HASH), Str(e.hash)];
    assert EncodeAll(rest) == Encode(rest[0]) + (Encode(rest[1]) + EncodeAll(rest[2..])) by { assert DepthAll(rest) <= 1; PairSplit(rest); }
    assert EncodeAll(rest[2..]) == Encode(Text(K_HASH)) + (Encode(Str(e.hash)) + EncodeAll([])) by {
      assert rest[2..][2..] == [] && DepthAll(rest[2..]) <= 1;
      PairSplit(rest[2..]);
    }
  }

  lemma {:induction false} BlobSizeExact(blob: Bytes)
    requires |blob| < 0x1_0000
    ensures |Encode(Str(blob))| == BlobSize(blob)
  {
  }

  lemma {:induction false} LinesLength(list: seq<Entry>)
    requires forall i :: 0 <= i < |list| ==> Listable(list[i])
    ensures AllFit(EntryValues(list)) && |EncodeAll(EntryValues(list))| == Sum(LineSizes(list))
  {
    hide Fits, Encode, LsEntrySize, Listable, EntryValue;
    EntriesFit(list);
    if list != [] {
      LinesLength(list[1..]);
      LsEntrySizeExact(list[0]);
      assert EntryValues(list)[1..] == EntryValues(list[1..]) && LineSizes(list)[1..] == LineSizes(list[1..]);
    }
  }

  lemma {:induction false} BlobsLength(list: seq<Bytes>)
    requires forall i :: 0 <= i < |list| ==> |list[i]| < 0x1_0000
    ensures AllFit(Strings(list)) && DepthAll(Strings(list)) <= 1 && |EncodeAll(Strings(list))| == Sum(BlobSizes(list))
  {
    hide Encode, BlobSize;
    if list != [] {
      BlobsLength(list[1..]);
      BlobSizeExact(list[0]);
      assert Strings(list)[1..] == Strings(list[1..]) && BlobSizes(list)[1..] == BlobSizes(list[1..]);
      assert Strings(list)[0] == Str(list[0]);
    }
  }
}
