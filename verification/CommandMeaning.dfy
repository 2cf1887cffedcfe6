/** What the responder answers to a command, whatever map it is: entry by entry, with every limit
    on the reply buffer. */
module CommandMeaning {
  import opened AttestQuery
  import opened Bits
  import opened Cbor
  import opened CborTree
  import opened Claims
  import opened Commands
  import opened EncounterRecord
  import opened FileStore
  import opened Formats
  import opened PeerSync
  import opened ReplyMeaning
  import opened SyncAnswers
  import opened SyncWire
  import opened Wrappers

  function NumberUnder(kids: seq<Value>, name: string): Option<nat>
    requires |kids| % 2 == 0 && forall i :: 0 <= i < |name| ==> name[i] < 128 as char
  {
    match Under(kids, name)
    case Some(UInt(n)) => Some(n)
    case _ => None
  }

  /** A text shorter than a limit, up to its first NUL. */
  function TextUnder(kids: seq<Value>, name: string, room: nat): Option<Bytes>
    requires |kids| % 2 == 0 && forall i :: 0 <= i < |name| ==> name[i] < 128 as char
  {
    match Under(kids, name)
    case Some(Text(s)) => if |s| < room then Some(UpToNul(s)) else None
    case _ => None
  }

  /** The error reply, for which there must be 40 bytes. */
  function Failure(outMax: nat): (r: Option<Bytes>) {
    if outMax < 40 then None else Some(Reply([Text(Ascii("error")), Text([])]))
  }

  /** The file that is meant: by name, or by the first line of the listing with its hash. */
  function Meant(lib: Library, kids: seq<Value>): Option<Bytes>
    requires |kids| % 2 == 0
  {
    var name := TextUnder(kids, "name", 32);
    if name.Some? then name
    else
      match Under(kids, "hash")
      case Some(Str(h)) => if |h| == 8 then FirstWithHash(lib.listing, h) else None
      case _ => None
  }

  /** A stored file: its name has 1 to 31 bytes and no slash. */
  function FileOf(files: map<Bytes, Bytes>, name: Bytes): Option<Bytes> {
    if 1 <= |name| <= 31 && 0x2f !in name && name in files then Some(files[name]) else None
  }

  function ReadStartAnswer(lib: Library, kids: seq<Value>, outMax: nat): Option<Bytes>
    requires |kids| % 2 == 0
  {
    var name := Meant(lib, kids);
    if outMax < 64 || name.None? || FileOf(lib.files, name.value).None? then Failure(outMax)
    else Some(Reply([Text(Ascii("ok")), Bool(true), Text(Ascii("size")), UInt(|FileOf(lib.files, name.value).value|)]))
  }

  /** From an offset, modulo 2^32, as many bytes as asked for (220 by default), as fit the link, and
      as there are; an offset behind the end of the file is an error. */
  function ReadChunkAnswer(lib: Library, kids: seq<Value>, mtu: nat, outMax: nat): Option<Bytes>
    requires |kids| % 2 == 0
  {
    var name := Meant(lib, kids);
    if outMax < 256 || name.None? then Failure(outMax)
    else
      var (file, offset, size) := (FileOf(lib.files, name.value), NumberUnder(kids, "offset"), NumberUnder(kids, "size"));
      var from := if offset.None? then 0 else offset.value % 0x1_0000_0000;
      var asked := if size.None? then 220 else size.value;
      var most := if asked < SafeChunk(mtu) then asked else SafeChunk(mtu);
      if file.None? || |file.value| < from then Failure(outMax)
      else
        var end := if from + most < |file.value| then from + most else |file.value|;
        Some(Reply([Text(Ascii("ok")), Bool(true), Text(Ascii("data")), Str(file.value[from..end])]))
  }

  /** At most 200 bytes of the sidecar behind the name `meta`, in a map of one entry; an empty map when
      there is no sidecar. */
  function ReadMetaAnswer(lib: Library, kids: seq<Value>, outMax: nat): Option<Bytes>
    requires |kids| % 2 == 0
  {
    var name := Meant(lib, kids);
    if name.None? then Failure(outMax)
    else
      var (head, meta) := ([0xa1, 0x64, 0x6d, 0x65, 0x74, 0x61], FileOf(lib.meta, name.value));
      if meta.None? then Some(head + [0xa0])
      else
        var raw := if |meta.value| < 200 then meta.value else meta.value[..200];
        if 6 + |raw| > outMax then Failure(outMax) else Some(head + raw)
  }

  function BlobsFrom(blobs: seq<Bytes>, offset: nat, budget: nat): Bytes {
    var (page, more) := BlobPage(blobs, offset, BlobRoom(budget));
    Reply(BlobKids(Ascii("blobs"), page, more, (offset + |page|) % 0x1_0000_0000))
  }

  /** The stored attestations that claim one of the first twelve BSSIDs asked for, own ones first. */
  function AttestAnswer(lib: Library, kids: seq<Value>, mtu: nat, outMax: nat): Option<Bytes>
    requires |kids| % 2 == 0
  {
    match Under(kids, "bssids")
    case Some(Array(items)) =>
      var (query, number) := (SixBytes(items, 12), NumberUnder(kids, "offset"));
      if query == [] then Failure(outMax)
      else Some(BlobsFrom(Matching(lib.own + lib.cache, query), if number.None? then 0 else number.value % 0x1_0000_0000, Budget(mtu, outMax)))
    case _ => Failure(outMax)
  }

  function LinesFrom(listing: seq<Entry>, offset: nat, budget: nat): Bytes {
    var (page, next) := LsPage(listing, offset, budget);
    Reply(LsKids(page, next))
  }

  /** No value stands for no answer at all: to a command outside the pull protocol, and below 32
      bytes of room. */
  function Response(lib: Library, kids: seq<Value>, mtu: nat, outMax: nat): Option<Bytes>
    requires |kids| % 2 == 0
  {
    var cmd := TextUnder(kids, "cmd", 24);
    if outMax < 32 then None
    else if cmd.None? then Failure(outMax)
    else if cmd.value == Ascii("ls") then
      var offset := NumberUnder(kids, "offset");
      Some(LinesFrom(lib.listing, if offset.None? then 0 else offset.value, Budget(mtu, outMax)))
    else if cmd.value == Ascii("attest_query") then AttestAnswer(lib, kids, mtu, outMax)
    else ReadAnswer(lib, kids, cmd.value, mtu, outMax)
  }

  function ReadAnswer(lib: Library, kids: seq<Value>, cmd: Bytes, mtu: nat, outMax: nat): Option<Bytes>
    requires |kids| % 2 == 0
  {
    if cmd == Ascii("read_start") then ReadStartAnswer(lib, kids, outMax)
    else if cmd == Ascii("read_chunk") then ReadChunkAnswer(lib, kids, mtu, outMax)
    else if cmd == Ascii("read_meta") then ReadMetaAnswer(lib, kids, outMax)
    else None
  }

  // ---- the bytes ----

  lemma {:induction false} NumberRead(b: Bytes, m: Item, kids: seq<Value>, key: Bytes)
    requires IsMap(b, m, kids)
    ensures |kids| % 2 == 0 && m.data <= |b|
    ensures var n := UIntField(b, m, key); match FirstUnder(kids, Text(key)) case Some(UInt(x)) => n.Some? && n.value == x case _ => n.None?
  {
    hide IsMap, UIntField, FirstUnder, TreeFind;
    MapFacts(b, m, kids);
    MapInside(b, m, kids);
    UIntShows(b, m, kids, key);
    TreeFindIs(kids, key);
    TreeUIntIs(kids, key);
  }

  lemma {:induction false} TextRead(b: Bytes, m: Item, kids: seq<Value>, key: Bytes, room: nat)
    requires IsMap(b, m, kids)
    ensures |kids| % 2 == 0 && m.data <= |b|
    ensures TextField(b, m, key, room) == match FirstUnder(kids, Text(key))
      case Some(Text(s)) => (if |s| < room then Some(UpToNul(s)) else None) case _ => None
  {
    hide IsMap, TextField, FirstUnder, TreeFind, UpToNul;
    MapFacts(b, m, kids);
    MapInside(b, m, kids);
    TextShows(b, m, kids, key, room);
    TreeFindIs(kids, key);
  }

  lemma {:induction false} BytesRead(b: Bytes, m: Item, kids: seq<Value>, key: Bytes)
    requires IsMap(b, m, kids)
    ensures |kids| % 2 == 0 && m.data <= |b|
    ensures BytesField(b, m, key) == match FirstUnder(kids, Text(key)) case Some(Str(s)) => Some(s) case _ => None
  {
    hide IsMap, BytesField, FirstUnder, TreeFind;
    MapFacts(b, m, kids);
    MapInside(b, m, kids);
    BytesShows(b, m, kids, key);
    TreeFindIs(kids, key);
    TreeBytesIs(kids, key);
  }

  lemma {:induction false} NameMeant(lib: Library, b: Bytes, m: Item, kids: seq<Value>)
    requires IsMap(b, m, kids)
    ensures |kids| % 2 == 0 && m.data <= |b| && ResolveName(lib, b, m) == Meant(lib, kids)
  {
    hide IsMap, TextField, BytesField, FirstUnder, UpToNul, Ascii, FirstWithHash;
    RequestNames();
    ReplyNames();
    TextRead(b, m, kids, K_NAME, 32);
    BytesRead(b, m, kids, K_HASH);
  }

  lemma {:induction false} FileIs(lib: Library, name: Bytes)
    ensures FileBytes(lib, name) == FileOf(lib.files, name)
    ensures HasSidecar(lib, name) <==> FileOf(lib.meta, name).Some?
    ensures FileOf(lib.meta, name).Some? ==> FileOf(lib.meta, name).value == lib.meta[name]
  {
  }

  lemma {:induction false} FailureIs(outMax: nat)
    ensures ErrorReply(outMax) == Failure(outMax)
  {
    hide Ascii, Reply;
    ReplyNames();
  }

  lemma {:induction false} ReadStartIs(lib: Library, b: Bytes, m: Item, kids: seq<Value>, outMax: nat)
    requires IsMap(b, m, kids)
    ensures |kids| % 2 == 0 && m.data <= |b| && CmdReadStart(lib, b, m, outMax) == ReadStartAnswer(lib, kids, outMax)
  {
    hide IsMap, ResolveName, Meant, Ascii, Reply, FileBytes, FileOf, ErrorReply, Failure;
    RequestNames();
    ReplyNames();
    FailureIs(outMax);
    NameMeant(lib, b, m, kids);
    if Meant(lib, kids).Some? { FileIs(lib, Meant(lib, kids).value); }
  }

  lemma {:induction false} ReadChunkIs(lib: Library, b: Bytes, m: Item, kids: seq<Value>, mtu: nat, outMax: nat)
    requires IsMap(b, m, kids)
    ensures |kids| % 2 == 0 && m.data <= |b| && CmdReadChunk(lib, b, m, mtu, outMax) == ReadChunkAnswer(lib, kids, mtu, outMax)
  {
    hide IsMap, ResolveName, Meant, Ascii, Reply, FileBytes, FileOf, ErrorReply, Failure, UIntField, FirstUnder, SafeChunk;
    RequestNames();
    ReplyNames();
    FailureIs(outMax);
    NameMeant(lib, b, m, kids);
    NumberRead(b, m, kids, K_OFFSET);
    NumberRead(b, m, kids, K_SIZE);
    assert forall f: Bytes, from: nat, most: nat :: from <= |f| ==> Slice(f, from, most) == f[from..if from + most < |f| then from + most else |f|];
    if Meant(lib, kids).Some? { FileIs(lib, Meant(lib, kids).value); }
  }

  lemma {:induction false} ReadMetaIs(lib: Library, b: Bytes, m: Item, kids: seq<Value>, outMax: nat)
    requires IsMap(b, m, kids)
    ensures |kids| % 2 == 0 && m.data <= |b| && CmdReadMeta(lib, b, m, outMax) == ReadMetaAnswer(lib, kids, outMax)
  {
    hide IsMap, ResolveName, Meant, Header, FileOf, ErrorReply, Failure;
    FailureIs(outMax);
    NameMeant(lib, b, m, kids);
    MetaHead();
    assert forall f: Bytes :: f[..|f|] == f;
    if Meant(lib, kids).Some? { FileIs(lib, Meant(lib, kids).value); }
  }

  lemma {:induction false} MetaHead()
    ensures Header(5, 1) + Header(3, 4) + K_META == [0xa1, 0x64, 0x6d, 0x65, 0x74, 0x61]
  {
  }

  lemma {:induction false} QueryRead(items: seq<Value>, b: Bytes, p: nat, room: nat)
    requires AllFit(items) && DepthAll(items) <= MAX_DEPTH + 1 && Holds(b, p, |b|, EncodeAll(items))
    ensures p <= |b| && ReadQuery(b, p, |items|, room) == Some(SixBytes(items, room))
    decreases |items|
  {
    hide Parse, Encode, EncodeAll, Holds, ItemOf, Fits, Depth, DepthAll;
    HoldsInside(b, p, |b|, EncodeAll(items));
    if items != [] && room > 0 {
      var next := ItemParsed(items, b, p);
      KindIsBytes(items[0]);
      QueryRead(items[1..], b, next, if items[0].Str? && |items[0].s| == 6 then room - 1 else room);
    }
  }

  lemma {:induction false} AttestIs(lib: Library, b: Bytes, m: Item, kids: seq<Value>, mtu: nat, outMax: nat)
    requires IsMap(b, m, kids)
    ensures |kids| % 2 == 0 && m.data <= |b| && CmdAttestQuery(lib, b, m, mtu, outMax) == AttestAnswer(lib, kids, mtu, outMax)
  {
    hide IsMap, MapFind, FirstUnder, Ascii, Reply, ErrorReply, Failure, UIntField, BlobPage, BlobKids, Matching, BlobRoom, Budget, ReadQuery, SixBytes, Shows, Holds, EncodeAll, DepthAll;
    RequestNames();
    ReplyNames();
    FailureIs(outMax);
    NumberRead(b, m, kids, K_OFFSET);
    FoundUnder(b, m, kids, K_BSSIDS);
    var (arr, v) := (MapFind(b, m.data, |b|, m.arg, K_BSSIDS), FirstUnder(kids, Text(K_BSSIDS)));
    ArrayShown(b, arr, v);
    if v.Some? && v.value.Array? { QueryRead(v.value.kids, b, arr.value.data, 12); }
  }

  /** Every command that is a map is answered as spelled out; anything else is an error, and an empty
      command gets no answer. */
  lemma {:induction false} RespondsExactly(lib: Library, kids: seq<Value>, mtu: nat, outMax: nat)
    requires Fits(Map(kids)) && DepthAll(kids) <= MAX_DEPTH
    ensures |kids| % 2 == 0 && Respond(lib, mtu, outMax, Encode(Map(kids))) == Response(lib, kids, mtu, outMax)
  {
    hide Parse, Encode, EncodeAll, DepthAll, Ascii, IsMap, TextField, FirstUnder, CmdReadStart, CmdReadChunk, CmdReadMeta, CmdAttestQuery, Reply,
      ReadStartAnswer, ReadChunkAnswer, ReadMetaAnswer, AttestAnswer, ErrorReply, Failure, UIntField, LsPage, LsKids, Budget, UpToNul;
    var b := Encode(Map(kids));
    var top := MessageMap(kids, b);
    RequestNames();
    FailureIs(outMax);
    TextRead(b, top, kids, K_CMD, 24);
    NumberRead(b, top, kids, K_OFFSET);
    ReadStartIs(lib, b, top, kids, outMax);
    ReadChunkIs(lib, b, top, kids, mtu, outMax);
    ReadMetaIs(lib, b, top, kids, outMax);
    AttestIs(lib, b, top, kids, mtu, outMax);
  }

  lemma {:induction false} NoMapFails(lib: Library, b: Bytes, mtu: nat, outMax: nat)
    requires var top := Parse(b, 0, |b|, 0); top.None? || top.value.kind != KMap
    ensures Respond(lib, mtu, outMax, b) == if b == [] || outMax < 32 then None else Failure(outMax)
  {
    hide Parse, ErrorReply, Failure;
    FailureIs(outMax);
  }
}
