/** What the responder's reply to each request of the session means to the session: the bytes in
    between, in both directions, are accounted for here. */
module SyncAnswers {
  import opened AttestQuery
  import opened Bits
  import opened Cbor
  import opened CborTree
  import opened Commands
  import opened EncounterRecord
  import opened FileStore
  import opened Pagination
  import opened PeerSync
  import opened SyncWire
  import opened Wrappers

  /** The size of the responder's reply buffer. */
  const REPLY_BUFFER: nat := 512

  /** A library whose listing tells the truth, with names and blobs that the stores accept. */
  ghost predicate Good(lib: Library) {
    && |lib.listing| < 0x8000_0000
    && (forall i :: 0 <= i < |lib.listing| ==>
          var e := lib.listing[i];
          && Listable(e) && ValidName(e.name) && e.name in lib.files && e.size == |lib.files[e.name]|)
    && (forall i, j :: 0 <= i < j < |lib.listing| ==> lib.listing[i].name != lib.listing[j].name)
    && |lib.own| + |lib.cache| < 0x100
    && (forall i :: 0 <= i < |lib.own + lib.cache| ==> Storable((lib.own + lib.cache)[i]))
  }

  /** The requests that a session makes of such a library. */
  ghost predicate Proper(lib: Library, r: Request) {
    match r
    case Ls(offset) => true
    case ReadStart(name) => |name| < 32 && 0 !in name && FileBytes(lib, name).Some? && |FileBytes(lib, name).value| < 0x1_0000_0000
    case ReadChunk(name, offset, size) => |name| < 32 && 0 !in name && FileBytes(lib, name).Some? && offset <= |FileBytes(lib, name).value|
    case ReadMeta(name) => |name| < 32 && 0 !in name
    case AttestQuery(bssids, offset) => 0 < |bssids| <= QUERY_MAX && offset < 0x100
  }

  function PhaseOf(r: Request): Phase {
    match r
    case Ls(_) => PhLs
    case ReadStart(_) => PhReadStart
    case ReadChunk(_, _, _) => PhReadChunk
    case ReadMeta(_) => PhReadMeta
    case AttestQuery(_, _) => PhAttestQuery
  }

  function Message(r: Request): Bytes {
    Reply(RequestKids(r))
  }

  /** The reply to read_meta as it arrives. */
  function MetaReply(lib: Library, mtu: nat, name: Bytes): Bytes {
    Carried(mtu, Header(5, 1) + Header(3, 4) + K_META + SidecarBytes(lib, name))
  }

  /** The sidecar of a file as the session will store it, if at all. */
  function MetaAnswer(lib: Library, mtu: nat, name: Bytes): Option<Bytes> {
    var a := Interpret(PhReadMeta, MetaReply(lib, mtu, name));
    if a.Meta? then a.raw else None
  }

  /** The links that carry an empty page of every kind. */
  const MTU_MIN: nat := 34

  /** The meaning of the responder's reply. */
  function AnswerTo(lib: Library, mtu: nat, r: Request): Answer {
    match r
    case Ls(offset) =>
      var (page, next) := LsPage(lib.listing, offset, Budget(mtu, REPLY_BUFFER));
      if next < 0x1_0000_0000 then Listing(page, next) else Refused
    case ReadStart(name) =>
      var f := FileBytes(lib, name);
      if f.Some? && |f.value| < 0x1_0000_0000 then Size(|f.value|) else Refused
    case ReadChunk(name, offset, size) =>
      var f := FileBytes(lib, name);
      if f.None? then Refused else Data(Slice(f.value, offset, if size > SafeChunk(mtu) then SafeChunk(mtu) else size))
    case ReadMeta(name) => Meta(MetaAnswer(lib, mtu, name))
    case AttestQuery(bssids, offset) =>
      var (page, more) := BlobPage(Matching(lib.own + lib.cache, bssids), offset, BlobRoom(Budget(mtu, REPLY_BUFFER)));
      Blobs(page, if more then (offset + |page|) % 0x1_0000_0000 else 0)
  }

  /** There is a reply, and the session reads what arrives of it as its meaning. */
  predicate IsAnswered(lib: Library, mtu: nat, r: Request) {
    var reply := Respond(lib, mtu, REPLY_BUFFER, Message(r));
    reply.Some? && Interpret(PhaseOf(r), Carried(mtu, reply.value)) == AnswerTo(lib, mtu, r)
  }

  /** The reply fits the buffer, and the link too unless a sidecar makes it too long. */
  predicate ReplyFits(lib: Library, mtu: nat, r: Request) {
    var reply := Respond(lib, mtu, REPLY_BUFFER, Message(r));
    reply.Some? ==>
      && |reply.value| <= REPLY_BUFFER
      && (|reply.value| <= LinkBytes(mtu) || (r.ReadMeta? && 6 + |SidecarBytes(lib, r.name)| > LinkBytes(mtu)))
  }

  // ---- requests as the responder reads them ----

  lemma {:induction false} FirstKey(kids: seq<Value>, key: Bytes)
    requires |kids| % 2 == 0 && |kids| >= 2 && kids[0] == Text(key)
    ensures TreeFind(kids, key) == Some(kids[1])
  {
  }

  lemma {:induction false} LaterKey(kids: seq<Value>, other: Bytes, key: Bytes)
    requires |kids| % 2 == 0 && |kids| >= 2 && kids[0] == Text(other) && other != key
    ensures TreeFind(kids, key) == TreeFind(kids[2..], key)
  {
  }

  lemma {:induction false} KeysDiffer()
    ensures K_CMD != K_NAME && K_CMD != K_OFFSET && K_CMD != K_SIZE && K_CMD != K_BSSIDS
    ensures K_NAME != K_OFFSET && K_NAME != K_SIZE && K_OFFSET != K_SIZE && K_BSSIDS != K_OFFSET
    ensures K_OK != K_SIZE && K_OK != K_DATA && K_OK != K_BLOBS && K_OK != K_NEXT && K_OK != K_ERROR
    ensures K_FILES != K_NEXT && K_BLOBS != K_NEXT && K_FILES != K_ERROR && K_NEXT != K_ERROR && K_SIZE != K_ERROR
    ensures K_DATA != K_ERROR && K_BLOBS != K_ERROR && K_META != K_ERROR
  {
    assert K_NAME[0] != K_SIZE[0] && K_BSSIDS[0] != K_OFFSET[0];
    assert K_FILES[0] != K_ERROR[0] && K_BLOBS[0] != K_ERROR[0];
  }

  lemma {:induction false} CommandsDiffer()
    ensures C_LS != C_READ_START && C_LS != C_READ_CHUNK && C_LS != C_READ_META && C_LS != C_ATTEST_QUERY
    ensures C_READ_START != C_READ_CHUNK && C_READ_START != C_READ_META && C_READ_START != C_ATTEST_QUERY
    ensures C_READ_CHUNK != C_READ_META && C_READ_CHUNK != C_ATTEST_QUERY && C_READ_META != C_ATTEST_QUERY
    ensures 0 !in C_LS && 0 !in C_READ_START && 0 !in C_READ_CHUNK && 0 !in C_READ_META && 0 !in C_ATTEST_QUERY
    ensures |C_LS| < 24 && |C_READ_START| < 24 && |C_READ_CHUNK| < 24 && |C_READ_META| < 24 && |C_ATTEST_QUERY| < 24
  {
    assert C_READ_START[5] != C_READ_CHUNK[5];
  }

  lemma {:induction false} TextIs(kids: seq<Value>, key: Bytes, room: nat, s: Bytes)
    requires |kids| % 2 == 0 && TreeFind(kids, key) == Some(Text(s)) && |s| < room && 0 !in s
    ensures TreeText(kids, key, room) == Some(s)
  {
  }

  lemma {:induction false} UIntIs(kids: seq<Value>, key: Bytes, n: U64)
    requires |kids| % 2 == 0 && AllFit(kids) && TreeFind(kids, key) == Some(UInt(n))
    ensures TreeUInt(kids, key) == Some(n)
  {
  }

  lemma {:induction false} LsFields(offset: U32)
    ensures var kids := RequestKids(Ls(offset));
      |kids| % 2 == 0 && AllFit(kids) && TreeText(kids, K_CMD, 24) == Some(C_LS) && TreeUInt(kids, K_OFFSET) == Some(offset)
  {
    hide TreeFind, TreeText, TreeUInt;
    KeysDiffer();
    CommandsDiffer();
    var kids := RequestKids(Ls(offset));
    assert AllFit(kids);
    FirstKey(kids, K_CMD);
    TextIs(kids, K_CMD, 24, C_LS);
    LaterKey(kids, K_CMD, K_OFFSET);
    FirstKey(kids[2..], K_OFFSET);
    UIntIs(kids, K_OFFSET, offset);
  }

  /** A command that carries only a file name. */
  lemma {:induction false} NameFields(r: Request, cmd: Bytes)
    requires r.ReadStart? || r.ReadMeta?
    requires cmd == if r.ReadStart? then C_READ_START else C_READ_META
    requires |r.name| < 32 && 0 !in r.name
    ensures var kids := RequestKids(r);
      |kids| % 2 == 0 && AllFit(kids) && TreeText(kids, K_CMD, 24) == Some(cmd) && TreeText(kids, K_NAME, 32) == Some(r.name)
  {
    hide TreeFind, TreeText, TreeUInt, Fits;
    KeysDiffer();
    CommandsDiffer();
    var kids := RequestKids(r);
    NameFits(r);
    FirstKey(kids, K_CMD);
    TextIs(kids, K_CMD, 24, cmd);
    LaterKey(kids, K_CMD, K_NAME);
    FirstKey(kids[2..], K_NAME);
    TextIs(kids, K_NAME, 32, r.name);
  }

  lemma {:induction false} NameFits(r: Request)
    requires (r.ReadStart? || r.ReadMeta?) && |r.name| < 32
    ensures AllFit(RequestKids(r))
  {
  }

  lemma {:induction false} ReadChunkFields(name: Bytes, offset: U32, size: U32)
    requires |name| < 32 && 0 !in name
    ensures var kids := RequestKids(ReadChunk(name, offset, size));
      && |kids| % 2 == 0 && AllFit(kids) && TreeText(kids, K_CMD, 24) == Some(C_READ_CHUNK) && TreeText(kids, K_NAME, 32) == Some(name)
      && TreeUInt(kids, K_OFFSET) == Some(offset) && TreeUInt(kids, K_SIZE) == Some(size)
  {
    hide TreeFind, TreeText, TreeUInt, Fits;
    KeysDiffer();
    CommandsDiffer();
    var kids := RequestKids(ReadChunk(name, offset, size));
    ReadChunkFits(name, offset, size);
    assert kids[2..][2..] == kids[4..] && kids[4..][2..] == kids[6..];
    FirstKey(kids, K_CMD);
    TextIs(kids, K_CMD, 24, C_READ_CHUNK);
    LaterKey(kids, K_CMD, K_NAME);
    FirstKey(kids[2..], K_NAME);
    TextIs(kids, K_NAME, 32, name);
    LaterKey(kids, K_CMD, K_OFFSET);
    LaterKey(kids[2..], K_NAME, K_OFFSET);
    FirstKey(kids[4..], K_OFFSET);
    UIntIs(kids, K_OFFSET, offset);
    LaterKey(kids, K_CMD, K_SIZE);
    LaterKey(kids[2..], K_NAME, K_SIZE);
    LaterKey(kids[4..], K_OFFSET, K_SIZE);
    FirstKey(kids[6..], K_SIZE);
    UIntIs(kids, K_SIZE, size);
  }

  lemma {:induction false} ReadChunkFits(name: Bytes, offset: U32, size: U32)
    requires |name| < 32
    ensures AllFit(RequestKids(ReadChunk(name, offset, size)))
  {
  }

  lemma {:induction false} AttestFields(bssids: seq<Bssid>, offset: U32)
    requires |bssids| <= QUERY_MAX
    ensures var kids := RequestKids(AttestQuery(bssids, offset));
      && |kids| % 2 == 0 && AllFit(kids) && TreeText(kids, K_CMD, 24) == Some(C_ATTEST_QUERY)
      && TreeFind(kids, K_BSSIDS) == Some(Array(Strings(bssids)))
      && Or0(TreeUInt(kids, K_OFFSET)) == offset
  {
    hide TreeFind, TreeText, TreeUInt, Fits, Strings;
    KeysDiffer();
    CommandsDiffer();
    AttestKidsFit(bssids, offset);
    var kids := RequestKids(AttestQuery(bssids, offset));
    assert kids[2..][2..] == kids[4..];
    FirstKey(kids, K_CMD);
    TextIs(kids, K_CMD, 24, C_ATTEST_QUERY);
    LaterKey(kids, K_CMD, K_BSSIDS);
    FirstKey(kids[2..], K_BSSIDS);
    LaterKey(kids, K_CMD, K_OFFSET);
    LaterKey(kids[2..], K_BSSIDS, K_OFFSET);
    if offset > 0 {
      FirstKey(kids[4..], K_OFFSET);
      UIntIs(kids, K_OFFSET, offset);
    } else {
      NoKey(kids[4..], K_OFFSET);
      NoUInt(kids, K_OFFSET);
    }
  }

  lemma {:induction false} AttestKidsFit(bssids: seq<Bssid>, offset: U32)
    requires |bssids| <= QUERY_MAX
    ensures AllFit(RequestKids(AttestQuery(bssids, offset))) && DepthAll(RequestKids(AttestQuery(bssids, offset))) <= 2
  {
    StringsEncoding(bssids);
    KidsDepth(RequestKids(AttestQuery(bssids, offset)), 1);
  }

  lemma {:induction false} NoKey(kids: seq<Value>, key: Bytes)
    requires kids == []
    ensures TreeFind(kids, key) == None
  {
  }

  // ---- the replies ----

  /** A small map as a message. */
  lemma {:induction false} SmallMap(kids: seq<Value>)
    requires AllFit(kids) && |kids| % 2 == 0 && |kids| < 48
    ensures Fits(Map(kids)) && Reply(kids) == Encode(Map(kids)) && Reply(kids) != []
  {
  }

  /** A request reaches its handler. */
  lemma {:induction false} Dispatch(lib: Library, mtu: nat, kids: seq<Value>, cmd: Bytes) returns (top: Item)
    requires AllFit(kids) && |kids| % 2 == 0 && |kids| < 48 && DepthAll(kids) <= 2
    requires TreeText(kids, K_CMD, 24) == Some(cmd)
    ensures IsMap(Reply(kids), top, kids) && top.data <= |Reply(kids)|
    ensures Respond(lib, mtu, REPLY_BUFFER, Reply(kids)) ==
      if cmd == C_LS then CmdLs(lib, Reply(kids), top, mtu, REPLY_BUFFER)
      else if cmd == C_READ_START then CmdReadStart(lib, Reply(kids), top, REPLY_BUFFER)
      else if cmd == C_READ_CHUNK then CmdReadChunk(lib, Reply(kids), top, mtu, REPLY_BUFFER)
      else if cmd == C_READ_META then CmdReadMeta(lib, Reply(kids), top, REPLY_BUFFER)
      else if cmd == C_ATTEST_QUERY then CmdAttestQuery(lib, Reply(kids), top, mtu, REPLY_BUFFER)
      else None
  {
    hide TreeText, AllFit, DepthAll, Encode, Parse, TextField, Reply, IsMap, CmdLs, CmdReadStart, CmdReadChunk, CmdReadMeta, CmdAttestQuery;
    SmallMap(kids);
    top := MessageMap(kids, Reply(kids));
    MapInside(Reply(kids), top, kids);
    TextShows(Reply(kids), top, kids, K_CMD, 24);
  }

  lemma {:induction false} LsReplies(lib: Library, mtu: nat, offset: U32)
    ensures var (page, next) := LsPage(lib.listing, offset, Budget(mtu, REPLY_BUFFER));
      Respond(lib, mtu, REPLY_BUFFER, Message(Ls(offset))) == Some(Reply(LsKids(page, next)))
  {
    hide TreeText, TreeUInt, TreeFind, Parse, MapFind, Encode, IsMap, LsPage, Respond, UIntField, AllFit, DepthAll, LsKids;
    var kids := RequestKids(Ls(offset));
    LsFields(offset);
    KidsDepth(kids, 1);
    var top := Dispatch(lib, mtu, kids, C_LS);
    UIntShows(Message(Ls(offset)), top, kids, K_OFFSET);
  }

  lemma {:induction false} LsAnswered(lib: Library, mtu: nat, offset: U32)
    requires Good(lib) && mtu >= MTU_MIN
    ensures IsAnswered(lib, mtu, Ls(offset)) && ReplyFits(lib, mtu, Ls(offset))
  {
    hide Interpret, Respond, Reply, LsPage, LsKids, Message;
    LsReplies(lib, mtu, offset);
    var (page, next) := LsPage(lib.listing, offset, Budget(mtu, REPLY_BUFFER));
    LsPageMeans(lib.listing, offset, Budget(mtu, REPLY_BUFFER));
    LsReplyLength(lib.listing, offset, Budget(mtu, REPLY_BUFFER));
    ListingRead(page, next);
  }

  lemma {:induction false} ListingRead(page: seq<Entry>, next: U32)
    requires (forall i :: 0 <= i < |page| ==> Listable(page[i])) && |page| <= LS_PAGE
    ensures Interpret(PhLs, Reply(LsKids(page, next))) == Listing(page, next)
  {
    hide TreeUInt, TreeFind, Parse, MapFind, Encode, EncodeAll, Holds, IsMap, UIntField, DepthAll, ReadEntries, Strings, Listable, Fits, LsKids, OuterMap;
    var kids := LsKids(page, next);
    EntriesFit(page);
    LsKidsFit(page, next);
    LsFound(page, next);
    SmallMap(kids);
    var b := Reply(kids);
    var top := MessageOk(kids, b);
    UIntShows(b, top, kids, K_NEXT);
    FindInMessage(b, top, kids, K_FILES);
    var item := MapFind(b, top.data, |b|, top.arg, K_FILES).value;
    InnerArray(b, item.start, EntryValues(page));
    ReadEntriesEncoded(b, item.data, page, PAGE);
  }

  /** What the fields of an ls reply hold. */
  lemma {:induction false} LsFound(page: seq<Entry>, next: U32)
    requires AllFit(LsKids(page, next))
    ensures var kids := LsKids(page, next);
      && |kids| <= 4 && TreeFind(kids, K_FILES) == Some(Array(EntryValues(page))) && TreeFind(kids, K_ERROR).None?
      && Or0(TreeUInt(kids, K_NEXT)) == next
  {
    hide TreeUInt, TreeFind, EntryValues, Fits;
    var kids := LsKids(page, next);
    KeysDiffer();
    FirstKey(kids, K_FILES);
    LaterKey(kids, K_FILES, K_NEXT);
    LaterKey(kids, K_FILES, K_ERROR);
    if next > 0 {
      assert kids[2..] == [Text(K_NEXT), UInt(next)];
      FirstKey(kids[2..], K_NEXT);
      LaterKey(kids[2..], K_NEXT, K_ERROR);
      NoKey(kids[2..][2..], K_ERROR);
      UIntIs(kids, K_NEXT, next);
    } else {
      NoKey(kids[2..], K_NEXT);
      NoKey(kids[2..], K_ERROR);
      NoUInt(kids, K_NEXT);
    }
  }

  lemma {:induction false} NoUInt(kids: seq<Value>, key: Bytes)
    requires |kids| % 2 == 0 && AllFit(kids)
    ensures TreeFind(kids, key).None? ==> TreeUInt(kids, key).None?
  {
  }

  lemma {:induction false} LsKidsFit(page: seq<Entry>, next: U32)
    requires AllFit(EntryValues(page)) && DepthAll(EntryValues(page)) <= 2 && |page| <= LS_PAGE
    ensures AllFit(LsKids(page, next)) && DepthAll(LsKids(page, next)) <= 3
  {
    hide EntryValues;
    var kids := LsKids(page, next);
    assert Fits(Array(EntryValues(page))) && Depth(Array(EntryValues(page))) <= 2;
    KidsDepth(kids, 2);
  }

  /** The item found under a key of a message. */
  lemma {:induction false} FindInMessage(b: Bytes, top: Item, kids: seq<Value>, key: Bytes)
    requires IsMap(b, top, kids) && TreeFind(kids, key).Some?
    ensures var item := MapFind(b, top.data, |b|, top.arg, key);
      && item.Some? && Fits(TreeFind(kids, key).value) && HoldsItem(b, item.value, TreeFind(kids, key).value)
  {
    hide TreeFind, MapFind, Encode, EncodeAll, HoldsItem, Fits, Depth, DepthAll, Holds;
    FindShows(kids, b, top.data, key);
  }

  /** A small reply of two entries, `ok` and one field. */
  lemma {:induction false} OkReply(key: Bytes, v: Value) returns (top: Item)
    requires Fits(v) && Depth(v) <= 1 && key != K_OK && key != K_ERROR
    requires |key| < 24
    ensures var kids := [Text(K_OK), Bool(true), Text(key), v];
      && AllFit(kids) && OuterMap(Reply(kids)) == Some(top) && IsMap(Reply(kids), top, kids) && TreeFind(kids, key) == Some(v)
  {
    hide TreeFind, Parse, MapFind, Encode, EncodeAll, Holds, IsMap, DepthAll;
    var kids := [Text(K_OK), Bool(true), Text(key), v];
    KeysDiffer();
    assert AllFit(kids);
    KidsDepth(kids, 1);
    SmallMap(kids);
    LaterKey(kids, K_OK, key);
    FirstKey(kids[2..], key);
    LaterKey(kids, K_OK, K_ERROR);
    LaterKey(kids[2..], key, K_ERROR);
    NoKey(kids[2..][2..], K_ERROR);
    top := MessageOk(kids, Reply(kids));
  }

  function SizeKids(n: U32): seq<Value> {
    [Text(K_OK), Bool(true), Text(K_SIZE), UInt(n)]
  }

  lemma {:induction false} ReadStartReplies(lib: Library, mtu: nat, name: Bytes)
    requires |name| < 32 && 0 !in name && FileBytes(lib, name).Some? && |FileBytes(lib, name).value| < 0x1_0000_0000
    ensures Respond(lib, mtu, REPLY_BUFFER, Message(ReadStart(name))) == Some(Reply(SizeKids(|FileBytes(lib, name).value|)))
  {
    hide TreeText, TreeUInt, TreeFind, Parse, MapFind, Encode, IsMap, Respond, UIntField, TextField, AllFit, DepthAll, OuterMap;
    var kids := RequestKids(ReadStart(name));
    CommandsDiffer();
    KeysDiffer();
    NameFields(ReadStart(name), C_READ_START);
    KidsDepth(kids, 1);
    var top := Dispatch(lib, mtu, kids, C_READ_START);
    TextShows(Message(ReadStart(name)), top, kids, K_NAME, 32);
  }

  lemma {:induction false} ReadStartAnswered(lib: Library, mtu: nat, name: Bytes)
    requires |name| < 32 && 0 !in name && FileBytes(lib, name).Some? && |FileBytes(lib, name).value| < 0x1_0000_0000
    requires mtu >= MTU_MIN
    ensures IsAnswered(lib, mtu, ReadStart(name)) && ReplyFits(lib, mtu, ReadStart(name))
  {
    hide Interpret, Respond, Reply, SizeKids, FileBytes, Message;
    ReadStartReplies(lib, mtu, name);
    SizeRead(|FileBytes(lib, name).value|);
    SizeReplyLength(|FileBytes(lib, name).value|);
  }

  /** The length of a small reply of two entries. */
  lemma {:induction false} OkReplyLength(key: Bytes, v: Value)
    requires Fits(v) && |key| == 4
    ensures |Reply([Text(K_OK), Bool(true), Text(key), v])| == 10 + |Encode(v)|
  {
    hide Header, Fits;
    var kids := [Text(K_OK), Bool(true), Text(key), v];
    KeysFit(key);
    assert AllFit(kids);
    MapLength(kids);
    assert kids[1..][1..] == kids[2..] && kids[2..][1..] == kids[3..] && kids[3..][1..] == [];
    assert EncodeAll(kids[3..]) == Encode(kids[3]) + EncodeAll([]);
    assert EncodeAll(kids[2..]) == Encode(kids[2]) + EncodeAll(kids[3..]);
    assert EncodeAll(kids[1..]) == Encode(kids[1]) + EncodeAll(kids[2..]);
    assert |Header(3, 2)| == 1 && |Header(3, 4)| == 1;
  }

  lemma {:induction false} KeysFit(key: Bytes)
    requires |key| == 4
    ensures Fits(Text(K_OK)) && Fits(Bool(true)) && Fits(Text(key))
  {
  }

  lemma {:induction false} SizeReplyLength(n: U32)
    ensures |Reply(SizeKids(n))| <= 15
  {
    hide Reply;
    OkReplyLength(K_SIZE, UInt(n));
  }

  /** The bytes of a file are sent with at most 12 bytes around them. */
  lemma {:induction false} DataReplyLength(data: Bytes)
    requires |data| <= MAX_INLINE_DATA
    ensures |Reply(DataKids(data))| == (if |data| < 24 then 11 else 12) + |data|
  {
    hide Reply;
    OkReplyLength(K_DATA, Str(data));
  }

  lemma {:induction false} SizeRead(n: U32)
    ensures Interpret(PhReadStart, Reply(SizeKids(n))) == Size(n)
  {
    hide TreeText, TreeUInt, TreeFind, Parse, MapFind, Encode, IsMap, UIntField, AllFit, DepthAll, OuterMap, Reply;
    KeysDiffer();
    var t := OkReply(K_SIZE, UInt(n));
    var answer := [Text(K_OK), Bool(true), Text(K_SIZE), UInt(n)];
    UIntIs(answer, K_SIZE, n);
    UIntShows(Reply(answer), t, answer, K_SIZE);
  }

  function DataKids(data: Bytes): seq<Value> {
    [Text(K_OK), Bool(true), Text(K_DATA), Str(data)]
  }

  lemma {:induction false} DataRead(data: Bytes)
    requires |data| < 0x1_0000_0000
    ensures Interpret(PhReadChunk, Reply(DataKids(data))) == Data(data)
  {
    hide TreeText, TreeUInt, TreeFind, Parse, MapFind, Encode, IsMap, UIntField, TextField, BytesField, AllFit, DepthAll, OuterMap, Reply;
    KeysDiffer();
    var t := OkReply(K_DATA, Str(data));
    var answer := [Text(K_OK), Bool(true), Text(K_DATA), Str(data)];
    BytesIs(answer, K_DATA, data);
    BytesShows(Reply(answer), t, answer, K_DATA);
  }

  /** What a request for a chunk is answered with. */
  function ChunkOf(lib: Library, mtu: nat, name: Bytes, offset: nat, size: nat): Bytes
    requires FileBytes(lib, name).Some?
  {
    Slice(FileBytes(lib, name).value, offset, if size > SafeChunk(mtu) then SafeChunk(mtu) else size)
  }

  lemma {:induction false} ReadChunkReplies(lib: Library, mtu: nat, name: Bytes, offset: U32, size: U32)
    requires |name| < 32 && 0 !in name && FileBytes(lib, name).Some? && offset <= |FileBytes(lib, name).value|
    ensures Respond(lib, mtu, REPLY_BUFFER, Message(ReadChunk(name, offset, size))) == Some(Reply(DataKids(ChunkOf(lib, mtu, name, offset, size))))
  {
    hide TreeText, TreeUInt, TreeFind, Parse, MapFind, Encode, IsMap, Respond, UIntField, TextField, BytesField, AllFit, DepthAll, OuterMap, Slice;
    var kids := RequestKids(ReadChunk(name, offset, size));
    CommandsDiffer();
    KeysDiffer();
    ReadChunkFields(name, offset, size);
    KidsDepth(kids, 1);
    var m := Message(ReadChunk(name, offset, size));
    var top := Dispatch(lib, mtu, kids, C_READ_CHUNK);
    TextShows(m, top, kids, K_NAME, 32);
    UIntShows(m, top, kids, K_OFFSET);
    UIntShows(m, top, kids, K_SIZE);
  }

  lemma {:induction false} ReadChunkAnswered(lib: Library, mtu: nat, name: Bytes, offset: U32, size: U32)
    requires |name| < 32 && 0 !in name && FileBytes(lib, name).Some? && offset <= |FileBytes(lib, name).value| && mtu >= MTU_MIN
    ensures IsAnswered(lib, mtu, ReadChunk(name, offset, size)) && ReplyFits(lib, mtu, ReadChunk(name, offset, size))
  {
    hide Interpret, Respond, Reply, DataKids, FileBytes, Message, Slice;
    ReadChunkReplies(lib, mtu, name, offset, size);
    var data := ChunkOf(lib, mtu, name, offset, size);
    SliceLength(FileBytes(lib, name).value, offset, if size > SafeChunk(mtu) then SafeChunk(mtu) else size);
    DataRead(data);
    DataReplyLength(data);
  }

  lemma {:induction false} SliceLength(f: Bytes, offset: nat, size: nat)
    ensures |Slice(f, offset, size)| <= size
  {
  }

  lemma {:induction false} BytesIs(kids: seq<Value>, key: Bytes, s: Bytes)
    requires |kids| % 2 == 0 && TreeFind(kids, key) == Some(Str(s))
    ensures TreeBytes(kids, key) == Some(s)
  {
  }

  lemma {:induction false} ReadMetaAnswered(lib: Library, mtu: nat, name: Bytes)
    requires |name| < 32 && 0 !in name
    ensures IsAnswered(lib, mtu, ReadMeta(name)) && ReplyFits(lib, mtu, ReadMeta(name))
  {
    hide Interpret, Respond, Header, SidecarBytes, Message;
    ReadMetaReplies(lib, mtu, name);
    MetaIsMeta(MetaReply(lib, mtu, name));
  }

  lemma {:induction false} MetaIsMeta(b: Bytes)
    ensures Interpret(PhReadMeta, b).Meta?
  {
    hide OuterMap, MapFind;
  }

  lemma {:induction false} ReadMetaReplies(lib: Library, mtu: nat, name: Bytes)
    requires |name| < 32 && 0 !in name
    ensures Respond(lib, mtu, REPLY_BUFFER, Message(ReadMeta(name))) == Some(Header(5, 1) + Header(3, 4) + K_META + SidecarBytes(lib, name))
    ensures |Header(5, 1) + Header(3, 4) + K_META| == 6 && |SidecarBytes(lib, name)| <= META_MAX
  {
    hide TreeText, TreeUInt, TreeFind, Parse, MapFind, Encode, IsMap, Respond, TextField, AllFit, DepthAll;
    var kids := RequestKids(ReadMeta(name));
    CommandsDiffer();
    NameFields(ReadMeta(name), C_READ_META);
    KidsDepth(kids, 1);
    var top := Dispatch(lib, mtu, kids, C_READ_META);
    TextShows(Message(ReadMeta(name)), top, kids, K_NAME, 32);
  }

  /** Which sidecars arrive. One that is an encoded map arrives byte for byte if it fits the read
      buffer and, with the six bytes in front, the link; otherwise it is cut on the way, the cut
      reply does not parse, and none is stored. A missing sidecar arrives as an empty map. */
  lemma {:induction false} SidecarArrives(lib: Library, mtu: nat, name: Bytes, kids: seq<Value>)
    requires Fits(Map(kids)) && DepthAll(kids) < MAX_DEPTH && mtu >= MTU_MIN
    requires if HasSidecar(lib, name) then lib.meta[name] == Encode(Map(kids)) else kids == []
    ensures var meta := Encode(Map(kids));
      MetaAnswer(lib, mtu, name) == if |meta| <= 200 && 6 + |meta| <= LinkBytes(mtu) then Some(meta) else None
  {
    hide Parse, MapFind, EncodeAll, DepthAll, Encode, OuterMap, Fits;
    var meta, outer := Encode(Map(kids)), [Text(K_META), Map(kids)];
    EmptyMap();
    MetaFits(kids);
    MetaBytes(kids);
    var whole := Encode(Map(outer));
    var n := |MetaReply(lib, mtu, name)|;
    assert MetaReply(lib, mtu, name) == whole[..n] by {
      assert Header(5, 1) + Header(3, 4) + K_META + meta[..|SidecarBytes(lib, name)|] == whole[..6 + |SidecarBytes(lib, name)|];
    }
    if n == |whole| {
      assert whole[..n] == whole;
      MetaRead(kids);
    } else {
      CutFails(Map(outer), n);
      NoMeta(whole[..n]);
    }
  }

  lemma {:induction false} NoMeta(b: Bytes)
    requires Parse(b, 0, |b|, 0).None?
    ensures Interpret(PhReadMeta, b) == Meta(None)
  {
    hide Parse;
  }

  lemma {:induction false} EmptyMap()
    ensures Encode(Map([])) == [0xa0]
  {
  }

  lemma {:induction false} MetaFits(kids: seq<Value>)
    requires Fits(Map(kids)) && DepthAll(kids) < MAX_DEPTH
    ensures var outer := [Text(K_META), Map(kids)];
      AllFit(outer) && Fits(Map(outer)) && DepthAll(outer) <= MAX_DEPTH && Depth(Map(outer)) <= MAX_DEPTH && Reply(outer) == Encode(Map(outer))
  {
    hide EncodeAll, DepthAll, Header;
    var outer := [Text(K_META), Map(kids)];
    MapDepth(kids);
    KidsDepth(outer, MAX_DEPTH - 1);
    MapDepth(outer);
    SmallMap(outer);
  }

  lemma {:induction false} MetaRead(kids: seq<Value>)
    requires Fits(Map(kids)) && DepthAll(kids) < MAX_DEPTH && Fits(Map([Text(K_META), Map(kids)]))
    ensures Interpret(PhReadMeta, Encode(Map([Text(K_META), Map(kids)]))) == Meta(Some(Encode(Map(kids))))
  {
    hide TreeFind, Parse, MapFind, EncodeAll, Holds, IsMap, DepthAll, Header, Encode, OuterMap;
    KeysDiffer();
    var outer := [Text(K_META), Map(kids)];
    MetaFits(kids);
    var b := Encode(Map(outer));
    LaterKey(outer, K_META, K_ERROR);
    NoKey(outer[2..], K_ERROR);
    FirstKey(outer, K_META);
    var top := MessageOk(outer, b);
    FindInMessage(b, top, outer, K_META);
    var item := MapFind(b, top.data, |b|, top.arg, K_META).value;
    HoldsBytes(b, item.start, |b|, Encode(Map(kids)));
  }

  lemma {:induction false} MetaBytes(kids: seq<Value>)
    requires Fits(Map(kids)) && AllFit([Text(K_META), Map(kids)]) && Reply([Text(K_META), Map(kids)]) == Encode(Map([Text(K_META), Map(kids)]))
    ensures Reply([Text(K_META), Map(kids)]) == Header(5, 1) + Header(3, 4) + K_META + Encode(Map(kids))
  {
    hide Header;
    var outer := [Text(K_META), Map(kids)];
    assert outer[1..] == [Map(kids)] && outer[1..][1..] == [];
    assert EncodeAll(outer[1..]) == Encode(Map(kids)) + EncodeAll([]);
    assert EncodeAll(outer) == (Header(3, 4) + K_META) + EncodeAll(outer[1..]);
  }

  lemma {:induction false} ReadQueryEncoded(b: Bytes, pos: nat, bssids: seq<Bssid>, room: nat)
    requires AllFit(Strings(bssids)) && Holds(b, pos, |b|, EncodeAll(Strings(bssids)))
    ensures pos <= |b| && ReadQuery(b, pos, |bssids|, room) == Some(if |bssids| > room then bssids[..room] else bssids)
    decreases |bssids|
  {
    hide Holds, Encode, Fits, ItemOf, Parse;
    HoldsInside(b, pos, |b|, EncodeAll(Strings(bssids)));
    if bssids != [] && room > 0 {
      var v, rest := Str(bssids[0]), bssids[1..];
      assert Strings(bssids)[0] == v && Strings(bssids)[1..] == Strings(rest);
      HoldsSplit(b, pos, |b|, Encode(v), EncodeAll(Strings(rest)));
      ParseEncoded(v, b, pos, |b|, 0);
      ItemNext(v, pos);
      PayloadShows(b, pos, v);
      ReadQueryEncoded(b, pos + |Encode(v)|, rest, room - 1);
      assert ItemOf(v, pos).arg == ArgOf(v) == 6 && ItemOf(v, pos).kind == KindOf(v) == KBytes;
      assert [bssids[0]] + rest == bssids;
      if |bssids| > room { assert [bssids[0]] + rest[..room - 1] == bssids[..room]; }
    }
  }

  /** A query is answered for its first twelve BSSIDs. */
  lemma {:induction false} QueryHandled(lib: Library, mtu: nat, m: Bytes, top: Item, kids: seq<Value>, bssids: seq<Bssid>, offset: U32)
    requires IsMap(m, top, kids) && top.data <= |m| && 0 < |bssids|
    requires TreeFind(kids, K_BSSIDS) == Some(Array(Strings(bssids))) && Or0(TreeUInt(kids, K_OFFSET)) == offset
    ensures var asked := if |bssids| > 12 then bssids[..12] else bssids;
      var (page, more) := BlobPage(Matching(lib.own + lib.cache, asked), offset, BlobRoom(Budget(mtu, REPLY_BUFFER)));
      CmdAttestQuery(lib, m, top, mtu, REPLY_BUFFER) == Some(Reply(BlobKids(K_BLOBS, page, more, (offset + |page|) % 0x1_0000_0000)))
  {
    hide TreeUInt, TreeFind, MapFind, Encode, EncodeAll, Holds, IsMap, UIntField, DepthAll, Strings, BlobPage, Matching, Budget, ReadQuery, Reply, BlobKids;
    UIntShows(m, top, kids, K_OFFSET);
    FindInMessage(m, top, kids, K_BSSIDS);
    var item := MapFind(m, top.data, |m|, top.arg, K_BSSIDS).value;
    InnerArray(m, item.start, Strings(bssids));
    ReadQueryEncoded(m, item.data, bssids, QUERY_MAX);
  }

  lemma {:induction false} AttestAnswered(lib: Library, mtu: nat, bssids: seq<Bssid>, offset: U32)
    requires Good(lib) && 0 < |bssids| <= QUERY_MAX && offset < 0x100 && mtu >= MTU_MIN
    ensures IsAnswered(lib, mtu, AttestQuery(bssids, offset)) && ReplyFits(lib, mtu, AttestQuery(bssids, offset))
  {
    hide Interpret, Respond, Reply, BlobPage, BlobKids, Matching, Message, Good, BlobRoom, Storable;
    AttestReplies(lib, mtu, bssids, offset);
    var blobs := Matching(lib.own + lib.cache, bssids);
    var (page, more) := BlobPage(blobs, offset, BlobRoom(Budget(mtu, REPLY_BUFFER)));
    PageGood(lib, bssids, offset, BlobRoom(Budget(mtu, REPLY_BUFFER)));
    MatchingGood(lib, bssids);
    AttestReplyLength(blobs, offset, Budget(mtu, REPLY_BUFFER));
    BlobsRead(page, more, offset + |page|);
  }

  lemma {:induction false} AttestReplyLength(blobs: seq<Bytes>, offset: nat, budget: nat)
    requires (forall i :: 0 <= i < |blobs| ==> Storable(blobs[i])) && |blobs| < 0x100 && offset < 0x100
    ensures var (page, more) := BlobPage(blobs, offset, BlobRoom(budget));
      |Reply(BlobKids(K_BLOBS, page, more, (offset + |page|) % 0x1_0000_0000))| <= (if budget >= 31 then budget else 31)
  {
    hide Reply, BlobPage, BlobKids, BlobRoom;
    BlobReplyLength(K_BLOBS, blobs, offset, budget);
  }

  lemma {:induction false} AttestReplies(lib: Library, mtu: nat, bssids: seq<Bssid>, offset: U32)
    requires 0 < |bssids| <= QUERY_MAX
    ensures var (page, more) := BlobPage(Matching(lib.own + lib.cache, bssids), offset, BlobRoom(Budget(mtu, REPLY_BUFFER)));
      Respond(lib, mtu, REPLY_BUFFER, Message(AttestQuery(bssids, offset)))
        == Some(Reply(BlobKids(K_BLOBS, page, more, (offset + |page|) % 0x1_0000_0000)))
  {
    hide TreeText, TreeUInt, TreeFind, Encode, EncodeAll, IsMap, Respond, AllFit, DepthAll, Strings, BlobPage, Matching, Budget, CmdAttestQuery, Interpret, Good, Reply, BlobKids, Storable, BlobRoom, IsMap;
    var kids := RequestKids(AttestQuery(bssids, offset));
    CommandsDiffer();
    AttestFields(bssids, offset);
    AttestKidsFit(bssids, offset);
    var top := Dispatch(lib, mtu, kids, C_ATTEST_QUERY);
    QueryHandled(lib, mtu, Message(AttestQuery(bssids, offset)), top, kids, bssids, offset);
  }

  lemma {:induction false} PageGood(lib: Library, bssids: seq<Bssid>, offset: nat, room: nat)
    requires Good(lib)
    ensures var (page, more) := BlobPage(Matching(lib.own + lib.cache, bssids), offset, room);
      |page| < 0x100 && forall i :: 0 <= i < |page| ==> Storable(page[i])
  {
    hide Good, Matching, BlobPage;
    MatchingGood(lib, bssids);
    BlobPageMeans(Matching(lib.own + lib.cache, bssids), offset, room);
  }

  lemma {:induction false} MatchingGood(lib: Library, bssids: seq<Bssid>)
    requires Good(lib)
    ensures var blobs := Matching(lib.own + lib.cache, bssids);
      |blobs| < 0x100 && forall i :: 0 <= i < |blobs| ==> Storable(blobs[i])
  {
    hide Matches;
    MatchingShorter(lib.own + lib.cache, bssids);
  }

  lemma {:induction false} MatchingShorter(blobs: seq<Bytes>, bssids: seq<Bssid>)
    ensures |Matching(blobs, bssids)| <= |blobs|
  {
    hide Matches;
    if blobs != [] { MatchingShorter(blobs[1..], bssids); }
  }

  lemma {:induction false} BlobFields(page: seq<Bytes>, more: bool, next: U32)
    requires AllFit(BlobKids(K_BLOBS, page, more, next))
    ensures var kids := BlobKids(K_BLOBS, page, more, next);
      && TreeFind(kids, K_BLOBS) == Some(Array(Strings(page))) && TreeFind(kids, K_ERROR).None?
      && TreeUInt(kids, K_NEXT) == if more then Some(next) else None
  {
    hide TreeUInt, TreeFind, Strings, Fits;
    var kids := BlobKids(K_BLOBS, page, more, next);
    KeysDiffer();
    LaterKey(kids, K_OK, K_BLOBS);
    FirstKey(kids[2..], K_BLOBS);
    LaterKey(kids, K_OK, K_NEXT);
    LaterKey(kids[2..], K_BLOBS, K_NEXT);
    LaterKey(kids, K_OK, K_ERROR);
    LaterKey(kids[2..], K_BLOBS, K_ERROR);
    assert kids[2..][2..] == if more then [Text(K_NEXT), UInt(next)] else [];
    if more {
      FirstKey(kids[2..][2..], K_NEXT);
      LaterKey(kids[2..][2..], K_NEXT, K_ERROR);
      NoKey(kids[2..][2..][2..], K_ERROR);
      UIntIs(kids, K_NEXT, next);
    } else {
      NoKey(kids[2..][2..], K_NEXT);
      NoKey(kids[2..][2..], K_ERROR);
      NoUInt(kids, K_NEXT);
    }
  }

  lemma {:induction false} BlobsRead(page: seq<Bytes>, more: bool, next: nat)
    requires (forall i :: 0 <= i < |page| ==> Storable(page[i])) && |page| < 0x100 && next < 0x1_0000_0000
    ensures Interpret(PhAttestQuery, Reply(BlobKids(K_BLOBS, page, more, next))) == Blobs(page, if more then next else 0)
  {
    hide TreeUInt, TreeFind, Parse, MapFind, Encode, EncodeAll, Holds, IsMap, UIntField, DepthAll, ReadBlobs, Strings, Fits, BlobKids, Storable;
    var kids := BlobKids(K_BLOBS, page, more, next);
    BlobsFit(page);
    BlobKidsFit(page, more, next);
    SmallMap(kids);
    BlobFields(page, more, next);
    var b := Reply(kids);
    var top := MessageOk(kids, b);
    UIntShows(b, top, kids, K_NEXT);
    FindInMessage(b, top, kids, K_BLOBS);
    var item := MapFind(b, top.data, |b|, top.arg, K_BLOBS).value;
    InnerArray(b, item.start, Strings(page));
    ReadBlobsEncoded(b, item.data, page);
  }

  lemma {:induction false} BlobKidsFit(page: seq<Bytes>, more: bool, next: nat)
    requires AllFit(Strings(page)) && DepthAll(Strings(page)) <= 1 && |page| < 0x100 && next < 0x1_0000_0000
    ensures AllFit(BlobKids(K_BLOBS, page, more, next)) && DepthAll(BlobKids(K_BLOBS, page, more, next)) <= 2
    ensures |BlobKids(K_BLOBS, page, more, next)| <= 6
  {
    hide Strings;
    var kids := BlobKids(K_BLOBS, page, more, next);
    assert Fits(Array(Strings(page))) && Depth(Array(Strings(page))) <= 1;
    KidsDepth(kids, 1);
  }

  /** Every proper request is answered with a reply that fits the link, but for long sidecars,
      and the session reads what arrives as it is meant. */
  lemma {:induction false} Answered(lib: Library, mtu: nat, r: Request)
    requires Good(lib) && Proper(lib, r) && mtu >= MTU_MIN
    ensures IsAnswered(lib, mtu, r) && ReplyFits(lib, mtu, r)
  {
    hide IsAnswered, ReplyFits, Good, Respond;
    match r
    case Ls(offset) => LsAnswered(lib, mtu, offset);
    case ReadStart(name) => ReadStartAnswered(lib, mtu, name);
    case ReadChunk(name, offset, size) => ReadChunkAnswered(lib, mtu, name, offset, size);
    case ReadMeta(name) => ReadMetaAnswered(lib, mtu, name);
    case AttestQuery(bssids, offset) => AttestAnswered(lib, mtu, bssids, offset);
  }
}
