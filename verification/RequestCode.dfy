/** The session's request encoders, writing into the caller's buffer, and the buffer that they
    need. */
module RequestCode {
  import opened Bits
  import opened Cbor
  import opened CborCode
  import opened CborTree
  import opened Commands
  import opened EncounterRecord
  import opened Pagination
  import opened PeerSync
  import opened RecordCode
  import opened SyncAnswers

  // ---- lengths ----

  /** What a request stays within: names that fit a session's name buffer, and one batch. */
  predicate Bounded(r: Request) {
    && (r.ReadStart? || r.ReadChunk? || r.ReadMeta? ==> |r.name| < 32)
    && (r.AttestQuery? ==> |r.bssids| <= BSSID_BATCH_MAX)
  }

  function NameSize(name: Bytes): nat {
    ArgSize(|name|) + |name|
  }

  /** The bytes that a request takes on the wire. */
  function RequestSize(r: Request): nat {
    match r
    case Ls(offset) => 15 + ArgSize(offset)
    case ReadStart(name) => 21 + NameSize(name)
    case ReadChunk(name, offset, size) => 33 + NameSize(name) + ArgSize(offset) + ArgSize(size)
    case ReadMeta(name) => 20 + NameSize(name)
    case AttestQuery(bssids, offset) => 26 + 7 * |bssids| + if offset > 0 then 7 + ArgSize(offset) else 0
  }

  lemma {:induction false} RequestFits(r: Request)
    requires Bounded(r)
    ensures AllFit(RequestKids(r)) && |RequestKids(r)| % 2 == 0 && |RequestKids(r)| < 24
    ensures Message(r) == Encode(Map(RequestKids(r))) && |Message(r)| == 1 + |EncodeAll(RequestKids(r))|
  {
    hide Encode, EncodeAll, Reply;
    if r.AttestQuery? { AttestKidsFit(r.bssids, r.offset); }
    MapLength(RequestKids(r));
  }

  lemma {:induction false} OneMore(kids: seq<Value>)
    requires kids != [] && AllFit(kids)
    ensures Fits(kids[0]) && AllFit(kids[1..]) && |EncodeAll(kids)| == |Encode(kids[0])| + |EncodeAll(kids[1..])|
  {
    hide Encode;
  }

  lemma {:induction false} TextSize(s: Bytes)
    requires |s| < 0x1_0000
    ensures Fits(Text(s)) && |Encode(Text(s))| == ArgSize(|s|) + |s|
  {
  }

  lemma {:induction false} NumberSize(n: U32)
    ensures |Encode(UInt(n))| == ArgSize(n)
  {
  }

  lemma {:induction false} ListSize(list: seq<Bssid>)
    requires |list| < 24
    ensures Fits(Array(Strings(list))) && |Encode(Array(Strings(list)))| == 1 + 7 * |list|
  {
    hide Encode, EncodeAll, Strings, Header;
    StringsEncoding(list);
    ArrayEncoding(list);
  }

  lemma {:induction false} FourMore(kids: seq<Value>)
    requires |kids| >= 4 && AllFit(kids)
    ensures Fits(kids[0]) && Fits(kids[1]) && Fits(kids[2]) && Fits(kids[3]) && AllFit(kids[4..])
    ensures |EncodeAll(kids)| == |Encode(kids[0])| + |Encode(kids[1])| + |Encode(kids[2])| + |Encode(kids[3])| + |EncodeAll(kids[4..])|
  {
    hide Encode, EncodeAll, Fits, AllFit;
    OneMore(kids);
    OneMore(kids[1..]);
    OneMore(kids[2..]);
    OneMore(kids[3..]);
    assert kids[1..][1..] == kids[2..] && kids[2..][1..] == kids[3..] && kids[3..][1..] == kids[4..];
  }

  /** The size is exact. */
  lemma {:induction false} RequestSizeExact(r: Request)
    requires Bounded(r)
    ensures |Message(r)| == RequestSize(r)
  {
    hide Encode, EncodeAll, Fits, AllFit, ArgSize, Message;
    RequestFits(r);
    SmallArgs();
    var kids := RequestKids(r);
    FourMore(kids);
    TextSize(K_CMD);
    match r
    case Ls(offset) => TextSize(C_LS); TextSize(K_OFFSET); NumberSize(offset); NoSize(kids[4..]);
    case ReadStart(name) => TextSize(C_READ_START); TextSize(K_NAME); TextSize(name); NoSize(kids[4..]);
    case ReadMeta(name) => TextSize(C_READ_META); TextSize(K_NAME); TextSize(name); NoSize(kids[4..]);
    case ReadChunk(name, offset, size) => TextSize(C_READ_CHUNK); TextSize(K_NAME); TextSize(name); ChunkTail(kids[4..], offset, size);
    case AttestQuery(bssids, offset) => TextSize(C_ATTEST_QUERY); TextSize(K_BSSIDS); ListSize(bssids); AttestTail(kids[4..], offset);
  }

  lemma {:induction false} NoSize(kids: seq<Value>)
    requires kids == []
    ensures |EncodeAll(kids)| == 0
  {
  }

  lemma {:induction false} SmallArgs()
    ensures ArgSize(2) == ArgSize(3) == ArgSize(4) == ArgSize(6) == ArgSize(9) == ArgSize(10) == ArgSize(12) == 1
  {
  }

  lemma {:induction false} ChunkTail(tail: seq<Value>, offset: U32, size: U32)
    requires tail == [Text(K_OFFSET), UInt(offset), Text(K_SIZE), UInt(size)] && AllFit(tail)
    ensures |EncodeAll(tail)| == 12 + ArgSize(offset) + ArgSize(size)
  {
    hide Encode, EncodeAll, Fits, ArgSize;
    SmallArgs();
    TextSize(K_OFFSET);
    TextSize(K_SIZE);
    NumberSize(offset);
    NumberSize(size);
    FourMore(tail);
    NoSize(tail[4..]);
  }

  lemma {:induction false} AttestTail(tail: seq<Value>, offset: U32)
    requires tail == (if offset > 0 then [Text(K_OFFSET), UInt(offset)] else []) && AllFit(tail)
    ensures |EncodeAll(tail)| == if offset > 0 then 7 + ArgSize(offset) else 0
  {
    hide Encode, EncodeAll, Fits, ArgSize;
    SmallArgs();
    if offset > 0 {
      TextSize(K_OFFSET);
      NumberSize(offset);
      OneMore(tail);
      OneMore(tail[1..]);
      NoSize(tail[1..][1..]);
    } else {
      NoSize(tail);
    }
  }

  /** Requests for chunks of at most 200 bytes take at most 73 bytes, and the longest takes as
      many; a query for a batch takes at most 122. */
  lemma {:induction false} RequestSizes(r: Request)
    requires Bounded(r) && (r.ReadChunk? ==> r.size <= CHUNK_SIZE)
    ensures |Message(r)| <= if r.AttestQuery? then 122 else 73
    ensures r.ReadChunk? && |r.name| == 31 && r.offset >= 0x1_0000 && r.size == CHUNK_SIZE ==> |Message(r)| == 73
  {
    hide Message;
    RequestSizeExact(r);
  }

  // ---- encoders ----

  lemma {:induction false} ExtendOne(now: Bytes, orig: Bytes, p: nat, pairs: nat, kids: seq<Value>, v: Value, later: Bytes)
    requires MapSoFar(now, orig, p, pairs, kids) && Fits(v) && p + |Encode(v)| <= |orig| == |now|
    requires later == Splice(now, p, Encode(v))
    ensures MapSoFar(later, orig, p + |Encode(v)|, pairs, kids + [v])
  {
    hide Encode, Splice, Header, Fits;
    assert EncodeAll([v]) == Encode(v) by { OneValue(v); }
    EncodeAllConcat(kids, [v]);
    var done := Header(5, pairs) + EncodeAll(kids);
    SpliceTwice(orig, 0, done, Encode(v));
    assert done + Encode(v) == Header(5, pairs) + EncodeAll(kids + [v]);
  }

  lemma {:induction false} OneValue(v: Value)
    requires Fits(v)
    ensures AllFit([v]) && EncodeAll([v]) == Encode(v)
  {
    hide Encode;
    assert [v][1..] == [];
  }

  /** The buffer holds the whole request, and the cursor stands before its k-th entry. */
  ghost predicate Midway(now: Bytes, orig: Bytes, p: nat, all: seq<Value>, k: nat) {
    && k <= |all| < 24 && |all| % 2 == 0 && AllFit(all) && |now| == |orig| && 1 + |EncodeAll(all)| <= |orig|
    && MapSoFar(now, orig, p, |all| / 2, all[..k])
  }

  /** So the next entry fits. */
  lemma {:induction false} RoomLeft(now: Bytes, orig: Bytes, p: nat, all: seq<Value>, k: nat)
    requires Midway(now, orig, p, all, k) && k < |all|
    ensures Fits(all[k]) && p + |Encode(all[k])| <= |orig|
  {
    hide Encode, EncodeAll, Splice;
    assert |Header(5, |all| / 2)| == 1;
    assert all == all[..k] + all[k..] && all[k..][0] == all[k];
    EncodeAllConcat(all[..k], all[k..]);
    OneMore(all[k..]);
  }

  /** Writing it moves on. */
  lemma {:induction false} MoveOn(now: Bytes, orig: Bytes, p: nat, all: seq<Value>, k: nat, later: Bytes)
    requires Midway(now, orig, p, all, k) && k < |all| && Fits(all[k]) && p + |Encode(all[k])| <= |orig|
    requires later == Splice(now, p, Encode(all[k]))
    ensures Midway(later, orig, p + |Encode(all[k])|, all, k + 1)
  {
    hide Encode, EncodeAll, MapSoFar, Fits, AllFit;
    ExtendOne(now, orig, p, |all| / 2, all[..k], all[k], later);
    assert all[..k] + [all[k]] == all[..k + 1];
  }

  method AddText(buf: array<U8>, p: nat, s: Bytes, ghost orig: Bytes, ghost all: seq<Value>, ghost k: nat) returns (next: nat)
    requires Midway(buf[..], orig, p, all, k) && k < |all| && all[k] == Text(s)
    modifies buf
    ensures Midway(buf[..], orig, next, all, k + 1)
  {
    hide Splice, Header, Midway;
    ghost var before := buf[..];
    RoomLeft(before, orig, p, all, k);
    SameLength(before, orig, p, all, k);
    assert Encode(Text(s)) == Header(3, |s|) + s;
    var n := EncodeString(buf, p, 3, s);
    MoveOn(before, orig, p, all, k, buf[..]);
    next := p + n;
  }

  method AddNumber(buf: array<U8>, p: nat, n: U32, ghost orig: Bytes, ghost all: seq<Value>, ghost k: nat) returns (next: nat)
    requires Midway(buf[..], orig, p, all, k) && k < |all| && all[k] == UInt(n)
    modifies buf
    ensures Midway(buf[..], orig, next, all, k + 1)
  {
    hide Splice, Header, Midway;
    ghost var before := buf[..];
    RoomLeft(before, orig, p, all, k);
    SameLength(before, orig, p, all, k);
    var c := EncodeUInt(buf, p, n);
    MoveOn(before, orig, p, all, k, buf[..]);
    next := p + c;
  }

  method AddBssids(buf: array<U8>, p: nat, list: seq<Bssid>, ghost orig: Bytes, ghost all: seq<Value>, ghost k: nat) returns (next: nat)
    requires Midway(buf[..], orig, p, all, k) && k < |all| && all[k] == Array(Strings(list)) && |list| <= BSSID_BATCH_MAX
    modifies buf
    ensures Midway(buf[..], orig, next, all, k + 1)
  {
    hide Splice, Header, Midway, Encode, EncodeAll;
    ghost var before := buf[..];
    RoomLeft(before, orig, p, all, k);
    SameLength(before, orig, p, all, k);
    ListSize(list);
    var c := EncodeBssidArray(buf, p, list);
    MoveOn(before, orig, p, all, k, buf[..]);
    next := p + c;
  }

  lemma {:induction false} SameLength(now: Bytes, orig: Bytes, p: nat, all: seq<Value>, k: nat)
    requires Midway(now, orig, p, all, k)
    ensures |now| == |orig|
  {
    hide MapSoFar, EncodeAll;
  }

  /** The header of a request, in a buffer that holds it. */
  method BeginRequest(buf: array<U8>, pairs: nat, ghost r: Request) returns (p: nat)
    requires Bounded(r) && buf.Length >= |Message(r)| && |RequestKids(r)| == 2 * pairs
    modifies buf
    ensures Midway(buf[..], old(buf[..]), p, RequestKids(r), 0)
  {
    hide Splice, Header, MapSoFar, Encode, EncodeAll, RequestKids, Message, AllFit;
    RequestFits(r);
    p := PutHeader(buf, pairs);
    assert RequestKids(r)[..0] == [];
  }

  lemma {:induction false} RequestDone(now: Bytes, orig: Bytes, p: nat, r: Request)
    requires Bounded(r) && Midway(now, orig, p, RequestKids(r), |RequestKids(r)|)
    ensures p == |Message(r)| <= |orig| && now == Splice(orig, 0, Message(r))
  {
    hide Splice, Encode, EncodeAll, MapSoFar, RequestKids, Message;
    RequestFits(r);
    var all := RequestKids(r);
    assert all[..|all|] == all;
    MapDone(now, orig, p, |all| / 2, all);
  }

  /** Encode a request into any buffer that holds it. */
  method EncodeRequest(buf: array<U8>, r: Request) returns (n: nat)
    requires Bounded(r) && buf.Length >= |Message(r)|
    modifies buf
    ensures n == |Message(r)| && buf[..] == Splice(old(buf[..]), 0, Message(r))
  {
    hide Splice, Message;
    match r {
      case Ls(offset) => n := EncodeLs(buf, offset);
      case ReadStart(name) => n := EncodeNamed(buf, r, C_READ_START);
      case ReadChunk(name, offset, size) => n := EncodeReadChunk(buf, name, offset, size);
      case ReadMeta(name) => n := EncodeNamed(buf, r, C_READ_META);
      case AttestQuery(bssids, offset) => n := EncodeAttestQuery(buf, bssids, offset);
    }
  }

  method EncodeLs(buf: array<U8>, offset: U32) returns (p: nat)
    requires buf.Length >= |Message(Ls(offset))|
    modifies buf
    ensures p == |Message(Ls(offset))| && buf[..] == Splice(old(buf[..]), 0, Message(Ls(offset)))
  {
    hide Splice, Midway, Message;
    ghost var orig, r := buf[..], Ls(offset);
    ghost var all := RequestKids(r);
    p := BeginRequest(buf, 2, r);
    p := AddText(buf, p, K_CMD, orig, all, 0);
    p := AddText(buf, p, C_LS, orig, all, 1);
    p := AddText(buf, p, K_OFFSET, orig, all, 2);
    p := AddNumber(buf, p, offset, orig, all, 3);
    RequestDone(buf[..], orig, p, r);
  }

  method EncodeNamed(buf: array<U8>, r: Request, cmd: Bytes) returns (p: nat)
    requires (r.ReadStart? || r.ReadMeta?) && Bounded(r) && buf.Length >= |Message(r)|
    requires cmd == if r.ReadStart? then C_READ_START else C_READ_META
    modifies buf
    ensures p == |Message(r)| && buf[..] == Splice(old(buf[..]), 0, Message(r))
  {
    hide Splice, Midway, Message;
    ghost var orig, all := buf[..], RequestKids(r);
    p := BeginRequest(buf, 2, r);
    p := AddText(buf, p, K_CMD, orig, all, 0);
    p := AddText(buf, p, cmd, orig, all, 1);
    p := AddText(buf, p, K_NAME, orig, all, 2);
    p := AddText(buf, p, r.name, orig, all, 3);
    RequestDone(buf[..], orig, p, r);
  }

  method EncodeReadChunk(buf: array<U8>, name: Bytes, offset: U32, size: U32) returns (p: nat)
    requires |name| < 32 && buf.Length >= |Message(ReadChunk(name, offset, size))|
    modifies buf
    ensures var r := ReadChunk(name, offset, size);
      p == |Message(r)| && buf[..] == Splice(old(buf[..]), 0, Message(r))
  {
    hide Splice, Midway, Message;
    ghost var orig, r := buf[..], ReadChunk(name, offset, size);
    ghost var all := RequestKids(r);
    p := BeginRequest(buf, 4, r);
    p := AddText(buf, p, K_CMD, orig, all, 0);
    p := AddText(buf, p, C_READ_CHUNK, orig, all, 1);
    p := AddText(buf, p, K_NAME, orig, all, 2);
    p := AddText(buf, p, name, orig, all, 3);
    p := AddText(buf, p, K_OFFSET, orig, all, 4);
    p := AddNumber(buf, p, offset, orig, all, 5);
    p := AddText(buf, p, K_SIZE, orig, all, 6);
    p := AddNumber(buf, p, size, orig, all, 7);
    RequestDone(buf[..], orig, p, r);
  }

  method EncodeAttestQuery(buf: array<U8>, bssids: seq<Bssid>, offset: U32) returns (p: nat)
    requires |bssids| <= BSSID_BATCH_MAX && buf.Length >= |Message(AttestQuery(bssids, offset))|
    modifies buf
    ensures var r := AttestQuery(bssids, offset);
      p == |Message(r)| && buf[..] == Splice(old(buf[..]), 0, Message(r))
  {
    hide Splice, Midway, Message;
    ghost var orig, r := buf[..], AttestQuery(bssids, offset);
    ghost var all := RequestKids(r);
    p := BeginRequest(buf, if offset > 0 then 3 else 2, r);
    p := AddText(buf, p, K_CMD, orig, all, 0);
    p := AddText(buf, p, C_ATTEST_QUERY, orig, all, 1);
    p := AddText(buf, p, K_BSSIDS, orig, all, 2);
    p := AddBssids(buf, p, bssids, orig, all, 3);
    if offset > 0 {
      p := AddText(buf, p, K_OFFSET, orig, all, 4);
      p := AddNumber(buf, p, offset, orig, all, 5);
    }
    RequestDone(buf[..], orig, p, r);
  }
}
