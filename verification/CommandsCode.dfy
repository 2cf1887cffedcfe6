/** The command handlers' loops: budgets, the two passes over the rings, and the parsers of
    attestations, each equal to its function. Replies are built front to back. */
module CommandsCode {
  import opened AttestQuery
  import opened Bits
  import opened Cbor
  import opened CborCode
  import opened CborTree
  import opened Commands
  import opened EncounterRecord
  import opened Pagination
  import opened PeerSync
  import opened SyncWire
  import opened Wrappers

  // ---- ls ----

  /** How many entries of a staged page fit the budget. */
  method CountLines(avail: seq<Entry>, room: nat) returns (cnt: nat)
    ensures cnt == Fitting(LineSizes(avail), 0, room)
  {
    hide LsEntrySize;
    cnt := 0;
    var used: nat := 0;
    var i := 0;
    assert LineSizes(avail)[0..] == LineSizes(avail);
    while i < |avail|
      invariant i == cnt <= |avail|
      invariant Fitting(LineSizes(avail), 0, room) == cnt + Fitting(LineSizes(avail)[i..], used, room)
    {
      assert LineSizes(avail)[i..][0] == LineSizes(avail)[i] && LineSizes(avail)[i..][1..] == LineSizes(avail)[i + 1..];
      var esz := LsEntrySize(avail[i]);
      if used + esz > room { break; }
      used := used + esz;
      cnt := cnt + 1;
      i := i + 1;
    }
  }

  function TextBytes(s: Bytes): Bytes
    requires |s| < 0x1_0000
  {
    Header(3, |s|) + s
  }

  lemma {:induction false} PairBytes(a: Value, b: Value)
    requires Fits(a) && Fits(b)
    ensures AllFit([a, b]) && EncodeAll([a, b]) == Encode(a) + Encode(b)
  {
    hide Encode;
    assert [a, b][1..] == [b] && [b][1..] == [];
    assert EncodeAll([b]) == Encode(b) + EncodeAll([]);
  }

  /** The bytes of one line, field by field. */
  function LineOf(e: Entry): Bytes
    requires |e.name| < 32
  {
    Header(5, 3) + ((TextBytes(K_NAME) + TextBytes(e.name)) + (TextBytes(K_SIZE) + Header(0, e.size)) + (TextBytes(K_HASH) + (Header(2, 8) + e.hash)))
  }

  lemma {:induction false} LineBytes(e: Entry)
    requires Listable(e)
    ensures Fits(EntryValue(e)) && Encode(EntryValue(e)) == LineOf(e)
  {
    hide Header, EncodeAll;
    EntryFits(e);
    var (a, b, c) := ([Text(K_NAME), Text(e.name)], [Text(K_SIZE), UInt(e.size)], [Text(K_HASH), Str(e.hash)]);
    PairBytes(Text(K_NAME), Text(e.name));
    PairBytes(Text(K_SIZE), UInt(e.size));
    PairBytes(Text(K_HASH), Str(e.hash));
    EncodeAllConcat(a, b);
    EncodeAllConcat(a + b, c);
    assert EntryKids(e) == a + b + c;
  }

  lemma {:induction false} LinesSnoc(page: seq<Entry>, i: nat)
    requires i < |page| && forall k :: 0 <= k < |page| ==> Listable(page[k])
    ensures AllFit(EntryValues(page[..i])) && AllFit(EntryValues(page[..i + 1])) && Fits(EntryValue(page[i]))
    ensures EncodeAll(EntryValues(page[..i + 1])) == EncodeAll(EntryValues(page[..i])) + Encode(EntryValue(page[i]))
  {
    hide Encode, Fits, Listable, EntryValue;
    EntriesFit(page[..i]);
    EntriesFit(page[..i + 1]);
    EntryFits(page[i]);
    var last := [EntryValue(page[i])];
    assert EntryValues(page[..i + 1]) == EntryValues(page[..i]) + last;
    EncodeAllConcat(EntryValues(page[..i]), last);
    assert EncodeAll(last) == Encode(last[0]) + EncodeAll(last[1..]);
  }

  /** Emit the first cnt lines. */
  method EmitLines(page: seq<Entry>) returns (p: Bytes)
    requires forall k :: 0 <= k < |page| ==> Listable(page[k])
    ensures AllFit(EntryValues(page)) && p == EncodeAll(EntryValues(page))
  {
    hide Encode, EncodeAll, EntryValue, Fits, EntryValues, Listable, LineOf;
    p := [];
    EntriesFit([]);
    NoLines();
    assert page[..0] == [];
    for i := 0 to |page|
      invariant AllFit(EntryValues(page[..i])) && p == EncodeAll(EntryValues(page[..i]))
    {
      LinesSnoc(page, i);
      LineBytes(page[i]);
      ListableSmall(page[i]);
      p := p + LineOf(page[i]);
    }
    assert page[..|page|] == page;
  }

  lemma {:induction false} NoLines()
    ensures EncodeAll(EntryValues([])) == []
  {
  }

  lemma {:induction false} ListableSmall(e: Entry)
    requires Listable(e)
    ensures |e.name| < 32
  {
  }

  /** Answer `ls`. */
  method AnswerLs(listing: seq<Entry>, offset: nat, mtu: nat, outMax: nat) returns (reply: Bytes)
    requires (forall k :: 0 <= k < |listing| ==> Listable(listing[k])) && |listing| < 0x1_0000_0000
    ensures var (page, next) := LsPage(listing, offset, Budget(mtu, outMax)); reply == Reply(LsKids(page, next))
  {
    hide Encode, EncodeAll, Header, Listable, EntryValues, Fits, LsEntrySize;
    var (avail, fsNext) := FsPage(listing, offset, LS_PAGE);
    var budget := if mtu > 3 then mtu - 3 else 20;
    if budget > outMax { budget := outMax; }
    var room := if budget > 27 then budget - 27 else 0;
    var cnt := CountLines(avail, room);
    var next := if cnt < |avail| then offset + cnt else fsNext;
    var page := avail[..cnt];
    LsPageMeans(listing, offset, budget);
    LsReplyBytes(page, next);
    var lines := EmitLines(page);
    reply := Header(5, if next > 0 then 2 else 1);
    reply := reply + (TextBytes(K_FILES) + (Header(4, cnt) + lines));
    if next > 0 {
      reply := reply + (TextBytes(K_NEXT) + Header(0, next));
    } else {
      assert reply + [] == reply;
    }
  }

  lemma {:induction false} LsReplyBytes(page: seq<Entry>, next: nat)
    requires (forall k :: 0 <= k < |page| ==> Listable(page[k])) && |page| <= LS_PAGE && next < 0x1_0000_0000
    ensures AllFit(EntryValues(page))
    ensures Reply(LsKids(page, next)) ==
      Header(5, if next > 0 then 2 else 1) + (TextBytes(K_FILES) + (Header(4, |page|) + EncodeAll(EntryValues(page))))
        + (if next > 0 then TextBytes(K_NEXT) + Header(0, next) else [])
  {
    hide Header, EntryValues, Listable, EncodeAll, Fits, LineSizes, Sum, Depth, DepthAll;
    FilesLength(page);
    NextLength(next);
    EntriesFit(page);
    LsParts(page, next);
    var files, more := [Text(K_FILES), Array(EntryValues(page))], [Text(K_NEXT), UInt(next)];
    EncodeAllConcat(files, more);
    PairBytes(Text(K_FILES), Array(EntryValues(page)));
    PairBytes(Text(K_NEXT), UInt(next));
    var kids := LsKids(page, next);
    assert kids == if next > 0 then files + more else files;
    MapLength(kids);
    var (h, f, m) := (Header(5, if next > 0 then 2 else 1), EncodeAll(files), EncodeAll(more));
    assert h + (f + m) == h + f + m && h + f + [] == h + f;
  }

  lemma {:induction false} LsParts(page: seq<Entry>, next: nat)
    requires AllFit(EntryValues(page)) && |EntryValues(page)| == |page| <= LS_PAGE && next < 0x1_0000_0000
    ensures Fits(Text(K_FILES)) && Fits(Array(EntryValues(page))) && Fits(Text(K_NEXT)) && Fits(UInt(next))
  {
    hide EntryValues;
  }

  // ---- the two passes over stored blobs ----

  /** The counting pass, blob by blob. */
  datatype Tally = Tally(skip: nat, used: nat, toEmit: nat, overflow: bool)

  /** Count until something does not fit. */
  function CountAll(t: Tally, list: seq<Bytes>, room: nat): (r: Tally)
    decreases |list|
  {
    if list == [] || t.overflow then t
    else if t.skip > 0 then CountAll(t.(skip := t.skip - 1), list[1..], room)
    else if t.used + BlobSize(list[0]) > room then t.(overflow := true)
    else CountAll(t.(used := t.used + BlobSize(list[0]), toEmit := t.toEmit + 1), list[1..], room)
  }

  lemma {:induction false} CountConcat(t: Tally, a: seq<Bytes>, b: seq<Bytes>, room: nat)
    ensures CountAll(t, a + b, room) == CountAll(CountAll(t, a, room), b, room)
    decreases |a|
  {
    hide BlobSize;
    if a == [] {
      assert a + b == b;
    } else {
      assert (a + b)[0] == a[0] && (a + b)[1..] == a[1..] + b;
      if !t.overflow {
        if t.skip > 0 { CountConcat(t.(skip := t.skip - 1), a[1..], b, room); }
        else if t.used + BlobSize(a[0]) <= room {
          CountConcat(t.(used := t.used + BlobSize(a[0]), toEmit := t.toEmit + 1), a[1..], b, room);
        }
      }
    }
  }

  /** The counting pass finds the page. */
  lemma {:induction false} CountIsPage(t: Tally, list: seq<Bytes>, room: nat)
    requires !t.overflow
    ensures var rest := if t.skip < |list| then list[t.skip..] else [];
      var n := Fitting(BlobSizes(rest), t.used, room);
      CountAll(t, list, room).toEmit == t.toEmit + n && CountAll(t, list, room).overflow == (n < |rest|)
    decreases |list|
  {
    hide BlobSize;
    if list != [] {
      if t.skip > 0 {
        CountIsPage(t.(skip := t.skip - 1), list[1..], room);
        assert t.skip < |list| ==> list[1..][t.skip - 1..] == list[t.skip..];
      } else {
        assert list[0..] == list;
        assert BlobSizes(list)[0] == BlobSize(list[0]) && BlobSizes(list)[1..] == BlobSizes(list[1..]);
        if t.used + BlobSize(list[0]) <= room {
          CountIsPage(t.(used := t.used + BlobSize(list[0]), toEmit := t.toEmit + 1), list[1..], room);
          assert list[1..][0..] == list[1..];
        }
      }
    }
  }

  /** What the emitting pass writes: the blobs after the skipped ones, up to n of them. */
  function EmitAll(skip: nat, n: nat, list: seq<Bytes>): (r: seq<Bytes>)
    ensures |r| <= n && |r| <= |list|
    decreases |list|
  {
    if list == [] then []
    else if skip > 0 then EmitAll(skip - 1, n, list[1..])
    else if n == 0 then []
    else [list[0]] + EmitAll(0, n - 1, list[1..])
  }

  lemma {:induction false} EmitConcat(skip: nat, n: nat, a: seq<Bytes>, b: seq<Bytes>)
    ensures EmitAll(skip, n, a + b)
         == EmitAll(skip, n, a) + EmitAll(if skip > |a| then skip - |a| else 0, n - |EmitAll(skip, n, a)|, b)
    decreases |a|
  {
    hide EmitAll;
    HeadFirst(a, b);
    if a == [] {
      EmitNothing(skip, n);
    } else {
      EmitHead(skip, n, a, b);
      if skip > 0 {
        EmitConcat(skip - 1, n, a[1..], b);
      } else if n == 0 {
        EmitNone(b);
        EmitNone(a);
        EmitNone(a + b);
      } else {
        EmitConcat(0, n - 1, a[1..], b);
        HeadFirst([a[0]] + EmitAll(0, n - 1, a[1..]), EmitAll(0, n - 1 - |EmitAll(0, n - 1, a[1..])|, b));
      }
    }
  }

  lemma {:induction false} HeadFirst(a: seq<Bytes>, b: seq<Bytes>)
    ensures if a == [] then a + b == b else a + b == [a[0]] + (a[1..] + b)
  {
  }

  lemma {:induction false} EmitNothing(skip: nat, n: nat)
    ensures EmitAll(skip, n, []) == []
  {
  }

  lemma {:induction false} EmitHead(skip: nat, n: nat, a: seq<Bytes>, b: seq<Bytes>)
    requires a != []
    ensures skip > 0 ==> EmitAll(skip, n, a) == EmitAll(skip - 1, n, a[1..]) && EmitAll(skip, n, a + b) == EmitAll(skip - 1, n, a[1..] + b)
    ensures skip == 0 && n > 0 ==>
      EmitAll(0, n, a) == [a[0]] + EmitAll(0, n - 1, a[1..]) && EmitAll(0, n, a + b) == [a[0]] + EmitAll(0, n - 1, a[1..] + b)
  {
    assert (a + b)[0] == a[0] && (a + b)[1..] == a[1..] + b;
  }

  lemma {:induction false} EmitNone(b: seq<Bytes>)
    ensures EmitAll(0, 0, b) == []
  {
  }

  /** The emitting pass writes the page: as many elements as the header says. */
  lemma {:induction false} EmitIsPage(skip: nat, n: nat, list: seq<Bytes>)
    requires skip <= |list| && skip + n <= |list|
    ensures EmitAll(skip, n, list) == list[skip..skip + n]
    decreases |list|
  {
    if list != [] {
      if skip > 0 {
        EmitIsPage(skip - 1, n, list[1..]);
        assert list[1..][skip - 1..skip - 1 + n] == list[skip..skip + n];
      } else if n > 0 {
        EmitIsPage(0, n - 1, list[1..]);
        assert [list[0]] + list[1..][0..n - 1] == list[0..n];
      }
    }
  }

  /** The walk state that both callbacks update. */
  class Walk {
    var skipRemaining: nat
    const room: nat
    var used: nat
    var toEmit: nat
    var emitted: nat
    var p: Bytes
    var overflow: bool

    constructor (skip: nat, room: nat, toEmit: nat, p: Bytes)
      ensures skipRemaining == skip && this.room == room && used == 0 && this.toEmit == toEmit && emitted == 0 && this.p == p && !overflow
    {
      skipRemaining, this.room, used, this.toEmit, emitted, this.p, overflow := skip, room, 0, toEmit, 0, p, false;
    }

    ghost function Counted(): Tally
      reads this
    {
      Tally(skipRemaining, used, toEmit, overflow)
    }

    /** The counting callback; the result stops the walk. */
    method Count(blob: Bytes) returns (stop: bool)
      requires !overflow
      modifies this
      ensures Counted() == CountAll(old(Counted()), [blob], room) && stop == overflow
    {
      hide BlobSize;
      assert [blob][1..] == [];
      if skipRemaining > 0 {
        skipRemaining := skipRemaining - 1;
        return false;
      }
      var outer := BlobSize(blob);
      if used + outer > room {
        overflow := true;
        return true;
      }
      used := used + outer;
      toEmit := toEmit + 1;
      return false;
    }

    /** The emitting callback. */
    method Emit(blob: Bytes) returns (stop: bool)
      requires emitted <= toEmit && |blob| < 0x1_0000
      modifies this
      ensures toEmit == old(toEmit) && emitted <= toEmit
      ensures var out := EmitAll(old(skipRemaining), old(toEmit - emitted), [blob]);
        && emitted == old(emitted) + |out| && skipRemaining == (if old(skipRemaining) > 0 then old(skipRemaining) - 1 else 0)
        && p == old(p) + (if out == [] then [] else Encode(Str(blob)))
        && (stop ==> emitted == toEmit && skipRemaining == 0)
    {
      hide Header;
      assert [blob][1..] == [];
      if skipRemaining > 0 {
        skipRemaining := skipRemaining - 1;
        return false;
      }
      if emitted >= toEmit { return true; }
      p := p + (Header(2, |blob|) + blob);
      emitted := emitted + 1;
      return false;
    }
  }

  lemma {:induction false} MatchingNext(blobs: seq<Bytes>, i: nat, query: seq<Bssid>)
    requires i < |blobs|
    ensures Matching(blobs[..i + 1], query) == Matching(blobs[..i], query) + if Matches(blobs[i], query) then [blobs[i]] else []
  {
    hide Matches;
    assert blobs[..i + 1] == blobs[..i] + [blobs[i]];
    MatchingConcat(blobs[..i], [blobs[i]], query);
    var one := [blobs[i]];
    assert one[1..] == [] && Matching([], query) == [];
  }

  lemma {:induction false} CountStops(t: Tally, list: seq<Bytes>, room: nat)
    requires t.overflow
    ensures CountAll(t, list, room) == t
  {
  }

  /** Count over one ring; the result tells that the walk has been stopped. */
  method CountRing(w: Walk, blobs: seq<Bytes>, query: seq<Bssid>) returns (stopped: bool)
    requires !w.overflow
    modifies w
    ensures w.Counted() == CountAll(old(w.Counted()), Matching(blobs, query), w.room) && stopped == w.overflow
  {
    hide Matches, CountAll, BlobSize;
    ghost var t := w.Counted();
    assert blobs[..0] == [] && Matching([], query) == [];
    CountNothing(t, w.room);
    for i := 0 to |blobs|
      invariant !w.overflow && w.Counted() == CountAll(t, Matching(blobs[..i], query), w.room)
    {
      MatchingNext(blobs, i, query);
      assert Matching(blobs[..i], query) + [] == Matching(blobs[..i], query);
      if !Matches(blobs[i], query) { continue; }
      CountConcat(t, Matching(blobs[..i], query), [blobs[i]], w.room);
      var stop := w.Count(blobs[i]);
      if stop {
        assert blobs[..i + 1] + blobs[i + 1..] == blobs;
        MatchingConcat(blobs[..i + 1], blobs[i + 1..], query);
        CountConcat(t, Matching(blobs[..i + 1], query), Matching(blobs[i + 1..], query), w.room);
        CountStops(w.Counted(), Matching(blobs[i + 1..], query), w.room);
        return true;
      }
    }
    assert blobs[..|blobs|] == blobs;
    return false;
  }

  lemma {:induction false} CountNothing(t: Tally, room: nat)
    ensures CountAll(t, [], room) == t
  {
  }

  lemma {:induction false} StringsConcat(a: seq<Bytes>, b: seq<Bytes>)
    requires (forall i :: 0 <= i < |a| ==> |a[i]| < 0x1_0000) && forall i :: 0 <= i < |b| ==> |b[i]| < 0x1_0000
    ensures AllFit(Strings(a)) && AllFit(Strings(b)) && AllFit(Strings(a + b))
    ensures EncodeAll(Strings(a + b)) == EncodeAll(Strings(a)) + EncodeAll(Strings(b))
  {
    hide Encode, EncodeAll;
    assert Strings(a + b) == Strings(a) + Strings(b);
    EncodeAllConcat(Strings(a), Strings(b));
  }

  lemma {:induction false} OneBlob(blob: Bytes)
    requires |blob| < 0x1_0000
    ensures AllFit(Strings([blob])) && EncodeAll(Strings([blob])) == Encode(Str(blob))
    ensures EncodeAll(Strings([])) == []
  {
    hide Header;
    assert Strings([blob]) == [Str(blob)];
    assert EncodeAll([Str(blob)]) == Encode(Str(blob)) + EncodeAll([]);
  }

  /** The blobs that EmitAll yields are blobs of the list. */
  lemma {:induction false} EmitFrom(skip: nat, n: nat, list: seq<Bytes>)
    requires forall i :: 0 <= i < |list| ==> |list[i]| < 0x1_0000
    ensures forall i :: 0 <= i < |EmitAll(skip, n, list)| ==> |EmitAll(skip, n, list)[i]| < 0x1_0000
    decreases |list|
  {
    if list != [] {
      if skip > 0 { EmitFrom(skip - 1, n, list[1..]); } else if n > 0 { EmitFrom(0, n - 1, list[1..]); }
    }
  }

  /** What has been emitted after the blobs of `done`. */
  ghost predicate EmitSoFar(p: Bytes, start: Bytes, skip: nat, n: nat, done: seq<Bytes>, skipNow: nat, nNow: nat) {
    && (forall i :: 0 <= i < |done| ==> |done[i]| < 0x1_0000)
    && AllFit(Strings(EmitAll(skip, n, done)))
    && p == start + EncodeAll(Strings(EmitAll(skip, n, done)))
    && skipNow == (if skip > |done| then skip - |done| else 0) && nNow == n - |EmitAll(skip, n, done)|
  }

  lemma {:induction false} EmitOne(p: Bytes, start: Bytes, skip: nat, n: nat, done: seq<Bytes>, skipNow: nat, nNow: nat, blob: Bytes, p': Bytes)
    requires EmitSoFar(p, start, skip, n, done, skipNow, nNow) && |blob| < 0x1_0000
    requires p' == p + (if EmitAll(skipNow, nNow, [blob]) == [] then [] else Encode(Str(blob)))
    ensures EmitSoFar(p', start, skip, n, done + [blob], if skipNow > 0 then skipNow - 1 else 0, nNow - |EmitAll(skipNow, nNow, [blob])|)
  {
    hide Encode, EncodeAll, Strings, Fits;
    EmitConcat(skip, n, done, [blob]);
    EmitFrom(skip, n, done);
    var before, more := EmitAll(skip, n, done), EmitAll(skipNow, nNow, [blob]);
    OneEmitted(skipNow, nNow, blob);
    StringsConcat(before, more);
    OneBlob(blob);
    assert EmitAll(skip, n, done + [blob]) == before + more;
  }

  lemma {:induction false} OneEmitted(skip: nat, n: nat, blob: Bytes)
    ensures EmitAll(skip, n, [blob]) == [] || EmitAll(skip, n, [blob]) == [blob]
  {
    assert [blob][1..] == [];
  }

  lemma {:induction false} EmitFull(skip: nat, n: nat, done: seq<Bytes>, rest: seq<Bytes>)
    requires skip <= |done| && |EmitAll(skip, n, done)| == n
    ensures EmitAll(skip, n, done + rest) == EmitAll(skip, n, done)
  {
    EmitConcat(skip, n, done, rest);
    EmitNone(rest);
  }

  /** The emitting pass over all stored blobs, own ones first. */
  method EmitBoth(w: Walk, own: seq<Bytes>, cache: seq<Bytes>, query: seq<Bssid>)
    requires w.emitted == 0 && (forall i :: 0 <= i < |own + cache| ==> |(own + cache)[i]| < 0x1_0000)
    modifies w
    ensures var out := EmitAll(old(w.skipRemaining), old(w.toEmit), Matching(own + cache, query));
      AllFit(Strings(out)) && w.p == old(w.p) + EncodeAll(Strings(out))
  {
    hide Matches, EmitAll, Encode, EncodeAll, EmitSoFar;
    var blobs := own + cache;
    ghost var skip, n, start := w.skipRemaining, w.toEmit, w.p;
    EmitBegins(start, skip, n);
    assert blobs[..0] == [] && Matching([], query) == [];
    for i := 0 to |blobs|
      invariant w.emitted <= w.toEmit == n
      invariant EmitSoFar(w.p, start, skip, n, Matching(blobs[..i], query), w.skipRemaining, w.toEmit - w.emitted)
    {
      MatchingNext(blobs, i, query);
      if !Matches(blobs[i], query) {
        assert Matching(blobs[..i], query) + [] == Matching(blobs[..i], query);
        continue;
      }
      ghost var p0, s0, n0 := w.p, w.skipRemaining, w.toEmit - w.emitted;
      var stop := w.Emit(blobs[i]);
      EmitOne(p0, start, skip, n, Matching(blobs[..i], query), s0, n0, blobs[i], w.p);
      if stop {
        assert blobs[..i + 1] + blobs[i + 1..] == blobs;
        MatchingConcat(blobs[..i + 1], blobs[i + 1..], query);
        EmitStops(w.p, start, skip, n, Matching(blobs[..i + 1], query), Matching(blobs[i + 1..], query));
        return;
      }
    }
    assert blobs[..|blobs|] == blobs;
    EmitEnds(w.p, start, skip, n, Matching(blobs, query), w.skipRemaining, w.toEmit - w.emitted);
  }

  lemma {:induction false} EmitBegins(start: Bytes, skip: nat, n: nat)
    ensures EmitSoFar(start, start, skip, n, [], skip, n)
  {
    assert start + EncodeAll(Strings([])) == start;
  }

  lemma {:induction false} EmitEnds(p: Bytes, start: Bytes, skip: nat, n: nat, done: seq<Bytes>, skipNow: nat, nNow: nat)
    requires EmitSoFar(p, start, skip, n, done, skipNow, nNow)
    ensures AllFit(Strings(EmitAll(skip, n, done))) && p == start + EncodeAll(Strings(EmitAll(skip, n, done)))
  {
  }

  lemma {:induction false} EmitStops(p: Bytes, start: Bytes, skip: nat, n: nat, done: seq<Bytes>, rest: seq<Bytes>)
    requires EmitSoFar(p, start, skip, n, done, 0, 0)
    ensures AllFit(Strings(EmitAll(skip, n, done + rest))) && p == start + EncodeAll(Strings(EmitAll(skip, n, done + rest)))
  {
    hide EncodeAll, EmitAll;
    EmitFull(skip, n, done, rest);
  }

  /** The first pass: how many blobs fit, and whether some remain. */
  method CountBoth(own: seq<Bytes>, cache: seq<Bytes>, query: seq<Bssid>, offset: nat, room: nat) returns (n: nat, more: bool)
    ensures var (page, rest) := BlobPage(Matching(own + cache, query), offset, room); n == |page| && more == rest
  {
    hide Matches, CountAll, Matching, BlobPage;
    var w := new Walk(offset, room, 0, []);
    var stopped := CountRing(w, own, query);
    if !stopped { stopped := CountRing(w, cache, query); }
    PassOne(own, cache, query, offset, room);
    n, more := w.toEmit, w.overflow;
  }

  /** The second pass: a header for n blobs, and then those. */
  method EmitReply(own: seq<Bytes>, cache: seq<Bytes>, query: seq<Bssid>, offset: nat, n: nat, more: bool, next: U32, ghost room: nat)
    returns (reply: Bytes)
    requires (forall i :: 0 <= i < |own + cache| ==> |(own + cache)[i]| < 0x1_0000) && |own| + |cache| < 0x100
    requires var (page, rest) := BlobPage(Matching(own + cache, query), offset, room); n == |page| && more == rest
    ensures reply == Reply(BlobKids(K_BLOBS, BlobPage(Matching(own + cache, query), offset, room).0, more, next))
  {
    hide Matches, EmitAll, Encode, EncodeAll, Header, Fits, Strings, Matching, Reply, BlobPage, BlobKids, TextBytes;
    PassTwo(own, cache, query, offset, room, more, next);
    reply := Header(5, if more then 3 else 2);
    reply := reply + (TextBytes(K_OK) + [0xf5]);
    reply := reply + (TextBytes(K_BLOBS) + Header(4, n));
    var emit := new Walk(offset, 0, n, reply);
    EmitBoth(emit, own, cache, query);
    reply := emit.p;
    if more {
      reply := reply + (TextBytes(K_NEXT) + Header(0, next));
    } else {
      assert reply + [] == reply;
    }
  }

  /** Answer `attest_query`: count what fits, write the header, emit as many. */
  method AnswerAttestQuery(own: seq<Bytes>, cache: seq<Bytes>, query: seq<Bssid>, offset: U32, mtu: nat, outMax: nat) returns (reply: Bytes)
    requires (forall i :: 0 <= i < |own + cache| ==> |(own + cache)[i]| < 0x1_0000) && |own| + |cache| < 0x100
    ensures var (page, more) := BlobPage(Matching(own + cache, query), offset, BlobRoom(Budget(mtu, outMax)));
      reply == Reply(BlobKids(K_BLOBS, page, more, (offset + |page|) % 0x1_0000_0000))
  {
    hide Matching, Reply, BlobPage, BlobKids;
    var budget := if mtu > 3 then mtu - 3 else 20;
    if budget > outMax { budget := outMax; }
    var room := if budget > 32 then budget - 32 else 0;
    var n, more := CountBoth(own, cache, query, offset, room);
    reply := EmitReply(own, cache, query, offset, n, more, (offset + n) % 0x1_0000_0000, room);
  }

  /** What the counting pass leaves, over both rings. */
  lemma {:induction false} PassOne(own: seq<Bytes>, cache: seq<Bytes>, query: seq<Bssid>, offset: nat, room: nat)
    ensures var t := CountAll(Tally(offset, 0, 0, false), Matching(own, query), room);
      var u := if t.overflow then t else CountAll(t, Matching(cache, query), room);
      var (page, more) := BlobPage(Matching(own + cache, query), offset, room);
      u.toEmit == |page| && u.overflow == more
  {
    hide Matches, CountAll, BlobSize, Matching;
    var t0 := Tally(offset, 0, 0, false);
    MatchingConcat(own, cache, query);
    CountConcat(t0, Matching(own, query), Matching(cache, query), room);
    CountIsPage(t0, Matching(own + cache, query), room);
    var t := CountAll(t0, Matching(own, query), room);
    if t.overflow { CountStops(t, Matching(cache, query), room); }
  }

  /** The bytes of the reply, part by part. */
  lemma {:induction false} PassTwo(own: seq<Bytes>, cache: seq<Bytes>, query: seq<Bssid>, offset: nat, room: nat, more: bool, next: U32)
    requires (forall i :: 0 <= i < |own + cache| ==> |(own + cache)[i]| < 0x1_0000) && |own| + |cache| < 0x100
    requires more == BlobPage(Matching(own + cache, query), offset, room).1
    ensures var page := BlobPage(Matching(own + cache, query), offset, room).0;
      && EmitAll(offset, |page|, Matching(own + cache, query)) == page && AllFit(Strings(page)) && |page| < 0x100
      && Reply(BlobKids(K_BLOBS, page, more, next)) ==
           Header(5, if more then 3 else 2) + (TextBytes(K_OK) + [0xf5]) + (TextBytes(K_BLOBS) + Header(4, |page|)) + EncodeAll(Strings(page))
             + (if more then TextBytes(K_NEXT) + Header(0, next) else [])
  {
    hide Matches, BlobSize, Matching, BlobPage, Reply, Header, EncodeAll, Strings, EmitAll;
    var blobs := Matching(own + cache, query);
    var page := BlobPage(blobs, offset, room).0;
    BlobPageMeans(blobs, offset, room);
    Shorter(own + cache, query);
    assert forall i :: 0 <= i < |page| ==> page[i] in blobs;
    if offset <= |blobs| { EmitIsPage(offset, |page|, blobs); } else { EmitNoMore(offset, blobs); }
    BlobReplyBytes(K_BLOBS, page, more, next);
  }

  lemma {:induction false} EmitNoMore(skip: nat, list: seq<Bytes>)
    requires skip > |list|
    ensures EmitAll(skip, 0, list) == []
    decreases |list|
  {
    if list != [] { EmitNoMore(skip - 1, list[1..]); }
  }

  lemma {:induction false} Shorter(blobs: seq<Bytes>, query: seq<Bssid>)
    requires forall i :: 0 <= i < |blobs| ==> |blobs[i]| < 0x1_0000
    ensures |Matching(blobs, query)| <= |blobs| && forall b :: b in Matching(blobs, query) ==> |b| < 0x1_0000
    decreases |blobs|
  {
    hide Matches;
    if blobs != [] { Shorter(blobs[1..], query); }
  }

  lemma {:induction false} BlobReplyBytes(key: Bytes, page: seq<Bytes>, more: bool, next: U32)
    requires (forall i :: 0 <= i < |page| ==> |page[i]| < 0x1_0000) && |page| < 0x100 && |key| < 24
    ensures AllFit(Strings(page))
    ensures Reply(BlobKids(key, page, more, next)) ==
      Header(5, if more then 3 else 2) + (TextBytes(K_OK) + [0xf5]) + (TextBytes(key) + Header(4, |page|)) + EncodeAll(Strings(page))
        + (if more then TextBytes(K_NEXT) + Header(0, next) else [])
  {
    hide Header, Strings, EncodeAll;
    BlobsHeadLength(key, page);
    NextLength(next);
    BlobsLength(page);
    var (a, b, c) := ([Text(K_OK), Bool(true)], [Text(key), Array(Strings(page))], [Text(K_NEXT), UInt(next)]);
    PairBytes(Text(K_OK), Bool(true));
    PairBytes(Text(key), Array(Strings(page)));
    PairBytes(Text(K_NEXT), UInt(next));
    EncodeAllConcat(a, b);
    EncodeAllConcat(a + b, c);
    var kids := BlobKids(key, page, more, next);
    assert a + b == [Text(K_OK), Bool(true), Text(key), Array(Strings(page))];
    assert kids == if more then a + b + c else a + b;
    MapLength(kids);
    BlobReplyParts(Header(5, if more then 3 else 2), TextBytes(K_OK) + [0xf5], TextBytes(key), Header(4, |page|),
                   EncodeAll(Strings(page)), TextBytes(K_NEXT) + Header(0, next));
  }

  lemma {:induction false} BlobReplyParts(h: Bytes, a: Bytes, k: Bytes, n: Bytes, v: Bytes, t: Bytes)
    ensures h + (a + (k + (n + v)) + t) == h + a + (k + n) + v + t
    ensures h + (a + (k + (n + v))) == h + a + (k + n) + v + []
  {
    assert k + (n + v) == (k + n) + v;
    assert a + ((k + n) + v) == a + (k + n) + v;
  }

  // ---- attestations ----

  /** Pull the BSSIDs out of an attestation. */
  method ExtractBssids(blob: Bytes, room: nat) returns (r: Option<seq<Bssid>>)
    ensures r == Extract(blob, room)
  {
    hide Parse, ExtractArray;
    var end := |blob|;
    var top := CborParse(blob, 0, end, 0);
    if top.None? || top.value.kind != KMap { return None; }
    var p: nat := top.value.data;
    for i := 0 to top.value.arg
      invariant p <= end
      invariant Extract(blob, room) == ExtractFrom(blob, p, end, top.value.arg - i, room)
    {
      var k := CborParse(blob, p, end, 0);
      if k.None? { return None; }
      var v := CborParse(blob, k.value.next, end, 0);
      if v.None? { return None; }
      p := v.value.next;
      if k.value.kind != KUInt || k.value.arg != BSSID_KEY { continue; }
      if v.value.kind != KArray { return None; }
      r := ExtractList(blob, v.value.data, v.value.arg, room);
      return;
    }
    return None;
  }

  method ExtractList(blob: Bytes, p: nat, n: nat, room: nat) returns (r: Option<seq<Bssid>>)
    requires p <= |blob|
    ensures r == ExtractArray(blob, p, |blob|, n, room)
  {
    hide Parse;
    var end := |blob|;
    var out: seq<Bssid> := [];
    var q: nat := p;
    ghost var all := ExtractArray(blob, p, end, n, room);
    assert all.Some? ==> [] + all.value == all.value;
    for j := 0 to n
      invariant q <= end && |out| <= room
      invariant var rest := ExtractArray(blob, q, end, n - j, room - |out|);
        all == if rest.None? then None else Some(out + rest.value)
    {
      var item := CborParse(blob, q, end, 0);
      if item.None? { return None; }
      ghost var here := item.value;
      q := item.value.next;
      if item.value.kind != KBytes || item.value.arg != 6 { continue; }
      if |out| >= room {
        assert out + [] == out;
        return Some(out);
      }
      var one := blob[item.value.data..item.value.next];
      ghost var rest := ExtractArray(blob, q, end, n - j - 1, room - |out| - 1);
      assert rest.Some? ==> out + ([one] + rest.value) == out + [one] + rest.value;
      out := out + [one];
    }
    assert out + [] == out;
    return Some(out);
  }

  /** Whether an attestation claims a BSSID of the query. */
  method MatchAny(blob: Bytes, query: seq<Bssid>) returns (found: bool)
    ensures found == Matches(blob, query)
  {
    hide Extract;
    var claimed := ExtractBssids(blob, MAX_EXTRACTED);
    if claimed.None? { return false; }
    for i := 0 to |claimed.value|
      invariant forall k :: 0 <= k < i ==> claimed.value[k] !in query
    {
      for j := 0 to |query|
        invariant forall k :: 0 <= k < j ==> claimed.value[i] != query[k]
      {
        if claimed.value[i] == query[j] { return true; }
      }
    }
    return false;
  }

  // ---- attest_ingest ----

  /** What `attest_ingest` reports: blobs stored, duplicates, and the rest. */
  datatype Report = Report(stored: nat, dup: nat, err: nat)

  /** One element of the array on its way into the cache; `persists` is whether the cache file can
      be written, without which a new blob is cached and still counted as an error. */
  function IngestOne(cache: seq<Bytes>, r: Report, b: Bytes, item: Item, persists: bool): (seq<Bytes>, Report)
    requires item.data <= item.next <= |b|
  {
    if item.kind != KBytes || item.arg == 0 then (cache, r.(err := r.err + 1))
    else
      var blob := b[item.data..item.next];
      if |blob| > BLOB_MAX then (cache, r.(err := r.err + 1))
      else if blob in cache then (cache, r.(dup := r.dup + 1))
      else (CacheWrite(cache, blob), if persists then r.(stored := r.stored + 1) else r.(err := r.err + 1))
  }

  /** All n elements from p on; no report once an element does not parse. */
  function IngestAll(cache: seq<Bytes>, r: Report, b: Bytes, p: nat, n: nat, persists: nat -> bool): (seq<Bytes>, Option<Report>)
    requires p <= |b|
    decreases n
  {
    if n == 0 then (cache, Some(r))
    else
      var item := Parse(b, p, |b|, 0);
      if item.None? then (cache, None)
      else
        var (c, s) := IngestOne(cache, r, b, item.value, persists(n));
        IngestAll(c, s, b, item.value.next, n - 1, persists)
  }

  /** The loop of `attest_ingest`, over the elements of the array. */
  method Ingest(cache: seq<Bytes>, b: Bytes, p: nat, n: nat, persists: nat -> bool) returns (after: seq<Bytes>, report: Option<Report>)
    requires p <= |b|
    ensures (after, report) == IngestAll(cache, Report(0, 0, 0), b, p, n, persists)
  {
    hide IngestOne, Parse;
    after := cache;
    var r := Report(0, 0, 0);
    var q: nat := p;
    for i := 0 to n
      invariant q <= |b|
      invariant IngestAll(cache, Report(0, 0, 0), b, p, n, persists) == IngestAll(after, r, b, q, n - i, persists)
    {
      var item := CborParse(b, q, |b|, 0);
      if item.None? { return after, None; }
      var (c, s) := IngestOne(after, r, b, item.value, persists(n - i));
      after, r, q := c, s, item.value.next;
    }
    return after, Some(r);
  }

  /** A report comes back exactly when every element parses, and then counts each once. In any
      case the cache ends as if each blob before the first malformed element had been written in
      turn; while nothing is evicted and the file can be written, it has grown by what the report
      says was stored. */
  lemma {:induction false} IngestCounts(cache: seq<Bytes>, r: Report, b: Bytes, p: nat, n: nat, persists: nat -> bool)
    requires p <= |b|
    ensures var (c, s) := IngestAll(cache, r, b, p, n, persists);
      && (s.Some? <==> Skip(b, p, |b|, 0, n).Some?)
      && (s.Some? ==> s.value.stored + s.value.dup + s.value.err == r.stored + r.dup + r.err + n && s.value.stored >= r.stored)
      && c == CacheWriteAll(cache, ReadBlobs(b, p, n))
      && (s.Some? && (forall i :: persists(i)) && |cache| + (s.value.stored - r.stored) <= CACHE_CAP
          ==> |c| == |cache| + (s.value.stored - r.stored))
    decreases n
  {
    hide Parse, CacheWrite, IngestOne;
    if n > 0 {
      var item := Parse(b, p, |b|, 0);
      if item.Some? {
        var (c, s) := IngestOne(cache, r, b, item.value, persists(n));
        IngestCounts(c, s, b, item.value.next, n - 1, persists);
        OneIngested(cache, r, b, item.value, persists(n), ReadBlobs(b, item.value.next, n - 1));
      }
    }
  }

  lemma {:induction false} OneIngested(cache: seq<Bytes>, r: Report, b: Bytes, item: Item, persists: bool, rest: seq<Bytes>)
    requires item.data <= item.next <= |b| && (item.kind == KBytes ==> item.next == item.data + item.arg)
    ensures var (c, s) := IngestOne(cache, r, b, item, persists);
      && s.stored + s.dup + s.err == r.stored + r.dup + r.err + 1 && r.stored <= s.stored <= r.stored + 1
      && CacheWriteAll(c, rest)
         == CacheWriteAll(cache, (if item.kind == KBytes && item.arg != 0 then [b[item.data..item.next]] else []) + rest)
      && (persists && (s.stored > r.stored ==> |cache| < CACHE_CAP) ==> |c| == |cache| + (s.stored - r.stored))
  {
    if item.kind == KBytes && item.arg != 0 {
      var blob := b[item.data..item.next];
      assert ([blob] + rest)[0] == blob && ([blob] + rest)[1..] == rest;
    } else {
      assert [] + rest == rest;
    }
  }
}
