/** The file store behind the sync: files and metadata sidecars by name, and the one chunked
    write that can be open. Outcomes of the card's own operations are parameters. */
module FileStore {
  import opened Bits
  import opened Cbor
  import opened Wrappers

  const MAX_NAME_LEN: nat := 32
  const MAX_CHUNKED: nat := 512 * 1024
  const SLASH: U8 := 47

  /** Names are C strings without their terminator. */
  predicate ValidName(name: Bytes) {
    name != [] && SLASH !in name && |name| < MAX_NAME_LEN
  }

  datatype Chunk = Chunk(name: Bytes, expected: nat, written: nat)

  /** The directory as the card shows it: a file being written is already there, with the bytes
      written so far. */
  datatype Store = Store(files: map<Bytes, Bytes>, meta: map<Bytes, Bytes>, chunk: Option<Chunk>)

  function FileSize(s: Store, name: Bytes): (r: Option<nat>) {
    if ValidName(name) && name in s.files then Some(|s.files[name]|) else None
  }

  /** Discard the open write: all of them, or only one of the given name. */
  function ChunkedAbort(s: Store, name: Option<Bytes>): Store {
    if s.chunk.None? then s
    else if name.Some? && name.value != s.chunk.value.name then s
    else s.(files := s.files - {s.chunk.value.name}, chunk := None)
  }

  function ChunkedStart(s: Store, name: Bytes, total: nat, opens: bool): (Store, bool) {
    if total == 0 || total > MAX_CHUNKED then (s, false)
    else
      var t := ChunkedAbort(s, None);
      if !ValidName(name) || !opens then (t, false)
      else (t.(files := t.files[name := []], chunk := Some(Chunk(name, total, 0))), true)
  }

  /** Append; `taken` is how many bytes the card takes. */
  function ChunkedAppend(s: Store, data: Bytes, taken: nat): (Store, bool)
    requires taken <= |data|
    requires s.chunk.Some? ==> s.chunk.value.name in s.files
  {
    if s.chunk.None? then (s, false)
    else
      var c := s.chunk.value;
      if c.written + |data| > c.expected then (ChunkedAbort(s, Some(c.name)), false)
      else
        var t := s.(files := s.files[c.name := s.files[c.name] + data[..taken]]);
        if taken < |data| then (t, false)
        else (t.(chunk := Some(c.(written := c.written + |data|))), true)
  }

  function ChunkedFinish(s: Store, name: Bytes): (Store, bool) {
    if s.chunk.None? || name != s.chunk.value.name then (s, false)
    else if s.chunk.value.written != s.chunk.value.expected then (s.(files := s.files - {name}, chunk := None), false)
    else (s.(chunk := None), true)
  }

  function WriteMeta(s: Store, name: Bytes, data: Bytes, opens: bool): Store {
    if ValidName(name) && opens then s.(meta := s.meta[name := data]) else s
  }

  /** The store without its open write, if there is one. */
  ghost function Settled(s: Store): Store {
    if s.chunk.None? then s else Store(s.files - {s.chunk.value.name}, s.meta, None)
  }

  /** A write that is started, appended to in pieces and finished: exactly when it may start, when
      its pieces are taken, and what it leaves in every case. A stale write goes away as soon as a
      size in range is named; what overruns or falls short leaves no file. */
  lemma {:induction false} WriteExactly(s: Store, name: Bytes, total: nat, opens: bool, pieces: seq<Bytes>, which: Bytes)
    ensures var (begun, started) := ChunkedStart(s, name, total, opens);
      && (started <==> 0 < total <= 524288 && 1 <= |name| <= 31 && 0x2f !in name && opens)
      && (!started ==> begun == if 0 < total <= 524288 then Settled(s) else s)
      && (started ==>
        && name in begun.files && begun.chunk.Some? && begun.chunk.value.name == name
        && var ((t, taken), without) := (AppendAll(begun, pieces), Settled(s).files - {name});
        && (taken <==> |Flat(pieces)| <= total)
        && (!taken ==> t == Store(without, s.meta, None))
        && (taken && which != name ==> ChunkedFinish(t, which) == (t, false))
        && (taken && which == name && |Flat(pieces)| < total ==> ChunkedFinish(t, which) == (Store(without, s.meta, None), false))
        && (taken && which == name && |Flat(pieces)| == total ==> ChunkedFinish(t, which) == (Store(without[name := Flat(pieces)], s.meta, None), true)))
  {
    var (begun, started) := ChunkedStart(s, name, total, opens);
    if started {
      AppendAllWrites(begun, name, [], total, pieces);
      var files := Settled(s).files;
      assert [] + Flat(pieces) == Flat(pieces);
      assert files[name := []] - {name} == files - {name};
      assert files[name := []][name := Flat(pieces)] == (files - {name})[name := Flat(pieces)];
      assert files[name := []][name := Flat(pieces)] - {name} == files - {name};
    }
  }

  /** A piece that the card takes only in part stays in the file but is not counted; ending the
      write, by whatever name it is under, is all that removes it. */
  lemma {:induction false} ShortWrite(s: Store, data: Bytes, taken: nat)
    requires taken < |data| && s.chunk.Some? && s.chunk.value.name in s.files
    requires s.chunk.value.written + |data| <= s.chunk.value.expected
    ensures var (c, (t, ok)) := (s.chunk.value, ChunkedAppend(s, data, taken));
      && !ok && t.chunk == s.chunk && t.meta == s.meta && t.files == s.files[c.name := s.files[c.name] + data[..taken]]
      && ChunkedAbort(t, None) == ChunkedAbort(t, Some(c.name)) == Store(s.files - {c.name}, s.meta, None)
      && (forall other :: other != c.name ==> ChunkedAbort(t, Some(other)) == t)
  {
    var c := s.chunk.value;
    assert s.files[c.name := s.files[c.name] + data[..taken]] - {c.name} == s.files - {c.name};
  }

  /** A sidecar is stored or nothing happens. */
  lemma {:induction false} MetaStored(s: Store, name: Bytes, data: Bytes, opens: bool)
    ensures WriteMeta(s, name, data, opens)
         == if 1 <= |name| <= 31 && 0x2f !in name && opens then Store(s.files, s.meta[name := data], s.chunk) else s
  {
  }

  function Flat(pieces: seq<Bytes>): Bytes {
    if pieces == [] then [] else pieces[0] + Flat(pieces[1..])
  }

  function AppendAll(s: Store, pieces: seq<Bytes>): (Store, bool)
    requires s.chunk.Some? ==> s.chunk.value.name in s.files
    decreases |pieces|
  {
    if pieces == [] then (s, true)
    else
      var (t, ok) := ChunkedAppend(s, pieces[0], |pieces[0]|);
      if !ok then (t, false) else AppendAll(t, pieces[1..])
  }

  lemma {:induction false} AppendAllWrites(s: Store, name: Bytes, done: Bytes, total: nat, pieces: seq<Bytes>)
    requires name in s.files && s.files[name] == done && s.chunk == Some(Chunk(name, total, |done|)) && |done| <= total
    ensures AppendAll(s, pieces) == if |done| + |Flat(pieces)| <= total
      then (Store(s.files[name := done + Flat(pieces)], s.meta, Some(Chunk(name, total, |done| + |Flat(pieces)|))), true)
      else (Store(s.files - {name}, s.meta, None), false)
    decreases |pieces|
  {
    if pieces == [] {
      assert done + [] == done;
      assert s.files[name := done] == s.files;
    } else if |done| + |pieces[0]| <= total {
      var p := pieces[0];
      assert p[..|p|] == p;
      var t := ChunkedAppend(s, p, |p|).0;
      AppendAllWrites(t, name, done + p, total, pieces[1..]);
      assert done + p + Flat(pieces[1..]) == done + Flat(pieces);
      assert t.files[name := done + Flat(pieces)] == s.files[name := done + Flat(pieces)];
      assert t.files - {name} == s.files - {name};
    }
  }

  // ---- the driver's state ----

  /** The card and the driver's global chunk state. */
  class Card {
    var files: map<Bytes, Bytes>
    var meta: map<Bytes, Bytes>
    var active: bool
    var name: Bytes
    var expected: nat
    var written: nat

    ghost function View(): Store
      reads this
    {
      Store(files, meta, if active then Some(Chunk(name, expected, written)) else None)
    }

    constructor (files: map<Bytes, Bytes>, meta: map<Bytes, Bytes>)
      ensures View() == Store(files, meta, None)
    {
      this.files, this.meta := files, meta;
      active, name, expected, written := false, [], 0, 0;
    }

    method Abort(which: Option<Bytes>)
      modifies this
      ensures View() == ChunkedAbort(old(View()), which)
    {
      if !active { return; }
      if which.Some? && which.value != name { return; }
      files := files - {name};
      active, name, expected, written := false, [], 0, 0;
    }

    method Start(newName: Bytes, total: nat, opens: bool) returns (ok: bool)
      modifies this
      ensures (View(), ok) == ChunkedStart(old(View()), newName, total, opens)
    {
      if total == 0 || total > MAX_CHUNKED { return false; }
      if active { Abort(None); }
      if !ValidName(newName) { return false; }
      if !opens { return false; }
      files := files[newName := []];
      active, name, expected, written := true, newName, total, 0;
      return true;
    }

    method Append(data: Bytes, taken: nat) returns (ok: bool)
      requires taken <= |data| && (active ==> name in files)
      modifies this
      ensures (View(), ok) == ChunkedAppend(old(View()), data, taken)
    {
      if !active { return false; }
      if written + |data| > expected {
        Abort(Some(name));
        return false;
      }
      files := files[name := files[name] + data[..taken]];
      if taken != |data| { return false; }
      written := written + |data|;
      return true;
    }

    method Finish(which: Bytes) returns (ok: bool)
      modifies this
      ensures (View(), ok) == ChunkedFinish(old(View()), which)
    {
      if !active { return false; }
      if which != name { return false; }
      if written != expected {
        files := files - {which};
        active, name, expected, written := false, [], 0, 0;
        return false;
      }
      active, name, expected, written := false, [], 0, 0;
      return true;
    }

    method PutMeta(which: Bytes, data: Bytes, opens: bool)
      modifies this
      ensures View() == WriteMeta(old(View()), which, data, opens)
    {
      if !ValidName(which) || !opens { return; }
      meta := meta[which := data];
    }
  }
}
