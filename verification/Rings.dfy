/** The persistent ring buffers (attestations, the cache of peers' attestations, encounters): a
    header, fixed-size slots, and what they amount to, a bounded first-in first-out queue. */
module Rings {
  import opened Cbor
  import opened Nonlinear
  import opened Wrappers

  const HEADER_BYTES: nat := 16

  /** Which ring: its magic, how many slots, how many bytes each. */
  datatype Shape = Shape(magic: Bytes, cap: nat, slotBytes: nat)

  const ATTESTATIONS: Shape := Shape([87, 88, 65, 84], 64, 200)
  const ATTEST_CACHE: Shape := Shape([87, 88, 65, 67], 64, 200)
  const ENCOUNTERS: Shape := Shape([87, 88, 69, 78], 32, 256)

  /** The sizes that every operation relies on. */
  predicate Sound(sh: Shape) {
    |sh.magic| == 4 && 0 < sh.cap < 0x100 && 2 < sh.slotBytes < 0x1_0000
  }

  /** All three rings have them. */
  lemma {:induction false} ShapesSound()
    ensures Sound(ATTESTATIONS) && Sound(ATTEST_CACHE) && Sound(ENCOUNTERS)
  {
  }

  /** The buffer: its 16 header bytes and its slots. */
  datatype Buffer = Buffer(header: Bytes, slots: seq<Bytes>)

  predicate Fits(sh: Shape, b: Buffer) {
    |b.header| == HEADER_BYTES && |b.slots| == sh.cap && forall i :: 0 <= i < sh.cap ==> |b.slots[i]| == sh.slotBytes
  }

  function NextSlot(b: Buffer): nat
    requires |b.header| == HEADER_BYTES
  {
    b.header[6]
  }

  function UsedCount(b: Buffer): nat
    requires |b.header| == HEADER_BYTES
  {
    b.header[7]
  }

  function BlankHeader(sh: Shape): (h: Bytes)
    requires Sound(sh)
    ensures |h| == HEADER_BYTES
  {
    sh.magic + [1] + Zeros(11)
  }

  function Blank(sh: Shape): (b: Buffer)
    requires Sound(sh)
    ensures Fits(sh, b)
  {
    Buffer(BlankHeader(sh), seq(sh.cap, i => Zeros(sh.slotBytes)))
  }

  predicate HeaderValid(sh: Shape, h: Bytes)
    requires |h| == HEADER_BYTES
  {
    h[..4] == sh.magic && h[4] == 1 && h[6] < sh.cap && h[7] <= sh.cap
  }

  /** A slot: two length bytes, the blob, zeros. */
  function SlotOf(sh: Shape, blob: Bytes): (s: Bytes)
    requires Sound(sh) && |blob| <= sh.slotBytes - 2
    ensures |s| == sh.slotBytes
  {
    [|blob| % 0x100, |blob| / 0x100 % 0x100] + blob + Zeros(sh.slotBytes - 2 - |blob|)
  }

  function SlotLen(slot: Bytes): nat
    requires |slot| >= 2
  {
    var (lo: int, hi: int) := (slot[0], slot[1]);
    lo + hi * 0x100
  }

  /** What iteration makes of a slot: nothing when its length is out of range. */
  function BlobOf(sh: Shape, slot: Bytes): Option<Bytes>
    requires Sound(sh) && |slot| == sh.slotBytes
  {
    var len := SlotLen(slot);
    if len == 0 || len > sh.slotBytes - 2 then None else Some(slot[2..2 + len])
  }

  lemma {:induction false} SlotRoundTrip(sh: Shape, blob: Bytes)
    requires Sound(sh) && 0 < |blob| <= sh.slotBytes - 2
    ensures BlobOf(sh, SlotOf(sh, blob)) == Some(blob)
  {
    assert |blob| == |blob| % 0x100 + |blob| / 0x100 % 0x100 * 0x100;
    assert SlotOf(sh, blob)[2..2 + |blob|] == blob;
  }

  /** Slot `start + k`, wrapping. */
  function Index(start: nat, k: nat, cap: nat): nat {
    if start + k < cap then start + k else start + k - cap
  }

  lemma {:induction false} IndexIsMod(start: nat, k: nat, cap: nat)
    requires start < cap && k <= cap
    ensures (start + k) % cap == Index(start, k, cap)
  {
    if start + k < cap { DivModUnique(start + k, cap, 0, start + k); } else { DivModUnique(start + k, cap, 1, start + k - cap); }
  }

  /** The oldest live slot. */
  function First(sh: Shape, b: Buffer): nat
    requires Fits(sh, b)
  {
    if UsedCount(b) < sh.cap then 0 else NextSlot(b)
  }

  /** The buffer is one that this code wrote: the live slots are the last ones written, and hold
      blobs of a valid length. */
  predicate Valid(sh: Shape, b: Buffer) {
    && Sound(sh) && Fits(sh, b) && HeaderValid(sh, b.header)
    && (UsedCount(b) < sh.cap ==> NextSlot(b) == UsedCount(b))
    && forall k :: 0 <= k < UsedCount(b) ==> Index(First(sh, b), k, sh.cap) < sh.cap && BlobOf(sh, b.slots[Index(First(sh, b), k, sh.cap)]).Some?
  }

  /** The blobs that iteration visits, oldest first. */
  function Contents(sh: Shape, b: Buffer): (q: seq<Bytes>)
    requires Valid(sh, b)
    ensures |q| == UsedCount(b)
  {
    seq(UsedCount(b), k requires 0 <= k < UsedCount(b) => BlobOf(sh, b.slots[Index(First(sh, b), k, sh.cap)]).value)
  }

  /** The k-th oldest live slot. */
  lemma {:induction false} LiveAt(sh: Shape, b: Buffer, k: nat)
    requires Valid(sh, b) && k < UsedCount(b)
    ensures var i := (First(sh, b) + k) % sh.cap;
      && i < |b.slots| && |b.slots[i]| == sh.slotBytes
      && var len := SlotLen(b.slots[i]);
        0 < len <= sh.slotBytes - 2 && b.slots[i][2..2 + len] == Contents(sh, b)[k]
  {
    IndexIsMod(First(sh, b), k, sh.cap);
  }

  lemma {:induction false} BlankEmpty(sh: Shape)
    requires Sound(sh)
    ensures Valid(sh, Blank(sh)) && Contents(sh, Blank(sh)) == []
  {
    assert BlankHeader(sh)[..4] == sh.magic;
  }

  /** The bounded queue. */
  function Push(q: seq<Bytes>, blob: Bytes, cap: nat): (r: seq<Bytes>)
    requires cap > 0
  {
    if |q| < cap then q + [blob] else q[1..] + [blob]
  }

  /** The write: fill the next slot, advance, count. */
  function Stored(sh: Shape, b: Buffer, blob: Bytes): (r: Buffer)
    requires Sound(sh) && Fits(sh, b) && HeaderValid(sh, b.header) && |blob| <= sh.slotBytes - 2
  {
    var ns, uc := NextSlot(b), UsedCount(b);
    Buffer(b.header[6 := (ns + 1) % sh.cap][7 := if uc < sh.cap then uc + 1 else uc], b.slots[ns := SlotOf(sh, blob)])
  }

  /** Writing a blob into a ring is pushing it on the queue. */
  lemma {:induction false} StoredPushes(sh: Shape, b: Buffer, blob: Bytes)
    requires Valid(sh, b) && 0 < |blob| <= sh.slotBytes - 2
    ensures Valid(sh, Stored(sh, b, blob))
    ensures Contents(sh, Stored(sh, b, blob)) == Push(Contents(sh, b), blob, sh.cap)
  {
    hide SlotOf, BlobOf;
    var ns, uc, cap := NextSlot(b), UsedCount(b), sh.cap;
    var r := Stored(sh, b, blob);
    IndexIsMod(ns, 1, cap);
    SlotRoundTrip(sh, blob);
    assert r.header[..4] == b.header[..4];
    var n := UsedCount(r);
    forall k | 0 <= k < n
      ensures Index(First(sh, r), k, cap) < cap
      ensures BlobOf(sh, r.slots[Index(First(sh, r), k, cap)]) == Some(Push(Contents(sh, b), blob, cap)[k])
    {
      LiveSlot(sh, b, blob, k);
    }
  }

  lemma {:induction false} LiveSlot(sh: Shape, b: Buffer, blob: Bytes, k: nat)
    requires Valid(sh, b) && 0 < |blob| <= sh.slotBytes - 2 && Fits(sh, Stored(sh, b, blob))
    requires BlobOf(sh, SlotOf(sh, blob)) == Some(blob)
    requires k < UsedCount(Stored(sh, b, blob)) && (NextSlot(b) + 1) % sh.cap == Index(NextSlot(b), 1, sh.cap)
    ensures var r := Stored(sh, b, blob);
      var i := Index(First(sh, r), k, sh.cap);
      i < sh.cap && BlobOf(sh, r.slots[i]) == Some(Push(Contents(sh, b), blob, sh.cap)[k])
  {
    hide SlotOf, BlobOf;
    var ns, uc, cap := NextSlot(b), UsedCount(b), sh.cap;
    var r := Stored(sh, b, blob);
    var i := Index(First(sh, r), k, cap);
    if uc < cap {
      if k < uc {
        assert uc + 1 == cap ==> First(sh, r) == 0;
        assert i == Index(First(sh, b), k, cap) == k;
      } else {
        assert i == ns;
      }
    } else if k < cap - 1 {
      assert i == Index(First(sh, b), k + 1, cap) && i != ns;
    } else {
      assert i == ns;
    }
  }

  /** A sequence of accepted writes. */
  function PushAll(q: seq<Bytes>, blobs: seq<Bytes>, cap: nat): seq<Bytes>
    requires cap > 0
    decreases |blobs|
  {
    if blobs == [] then q else PushAll(Push(q, blobs[0], cap), blobs[1..], cap)
  }

  function StoredAll(sh: Shape, b: Buffer, blobs: seq<Bytes>): (r: Buffer)
    requires Valid(sh, b) && forall i :: 0 <= i < |blobs| ==> 0 < |blobs[i]| <= sh.slotBytes - 2
    ensures Valid(sh, r)
    decreases |blobs|
  {
    if blobs == [] then b
    else
      StoredPushes(sh, b, blobs[0]);
      StoredAll(sh, Stored(sh, b, blobs[0]), blobs[1..])
  }

  /** A bounded queue holds the last blobs pushed, as many as fit. */
  lemma {:induction false} PushAllKeepsLast(q: seq<Bytes>, blobs: seq<Bytes>, cap: nat)
    requires cap > 0 && |q| <= cap
    ensures var all := q + blobs; PushAll(q, blobs, cap) == if |all| <= cap then all else all[|all| - cap..]
    decreases |blobs|
  {
    if blobs == [] {
      assert q + blobs == q;
    } else {
      PushedOn(q, blobs, cap);
      PushAllKeepsLast(Push(q, blobs[0], cap), blobs[1..], cap);
    }
  }

  lemma {:induction false} PushedOn(q: seq<Bytes>, blobs: seq<Bytes>, cap: nat)
    requires cap > 0 && |q| <= cap && blobs != []
    ensures var r := Push(q, blobs[0], cap);
      |r| <= cap && r + blobs[1..] == if |q| < cap then q + blobs else (q + blobs)[1..]
  {
    assert [blobs[0]] + blobs[1..] == blobs;
  }

  /** After any writes to an empty ring, iteration yields the last blobs, at most cap of them,
      oldest first. */
  lemma {:induction false} RingIsQueue(sh: Shape, b: Buffer, blobs: seq<Bytes>)
    requires Valid(sh, b) && forall i :: 0 <= i < |blobs| ==> 0 < |blobs[i]| <= sh.slotBytes - 2
    ensures var all := Contents(sh, b) + blobs;
      Contents(sh, StoredAll(sh, b, blobs)) == if |all| <= sh.cap then all else all[|all| - sh.cap..]
    decreases |blobs|
  {
    hide Stored, Contents, Valid, Push;
    FewContents(sh, b);
    StoredAllPushes(sh, b, blobs);
    PushAllKeepsLast(Contents(sh, b), blobs, sh.cap);
  }

  lemma {:induction false} FewContents(sh: Shape, b: Buffer)
    requires Valid(sh, b)
    ensures |Contents(sh, b)| <= sh.cap && sh.cap > 0
  {
  }

  lemma {:induction false} StoredAllPushes(sh: Shape, b: Buffer, blobs: seq<Bytes>)
    requires Valid(sh, b) && sh.cap > 0 && forall i :: 0 <= i < |blobs| ==> 0 < |blobs[i]| <= sh.slotBytes - 2
    ensures Contents(sh, StoredAll(sh, b, blobs)) == PushAll(Contents(sh, b), blobs, sh.cap)
    decreases |blobs|
  {
    hide Stored, Contents, BlobOf, Push;
    if blobs != [] {
      StoredPushes(sh, b, blobs[0]);
      StoredAllPushes(sh, Stored(sh, b, blobs[0]), blobs[1..]);
    }
  }

  // ---- persistence ----

  function Flatten(slots: seq<Bytes>): Bytes {
    if slots == [] then [] else slots[0] + Flatten(slots[1..])
  }

  function Slices(s: Bytes, size: nat, n: nat): (r: seq<Bytes>)
    requires size > 0
    decreases n
  {
    if n == 0 || |s| < size then [] else [s[..size]] + Slices(s[size..], size, n - 1)
  }

  lemma {:induction false} SlicesOfFlat(slots: seq<Bytes>, size: nat)
    requires size > 0 && forall i :: 0 <= i < |slots| ==> |slots[i]| == size
    ensures Slices(Flatten(slots), size, |slots|) == slots && FlatLength(slots, size) == |Flatten(slots)|
  {
    if slots != [] {
      var s := Flatten(slots);
      assert s[..size] == slots[0] && s[size..] == Flatten(slots[1..]);
      SlicesOfFlat(slots[1..], size);
    }
  }

  function FlatLength(slots: seq<Bytes>, size: nat): nat {
    if slots == [] then 0 else size + FlatLength(slots[1..], size)
  }

  /** The bytes that are written to disk: the buffer as it lies in memory. */
  function Image(b: Buffer): Bytes {
    b.header + Flatten(b.slots)
  }

  /** Load: as many bytes as the buffer holds, when the file has them and the header is valid; a
      blank buffer otherwise. */
  function Load(sh: Shape, disk: Option<Bytes>): (b: Buffer)
    requires Sound(sh)
  {
    if disk.None? || |disk.value| < HEADER_BYTES then Blank(sh)
    else
      var slots := Slices(disk.value[HEADER_BYTES..], sh.slotBytes, sh.cap);
      var b := Buffer(disk.value[..HEADER_BYTES], slots);
      if Fits(sh, b) && HeaderValid(sh, b.header) then b else Blank(sh)
  }

  /** Reloading what was persisted gives the same ring. */
  lemma {:induction false} Reload(sh: Shape, b: Buffer)
    requires Valid(sh, b)
    ensures Load(sh, Some(Image(b))) == b
  {
    hide BlobOf;
    SlicesOfFlat(b.slots, sh.slotBytes);
    assert Image(b)[..HEADER_BYTES] == b.header && Image(b)[HEADER_BYTES..] == Flatten(b.slots);
  }

  // ---- the modules' global state ----

  /** The module's buffer, the file behind it, and its operations. `dedup` is how the cache of
      peers' attestations differs from the other rings. */
  class Ring {
    const shape: Shape
    const dedup: bool
    var buf: Buffer
    var initialized: bool
    var disk: Option<Bytes>

    constructor (shape: Shape, dedup: bool, disk: Option<Bytes>)
      requires Sound(shape)
      ensures this.shape == shape && this.dedup == dedup && this.disk == disk && !initialized
    {
      this.shape, this.dedup, this.disk, initialized := shape, dedup, disk, false;
      buf := Blank(shape);
    }

    method Init()
      requires Sound(shape)
      modifies this
      ensures initialized && buf == Load(shape, disk) && disk == old(disk)
    {
      buf := Load(shape, disk);
      initialized := true;
    }

    /** Whether the same bytes are live. */
    method Present(blob: Bytes) returns (found: bool)
      requires Valid(shape, buf)
      ensures found == (blob in Contents(shape, buf))
    {
      hide SlotOf;
      var uc := UsedCount(buf);
      if uc == 0 { return false; }
      var start := if uc < shape.cap then 0 else NextSlot(buf);
      for k := 0 to uc
        invariant blob !in Contents(shape, buf)[..k]
      {
        LiveAt(shape, buf, k);
        var i := (start + k) % shape.cap;
        var len := SlotLen(buf.slots[i]);
        if len == |blob| && buf.slots[i][2..2 + len] == blob { return true; }
        assert Contents(shape, buf)[..k + 1] == Contents(shape, buf)[..k] + [Contents(shape, buf)[k]];
      }
      assert Contents(shape, buf)[..uc] == Contents(shape, buf);
      return false;
    }

    /** Write a blob; `persists` is whether the file can be written. The cache returns 1 for a
        stored blob and 0 for a duplicate, the other rings 0 for a stored one, and all -1 when
        the blob is refused or not persisted. */
    method Write(blob: Bytes, persists: bool) returns (rc: int)
      requires Valid(shape, buf)
      modifies this
      ensures Valid(shape, buf) && initialized == old(initialized)
      ensures var q := old(Contents(shape, buf));
        if !old(initialized) || blob == [] || |blob| > shape.slotBytes - 2 then rc == -1 && buf == old(buf) && disk == old(disk)
        else if dedup && blob in q then rc == 0 && buf == old(buf) && disk == old(disk)
        else
          && Contents(shape, buf) == Push(q, blob, shape.cap)
          && rc == (if !persists then -1 else if dedup then 1 else 0) && disk == (if persists then Some(Image(buf)) else old(disk))
    {
      hide SlotOf, BlobOf;
      if !initialized { return -1; }
      if blob == [] { return -1; }
      if |blob| > shape.slotBytes - 2 { return -1; }
      if dedup {
        var found := Present(blob);
        if found { return 0; }
      }
      StoredPushes(shape, buf, blob);
      var ns := NextSlot(buf);
      var uc := UsedCount(buf);
      var slot := [|blob| % 0x100, |blob| / 0x100 % 0x100] + blob + Zeros(shape.slotBytes - 2 - |blob|);
      SlotIs(shape, blob, slot);
      var header := buf.header[6 := (ns + 1) % shape.cap];
      if uc < shape.cap { header := header[7 := uc + 1]; }
      HeaderSame(buf.header[6 := (ns + 1) % shape.cap], uc);
      buf := Buffer(header, buf.slots[ns := slot]);
      if !persists { return -1; }
      disk := Some(Image(buf));
      return if dedup then 1 else 0;
    }

    /** Visit the blobs, oldest first. */
    method Collect() returns (out: seq<Bytes>)
      requires Valid(shape, buf)
      ensures out == if initialized then Contents(shape, buf) else []
    {
      out := [];
      if !initialized { return; }
      var uc := UsedCount(buf);
      if uc == 0 { return; }
      var start := if uc < shape.cap then 0 else NextSlot(buf);
      for k := 0 to uc
        invariant out == Contents(shape, buf)[..k]
      {
        LiveAt(shape, buf, k);
        var i := (start + k) % shape.cap;
        var len := SlotLen(buf.slots[i]);
        if len == 0 || len > shape.slotBytes - 2 { continue; }
        out := out + [buf.slots[i][2..2 + len]];
      }
    }
  }

  lemma {:induction false} SlotIs(sh: Shape, blob: Bytes, slot: Bytes)
    requires Sound(sh) && |blob| <= sh.slotBytes - 2
    requires slot == [|blob| % 0x100, |blob| / 0x100 % 0x100] + blob + Zeros(sh.slotBytes - 2 - |blob|)
    ensures slot == SlotOf(sh, blob)
  {
  }

  lemma {:induction false} HeaderSame(h: Bytes, uc: nat)
    requires |h| == HEADER_BYTES && uc == h[7]
    ensures h[7 := uc] == h
  {
  }

  /** The cache never holds two equal blobs. */
  lemma {:induction false} CacheDistinct(q: seq<Bytes>, blob: Bytes, cap: nat)
    requires cap > 0 && blob !in q && forall i, j :: 0 <= i < j < |q| ==> q[i] != q[j]
    ensures var r := Push(q, blob, cap); forall i, j :: 0 <= i < j < |r| ==> r[i] != r[j]
  {
  }
}
