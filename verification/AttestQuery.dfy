/** Which BSSIDs an opaque signed attestation claims, and the walk over both attestation rings. */
module AttestQuery {
  import opened Cbor
  import opened EncounterRecord
  import opened Wrappers

  const BSSID_KEY: nat := 4
  const MAX_EXTRACTED: nat := 8

  /** The first `room` entries of an array that are byte strings of length 6; no value when an
      entry before that does not parse. */
  function ExtractArray(b: Bytes, p: nat, end: nat, n: nat, room: nat): (r: Option<seq<Bssid>>)
    requires p <= end <= |b|
    ensures r.Some? ==> |r.value| <= room
    decreases n
  {
    if n == 0 then Some([])
    else
      var item := Parse(b, p, end, 0);
      if item.None? then None
      else if item.value.kind != KBytes || item.value.arg != 6 then ExtractArray(b, item.value.next, end, n - 1, room)
      else if room == 0 then Some([])
      else
        var rest := ExtractArray(b, item.value.next, end, n - 1, room - 1);
        if rest.None? then None else Some([b[item.value.data..item.value.next]] + rest.value)
  }

  function ExtractFrom(b: Bytes, p: nat, end: nat, pairs: nat, room: nat): (r: Option<seq<Bssid>>)
    requires p <= end <= |b|
    ensures r.Some? ==> |r.value| <= room
    decreases pairs
  {
    if pairs == 0 then None
    else
      var k := Parse(b, p, end, 0);
      if k.None? then None
      else
        var v := Parse(b, k.value.next, end, 0);
        if v.None? then None
        else if k.value.kind != KUInt || k.value.arg != BSSID_KEY then ExtractFrom(b, v.value.next, end, pairs - 1, room)
        else if v.value.kind != KArray then None
        else ExtractArray(b, v.value.data, end, v.value.arg, room)
  }

  /** The BSSIDs that an attestation claims under key 4. */
  function Extract(blob: Bytes, room: nat): (r: Option<seq<Bssid>>)
    ensures r.Some? ==> |r.value| <= room
  {
    var top := Parse(blob, 0, |blob|, 0);
    if top.None? || top.value.kind != KMap then None
    else ExtractFrom(blob, top.value.data, |blob|, top.value.arg, room)
  }

  /** The attestation claims a BSSID of the query. */
  predicate Matches(blob: Bytes, query: seq<Bssid>) {
    var claimed := Extract(blob, MAX_EXTRACTED);
    claimed.Some? && exists i :: 0 <= i < |claimed.value| && claimed.value[i] in query
  }

  /** The matching blobs, in order. */
  function Matching(blobs: seq<Bytes>, query: seq<Bssid>): (r: seq<Bytes>)
    ensures forall i :: 0 <= i < |r| ==> r[i] in blobs && Matches(r[i], query)
  {
    if blobs == [] then []
    else (if Matches(blobs[0], query) then [blobs[0]] else []) + Matching(blobs[1..], query)
  }

  lemma {:induction false} MatchingConcat(a: seq<Bytes>, b: seq<Bytes>, query: seq<Bssid>)
    ensures Matching(a + b, query) == Matching(a, query) + Matching(b, query)
  {
    hide Matches;
    if a == [] {
      assert a + b == b;
    } else {
      assert (a + b)[0] == a[0] && (a + b)[1..] == a[1..] + b;
      MatchingConcat(a[1..], b, query);
    }
  }
}
