/** The sorted, paged listing of a directory: names staged, sorted in place, sliced. */
module FileList {
  import opened Bits
  import opened Cbor

  const STAGE_MAX: nat := 64
  const NAME_ROOM: nat := 31
  const META_SUFFIX: Bytes := [46, 109, 101, 116, 97]
  const HASH_SUFFIX: Bytes := [46, 104, 56]

  /** A directory entry as the card enumerates it. */
  datatype DirEntry = DirEntry(name: Bytes, size: U32, isDirectory: bool)

  datatype Line = Line(name: Bytes, size: U32)

  predicate HasSuffix(name: Bytes, suffix: Bytes) {
    |name| > |suffix| && name[|name| - |suffix|..] == suffix
  }

  predicate IsSidecar(name: Bytes) {
    HasSuffix(name, META_SUFFIX) || HasSuffix(name, HASH_SUFFIX)
  }

  /** strcmp(a, b) > 0 on C strings. */
  predicate Greater(a: Bytes, b: Bytes) {
    a != [] && (b == [] || a[0] > b[0] || (a[0] == b[0] && Greater(a[1..], b[1..])))
  }

  lemma {:induction false} GreaterTotal(a: Bytes, b: Bytes)
    ensures !(Greater(a, b) && Greater(b, a))
    ensures !Greater(a, b) && !Greater(b, a) ==> a == b
    decreases |a|
  {
    if a != [] && b != [] {
      GreaterTotal(a[1..], b[1..]);
      assert a == [a[0]] + a[1..] && b == [b[0]] + b[1..];
    }
  }

  lemma {:induction false} GreaterTransitive(a: Bytes, b: Bytes, c: Bytes)
    requires !Greater(a, b) && !Greater(b, c)
    ensures !Greater(a, c)
    decreases |a|
  {
    if a != [] && b != [] && c != [] && a[0] == c[0] {
      GreaterTransitive(a[1..], b[1..], c[1..]);
    }
  }

  /** The order is that of bytes: behind a common beginning, the greater name has the greater byte,
      or more bytes. */
  lemma {:induction false} GreaterLexical(a: Bytes, b: Bytes)
    ensures Greater(a, b) <==>
      exists k: nat :: k <= |b| && k < |a| && a[..k] == b[..k] && (k == |b| || (k < |b| && a[k] > b[k]))
    decreases |a|
  {
    if a != [] && b != [] && a[0] == b[0] {
      GreaterLexical(a[1..], b[1..]);
      if Greater(a[1..], b[1..]) {
        var j: nat :| j <= |b[1..]| && j < |a[1..]| && a[1..][..j] == b[1..][..j] && (j == |b[1..]| || (j < |b[1..]| && a[1..][j] > b[1..][j]));
        assert a[..j + 1] == [a[0]] + a[1..][..j] && b[..j + 1] == [b[0]] + b[1..][..j];
        assert a[j + 1] == a[1..][j] && (j < |b| - 1 ==> b[j + 1] == b[1..][j]);
      }
      if k: nat :| k <= |b| && k < |a| && a[..k] == b[..k] && (k == |b| || (k < |b| && a[k] > b[k])) {
        assert k > 0;
        assert a[1..][..k - 1] == a[..k][1..] && b[1..][..k - 1] == b[..k][1..];
        assert a[1..][k - 1] == a[k] && (k < |b| ==> b[1..][k - 1] == b[k]);
      }
    } else if a != [] {
      assert a[..0] == b[..0];
      if k: nat :| 0 < k <= |b| && k < |a| && a[..k] == b[..k] { assert a[..k][0] == b[..k][0]; }
    }
  }

  /** Sidecars are the names that end in `.meta` or `.h8` behind at least one character. */
  lemma {:induction false} SidecarsAre(name: Bytes)
    ensures IsSidecar(name) <==>
      exists stem: Bytes :: stem != [] && (name == stem + [46, 109, 101, 116, 97] || name == stem + [46, 104, 56])
  {
    if HasSuffix(name, META_SUFFIX) {
      var stem := name[..|name| - 5];
      assert name == stem + [46, 109, 101, 116, 97];
    }
    if HasSuffix(name, HASH_SUFFIX) {
      var stem := name[..|name| - 3];
      assert name == stem + [46, 104, 56];
    }
  }

  /** What gets on the stage: of the entries that are neither directories nor sidecars the first
      64, in order, each with its name cut to 31 bytes. */
  lemma {:induction false} StagedAre(dir: seq<DirEntry>, e: DirEntry)
    ensures var s := Staged(dir, 64);
      Staged(dir + [e], 64) == if e.isDirectory || IsSidecar(e.name) || |s| == 64 then s
        else s + [Line(if |e.name| <= 31 then e.name else e.name[..31], e.size)]
    ensures Staged([], 64) == []
  {
    hide IsSidecar;
    StagedMore(dir, e, 64);
  }

  lemma {:induction false} StagedMore(dir: seq<DirEntry>, e: DirEntry, room: nat)
    ensures var s := Staged(dir, room);
      Staged(dir + [e], room) == if e.isDirectory || IsSidecar(e.name) || |s| == room then s
        else s + [Line(if |e.name| <= 31 then e.name else e.name[..31], e.size)]
    decreases |dir|
  {
    hide IsSidecar;
    if dir == [] {
      assert [] + [e] == [e] && [e][1..] == [];
      assert Staged([e][1..], room) == [];
      if room > 0 { assert Staged([], room - 1) == []; }
    } else {
      assert (dir + [e])[0] == dir[0] && (dir + [e])[1..] == dir[1..] + [e];
      if room > 0 {
        if dir[0].isDirectory || IsSidecar(dir[0].name) {
          StagedMore(dir[1..], e, room);
        } else {
          StagedMore(dir[1..], e, room - 1);
        }
      }
    }
  }

  /** The files among the first entries that fit the stage. */
  function Staged(dir: seq<DirEntry>, room: nat): (r: seq<Line>)
    ensures |r| <= room
    decreases |dir|
  {
    if dir == [] || room == 0 then []
    else if dir[0].isDirectory || IsSidecar(dir[0].name) then Staged(dir[1..], room)
    else [Line(if |dir[0].name| > NAME_ROOM then dir[0].name[..NAME_ROOM] else dir[0].name, dir[0].size)] + Staged(dir[1..], room - 1)
  }

  // ---- the sort ----

  /** Insert behind every line that is not greater. */
  function Insert(s: seq<Line>, x: Line): (r: seq<Line>)
    ensures |r| == |s| + 1
    decreases |s|
  {
    if s == [] || !Greater(s[|s| - 1].name, x.name) then s + [x]
    else Insert(s[..|s| - 1], x) + [s[|s| - 1]]
  }

  function Sorting(s: seq<Line>): (r: seq<Line>)
    ensures |r| == |s|
    decreases |s|
  {
    if s == [] then [] else Insert(Sorting(s[..|s| - 1]), s[|s| - 1])
  }

  ghost predicate Ascending(s: seq<Line>) {
    forall i, j :: 0 <= i < j < |s| ==> !Greater(s[i].name, s[j].name)
  }

  lemma {:induction false} InsertElements(s: seq<Line>, x: Line)
    ensures multiset(Insert(s, x)) == multiset(s) + multiset{x}
    decreases |s|
  {
    hide Greater;
    if s != [] && Greater(s[|s| - 1].name, x.name) {
      InsertElements(s[..|s| - 1], x);
      assert s == s[..|s| - 1] + [s[|s| - 1]];
    }
  }

  lemma {:induction false} InsertMembers(s: seq<Line>, x: Line)
    ensures forall i :: 0 <= i < |s| + 1 ==> Insert(s, x)[i] == x || Insert(s, x)[i] in s
    decreases |s|
  {
    hide Greater;
    if s != [] && Greater(s[|s| - 1].name, x.name) {
      InsertMembers(s[..|s| - 1], x);
      assert s == s[..|s| - 1] + [s[|s| - 1]];
    }
  }

  lemma {:induction false} AscendingSnoc(s: seq<Line>, y: Line)
    requires Ascending(s) && forall i :: 0 <= i < |s| ==> !Greater(s[i].name, y.name)
    ensures Ascending(s + [y])
  {
    hide Greater;
  }

  lemma {:induction false} InsertAscending(s: seq<Line>, x: Line)
    requires Ascending(s)
    ensures Ascending(Insert(s, x))
    decreases |s|
  {
    hide Greater;
    if s != [] {
      var n := |s| - 1;
      if !Greater(s[n].name, x.name) {
        forall i | 0 <= i < |s| ensures !Greater(s[i].name, x.name) {
          if i < n { GreaterTransitive(s[i].name, s[n].name, x.name); }
        }
        AscendingSnoc(s, x);
      } else {
        GreaterTotal(s[n].name, x.name);
        var r := Insert(s[..n], x);
        InsertAscending(s[..n], x);
        InsertMembers(s[..n], x);
        forall i | 0 <= i < |r| ensures !Greater(r[i].name, s[n].name) {
          if r[i] != x {
            var k :| 0 <= k < n && s[..n][k] == r[i];
            assert s[k] == r[i];
          }
        }
        AscendingSnoc(r, s[n]);
      }
    }
  }

  /** Sorting yields the same lines in ascending order. */
  lemma {:induction false} SortingSorts(s: seq<Line>)
    ensures Ascending(Sorting(s)) && multiset(Sorting(s)) == multiset(s)
    decreases |s|
  {
    hide Greater, Insert, Ascending;
    if s == [] {
      NothingAscending();
    } else {
      SortingSorts(s[..|s| - 1]);
      InsertAscending(Sorting(s[..|s| - 1]), s[|s| - 1]);
      InsertElements(Sorting(s[..|s| - 1]), s[|s| - 1]);
      assert s == s[..|s| - 1] + [s[|s| - 1]];
    }
  }

  lemma {:induction false} NothingAscending()
    ensures Ascending([])
  {
  }

  predicate DistinctNames(s: seq<Line>) {
    forall i, j :: 0 <= i < j < |s| ==> s[i].name != s[j].name
  }

  lemma {:induction false} FirstSame(s: seq<Line>, t: seq<Line>)
    requires Ascending(s) && Ascending(t) && DistinctNames(t) && multiset(s) == multiset(t) && s != [] && t != []
    ensures s[0] == t[0]
  {
    hide Greater, Ascending;
    assert s[0] in multiset(t) && t[0] in multiset(s);
    var i :| 0 <= i < |t| && t[i] == s[0];
    var j :| 0 <= j < |s| && s[j] == t[0];
    GreaterTotal(s[0].name, t[0].name);
    FirstLeast(s, j);
    FirstLeast(t, i);
    assert i == 0;
  }

  lemma {:induction false} FirstLeast(s: seq<Line>, i: nat)
    requires Ascending(s) && i < |s|
    ensures i == 0 || !Greater(s[0].name, s[i].name)
  {
  }

  lemma {:induction false} TailElements(s: seq<Line>)
    requires s != []
    ensures multiset(s[1..]) == multiset(s) - multiset{s[0]}
  {
    assert s == [s[0]] + s[1..];
  }

  lemma {:induction false} SameOrder(s: seq<Line>, t: seq<Line>)
    requires Ascending(s) && Ascending(t) && DistinctNames(s) && DistinctNames(t) && multiset(s) == multiset(t)
    ensures s == t
    decreases |s|
  {
    hide Greater;
    assert |s| == |multiset(s)| == |multiset(t)| == |t|;
    if s != [] {
      FirstSame(s, t);
      TailElements(s);
      TailElements(t);
      SameOrder(s[1..], t[1..]);
      assert s == [s[0]] + s[1..] && t == [t[0]] + t[1..];
    }
  }

  /** With distinct names there is only one ascending order, so the listing depends on what is in
      the directory and not on how the card enumerates it. */
  lemma {:induction false} AscendingUnique(s: seq<Line>, t: seq<Line>)
    requires Ascending(s) && Ascending(t) && multiset(s) == multiset(t)
    requires (forall i, j :: 0 <= i < j < |s| ==> s[i].name != s[j].name) && forall i, j :: 0 <= i < j < |t| ==> t[i].name != t[j].name
    ensures s == t
  {
    hide Ascending;
    SameOrder(s, t);
  }

  /** While greater lines move up, place j of the first i + 1 is free. */
  ghost predicate Hole(b: seq<Line>, s: seq<Line>, tail: seq<Line>, j: nat, i: nat) {
    j <= i == |s| < |b| && b[..j] == s[..j] && b[j + 1..i + 1] == s[j..] && b[i + 1..] == tail
  }

  lemma {:induction false} HoleMoves(b: seq<Line>, s: seq<Line>, tail: seq<Line>, j: nat, i: nat)
    requires Hole(b, s, tail, j, i) && 0 < j
    ensures b[j - 1] == s[j - 1] && Hole(b[j := b[j - 1]], s, tail, j - 1, i)
  {
    assert b[j - 1] == b[..j][j - 1];
    var c := b[j := b[j - 1]];
    assert c[..j - 1] == b[..j][..j - 1];
    assert c[j..i + 1] == [c[j]] + b[j + 1..i + 1];
    assert s[j - 1..] == [s[j - 1]] + s[j..];
    assert c[i + 1..] == b[i + 1..];
  }

  lemma {:induction false} HoleFilled(b: seq<Line>, s: seq<Line>, tail: seq<Line>, j: nat, i: nat, x: Line)
    requires Hole(b, s, tail, j, i)
    ensures b[j := x][..i + 1] == s[..j] + [x] + s[j..] && b[j := x][i + 1..] == tail
  {
    var c := b[j := x];
    assert c[..i + 1] == b[..j] + [x] + b[j + 1..i + 1];
    assert c[i + 1..] == b[i + 1..];
  }

  /** The inner loop: shift greater lines up and put line i in its place. */
  method InsertInPlace(a: array<Line>, i: nat)
    requires i < a.Length
    modifies a
    ensures a[..i + 1] == Insert(old(a[..i]), old(a[i])) && a[i + 1..] == old(a[i + 1..])
  {
    hide Greater, Insert, Hole;
    ghost var s := a[..i];
    ghost var tail := a[i + 1..];
    var x := a[i];
    var j := i;
    InsertSplit(s, x, i);
    assert Hole(a[..], s, tail, i, i) by { HoleAtEnd(a[..], i); }
    while j > 0 && Greater(a[j - 1].name, x.name)
      invariant j <= i && Hole(a[..], s, tail, j, i)
      invariant Insert(s, x) == Insert(s[..j], x) + s[j..]
    {
      HoleMoves(a[..], s, tail, j, i);
      InsertMoved(s, j, x);
      a[j] := a[j - 1];
      j := j - 1;
    }
    if j > 0 { HoleMoves(a[..], s, tail, j, i); }
    InsertStays(s[..j], x);
    HoleFilled(a[..], s, tail, j, i, x);
    a[j] := x;
  }

  lemma {:induction false} HoleAtEnd(b: seq<Line>, i: nat)
    requires i < |b|
    ensures Hole(b, b[..i], b[i + 1..], i, i)
  {
  }

  /** Insertion sort, in place. */
  method SortStage(a: array<Line>, total: nat)
    requires total <= a.Length
    modifies a
    ensures a[..total] == Sorting(old(a[..total])) && a[total..] == old(a[total..])
  {
    hide Greater, Insert, Sorting;
    ghost var was := a[..];
    SortingOne(was[..total]);
    var i := if total == 0 then 0 else 1;
    assert was[..total][..i] == was[..i] == a[..i];
    while i < total
      invariant i <= total && (total > 0 ==> i > 0)
      invariant a[..i] == Sorting(was[..i]) && a[i..] == was[i..]
    {
      assert a[i] == a[i..][0] && was[i] == was[i..][0];
      InsertInPlace(a, i);
      assert was[..i + 1][..i] == was[..i] && was[..i + 1][i] == was[i];
      SortingNext(was[..i + 1]);
      assert was[i..][1..] == was[i + 1..];
      i := i + 1;
    }
  }

  lemma {:induction false} SortingOne(s: seq<Line>)
    ensures |s| > 0 ==> Sorting(s[..1]) == s[..1]
    ensures Sorting(s[..0]) == s[..0] == []
  {
    if |s| > 0 {
      assert s[..1][..0] == [];
      assert Sorting(s[..1]) == Insert([], s[0]) == [s[0]];
    }
  }

  lemma {:induction false} SortingNext(s: seq<Line>)
    requires s != []
    ensures Sorting(s) == Insert(Sorting(s[..|s| - 1]), s[|s| - 1])
  {
    hide Insert;
  }

  lemma {:induction false} InsertSplit(s: seq<Line>, x: Line, i: nat)
    requires i == |s|
    ensures s[..i] == s && Insert(s, x) == Insert(s[..i], x) + s[i..]
  {
  }

  lemma {:induction false} InsertMoves(s: seq<Line>, x: Line)
    requires s != [] && Greater(s[|s| - 1].name, x.name)
    ensures Insert(s, x) == Insert(s[..|s| - 1], x) + [s[|s| - 1]]
  {
  }

  lemma {:induction false} InsertMoved(s: seq<Line>, j: nat, x: Line)
    requires 0 < j <= |s| && Greater(s[j - 1].name, x.name)
    requires Insert(s, x) == Insert(s[..j], x) + s[j..]
    ensures Insert(s, x) == Insert(s[..j - 1], x) + s[j - 1..]
  {
    hide Greater, Insert;
    assert s[..j][..j - 1] == s[..j - 1] && s[..j][j - 1] == s[j - 1];
    InsertMoves(s[..j], x);
    assert Insert(s[..j - 1], x) + [s[j - 1]] + s[j..] == Insert(s[..j - 1], x) + s[j - 1..];
  }

  lemma {:induction false} InsertStays(s: seq<Line>, x: Line)
    requires s == [] || !Greater(s[|s| - 1].name, x.name)
    ensures Insert(s, x) == s + [x]
  {
  }

  /** One page of the listing and the offset of the next one, 0 at the end. */
  method ListFiles(dir: seq<DirEntry>, offset: nat, limit: nat, outMax: nat) returns (page: seq<Line>, next: nat)
    ensures var all := Sorting(Staged(dir, STAGE_MAX));
      var start := if offset < |all| then offset else |all|;
      && start + |page| <= |all| && page == all[start..start + |page|]
      && (|page| == limit || |page| == outMax || start + |page| == |all|) && |page| <= limit && |page| <= outMax
      && next == (if start + |page| < |all| then start + |page| else 0)
  {
    hide Sorting, Staged;
    var stage := new Line[64](i => Line([], 0));
    var total := StageFiles(dir, stage);
    SortStage(stage, total);
    var start := if offset < total then offset else total;
    var end := start + limit;
    if end > total { end := total; }
    if end - start > outMax { end := start + outMax; }
    var sorted := stage[..total];
    page := sorted[start..end];
    next := if end < total then end else 0;
  }

  lemma {:induction false} OneMoreLine(before: seq<Line>, line: Line, rest: seq<Line>)
    ensures before + ([line] + rest) == before + [line] + rest
  {
  }

  /** Copy the files of a directory into the stage, as far as it goes. */
  method StageFiles(dir: seq<DirEntry>, stage: array<Line>) returns (total: nat)
    requires stage.Length == STAGE_MAX
    modifies stage
    ensures total <= STAGE_MAX && stage[..total] == Staged(dir, STAGE_MAX)
  {
    hide Staged, IsSidecar;
    total := 0;
    ghost var lines := Staged(dir, STAGE_MAX);
    StagedAll(dir);
    var k := 0;
    while k < |dir| && total < STAGE_MAX
      invariant k <= |dir| && total <= STAGE_MAX
      invariant lines == stage[..total] + Staged(dir[k..], STAGE_MAX - total)
    {
      StagedNext(dir, k, STAGE_MAX - total);
      var name := dir[k].name;
      if !dir[k].isDirectory && !IsSidecar(name) {
        var line := Line(if |name| > NAME_ROOM then name[..NAME_ROOM] else name, dir[k].size);
        ghost var before, rest := stage[..total], Staged(dir[k + 1..], STAGE_MAX - total - 1);
        stage[total] := line;
        assert stage[..total + 1] == before + [line];
        OneMoreLine(before, line, rest);
        total := total + 1;
      }
      k := k + 1;
    }
    StagedEnd(dir, k, STAGE_MAX - total);
    assert stage[..total] + [] == stage[..total];
  }

  lemma {:induction false} StagedAll(dir: seq<DirEntry>)
    ensures Staged(dir, STAGE_MAX) == [] + Staged(dir[0..], STAGE_MAX)
  {
    assert dir[0..] == dir;
  }

  lemma {:induction false} StagedNext(dir: seq<DirEntry>, k: nat, room: nat)
    requires k < |dir| && room > 0
    ensures var name := dir[k].name;
      Staged(dir[k..], room) == if dir[k].isDirectory || IsSidecar(name) then Staged(dir[k + 1..], room)
        else [Line(if |name| > NAME_ROOM then name[..NAME_ROOM] else name, dir[k].size)] + Staged(dir[k + 1..], room - 1)
  {
    hide IsSidecar;
    assert dir[k..][1..] == dir[k + 1..];
  }

  lemma {:induction false} StagedEnd(dir: seq<DirEntry>, k: nat, room: nat)
    requires k == |dir| || (k < |dir| && room == 0)
    ensures Staged(dir[k..], room) == []
  {
  }
}
