/** Cluster chains in the table: first-fit allocation and its undoing (fs/fat.c:657-666, 743-760). */
module FatChains {
  import opened FatCodec
  import opened FatVolume

  const END := 0xFFF8             // what the driver writes at the end of a chain
  const LAST := 0xFFF_FFF8        // from here on the driver takes an entry for the end of a chain
  const GUARD := 65536

  /** The free clusters from `c` on, lowest first. */
  ghost function FreeFrom(t: seq<nat>, c: nat): seq<nat>
    requires c <= |t|
    decreases |t| - c
  {
    if c == |t| then [] else (if t[c] == 0 then [c] else []) + FreeFrom(t, c + 1)
  }

  ghost predicate Ascending(cs: seq<nat>) {
    forall i, j :: 0 <= i < j < |cs| ==> cs[i] < cs[j]
  }

  lemma {:induction false} FreeFromFacts(t: seq<nat>, c: nat)
    requires c <= |t|
    ensures Ascending(FreeFrom(t, c)) && FreeAbove(t, FreeFrom(t, c), c) && Covers(t, FreeFrom(t, c), c)
    decreases |t| - c
  {
    hide Ascending, FreeAbove, Covers;
    if c < |t| {
      FreeFromFacts(t, c + 1);
      Prepend(t, FreeFrom(t, c + 1), c);
    } else {
      NoneFree(t, c);
    }
  }

  ghost predicate FreeAbove(t: seq<nat>, cs: seq<nat>, c: nat) {
    forall i :: 0 <= i < |cs| ==> c <= cs[i] < |t| && t[cs[i]] == 0
  }

  /** All free clusters from `c` on are among `cs`. */
  ghost predicate Covers(t: seq<nat>, cs: seq<nat>, c: nat) {
    forall x :: c <= x < |t| && t[x] == 0 ==> x in cs
  }

  lemma {:induction false} NoneFree(t: seq<nat>, c: nat)
    requires c == |t|
    ensures Ascending([]) && FreeAbove(t, [], c) && Covers(t, [], c)
  {}

  lemma {:induction false} Prepend(t: seq<nat>, cs: seq<nat>, c: nat)
    requires c < |t| && Ascending(cs) && FreeAbove(t, cs, c + 1) && Covers(t, cs, c + 1)
    ensures [] + cs == cs
    ensures t[c] != 0 ==> FreeAbove(t, cs, c) && Covers(t, cs, c)
    ensures t[c] == 0 ==> Ascending([c] + cs) && FreeAbove(t, [c] + cs, c) && Covers(t, [c] + cs, c)
  {
    hide Covers, Ascending, FreeAbove;
    PrependCovers(t, cs, c);
    PrependAbove(t, cs, c);
    if t[c] == 0 {
      PrependAscending(t, cs, c);
    }
  }

  lemma {:induction false} PrependAscending(t: seq<nat>, cs: seq<nat>, c: nat)
    requires Ascending(cs) && FreeAbove(t, cs, c + 1)
    ensures Ascending([c] + cs)
  {
    var cs' := [c] + cs;
    forall i, j | 0 <= i < j < |cs'| ensures cs'[i] < cs'[j] {
      assert cs'[j] == cs[j - 1] && cs'[i] == if i == 0 then c else cs[i - 1];
    }
  }

  lemma {:induction false} PrependAbove(t: seq<nat>, cs: seq<nat>, c: nat)
    requires FreeAbove(t, cs, c + 1) && c < |t|
    ensures FreeAbove(t, cs, c)
    ensures t[c] == 0 ==> FreeAbove(t, [c] + cs, c)
  {
    var cs' := [c] + cs;
    forall i | 0 <= i < |cs'| ensures t[c] == 0 ==> c <= cs'[i] < |t| && t[cs'[i]] == 0 {
      assert cs'[i] == if i == 0 then c else cs[i - 1];
    }
  }

  lemma {:induction false} PrependCovers(t: seq<nat>, cs: seq<nat>, c: nat)
    requires Covers(t, cs, c + 1) && c < |t|
    ensures t[c] != 0 ==> Covers(t, cs, c)
    ensures t[c] == 0 ==> Covers(t, [c] + cs, c)
  {
    assert c in [c] + cs;
  }

  lemma {:induction false} HeadNotInTail(a: seq<nat>, b: seq<nat>, i: nat)
    requires Ascending(a + b) && i < |a|
    ensures a[i] !in b
  {
    forall j | 0 <= j < |b| ensures a[i] != b[j] {
      assert (a + b)[i] == a[i] && (a + b)[|a| + j] == b[j];
    }
  }

  /** The clusters a request for `n` gets, or all there are. */
  ghost function Chosen(t: seq<nat>, n: nat): seq<nat>
    requires 2 <= |t|
  {
    var free := FreeFrom(t, 2);
    if n <= |free| then free[..n] else free
  }

  lemma {:induction false} ChosenFacts(t: seq<nat>, n: nat)
    requires 2 <= |t|
    ensures Ascending(Chosen(t, n)) && FreeIn(t, Chosen(t, n))
  {
    hide FreeFrom;
    FreeFromFacts(t, 2);
  }

  ghost predicate FreeIn(t: seq<nat>, cs: seq<nat>) {
    forall i :: 0 <= i < |cs| ==> 2 <= cs[i] < |t| && t[cs[i]] == 0
  }

  /** `t'` is `t` with the clusters `cs` linked in order and `tail` in the last; nothing else differs. */
  ghost predicate Chained(t: seq<nat>, t': seq<nat>, cs: seq<nat>, tail: nat) {
    && |t'| == |t|
    && (forall i {:trigger t'[cs[i]]} :: 0 <= i < |cs| ==> cs[i] < |t| && t'[cs[i]] == Link(cs, i, tail))
    && (forall x: nat :: x < |t| && x !in cs ==> t'[x] == t[x])
  }

  function Link(cs: seq<nat>, i: nat, tail: nat): nat {
    if i + 1 < |cs| then cs[i + 1] else tail
  }

  ghost predicate AllBelow(cs: seq<nat>, c: nat) {
    forall i :: 0 <= i < |cs| ==> cs[i] < c
  }

  lemma {:induction false} ChainStarts(t: seq<nat>, t': seq<nat>, c: nat)
    requires Chained(t, t', [], 0) && c < |t| && t[c] == 0
    ensures Chained(t, t', [c], 0)
  {}

  lemma {:induction false} ChainGrows(t: seq<nat>, t': seq<nat>, cs: seq<nat>, c: nat)
    requires Chained(t, t', cs, 0) && Ascending(cs) && FreeIn(t, cs) && cs != []
    requires AllBelow(cs, c) && c < |t| && t[c] == 0
    ensures Chained(t, t'[cs[|cs| - 1] := c], cs + [c], 0)
  {
    var n := |cs|;
    var last, cs' := cs[n - 1], cs + [c];
    var t2 := t'[last := c];
    forall i | 0 <= i < |cs'| ensures cs'[i] < |t| && t2[cs'[i]] == Link(cs', i, 0) {
      ChainGrowsAt(t, t', cs, c, i);
    }
    hide Ascending, FreeIn, AllBelow, Link;
    forall x: nat | x < |t| && x !in cs' ensures t2[x] == t[x] {
      assert last in cs;
    }
  }

  lemma {:induction false} ChainGrowsAt(t: seq<nat>, t': seq<nat>, cs: seq<nat>, c: nat, i: nat)
    requires Chained(t, t', cs, 0) && Ascending(cs) && FreeIn(t, cs) && cs != []
    requires AllBelow(cs, c) && c < |t| && t[c] == 0 && i <= |cs|
    ensures (cs + [c])[i] < |t| && t'[cs[|cs| - 1] := c][(cs + [c])[i]] == Link(cs + [c], i, 0)
  {
    var n := |cs|;
    var last, cs' := cs[n - 1], cs + [c];
    if i == n {
      assert cs'[i] == c && last < c && c !in cs;
      assert t'[c] == t[c];
    } else {
      assert cs'[i] == cs[i];
      if i == n - 1 {
        assert cs'[n] == c;
      } else {
        assert cs[i] < last && t'[cs[i]] == Link(cs, i, 0);
        assert cs'[i + 1] == cs[i + 1];
      }
    }
  }

  lemma {:induction false} ChainSealed(t: seq<nat>, t': seq<nat>, cs: seq<nat>, tail: nat)
    requires Chained(t, t', cs, 0) && Ascending(cs) && FreeIn(t, cs) && cs != []
    ensures Chained(t, t'[cs[|cs| - 1] := tail], cs, tail)
  {
    var t2 := t'[cs[|cs| - 1] := tail];
    forall i | 0 <= i < |cs| ensures cs[i] < |t| && t2[cs[i]] == Link(cs, i, tail) {
      assert t'[cs[i]] == Link(cs, i, 0);
    }
  }

  lemma {:induction false} ChainFreed(t: seq<nat>, t': seq<nat>, cs: seq<nat>)
    requires Chained(t, t', cs, 0) && Ascending(cs) && FreeIn(t, cs) && cs != []
    ensures Chained(t, t'[cs[0] := 0], cs[1..], 0)
    ensures t'[cs[0]] == if |cs| == 1 then 0 else cs[1]
  {
    assert t'[cs[0]] == Link(cs, 0, 0);
    var rest, t2 := cs[1..], t'[cs[0] := 0];
    forall i | 0 <= i < |rest| ensures rest[i] < |t| && t2[rest[i]] == Link(rest, i, 0) {
      assert rest[i] == cs[i + 1] && t'[cs[i + 1]] == Link(cs, i + 1, 0);
    }
    forall x: nat | x < |t| && x !in rest ensures t2[x] == t[x] {
      if x != cs[0] {
        assert cs == [cs[0]] + rest;
        assert x !in cs;
      }
    }
  }

  ghost function Drop(cs: seq<nat>, n: nat): seq<nat> {
    if n <= |cs| then cs[n..] else []
  }

  /** Freeing a chain that was linked into free clusters undoes it if and only if the guard lets it finish. */
  lemma {:induction false} RollbackIff(t: seq<nat>, t': seq<nat>, cs: seq<nat>)
    requires Ascending(cs) && FreeIn(t, cs) && Chained(t, t', Drop(cs, GUARD), 0)
    ensures t' == t <==> |cs| <= 65537
  {
    var left := Drop(cs, GUARD);
    if |cs| <= GUARD {
      assert left == [];
      assert t' == t;
    } else {
      assert left[0] == cs[GUARD];
      assert t'[left[0]] == Link(left, 0, 0);
      assert t[cs[GUARD]] == 0;
      if |cs| == GUARD + 1 {
        assert left == [cs[GUARD]];
        assert t' == t;
      } else {
        assert left[1] == cs[GUARD + 1] >= 2;
      }
    }
  }

  /** No entry of these clusters lies in two sectors. */
  ghost predicate Clean(t: FatType, cs: seq<nat>) {
    forall i :: 0 <= i < |cs| ==> !Straddles(t, cs[i])
  }

  /** What the operations on chains keep besides the table itself. */
  ghost predicate TablesOnly(d: seq<Sector>, d': seq<Sector>, g: Geometry)
    requires GeometryOk(g, |d|)
  {
    OnlyTables(d, d', g) && SpareSame(d, d', g) && (CopiesEqual(d, g) ==> CopiesEqual(d', g))
  }

  lemma {:induction false} CleanWrite(d: seq<Sector>, g: Geometry, c: nat, value: nat)
    requires GeometryOk(g, |d|) && c < g.MaxCluster() && !Straddles(g.fatType, c)
    ensures Table(AfterWrite(d, g, c, value), g) == Table(d, g)[c := value % Values(g.fatType)]
    ensures TablesOnly(d, AfterWrite(d, g, c, value), g)
  {
    hide AfterWrite, EntryWritten, GeometryOk, Straddles, OnlyTables, CopiesEqual, SpareSame;
    ValidClusterFits(d, g, c);
    WriteIsLocalIff(d, g, c, value);
    TableAfterWrite(d, AfterWrite(d, g, c, value), g, c, value);
    WriteFrame(d, g, c, value);
    WriteSparesOthers(d, AfterWrite(d, g, c, value), g, c, value);
  }

  lemma {:induction false} TablesOnlySelf(d: seq<Sector>, g: Geometry)
    requires GeometryOk(g, |d|)
    ensures TablesOnly(d, d, g)
  {
    hide GeometryOk, SpareSame;
    SpareSelf(d, g);
  }

  lemma {:induction false} TablesOnlyTransitive(d: seq<Sector>, d1: seq<Sector>, d2: seq<Sector>, g: Geometry)
    requires GeometryOk(g, |d|) && TablesOnly(d, d1, g) && TablesOnly(d1, d2, g)
    ensures TablesOnly(d, d2, g)
  {
    hide GeometryOk, SpareSame, CopiesEqual;
    SpareTransitive(d, d1, d2, g);
    FrameTransitive(d, d1, d2, g);
  }

  /** The disk after fs/fat.c:657-666 from cluster `c`, with `n` more steps allowed. */
  function Freed(d: seq<Sector>, g: Geometry, c: nat, n: nat): (d': seq<Sector>)
    ensures |d'| == |d|
    decreases n
  {
    if c < 2 || c >= LAST || n == 0 then d
    else
      var next, d1 := Entry(d, g, c), AfterWrite(d, g, c, 0);
      if next >= LAST then d1 else Freed(d1, g, next, n - 1)
  }

  /** fs/fat.c:657-666. */
  method FreeChain(fs: Fat, first: nat)
    modifies fs`buffer, fs.disk
    ensures fs.disk[..] == Freed(old(fs.disk[..]), fs.g, first, GUARD)
  {
    hide AfterWrite, Entry;
    var c: nat, guard := first, 0;
    ghost var d0 := fs.disk[..];
    while 2 <= c < LAST && guard < GUARD
      invariant 0 <= guard <= GUARD
      invariant Freed(fs.disk[..], fs.g, c, GUARD - guard) == Freed(d0, fs.g, first, GUARD)
    {
      guard := guard + 1;
      var next := fs.ReadFatEntry(c);
      fs.WriteFatEntry(c, 0);
      if next >= LAST {
        break;
      }
      c := next;
    }
  }

  /** On a zero-terminated chain linked into free clusters, freeing undoes the linking, up to the steps allowed. */
  lemma {:induction false} FreedUndoes(d: seq<Sector>, g: Geometry, c: nat, t: seq<nat>, cs: seq<nat>, n: nat)
    requires FreeableFrom(d, g, c, t, cs)
    ensures TablesOnly(d, Freed(d, g, c, n), g) && Chained(t, Table(Freed(d, g, c, n), g), Drop(cs, n), 0)
    decreases n
  {
    hide TablesOnly, FreeableFrom, GeometryOk, AfterWrite, Entry, Chained, Table;
    FreeableChain(d, g, c, t, cs);
    if c < 2 || n == 0 {
      TablesOnlySelf(d, g);
      assert Drop(cs, n) == cs;
    } else {
      var next, d1 := Entry(d, g, c), AfterWrite(d, g, c, 0);
      FreeStep(d, g, c, t, cs);
      FreedUndoes(d1, g, next, t, cs[1..], n - 1);
      TablesOnlyTransitive(d, d1, Freed(d1, g, next, n - 1), g);
      assert Drop(cs, n) == Drop(cs[1..], n - 1);
    }
  }

  lemma {:induction false} FreeableChain(d: seq<Sector>, g: Geometry, first: nat, t: seq<nat>, cs: seq<nat>)
    requires FreeableFrom(d, g, first, t, cs)
    ensures GeometryOk(g, |d|) && Chained(t, Table(d, g), cs, 0) && first < LAST && (first < 2 ==> cs == [])
  {
    TableBelowLast(d, g);
  }

  /** `first` starts the zero-terminated chain `cs`, linked into clusters free in `t`. */
  ghost predicate FreeableFrom(d: seq<Sector>, g: Geometry, first: nat, t: seq<nat>, cs: seq<nat>) {
    && GeometryOk(g, |d|)
    && Ascending(cs) && FreeIn(t, cs) && Clean(g.fatType, cs)
    && Chained(t, Table(d, g), cs, 0)
    && first == if cs == [] then 0 else cs[0]
  }

  lemma {:induction false} FreeStep(d: seq<Sector>, g: Geometry, c: nat, t: seq<nat>, cs: seq<nat>)
    requires FreeableFrom(d, g, c, t, cs) && c >= 2
    ensures var d' := AfterWrite(d, g, c, 0);
            && cs != [] && Entry(d, g, c) < LAST
            && FreeableFrom(d', g, Entry(d, g, c), t, cs[1..]) && TablesOnly(d, d', g)
  {
    hide AfterWrite, GeometryOk, TablesOnly, Entry, Straddles, Ascending, FreeIn, Clean, Chained;
    FirstIsClean(g, t, Table(d, g), cs);
    CleanWrite(d, g, c, 0);
    ChainFreed(t, Table(d, g), cs);
    assert Table(d, g)[c] == Entry(d, g, c);
    RestIsClean(g, t, cs);
    TableBelowLast(d, g);
  }

  lemma {:induction false} FirstIsClean(g: Geometry, t: seq<nat>, t': seq<nat>, cs: seq<nat>)
    requires Clean(g.fatType, cs) && FreeIn(t, cs) && Chained(t, t', cs, 0)
    ensures |t'| == |t| && (cs != [] ==> !Straddles(g.fatType, cs[0]) && cs[0] < |t|)
    ensures |cs| > 1 ==> cs[1] < |t|
  {}

  lemma {:induction false} RestIsClean(g: Geometry, t: seq<nat>, cs: seq<nat>)
    requires Clean(g.fatType, cs) && FreeIn(t, cs) && Ascending(cs) && cs != []
    ensures Clean(g.fatType, cs[1..]) && FreeIn(t, cs[1..]) && Ascending(cs[1..])
  {
    var rest := cs[1..];
    assert forall i :: 0 <= i < |rest| ==> rest[i] == cs[i + 1];
  }

  lemma {:induction false} TableBelowLast(d: seq<Sector>, g: Geometry)
    requires GeometryOk(g, |d|)
    ensures |Table(d, g)| < LAST
  {}

  /** The allocation loop has looked at the clusters below `c` and linked `cs`. */
  ghost predicate Scanning(d0: seq<Sector>, d: seq<Sector>, g: Geometry, c: nat, cs: seq<nat>, needed: nat) {
    && GeometryOk(g, |d0|) && |d| == |d0| && TablesOnly(d0, d, g) && 2 <= c <= g.MaxCluster()
    && Clean(g.fatType, Chosen(Table(d0, g), needed))
    && Chained(Table(d0, g), Table(d, g), cs, 0)
    && |cs| <= needed
    && cs + FreeFrom(Table(d0, g), c) == FreeFrom(Table(d0, g), 2)
  }

  lemma {:induction false} Prefix(t: seq<nat>, c: nat, cs: seq<nat>, needed: nat)
    requires 2 <= c <= |t| && |cs| <= needed && cs + FreeFrom(t, c) == FreeFrom(t, 2)
    ensures |cs| <= |Chosen(t, needed)| && cs == Chosen(t, needed)[..|cs|]
    ensures Ascending(cs) && FreeIn(t, cs) && AllBelow(cs, c)
  {
    hide FreeFrom, Ascending, FreeIn, AllBelow;
    ChosenFacts(t, |cs|);
    assert Chosen(t, |cs|) == FreeFrom(t, 2)[..|cs|] == cs;
    BelowScan(t, c, cs);
  }

  lemma {:induction false} BelowScan(t: seq<nat>, c: nat, cs: seq<nat>)
    requires 2 <= c <= |t| && cs + FreeFrom(t, c) == FreeFrom(t, 2)
    ensures AllBelow(cs, c)
  {
    hide FreeFrom;
    FreeFromFacts(t, 2);
    FreeFromFacts(t, c);
    forall i | 0 <= i < |cs| ensures cs[i] < c {
      assert (cs + FreeFrom(t, c))[i] == cs[i];
      HeadNotInTail(cs, FreeFrom(t, c), i);
    }
  }

  lemma {:induction false} ScanSkips(d0: seq<Sector>, d: seq<Sector>, g: Geometry, c: nat, cs: seq<nat>, needed: nat)
    requires Scanning(d0, d, g, c, cs, needed) && c < g.MaxCluster()
    ensures Entry(d, g, c) == Table(d0, g)[c]
    ensures Entry(d, g, c) != 0 ==> Scanning(d0, d, g, c + 1, cs, needed)
  {
    hide GeometryOk, TablesOnly, Clean, Entry;
    Prefix(Table(d0, g), c, cs, needed);
    assert c !in cs;
    assert Table(d, g)[c] == Entry(d, g, c);
    assert Table(d0, g)[c] != 0 ==> [] + FreeFrom(Table(d0, g), c + 1) == FreeFrom(Table(d0, g), c + 1);
  }

  lemma {:induction false} FreeFromTakes(t: seq<nat>, c: nat, cs: seq<nat>)
    requires c < |t| && t[c] == 0 && 2 <= |t|
    ensures cs + FreeFrom(t, c) == cs + [c] + FreeFrom(t, c + 1)
  {}

  lemma {:induction false} ScanTakes(d0: seq<Sector>, d: seq<Sector>, g: Geometry, c: nat, cs: seq<nat>, needed: nat)
    requires Scanning(d0, d, g, c, cs, needed) && c < g.MaxCluster() && Entry(d, g, c) == 0 && |cs| < needed
    ensures cs == [] ==> Scanning(d0, d, g, c + 1, cs + [c], needed)
    ensures cs != [] ==> Scanning(d0, AfterWrite(d, g, cs[|cs| - 1], c), g, c + 1, cs + [c], needed)
  {
    var t := Table(d0, g);
    ScanSkips(d0, d, g, c, cs, needed);
    FreeFromTakes(t, c, cs);
    Prefix(t, c, cs, needed);
    if cs == [] {
      ChainStarts(t, Table(d, g), c);
      assert cs + [c] == [c];
    } else {
      var last := cs[|cs| - 1];
      WithinLimit(g, |d|, c);
      assert last == Chosen(t, needed)[|cs| - 1];
      hide GeometryOk, TablesOnly, Chained, AfterWrite, Straddles, FreeFrom, Chosen, Entry;
      ChainGrows(t, Table(d, g), cs, c);
      CleanWrite(d, g, last, c);
      TablesOnlyTransitive(d0, d, AfterWrite(d, g, last, c), g);
    }
  }

  lemma {:induction false} ScanStep(d0: seq<Sector>, d: seq<Sector>, g: Geometry, c: nat, cs: seq<nat>, needed: nat)
    requires Scanning(d0, d, g, c, cs, needed) && c < g.MaxCluster() && |cs| < needed
    ensures Entry(d, g, c) != 0 ==> Scanning(d0, d, g, c + 1, cs, needed)
    ensures Entry(d, g, c) == 0 ==>
              Scanning(d0, if cs == [] then d else AfterWrite(d, g, cs[|cs| - 1], c), g, c + 1, cs + [c], needed)
  {
    hide Scanning, Entry, AfterWrite;
    ScanSkips(d0, d, g, c, cs, needed);
    if Entry(d, g, c) == 0 {
      ScanTakes(d0, d, g, c, cs, needed);
    }
  }

  lemma {:induction false} WithinLimit(g: Geometry, n: nat, c: nat)
    requires GeometryOk(g, n) && c < g.MaxCluster()
    ensures c < Limit(g.fatType) && c % Values(g.fatType) == c && c < LAST
  {}

  /** The end of the chain is marked (fs/fat.c:760). */
  lemma {:induction false} ScanSeals(d0: seq<Sector>, d: seq<Sector>, g: Geometry, c: nat, cs: seq<nat>)
    requires Scanning(d0, d, g, c, cs, |cs|) && cs != []
    ensures var d' := AfterWrite(d, g, cs[|cs| - 1], END);
            TablesOnly(d0, d', g) && Chained(Table(d0, g), Table(d', g), cs, END % Values(g.fatType))
  {
    var t := Table(d0, g);
    Prefix(t, c, cs, |cs|);
    var last := cs[|cs| - 1];
    assert last == Chosen(t, |cs|)[|cs| - 1];
    hide GeometryOk, TablesOnly, Chained, AfterWrite, Straddles, FreeFrom, Chosen;
    ChainSealed(t, Table(d, g), cs, END % Values(g.fatType));
    CleanWrite(d, g, last, END);
    TablesOnlyTransitive(d0, d, AfterWrite(d, g, last, END), g);
  }

  /** Where a scan may stop: enough taken, or no cluster left. */
  lemma {:induction false} ScanEnds(d0: seq<Sector>, d: seq<Sector>, g: Geometry, c: nat, cs: seq<nat>, needed: nat)
    requires Scanning(d0, d, g, c, cs, needed) && (|cs| == needed || c == g.MaxCluster())
    ensures cs == Chosen(Table(d0, g), needed)
    ensures |cs| == needed <==> needed <= |FreeFrom(Table(d0, g), 2)|
    ensures |cs| < needed ==> FreeableFrom(d, g, if cs == [] then 0 else cs[0], Table(d0, g), cs)
  {
    var t := Table(d0, g);
    assert c == |t| ==> cs == FreeFrom(t, 2) by {
      assert cs + [] == cs;
    }
    hide GeometryOk, TablesOnly, Chained, FreeFrom;
    Prefix(t, c, cs, needed);
  }

  lemma {:induction false} ScanBegins(d: seq<Sector>, g: Geometry, needed: nat)
    requires GeometryOk(g, |d|) && Clean(g.fatType, Chosen(Table(d, g), needed))
    ensures Scanning(d, d, g, 2, [], needed)
  {
    hide FreeFrom, TablesOnly, Clean, GeometryOk;
    assert 2 <= g.MaxCluster() by {
      BoundExists(g, |d|);
    }
    TablesOnlySelf(d, g);
    assert [] + FreeFrom(Table(d, g), 2) == FreeFrom(Table(d, g), 2);
  }

  /** What one allocation leaves, given the disk before. */
  ghost predicate Allocated(d0: seq<Sector>, d: seq<Sector>, g: Geometry, needed: nat, ok: bool, first: nat) {
    && GeometryOk(g, |d0|)
    && var t := Table(d0, g);
    var cs := Chosen(t, needed);
    && TablesOnly(d0, d, g)
    && (ok <==> needed <= |FreeFrom(t, 2)|)
    && (ok ==> Chained(t, Table(d, g), cs, END % Values(g.fatType)) && first == if cs == [] then 0 else cs[0])
    && (!ok ==> Chained(t, Table(d, g), Drop(cs, GUARD), 0))
  }

  /** No cluster that a request for `needed` could get has a torn entry. */
  ghost predicate CleanRequest(d: seq<Sector>, g: Geometry, needed: nat) {
    GeometryOk(g, |d|) && Clean(g.fatType, Chosen(Table(d, g), needed))
  }

  ghost predicate Scanned(d0: seq<Sector>, d: seq<Sector>, g: Geometry, c: nat, cs: seq<nat>, needed: nat) {
    CleanRequest(d0, g, needed) ==> Scanning(d0, d, g, c, cs, needed)
  }

  lemma {:induction false} ScannedBegins(d: seq<Sector>, g: Geometry, needed: nat)
    ensures Scanned(d, d, g, 2, [], needed)
  {
    hide Scanning;
    if CleanRequest(d, g, needed) {
      ScanBegins(d, g, needed);
    }
  }

  /** The first and the last cluster of the chain so far, 0 while there is none. */
  ghost predicate Ends(cs: seq<nat>, first: nat, last: nat) {
    if cs == [] then first == 0 == last else first == cs[0] && last == cs[|cs| - 1] && first != 0 && last != 0
  }

  ghost predicate IsBound(g: Geometry, n: nat, m: nat) {
    GeometryOk(g, n) && m == g.MaxCluster()
  }

  lemma {:induction false} ScannedStep(
      d0: seq<Sector>, d: seq<Sector>, g: Geometry, m: nat, c: nat, cs: seq<nat>, first: nat, last: nat, needed: nat)
    requires Scanned(d0, d, g, c, cs, needed) && IsBound(g, |d0|, m) && 0 < c < m && |cs| < needed
    requires Ends(cs, first, last)
    ensures Entry(d, g, c) != 0 ==> Scanned(d0, d, g, c + 1, cs, needed)
    ensures Entry(d, g, c) == 0 ==>
              Scanned(d0, if last == 0 then d else AfterWrite(d, g, last, c), g, c + 1, cs + [c], needed)
    ensures Ends(cs + [c], if first == 0 then c else first, c)
  {
    hide Scanning, Entry, AfterWrite, GeometryOk, CleanRequest;
    if CleanRequest(d0, g, needed) {
      ScanStep(d0, d, g, c, cs, needed);
    }
  }

  /** The disk, the ends of the chain and its length while the scan runs. */
  datatype Scan = Scan(disk: seq<Sector>, first: nat, prev: nat, count: nat)

  /** The scan for free clusters from `c` below `m`, each linked to the one before it (fs/fat.c:748-755). */
  function ScanFrom(s: Scan, g: Geometry, m: nat, c: nat, needed: nat): (s': Scan)
    ensures |s'.disk| == |s.disk|
    decreases m - c
  {
    if c >= m || s.count >= needed then s
    else if Entry(s.disk, g, c) != 0 then ScanFrom(s, g, m, c + 1, needed)
    else
      var d := if s.prev == 0 then s.disk else AfterWrite(s.disk, g, s.prev, c);
      ScanFrom(Scan(d, if s.first == 0 then c else s.first, c, s.count + 1), g, m, c + 1, needed)
  }

  /** Disk, success and first cluster after fs/fat.c:743-760. */
  function Allocation(d: seq<Sector>, g: Geometry, m: nat, needed: nat): (r: (seq<Sector>, bool, nat))
    ensures |r.0| == |d|
  {
    var s := ScanFrom(Scan(d, 0, 0, 0), g, m, 2, needed);
    if s.count < needed then (Freed(s.disk, g, s.first, GUARD), false, s.first)
    else (if s.prev == 0 then s.disk else AfterWrite(s.disk, g, s.prev, END), true, s.first)
  }

  /** The allocation as a run of the scan: where it stops, and what is then linked. */
  lemma {:induction false} ScanRuns(d0: seq<Sector>, s: Scan, g: Geometry, m: nat, c: nat, cs: seq<nat>, needed: nat)
    returns (c': nat, cs': seq<nat>)
    requires Scanned(d0, s.disk, g, c, cs, needed) && IsBound(g, |d0|, m) && 0 < c <= m
    requires Ends(cs, s.first, s.prev) && s.count == |cs| <= needed
    ensures var s' := ScanFrom(s, g, m, c, needed);
            && Scanned(d0, s'.disk, g, c', cs', needed) && Ends(cs', s'.first, s'.prev)
            && s'.count == |cs'| <= needed && (s'.count == needed || c' == m)
    decreases m - c
  {
    hide Scanned, Ends, IsBound, Entry, AfterWrite;
    if c >= m || s.count >= needed {
      c', cs' := c, cs;
    } else {
      ScannedStep(d0, s.disk, g, m, c, cs, s.first, s.prev, needed);
      if Entry(s.disk, g, c) != 0 {
        c', cs' := ScanRuns(d0, s, g, m, c + 1, cs, needed);
      } else {
        var d := if s.prev == 0 then s.disk else AfterWrite(s.disk, g, s.prev, c);
        var s1 := Scan(d, if s.first == 0 then c else s.first, c, s.count + 1);
        c', cs' := ScanRuns(d0, s1, g, m, c + 1, cs + [c], needed);
      }
    }
  }

  /** If no chosen entry is torn, the lowest free clusters are chained, or the shortage is undone. */
  lemma {:induction false} AllocationIsRight(d: seq<Sector>, g: Geometry, m: nat, needed: nat)
    requires CleanRequest(d, g, needed) && IsBound(g, |d|, m)
    ensures var r := Allocation(d, g, m, needed); Allocated(d, r.0, g, needed, r.1, r.2)
  {
    BoundExists(g, |d|);
    hide CleanRequest, Allocated, Scanning, AfterWrite, FreeableFrom, TablesOnly, Chained, GeometryOk, Freed, ScanFrom;
    ScannedBegins(d, g, needed);
    var s := ScanFrom(Scan(d, 0, 0, 0), g, m, 2, needed);
    var c, cs := ScanRuns(d, Scan(d, 0, 0, 0), g, m, 2, [], needed);
    ScanEnds(d, s.disk, g, c, cs, needed);
    if s.count < needed {
      FreedUndoes(s.disk, g, s.first, Table(d, g), cs, GUARD);
      UndoneAllocation(d, s.disk, Freed(s.disk, g, s.first, GUARD), g, c, cs, needed, s.first);
    } else {
      SealedAllocation(d, s.disk, g, c, cs, s.first);
    }
  }

  /** The scan for free clusters (fs/fat.c:746-755). */
  method LinkFree(fs: Fat, maxCluster: nat, needed: nat) returns (count: nat, first: nat, prev: nat)
    requires maxCluster >= 2
    modifies fs`buffer, fs.disk
    ensures Scan(fs.disk[..], first, prev, count) ==
            ScanFrom(Scan(old(fs.disk[..]), 0, 0, 0), fs.g, maxCluster, 2, needed)
  {
    hide AfterWrite, Entry;
    prev, count, first := 0, 0, 0;
    ghost var end := ScanFrom(Scan(fs.disk[..], 0, 0, 0), fs.g, maxCluster, 2, needed);
    var c := 2;
    while c < maxCluster && count < needed
      invariant 2 <= c <= maxCluster
      invariant ScanFrom(Scan(fs.disk[..], first, prev, count), fs.g, maxCluster, c, needed) == end
    {
      var e := fs.ReadFatEntry(c);
      if e == 0 {
        if first == 0 {
          first := c;
        }
        if prev != 0 {
          fs.WriteFatEntry(prev, c);
        }
        prev := c;
        count := count + 1;
      }
      c := c + 1;
    }
  }

  /** fs/fat.c:743-760. */
  method AllocateChain(fs: Fat, needed: nat) returns (ok: bool, first: nat)
    requires GeometryOk(fs.g, fs.disk.Length)
    modifies fs`buffer, fs.disk
    ensures (fs.disk[..], ok, first) == Allocation(old(fs.disk[..]), fs.g, fs.g.MaxCluster(), needed)
  {
    hide AfterWrite, GeometryOk, ScanFrom, Freed;
    BoundExists(fs.g, fs.disk.Length);
    var count, prev;
    count, first, prev := LinkFree(fs, fs.g.MaxCluster(), needed);
    ok := count >= needed;
    if !ok {
      FreeChain(fs, first);
    } else if prev != 0 {
      fs.WriteFatEntry(prev, END);
    }
  }

  lemma {:induction false} UndoneAllocation(
      d0: seq<Sector>, d: seq<Sector>, d': seq<Sector>, g: Geometry, c: nat, cs: seq<nat>, needed: nat, first: nat)
    requires Scanning(d0, d, g, c, cs, needed) && c == g.MaxCluster() && |cs| < needed
    requires TablesOnly(d, d', g) && Chained(Table(d0, g), Table(d', g), Drop(cs, GUARD), 0)
    ensures Allocated(d0, d', g, needed, false, first)
  {
    ScanEnds(d0, d, g, c, cs, needed);
    hide GeometryOk, Chained, Table, TablesOnly;
    TablesOnlyTransitive(d0, d, d', g);
  }

  lemma {:induction false} SealedAllocation(
      d0: seq<Sector>, d: seq<Sector>, g: Geometry, c: nat, cs: seq<nat>, first: nat)
    requires Scanning(d0, d, g, c, cs, |cs|) && first == if cs == [] then 0 else cs[0]
    ensures Allocated(d0, if cs == [] then d else AfterWrite(d, g, cs[|cs| - 1], END), g, |cs|, true, first)
  {
    hide GeometryOk, TablesOnly, AfterWrite;
    ScanEnds(d0, d, g, c, cs, |cs|);
    if cs != [] {
      ScanSeals(d0, d, g, c, cs);
    }
  }

  /** Where no valid cluster straddles, every request is clean. */
  lemma {:induction false} UntornRequest(d: seq<Sector>, g: Geometry, needed: nat)
    requires GeometryOk(g, |d|) && Untorn(g)
    ensures CleanRequest(d, g, needed)
  {
    var cs := Chosen(Table(d, g), needed);
    ChosenFacts(Table(d, g), needed);
    hide GeometryOk, Chosen;
    forall i | 0 <= i < |cs| ensures !Straddles(g.fatType, cs[i]) {
      Straddlers(cs[i]);
    }
  }

  /** Every allocation on every disk of this layout does what it should. */
  ghost predicate AlwaysRight(g: Geometry, n: nat)
    requires GeometryOk(g, n)
  {
    forall d: seq<Sector>, needed: nat :: |d| == n ==> AllocatesRight(d, g, needed)
  }

  ghost predicate AllocatesRight(d: seq<Sector>, g: Geometry, needed: nat)
    requires GeometryOk(g, |d|)
  {
    var r := Allocation(d, g, g.MaxCluster(), needed);
    Allocated(d, r.0, g, needed, r.1, r.2)
  }

  /** Allocation is right on every disk and for every request if and only if no valid cluster straddles. */
  lemma {:induction false} AllocationIff(g: Geometry, n: nat)
    requires GeometryOk(g, n)
    ensures AlwaysRight(g, n) <==> Untorn(g)
  {
    hide Allocation, Allocated, CleanRequest;
    if Untorn(g) {
      forall d: seq<Sector>, needed: nat | |d| == n ensures AllocatesRight(d, g, needed) {
        UntornRequest(d, g, needed);
        AllocationIsRight(d, g, g.MaxCluster(), needed);
      }
    } else {
      TornAllocation(g, n);
    }
  }

  /** A request for one cluster that takes cluster 341 loses every file before it. */
  lemma {:induction false} TornAllocation(g: Geometry, n: nat)
    requires GeometryOk(g, n) && !Untorn(g)
    ensures !AllocatesRight(TornDisk(g.reserved, n), g, 1)
  {
    var d := TornDisk(g.reserved, n);
    hide AfterWrite, Entry, GeometryOk, TornDisk, TablesOnly, ScanFrom, Freed;
    BoundExists(g, n);
    TornFreesAnother(g, n, END);
    var d' := AfterWrite(d, g, 341, END);
    TornAllocationResult(g, n);
    ChosenFacts(Table(d, g), 1);
    assert Table(d, g)[2] == Entry(d, g, 2) && Table(d', g)[2] == Entry(d', g, 2);
    assert 2 !in Chosen(Table(d, g), 1);
  }

  lemma {:induction false} TornAllocationResult(g: Geometry, n: nat)
    requires GeometryOk(g, n) && !Untorn(g)
    ensures var d := TornDisk(g.reserved, n);
            Allocation(d, g, g.MaxCluster(), 1) == (AfterWrite(d, g, 341, END), true, 341)
  {
    hide AfterWrite, Entry, GeometryOk, TornDisk, ScanFrom, Freed;
    var d := TornDisk(g.reserved, n);
    BoundExists(g, n);
    SkipScan(Scan(d, 0, 0, 0), g, g.MaxCluster(), 2);
    TakesLast(g, n);
  }

  lemma {:induction false} TakesLast(g: Geometry, n: nat)
    requires GeometryOk(g, n) && !Untorn(g)
    ensures var d := TornDisk(g.reserved, n);
            ScanFrom(Scan(d, 0, 0, 0), g, g.MaxCluster(), 341, 1) == Scan(d, 341, 341, 1)
  {
    hide Entry, GeometryOk, TornDisk;
    BoundExists(g, n);
    TornDiskEntries(g, n, 341);
    var d := TornDisk(g.reserved, n);
    assert ScanFrom(Scan(d, 341, 341, 1), g, g.MaxCluster(), 342, 1) == Scan(d, 341, 341, 1);
  }

  /** The scan passes over the clusters in use. */
  lemma {:induction false} SkipScan(s: Scan, g: Geometry, m: nat, c: nat)
    requires GeometryOk(g, |s.disk|) && !Untorn(g) && s.disk == TornDisk(g.reserved, |s.disk|) && m == g.MaxCluster()
    requires 2 <= c <= 341 && s.count == 0
    ensures ScanFrom(s, g, m, c, 1) == ScanFrom(s, g, m, 341, 1)
    decreases 341 - c
  {
    hide Entry, GeometryOk, TornDisk, AfterWrite;
    if c < 341 {
      TornDiskEntries(g, |s.disk|, c);
      SkipScan(s, g, m, c + 1);
    }
  }

  /** After a shortage the table is as before if and only if the guard did not stop the undoing. */
  lemma {:induction false} ShortageIff(d0: seq<Sector>, d: seq<Sector>, g: Geometry, needed: nat, first: nat)
    requires Allocated(d0, d, g, needed, false, first)
    ensures Table(d, g) == Table(d0, g) <==> |FreeFrom(Table(d0, g), 2)| <= 65537
  {
    var t := Table(d0, g);
    ChosenFacts(t, needed);
    hide Table, GeometryOk;
    RollbackIff(t, Table(d, g), Chosen(t, needed));
  }

  /** With equal copies, what is restored is the whole disk, byte for byte. */
  lemma {:induction false} ShortageRestoresDisk(d0: seq<Sector>, d: seq<Sector>, g: Geometry, needed: nat, first: nat)
    requires Allocated(d0, d, g, needed, false, first) && CopiesEqual(d0, g)
    ensures d == d0 <==> |FreeFrom(Table(d0, g), 2)| <= 65537
  {
    assert |d| == |d0|;
    hide GeometryOk, Table, OnlyTables, CopiesEqual, SpareSame, FreeFrom, Chained;
    ShortageIff(d0, d, g, needed, first);
    if Table(d, g) == Table(d0, g) {
      SameTableSameDisk(d0, d, g);
    }
  }

  /** Clusters past the guard stay linked to each other, in use by no file. */
  lemma {:induction false} ShortageLeaks(d0: seq<Sector>, d: seq<Sector>, g: Geometry, needed: nat, first: nat, i: nat)
    requires Allocated(d0, d, g, needed, false, first) && GUARD <= i < |FreeFrom(Table(d0, g), 2)| - 1
    ensures var free := FreeFrom(Table(d0, g), 2);
            free[i] < |Table(d, g)| && Table(d, g)[free[i]] == free[i + 1]
  {
    var t := Table(d0, g);
    var free := FreeFrom(t, 2);
    var left := Drop(free, GUARD);
    hide Table, GeometryOk;
    assert left[i - GUARD] == free[i] && left[i - GUARD + 1] == free[i + 1];
    assert Table(d, g)[left[i - GUARD]] == Link(left, i - GUARD, 0);
  }

  /** An empty large volume and a request that is too big by one: the undoing stops short. */
  lemma {:induction false} ShortageFails(g: Geometry, n: nat, m: nat)
    requires GeometryOk(g, n) && g.fatType == FAT32 && m == g.MaxCluster() && m > 65539
    ensures var d := EmptyDisk(n);
            && |FreeFrom(Table(d, g), 2)| == m - 2
            && !Allocation(d, g, m, m - 1).1 && Table(Allocation(d, g, m, m - 1).0, g) != Table(d, g)
  {
    hide GeometryOk, Allocation, EmptyDisk, Entry, FreeFrom;
    var d := EmptyDisk(n);
    forall c: nat | c < m ensures Table(d, g)[c] == 0 {
      EmptyTable(g, n, c);
    }
    AllFree(Table(d, g), 2);
    UntornRequest(d, g, m - 1);
    AllocationIsRight(d, g, m, m - 1);
    var r := Allocation(d, g, m, m - 1);
    ShortageIff(d, r.0, g, m - 1, r.2);
  }

  lemma {:induction false} EmptyTable(g: Geometry, n: nat, c: nat)
    requires GeometryOk(g, n) && g.fatType == FAT32 && c < g.MaxCluster()
    ensures Entry(EmptyDisk(n), g, c) == 0
  {
    hide GeometryOk;
    var d := EmptyDisk(n);
    ValidClusterFits(d, g, c);
    EmptyEntry(d, g, c);
  }

  lemma {:induction false} AllFree(t: seq<nat>, c: nat)
    requires c <= |t| && forall x :: c <= x < |t| ==> t[x] == 0
    ensures |FreeFrom(t, c)| == |t| - c
    decreases |t| - c
  {
    if c < |t| {
      AllFree(t, c + 1);
    }
  }

  /** FAT12 and FAT16 volumes are too small for that. */
  lemma {:induction false} SmallVolumesRestore(d0: seq<Sector>, d: seq<Sector>, g: Geometry, needed: nat, first: nat)
    requires Allocated(d0, d, g, needed, false, first) && g.fatType != FAT32
    ensures Table(d, g) == Table(d0, g)
  {
    var t := Table(d0, g);
    FreeFromFacts(t, 2);
    AscendingIsShort(FreeFrom(t, 2), |t|);
    assert |t| <= Limit(g.fatType) <= GUARD;
    hide Table, FreeFrom;
    ShortageIff(d0, d, g, needed, first);
  }

  lemma {:induction false} AscendingIsShort(cs: seq<nat>, n: nat)
    requires Ascending(cs) && AllBelow(cs, n)
    ensures |cs| <= n
  {
    if cs != [] {
      AscendingIsShort(cs[..|cs| - 1], cs[|cs| - 1]);
    }
  }
}

/** Files on clusters: loading, writing and directory entries (fs/fat.c:573-654 and 743-806). */
module FatFiles {
  import opened CArithmetic
  import opened FatCodec
  import opened FatVolume
  import opened FatChains

  /** First sector of a cluster, in 32-bit arithmetic (fs/fat.c:588); any cluster number is accepted. */
  function Lba(g: Geometry, c: nat): nat {
    (g.FirstData() + (c - 2) * g.sectorsPerCluster) % WORD
  }

  ghost predicate ClustersOk(g: Geometry, n: nat, cs: seq<nat>) {
    GeometryOk(g, n) && forall i :: 0 <= i < |cs| ==> 2 <= cs[i] < g.MaxCluster()
  }

  /** Sector number `j` of the clusters `cs` taken in order. */
  ghost function SectorOf(g: Geometry, cs: seq<nat>, j: nat): nat
    requires g.sectorsPerCluster > 0 && j / g.sectorsPerCluster < |cs|
  {
    Lba(g, cs[j / g.sectorsPerCluster]) + j % g.sectorsPerCluster
  }

  lemma {:induction false} ClusterSectors(g: Geometry, n: nat, c: nat)
    requires GeometryOk(g, n) && 2 <= c < g.MaxCluster()
    ensures Lba(g, c) == g.FirstData() + (c - 2) * g.sectorsPerCluster
    ensures g.FirstData() <= Lba(g, c) && Lba(g, c) + g.sectorsPerCluster <= g.totalSectors
  {
    ClusterRoom(g.totalSectors - g.FirstData(), g.sectorsPerCluster, c - 2);
  }

  lemma {:induction false} ClusterRoom(room: nat, spc: nat, x: nat)
    requires spc > 0 && x < room / spc
    ensures 0 <= x * spc && x * spc + spc <= room
  {
    var m := room / spc;
    assert m * spc <= room;
    Times(x + 1, m, spc);
    assert (x + 1) * spc == x * spc + spc;
  }

  lemma {:induction false} Times(a: nat, b: nat, k: nat)
    requires a <= b
    ensures a * k <= b * k
  {}

  lemma {:induction false} TimesLess(a: nat, b: nat, k: nat)
    requires a * k < b * k
    ensures a < b
  {}

  lemma {:induction false} Split(i: nat, s: nat, spc: nat)
    requires s < spc
    ensures (i * spc + s) / spc == i && (i * spc + s) % spc == s
  {
    var j := i * spc + s;
    var q, r := j / spc, j % spc;
    assert j == q * spc + r;
    if q < i {
      Times(q + 1, i, spc);
    } else if q > i {
      Times(i + 1, q, spc);
    }
  }

  lemma {:induction false} SectorInCluster(g: Geometry, n: nat, cs: seq<nat>, i: nat, s: nat)
    requires ClustersOk(g, n, cs) && i < |cs| && s < g.sectorsPerCluster
    ensures (i * g.sectorsPerCluster + s) / g.sectorsPerCluster == i
    ensures SectorOf(g, cs, i * g.sectorsPerCluster + s) == Lba(g, cs[i]) + s < g.totalSectors <= n < WORD
  {
    Split(i, s, g.sectorsPerCluster);
    ClusterSectors(g, n, cs[i]);
  }

  /** The sector exists and is on the disk. */
  ghost predicate HasSector(d: seq<Sector>, g: Geometry, cs: seq<nat>, j: nat) {
    g.sectorsPerCluster > 0 && j / g.sectorsPerCluster < |cs| && SectorOf(g, cs, j) < |d|
  }

  /** Byte `k` of a file on the clusters `cs`. */
  ghost function Content(d: seq<Sector>, g: Geometry, cs: seq<nat>, k: nat): Byte {
    if HasSector(d, g, cs, k / SECTOR) then d[SectorOf(g, cs, k / SECTOR)][k % SECTOR] else 0
  }

  ghost function FileBytes(d: seq<Sector>, g: Geometry, cs: seq<nat>, n: nat): (r: seq<Byte>)
    ensures |r| == n
  {
    seq(n, k requires 0 <= k => Content(d, g, cs, k))
  }

  /** Where a file's bytes are: byte `y` of sector `x` of the `i`-th cluster of its chain, counted behind the
      reserved sectors, the two tables and the root directory. */
  lemma {:induction false} ByteOnDisk(d: seq<Sector>, g: Geometry, cs: seq<nat>, size: nat, i: nat, x: nat, y: nat)
    requires ClustersOk(g, |d|, cs) && i < |cs| && x < g.sectorsPerCluster && y < 512
    requires 512 * (i * g.sectorsPerCluster + x) + y < size
    ensures var l := g.reserved + 2 * g.fatSize + g.rootSectors + (cs[i] - 2) * g.sectorsPerCluster + x;
            0 <= l < |d| && FileBytes(d, g, cs, size)[512 * (i * g.sectorsPerCluster + x) + y] == d[l][y]
  {
    ClusterSectors(g, |d|, cs[i]);
    SectorInCluster(g, |d|, cs, i, x);
    hide GeometryOk, Lba, SectorOf;
    ContentOfSector(d, g, cs, i * g.sectorsPerCluster + x, y);
  }

  /** `cs` is a chain of the table from `first`, long enough for `size` bytes. */
  ghost predicate Holds(d: seq<Sector>, g: Geometry, first: nat, cs: seq<nat>, size: nat) {
    && ClustersOk(g, |d|, cs)
    && size <= |cs| * g.sectorsPerCluster * SECTOR
    && (cs != [] ==> first == cs[0])
    && forall i {:trigger Entry(d, g, cs[i])} :: 0 <= i < |cs| - 1 ==> Entry(d, g, cs[i]) == cs[i + 1]
  }

  /**
   * A load of `want` bytes from `offset` has `dest`, and still skips `skip` bytes; the next sector is
   * number `j` of the chain.
   */
  ghost predicate Loading(
      d: seq<Sector>, g: Geometry, cs: seq<nat>, offset: nat, want: nat, j: nat, skip: nat, dest: seq<Byte>) {
    && |dest| <= want
    && (forall k :: 0 <= k < |dest| ==> dest[k] == Content(d, g, cs, offset + k))
    && (|dest| < want ==> skip + SECTOR * j == offset + |dest| && (skip > 0 ==> dest == []))
  }

  /** What one sector adds to the bytes loaded, and what is left to skip (fs/fat.c:635-647). */
  function Copied(sector: Sector, want: nat, skip: nat, dest: seq<Byte>): (r: (seq<Byte>, nat))
    requires |dest| < want
    ensures |r.0| <= want && want - |r.0| + r.1 < want - |dest| + skip
  {
    if skip >= SECTOR then (dest, skip - SECTOR)
    else (dest + sector[skip..skip + Least(want - |dest|, SECTOR - skip)], 0)
  }

  /** One sector is skipped whole, or its part of the file is copied. */
  lemma {:induction false} LoadStep(
      d: seq<Sector>, g: Geometry, cs: seq<nat>, offset: nat, want: nat, j: nat, skip: nat, dest: seq<Byte>)
    requires Loading(d, g, cs, offset, want, j, skip, dest) && |dest| < want && HasSector(d, g, cs, j)
    ensures var (dest', skip') := Copied(d[SectorOf(g, cs, j)], want, skip, dest);
            Loading(d, g, cs, offset, want, j + 1, skip', dest')
  {
    hide Content, Lba, SectorOf;
    if skip < SECTOR {
      var dest' := Copied(d[SectorOf(g, cs, j)], want, skip, dest).0;
      forall k | 0 <= k < |dest'| ensures dest'[k] == Content(d, g, cs, offset + k) {
        if k >= |dest| {
          ContentOfSector(d, g, cs, j, skip + k - |dest|);
        }
      }
    }
  }

  lemma {:induction false} ContentOfSector(d: seq<Sector>, g: Geometry, cs: seq<nat>, j: nat, x: nat)
    requires HasSector(d, g, cs, j) && x < SECTOR
    ensures Content(d, g, cs, SECTOR * j + x) == d[SectorOf(g, cs, j)][x]
  {
    hide HasSector, SectorOf;
    assert (SECTOR * j + x) / SECTOR == j && (SECTOR * j + x) % SECTOR == x;
  }

  function Least(a: nat, b: nat): nat {
    if a < b then a else b
  }

  /** The load stands at sector `s` of the `i`-th cluster, `c`, if bytes are still wanted. */
  ghost predicate AtSector(d: seq<Sector>, g: Geometry, cs: seq<nat>, offset: nat, want: nat,
                           i: nat, s: nat, c: nat, skip: nat, dest: seq<Byte>) {
    && Loading(d, g, cs, offset, want, i * g.sectorsPerCluster + s, skip, dest)
    && (|dest| < want && s < g.sectorsPerCluster ==> i < |cs| && c == cs[i])
  }

  lemma {:induction false} NextCluster(
      d: seq<Sector>, g: Geometry, first: nat, cs: seq<nat>, size: nat, offset: nat, want: nat, i: nat, c: nat,
      skip: nat, dest: seq<Byte>)
    requires Holds(d, g, first, cs, size) && offset + want <= size && i < |cs| && c == cs[i]
    requires AtSector(d, g, cs, offset, want, i, g.sectorsPerCluster, c, skip, dest) && |dest| < want
    ensures 2 <= Entry(d, g, c) < LAST && i + 1 < |cs| && Entry(d, g, c) == cs[i + 1]
    ensures AtSector(d, g, cs, offset, want, i + 1, 0, Entry(d, g, c), skip, dest)
  {
    var spc := g.sectorsPerCluster;
    assert i * spc + spc == (i + 1) * spc + 0;
    assert SECTOR * ((i + 1) * spc) < SECTOR * (|cs| * spc);
    TimesLess(i + 1, |cs|, spc);
    assert Entry(d, g, cs[i]) == cs[i + 1];
    WithinLimit(g, |d|, cs[i + 1]);
  }

  lemma {:induction false} LoadBegins(
      d: seq<Sector>, g: Geometry, first: nat, cs: seq<nat>, size: nat, offset: nat, want: nat)
    requires Holds(d, g, first, cs, size) && offset + want <= size
    ensures AtSector(d, g, cs, offset, want, 0, 0, first, offset, [])
    ensures want > 0 ==> 2 <= first < LAST
  {
    assert 0 * g.sectorsPerCluster + 0 == 0;
    if want > 0 {
      assert cs != [] by {
        assert cs == [] ==> |cs| * g.sectorsPerCluster * SECTOR == 0;
      }
      WithinLimit(g, |d|, cs[0]);
    }
  }

  lemma {:induction false} LoadAt(
      d: seq<Sector>, g: Geometry, first: nat, cs: seq<nat>, size: nat, offset: nat, want: nat, i: nat, s: nat, c: nat,
      skip: nat, dest: seq<Byte>)
    requires Holds(d, g, first, cs, size) && offset + want <= size && s < g.sectorsPerCluster
    requires AtSector(d, g, cs, offset, want, i, s, c, skip, dest) && |dest| < want
    ensures c >= 2 && Lba(g, c) + s < |d| && (Lba(g, c) + s) % WORD == Lba(g, c) + s
    ensures var (dest', skip') := Copied(d[Lba(g, c) + s], want, skip, dest);
            AtSector(d, g, cs, offset, want, i, s + 1, c, skip', dest')
  {
    hide GeometryOk, Loading, Copied, Lba, SectorOf;
    var j := i * g.sectorsPerCluster + s;
    SectorInCluster(g, |d|, cs, i, s);
    LoadStep(d, g, cs, offset, want, j, skip, dest);
  }

  lemma {:induction false} LoadEnds(
      d: seq<Sector>, g: Geometry, cs: seq<nat>, size: nat, offset: nat, want: nat, j: nat, skip: nat, dest: seq<Byte>)
    requires Loading(d, g, cs, offset, want, j, skip, dest) && |dest| == want && offset + want <= size
    ensures dest == FileBytes(d, g, cs, size)[offset..offset + want]
  {}

  /** The bytes a load of at most `max` bytes from `offset` should give. */
  ghost function Slice(data: seq<Byte>, offset: nat, max: nat): seq<Byte> {
    if offset >= |data| then [] else data[offset..offset + Least(max, |data| - offset)]
  }

  /** Everything known while a load runs, provided the chain holds the file. */
  ghost predicate LoadState(d: seq<Sector>, g: Geometry, first: nat, cs: seq<nat>, size: nat, offset: nat, want: nat,
                            i: nat, s: nat, c: nat, skip: nat, dest: seq<Byte>) {
    Holds(d, g, first, cs, size) && offset + want <= size ==> AtSector(d, g, cs, offset, want, i, s, c, skip, dest)
  }

  /** The sectors of one cluster (fs/fat.c:630-648); a failed read ends the load. */
  method LoadCluster(fs: Fat, cluster: nat, want: nat, skip0: nat, dest0: seq<Byte>,
                     ghost first: nat, ghost cs: seq<nat>, ghost size: nat, ghost offset: nat, ghost i: nat)
    returns (ok: bool, skip: nat, dest: seq<Byte>)
    requires GeometryOk(fs.g, fs.disk.Length)
    requires |dest0| < want
    requires LoadState(fs.disk[..], fs.g, first, cs, size, offset, want, i, 0, cluster, skip0, dest0)
    modifies fs`buffer
    ensures |dest| <= want
    ensures ok ==> want - |dest| + skip < want - |dest0| + skip0
    ensures ok ==>
            LoadState(fs.disk[..], fs.g, first, cs, size, offset, want, i, fs.g.sectorsPerCluster, cluster, skip, dest)
    ensures Holds(fs.disk[..], fs.g, first, cs, size) && offset + want <= size ==> ok
  {
    var spc := fs.g.sectorsPerCluster;
    hide Holds, AtSector, Lba, Copied;
    ghost var d, g := fs.disk[..], fs.g;
    ghost var good := Holds(d, g, first, cs, size) && offset + want <= size;
    var lba := Lba(fs.g, cluster);
    skip, dest := skip0, dest0;
    var s := 0;
    while s < spc && |dest| < want
      invariant s <= spc && |dest| <= want
      invariant want - |dest| + skip <= want - |dest0| + skip0
      invariant if s == 0 then dest == dest0 else want - |dest| + skip < want - |dest0| + skip0
      invariant good ==> AtSector(d, g, cs, offset, want, i, s, cluster, skip, dest)
    {
      if good {
        LoadAt(d, g, first, cs, size, offset, want, i, s, cluster, skip, dest);
      }
      ok := fs.DevRead((lba + s) % WORD);
      if !ok {
        return;
      }
      dest, skip := CopySector(fs.buffer, want, skip, dest);
      s := s + 1;
    }
    ok := true;
    if good {
      ClusterDone(d, g, cs, offset, want, i, s, cluster, skip, dest);
    }
  }

  method CopySector(sector: Sector, want: nat, skip: nat, dest: seq<Byte>) returns (dest': seq<Byte>, skip': nat)
    requires |dest| < want
    ensures (dest', skip') == Copied(sector, want, skip, dest)
  {
    if skip >= SECTOR {
      return dest, skip - SECTOR;
    }
    var copy := Least(want - |dest|, SECTOR - skip);
    return dest + sector[skip..skip + copy], 0;
  }

  lemma {:induction false} ClusterDone(d: seq<Sector>, g: Geometry, cs: seq<nat>, offset: nat, want: nat,
                                       i: nat, s: nat, c: nat, skip: nat, dest: seq<Byte>)
    requires AtSector(d, g, cs, offset, want, i, s, c, skip, dest) && (s == g.sectorsPerCluster || |dest| == want)
    ensures AtSector(d, g, cs, offset, want, i, g.sectorsPerCluster, c, skip, dest)
  {}

  lemma {:induction false} AfterCluster(
      d: seq<Sector>, g: Geometry, first: nat, cs: seq<nat>, size: nat, offset: nat, want: nat, i: nat, c: nat,
      skip: nat, dest: seq<Byte>)
    requires LoadState(d, g, first, cs, size, offset, want, i, g.sectorsPerCluster, c, skip, dest) && i < |cs|
             && c == cs[i]
    requires Holds(d, g, first, cs, size) && offset + want <= size && |dest| <= want
    ensures |dest| == want ==> dest == FileBytes(d, g, cs, size)[offset..offset + want]
    ensures |dest| < want ==> 2 <= Entry(d, g, c) < LAST && i + 1 < |cs| && Entry(d, g, c) == cs[i + 1]
    ensures |dest| < want ==> LoadState(d, g, first, cs, size, offset, want, i + 1, 0, Entry(d, g, c), skip, dest)
  {
    hide Holds, Loading, FileBytes, Entry;
    if |dest| < want {
      NextCluster(d, g, first, cs, size, offset, want, i, c, skip, dest);
    } else {
      LoadEnds(d, g, cs, size, offset, want, i * g.sectorsPerCluster + g.sectorsPerCluster, skip, dest);
    }
  }

  /** fs/fat.c:609-654. The chain `cs` is only named, for the contract. */
  method LoadFileOff(
      fs: Fat, first: nat, size: nat, offset: nat, max: nat, ghost cs: seq<nat>) returns (dest: seq<Byte>)
    requires GeometryOk(fs.g, fs.disk.Length)
    modifies fs`buffer
    ensures |dest| <= max && (first < 2 ==> dest == [])
    ensures Holds(fs.disk[..], fs.g, first, cs, size) ==>
            dest == Slice(FileBytes(fs.disk[..], fs.g, cs, size), offset, max)
    ensures Holds(fs.disk[..], fs.g, first, cs, size) ==>
            |dest| == if offset >= size then 0 else if max < size - offset then max else size - offset
    ensures Holds(fs.disk[..], fs.g, first, cs, size) ==>
            forall k :: 0 <= k < |dest| ==> dest[k] == FileBytes(fs.disk[..], fs.g, cs, size)[offset + k]
  {
    dest := [];
    if max == 0 || offset >= size {
      return;
    }
    var want := Least(max, size - offset);
    ghost var d, g := fs.disk[..], fs.g;
    ghost var good := Holds(d, g, first, cs, size);
    hide Holds, LoadState, AtSector, GeometryOk, Entry, FileBytes;
    LoadStarts(d, g, first, cs, size, offset, want);
    var cluster: nat, skip: nat := first, offset;
    if cluster < 2 {
      return;
    }
    ghost var i := 0;
    while |dest| < want && cluster < LAST
      invariant |dest| <= want
      invariant |dest| < want ==> LoadState(d, g, first, cs, size, offset, want, i, 0, cluster, skip, dest)
      invariant good && |dest| < want ==> 2 <= cluster < LAST && i < |cs| && cluster == cs[i]
      invariant good && |dest| == want ==> dest == FileBytes(d, g, cs, size)[offset..offset + want]
      decreases want - |dest| + skip
    {
      var ok;
      ok, skip, dest := LoadCluster(fs, cluster, want, skip, dest, first, cs, size, offset, i);
      if !ok {
        return;
      }
      if good {
        AfterCluster(d, g, first, cs, size, offset, want, i, cluster, skip, dest);
      }
      var next := fs.ReadFatEntry(cluster);
      if next >= LAST {
        return;
      }
      cluster := next;
      i := i + 1;
    }
  }

  lemma {:induction false} LoadStarts(
      d: seq<Sector>, g: Geometry, first: nat, cs: seq<nat>, size: nat, offset: nat, want: nat)
    requires 0 < want
    ensures LoadState(d, g, first, cs, size, offset, want, 0, 0, first, offset, [])
    ensures Holds(d, g, first, cs, size) && offset + want <= size ==> 2 <= first < LAST && 0 < |cs| && first == cs[0]
  {
    if Holds(d, g, first, cs, size) && offset + want <= size {
      hide Loading, GeometryOk;
      LoadBegins(d, g, first, cs, size, offset, want);
    }
  }

  /** fs/fat.c:573-604: the same walk with nothing to skip. */
  method LoadFile(fs: Fat, first: nat, size: nat, max: nat, ghost cs: seq<nat>) returns (dest: seq<Byte>)
    requires GeometryOk(fs.g, fs.disk.Length)
    modifies fs`buffer
    ensures |dest| <= max && (first < 2 ==> dest == [])
    ensures Holds(fs.disk[..], fs.g, first, cs, size) ==> dest == Slice(FileBytes(fs.disk[..], fs.g, cs, size), 0, max)
    ensures Holds(fs.disk[..], fs.g, first, cs, size) ==>
            dest == FileBytes(fs.disk[..], fs.g, cs, size)[..if size <= max then size else max]
  {
    dest := [];
    if max == 0 {
      return;
    }
    var want := if size > max then max else size;
    var cluster: nat, skip: nat := first, 0;
    ghost var d, g := fs.disk[..], fs.g;
    ghost var good := Holds(d, g, first, cs, size);
    if want == 0 {
      return;
    }
    hide Holds, LoadState, AtSector, GeometryOk, Entry, FileBytes;
    LoadStarts(d, g, first, cs, size, 0, want);
    if cluster < 2 {
      return;
    }
    ghost var i := 0;
    while |dest| < want && cluster < LAST
      invariant |dest| <= want
      invariant |dest| < want ==> LoadState(d, g, first, cs, size, 0, want, i, 0, cluster, skip, dest)
      invariant good && |dest| < want ==> 2 <= cluster < LAST && i < |cs| && cluster == cs[i]
      invariant good && |dest| == want ==> dest == FileBytes(d, g, cs, size)[0..0 + want]
      decreases want - |dest| + skip
    {
      var ok;
      ok, skip, dest := LoadCluster(fs, cluster, want, skip, dest, first, cs, size, 0, i);
      if !ok {
        return;
      }
      if good {
        AfterCluster(d, g, first, cs, size, 0, want, i, cluster, skip, dest);
      }
      var next := fs.ReadFatEntry(cluster);
      if next >= LAST {
        return;
      }
      cluster := next;
      i := i + 1;
    }
  }

  /** A file read in pieces of any size, as the file manager copies it (fs/fat.c:606-608): the pieces make the file. */
  method ReadInChunks(fs: Fat, first: nat, size: nat, chunk: nat, ghost cs: seq<nat>) returns (all: seq<Byte>)
    requires GeometryOk(fs.g, fs.disk.Length) && chunk > 0
    requires Holds(fs.disk[..], fs.g, first, cs, size)
    modifies fs`buffer
    ensures all == FileBytes(fs.disk[..], fs.g, cs, size)
  {
    all := [];
    ghost var data := FileBytes(fs.disk[..], fs.g, cs, size);
    hide Holds, GeometryOk, FileBytes;
    while true
      invariant |all| <= size && all == data[..|all|]
      decreases size - |all|
    {
      var piece := LoadFileOff(fs, first, size, |all|, chunk, cs);
      if piece == [] {
        return;
      }
      all := all + piece;
    }
  }

  /** Sector `j` of the data, filled up with zeros. */
  function Padded(data: seq<Byte>, j: nat): Sector {
    seq(SECTOR, k requires 0 <= k < SECTOR => if SECTOR * j + k < |data| then data[SECTOR * j + k] else 0)
  }

  /** Sector `l` belongs to one of the clusters. */
  ghost predicate InClusters(g: Geometry, cs: seq<nat>, l: nat) {
    exists i :: 0 <= i < |cs| && InCluster(g, cs[i], l)
  }

  predicate InCluster(g: Geometry, c: nat, l: nat) {
    Lba(g, c) <= l < Lba(g, c) + g.sectorsPerCluster
  }

  ghost predicate SameOutside(d: seq<Sector>, d': seq<Sector>, g: Geometry, cs: seq<nat>) {
    |d'| == |d| && forall l: nat :: l < |d| && !InClusters(g, cs, l) ==> d'[l] == d[l]
  }

  /** The first `n` sectors of the chain hold the data. */
  ghost predicate Stored(d: seq<Sector>, g: Geometry, cs: seq<nat>, data: seq<Byte>, n: nat) {
    forall j: nat :: j < n ==> HasSector(d, g, cs, j) && d[SectorOf(g, cs, j)] == Padded(data, j)
  }

  lemma {:induction false} ClustersApart(g: Geometry, n: nat, a: nat, b: nat, l: nat)
    requires GeometryOk(g, n) && 2 <= a < g.MaxCluster() && 2 <= b < g.MaxCluster()
    requires InCluster(g, a, l) && InCluster(g, b, l)
    ensures a == b
  {
    ClusterSectors(g, n, a);
    ClusterSectors(g, n, b);
    hide GeometryOk, Lba;
    if a < b {
      ClusterBefore(g, a, b);
    } else if b < a {
      ClusterBefore(g, b, a);
    }
  }

  lemma {:induction false} ClusterBefore(g: Geometry, a: nat, b: nat)
    requires 2 <= a < b
    ensures (a - 2) * g.sectorsPerCluster + g.sectorsPerCluster <= (b - 2) * g.sectorsPerCluster
  {
    Times(a - 1, b - 2, g.sectorsPerCluster);
    assert (a - 1) * g.sectorsPerCluster == (a - 2) * g.sectorsPerCluster + g.sectorsPerCluster;
  }

  lemma {:induction false} SameQuotient(j: nat, j': nat, spc: nat)
    requires spc > 0 && j != j'
    ensures j / spc >= 0 && j' / spc >= 0
    ensures j / spc != j' / spc || j % spc != j' % spc
  {
    assert j == j / spc * spc + j % spc && j' == j' / spc * spc + j' % spc;
  }

  /** Different sectors of a chain without repetition are different sectors of the disk. */
  lemma {:induction false} SectorsApart(g: Geometry, n: nat, cs: seq<nat>, j: nat, j': nat)
    requires ClustersOk(g, n, cs) && Ascending(cs) && j != j'
    requires j / g.sectorsPerCluster < |cs| && j' / g.sectorsPerCluster < |cs|
    ensures SectorOf(g, cs, j) != SectorOf(g, cs, j')
  {
    var spc := g.sectorsPerCluster;
    SameQuotient(j, j', spc);
    hide GeometryOk, Lba, Ascending;
    PositionsApart(g, n, cs, j / spc, j % spc, j' / spc, j' % spc);
  }

  lemma {:induction false} PositionsApart(g: Geometry, n: nat, cs: seq<nat>, i: nat, s: nat, i': nat, s': nat)
    requires ClustersOk(g, n, cs) && Ascending(cs) && i < |cs| && i' < |cs|
    requires s < g.sectorsPerCluster && s' < g.sectorsPerCluster
    ensures Lba(g, cs[i]) + s == Lba(g, cs[i']) + s' ==> i == i' && s == s'
  {
    if Lba(g, cs[i]) + s == Lba(g, cs[i']) + s' {
      hide Lba, GeometryOk;
      ClustersApart(g, n, cs[i], cs[i'], Lba(g, cs[i]) + s);
      assert cs[i] == cs[i'];
    }
  }

  /** One more sector is written (fs/fat.c:772-781). */
  lemma {:induction false} StoreStep(d: seq<Sector>, g: Geometry, cs: seq<nat>, data: seq<Byte>, j: nat)
    requires ClustersOk(g, |d|, cs) && Ascending(cs) && Stored(d, g, cs, data, j) && HasSector(d, g, cs, j)
    ensures var d' := d[SectorOf(g, cs, j) := Padded(data, j)];
            Stored(d', g, cs, data, j + 1) && SameOutside(d, d', g, cs)
  {
    var d' := d[SectorOf(g, cs, j) := Padded(data, j)];
    hide SectorOf, Padded, GeometryOk, Ascending;
    forall j': nat | j' < j + 1 ensures HasSector(d', g, cs, j') && d'[SectorOf(g, cs, j')] == Padded(data, j') {
      if j' < j {
        assert HasSector(d, g, cs, j');
        SectorsApart(g, |d|, cs, j', j);
      }
    }
    OwnSector(g, cs, j);
  }

  lemma {:induction false} OwnSector(g: Geometry, cs: seq<nat>, j: nat)
    requires g.sectorsPerCluster > 0 && j / g.sectorsPerCluster < |cs|
    ensures InClusters(g, cs, SectorOf(g, cs, j))
  {
    assert InCluster(g, cs[j / g.sectorsPerCluster], SectorOf(g, cs, j));
  }

  lemma {:induction false} SameOutsideTransitive(
      d: seq<Sector>, d1: seq<Sector>, d2: seq<Sector>, g: Geometry, cs: seq<nat>)
    requires SameOutside(d, d1, g, cs) && SameOutside(d1, d2, g, cs)
    ensures SameOutside(d, d2, g, cs)
  {}

  /** Data written over a chain leaves every table entry alone. */
  lemma {:induction false} TablesKept(d: seq<Sector>, d': seq<Sector>, g: Geometry, cs: seq<nat>, c: nat)
    requires ClustersOk(g, |d|, cs) && SameOutside(d, d', g, cs) && c < g.MaxCluster()
    ensures Entry(d', g, c) == Entry(d, g, c)
  {
    forall l: nat | l < g.FirstData() ensures !InClusters(g, cs, l) {
      forall i | 0 <= i < |cs| ensures !InCluster(g, cs[i], l) {
        ClusterSectors(g, |d|, cs[i]);
      }
    }
    SameTableSectors(d, d', g, c);
  }

  /** The state of a write: it stands at sector `s` of the `i`-th cluster `c`, with `pos` bytes on disk. */
  ghost predicate Writing(
      d0: seq<Sector>, d: seq<Sector>, g: Geometry, cs: seq<nat>, data: seq<Byte>, i: nat, s: nat, c: nat, pos: nat) {
    && ClustersOk(g, |d0|, cs) && SameOutside(d0, d, g, cs)
    && pos <= |data|
    && Stored(d, g, cs, data, if pos < |data| then i * g.sectorsPerCluster + s else Sectors(|data|))
    && (pos < |data| ==> pos == SECTOR * (i * g.sectorsPerCluster + s))
    && (pos < |data| && s < g.sectorsPerCluster ==> i < |cs| && c == cs[i])
  }

  function Sectors(n: nat): nat {
    (n + SECTOR - 1) / SECTOR
  }

  lemma {:induction false} WriteBegins(d: seq<Sector>, g: Geometry, first: nat, cs: seq<nat>, data: seq<Byte>)
    requires Holds(d, g, first, cs, |data|)
    ensures Writing(d, d, g, cs, data, 0, 0, first, 0)
    ensures |data| > 0 ==> 2 <= first < LAST && cs != [] && first == cs[0]
  {
    assert 0 * g.sectorsPerCluster + 0 == 0;
    if |data| > 0 {
      assert cs != [] by {
        assert cs == [] ==> |cs| * g.sectorsPerCluster * SECTOR == 0;
      }
      WithinLimit(g, |d|, cs[0]);
    } else {
      assert Sectors(0) == 0;
    }
  }

  lemma {:induction false} WriteStep(
      d0: seq<Sector>, d: seq<Sector>, g: Geometry, cs: seq<nat>, data: seq<Byte>, i: nat, s: nat, c: nat, pos: nat)
    requires Writing(d0, d, g, cs, data, i, s, c, pos) && Ascending(cs) && pos < |data| && s < g.sectorsPerCluster
    requires |d| == |d0|
    ensures Lba(g, c) + s < |d| && (Lba(g, c) + s) % WORD == Lba(g, c) + s
    ensures var copy := Least(|data| - pos, SECTOR);
            Writing(d0, d[Lba(g, c) + s := Block(data, pos)], g, cs, data, i, s + 1, c, pos + copy)
  {
    hide GeometryOk, Stored, SameOutside, Padded, Block, Sectors, Lba, Ascending;
    var j := i * g.sectorsPerCluster + s;
    SectorInCluster(g, |d0|, cs, i, s);
    BlockIsPadded(data, j);
    StoreStep(d, g, cs, data, j);
    SameOutsideTransitive(d0, d, d[Lba(g, c) + s := Block(data, pos)], g, cs);
  }

  lemma {:induction false} BlockIsPadded(data: seq<Byte>, j: nat)
    requires SECTOR * j < |data|
    ensures Block(data, SECTOR * j) == Padded(data, j)
    ensures SECTOR * (j + 1) >= |data| ==> j + 1 == Sectors(|data|)
  {}

  /** The zeroed buffer with the next piece of the data copied in (fs/fat.c:772-774). */
  function Block(data: seq<Byte>, pos: nat): Sector
    requires pos <= |data|
  {
    var copy := Least(|data| - pos, SECTOR);
    data[pos..pos + copy] + seq(SECTOR - copy, k => 0)
  }

  lemma {:induction false} WriteNext(
      d0: seq<Sector>, d: seq<Sector>, g: Geometry, first: nat, cs: seq<nat>, data: seq<Byte>, i: nat, c: nat, pos: nat)
    requires Holds(d0, g, first, cs, |data|) && i < |cs| && c == cs[i]
    requires Writing(d0, d, g, cs, data, i, g.sectorsPerCluster, c, pos) && pos < |data|
    ensures 2 <= Entry(d, g, c) < LAST && i + 1 < |cs| && Entry(d, g, c) == cs[i + 1]
    ensures Writing(d0, d, g, cs, data, i + 1, 0, Entry(d, g, c), pos)
  {
    var spc := g.sectorsPerCluster;
    assert i * spc + spc == (i + 1) * spc + 0;
    assert SECTOR * ((i + 1) * spc) < SECTOR * (|cs| * spc);
    TimesLess(i + 1, |cs|, spc);
    assert Entry(d0, g, cs[i]) == cs[i + 1];
    TablesKept(d0, d, g, cs, cs[i]);
    WithinLimit(g, |d|, cs[i + 1]);
  }

  /** Data stored on a chain is what reading the chain gives. */
  lemma {:induction false} StoredIsRead(d: seq<Sector>, g: Geometry, cs: seq<nat>, data: seq<Byte>)
    requires Stored(d, g, cs, data, Sectors(|data|))
    ensures FileBytes(d, g, cs, |data|) == data
    ensures forall k: nat :: |data| <= k < (|data| + 511) / 512 * 512 ==> Content(d, g, cs, k) == 0
  {
    forall k: nat | k < (|data| + 511) / 512 * 512
      ensures Content(d, g, cs, k) == if k < |data| then data[k] else 0
    {
      var j := k / SECTOR;
      assert j < Sectors(|data|);
      assert HasSector(d, g, cs, j) && d[SectorOf(g, cs, j)] == Padded(data, j);
      assert k == SECTOR * j + k % SECTOR;
    }
  }

  /** The disk and the bytes written so far; `ok` is false once a write has failed. */
  datatype Progress = Progress(disk: seq<Sector>, pos: nat, ok: bool)

  /** The sectors of cluster `c` from number `s` on (fs/fat.c:770-782); a failed write ends it. */
  function WriteSectors(d: seq<Sector>, g: Geometry, c: nat, data: seq<Byte>, pos: nat, s: nat): (p: Progress)
    requires pos <= |data|
    ensures |p.disk| == |d| && pos <= p.pos <= |data|
    ensures p.ok && pos < |data| && s < g.sectorsPerCluster ==> pos < p.pos
    decreases g.sectorsPerCluster - s
  {
    if s >= g.sectorsPerCluster || pos >= |data| then Progress(d, pos, true)
    else
      var l := (Lba(g, c) + s) % WORD;
      if l >= |d| then Progress(d, pos, false)
      else WriteSectors(d[l := Block(data, pos)], g, c, data, pos + Least(|data| - pos, SECTOR), s + 1)
  }

  /** The data from `pos` on, written along the chain from `c` (fs/fat.c:765-786); a failure frees the chain. */
  function WriteChain(
      d: seq<Sector>, g: Geometry, first: nat, c: nat, data: seq<Byte>, pos: nat): (r: (seq<Sector>, bool))
    requires pos <= |data| && g.sectorsPerCluster > 0
    ensures |r.0| == |d|
    decreases |data| - pos
  {
    if pos >= |data| || c == 0 then (d, true)
    else
      var p := WriteSectors(d, g, c, data, pos, 0);
      if !p.ok then (Freed(p.disk, g, first, GUARD), false)
      else if Entry(p.disk, g, c) >= LAST then (p.disk, true)
      else WriteChain(p.disk, g, first, Entry(p.disk, g, c), data, p.pos)
  }

  method WriteCluster(fs: Fat, cluster: nat, data: seq<Byte>, pos0: nat) returns (ok: bool, pos: nat)
    requires pos0 <= |data|
    modifies fs`buffer, fs.disk
    ensures Progress(fs.disk[..], pos, ok) == WriteSectors(old(fs.disk[..]), fs.g, cluster, data, pos0, 0)
  {
    hide Lba, Block;
    var spc := fs.g.sectorsPerCluster;
    var lba := Lba(fs.g, cluster);
    ghost var end := WriteSectors(fs.disk[..], fs.g, cluster, data, pos0, 0);
    pos := pos0;
    var s := 0;
    while s < spc && pos < |data|
      invariant s <= spc && pos <= |data|
      invariant WriteSectors(fs.disk[..], fs.g, cluster, data, pos, s) == end
    {
      fs.buffer := Block(data, pos);
      ok := fs.DevWrite((lba + s) % WORD);
      if !ok {
        return;
      }
      pos := pos + Least(|data| - pos, SECTOR);
      s := s + 1;
    }
    ok := true;
  }

  /** fs/fat.c:765-786. */
  method WriteData(fs: Fat, first: nat, data: seq<Byte>) returns (ok: bool)
    requires fs.g.sectorsPerCluster > 0
    modifies fs`buffer, fs.disk
    ensures (fs.disk[..], ok) == WriteChain(old(fs.disk[..]), fs.g, first, first, data, 0)
  {
    hide WriteSectors, Freed, Entry;
    var c: nat, pos: nat := first, 0;
    ghost var end := WriteChain(fs.disk[..], fs.g, first, first, data, 0);
    while pos < |data| && c != 0
      invariant pos <= |data| && WriteChain(fs.disk[..], fs.g, first, c, data, pos) == end
      decreases |data| - pos
    {
      ok, pos := WriteCluster(fs, c, data, pos);
      if !ok {
        FreeChain(fs, first);
        return;
      }
      var next := fs.ReadFatEntry(c);
      if next >= LAST {
        return true;
      }
      c := next;
    }
    ok := true;
  }

  lemma {:induction false} ClusterWritten(d0: seq<Sector>, d: seq<Sector>, g: Geometry, cs: seq<nat>, data: seq<Byte>,
                                          i: nat, s: nat, c: nat, pos: nat)
    requires Writing(d0, d, g, cs, data, i, s, c, pos) && (s == g.sectorsPerCluster || pos == |data|)
    ensures Writing(d0, d, g, cs, data, i, g.sectorsPerCluster, c, pos)
  {}

  /** On a chain that can hold the data no write fails. */
  lemma {:induction false} SectorsWritten(d0: seq<Sector>, d: seq<Sector>, g: Geometry, cs: seq<nat>, data: seq<Byte>,
                                          i: nat, s: nat, c: nat, pos: nat)
    requires Writing(d0, d, g, cs, data, i, s, c, pos) && Ascending(cs) && s <= g.sectorsPerCluster && |d| == |d0|
             && pos <= |data|
    ensures var p := WriteSectors(d, g, c, data, pos, s);
            p.ok && Writing(d0, p.disk, g, cs, data, i, g.sectorsPerCluster, c, p.pos)
    decreases g.sectorsPerCluster - s
  {
    hide Writing, Ascending, Lba, Block;
    if s >= g.sectorsPerCluster || pos >= |data| {
      ClusterWritten(d0, d, g, cs, data, i, s, c, pos);
    } else {
      WriteStep(d0, d, g, cs, data, i, s, c, pos);
      var d1 := d[Lba(g, c) + s := Block(data, pos)];
      SectorsWritten(d0, d1, g, cs, data, i, s + 1, c, pos + Least(|data| - pos, SECTOR));
    }
  }

  /** What writing data over a chain leaves. */
  ghost predicate DataOn(d0: seq<Sector>, d: seq<Sector>, g: Geometry, cs: seq<nat>, data: seq<Byte>) {
    && SameOutside(d0, d, g, cs) && FileBytes(d, g, cs, |data|) == data
    && forall k: nat :: |data| <= k < (|data| + 511) / 512 * 512 ==> Content(d, g, cs, k) == 0
  }

  /** Written from the `i`-th cluster on, the rest of the data arrives. */
  lemma {:induction false} ChainWritten(
      d0: seq<Sector>, d: seq<Sector>, g: Geometry, first: nat, cs: seq<nat>, data: seq<Byte>, i: nat, pos: nat)
    requires Holds(d0, g, first, cs, |data|) && Ascending(cs) && i < |cs| && pos < |data| && |d| == |d0|
    requires Writing(d0, d, g, cs, data, i, 0, cs[i], pos)
    ensures var r := WriteChain(d, g, first, cs[i], data, pos); r.1 && DataOn(d0, r.0, g, cs, data)
    decreases |data| - pos
  {
    BoundAndMember(d0, g, first, cs, |data|, i);
    hide Ascending, Entry, Holds, Writing, WriteSectors, DataOn, GeometryOk;
    var c := cs[i];
    SectorsWritten(d0, d, g, cs, data, i, 0, c, pos);
    var p := WriteSectors(d, g, c, data, pos, 0);
    if p.pos == |data| {
      WrittenEnds(d0, p.disk, g, cs, data, i, c);
      assert Entry(p.disk, g, c) < LAST ==>
          WriteChain(p.disk, g, first, Entry(p.disk, g, c), data, p.pos) == (p.disk, true);
    } else {
      WriteNext(d0, p.disk, g, first, cs, data, i, c, p.pos);
      ChainWritten(d0, p.disk, g, first, cs, data, i + 1, p.pos);
    }
  }

  lemma {:induction false} BoundAndMember(d: seq<Sector>, g: Geometry, first: nat, cs: seq<nat>, size: nat, i: nat)
    requires Holds(d, g, first, cs, size) && i < |cs|
    ensures g.sectorsPerCluster > 0 && cs[i] >= 2
  {}

  lemma {:induction false} WrittenEnds(
      d0: seq<Sector>, d: seq<Sector>, g: Geometry, cs: seq<nat>, data: seq<Byte>, i: nat, c: nat)
    requires Writing(d0, d, g, cs, data, i, g.sectorsPerCluster, c, |data|)
    ensures DataOn(d0, d, g, cs, data)
  {
    hide FileBytes, Stored, SameOutside, Sectors;
    StoredIsRead(d, g, cs, data);
  }

  /** On a chain that can hold it, all data is written, and nothing outside the chain. */
  lemma {:induction false} WriteIsRight(d: seq<Sector>, g: Geometry, first: nat, cs: seq<nat>, data: seq<Byte>)
    requires Holds(d, g, first, cs, |data|) && Ascending(cs) && g.sectorsPerCluster > 0
    ensures var r := WriteChain(d, g, first, first, data, 0); r.1 && DataOn(d, r.0, g, cs, data)
  {
    hide Holds, Writing, GeometryOk, WriteSectors;
    WriteBegins(d, g, first, cs, data);
    if |data| > 0 {
      hide FileBytes, SameOutside;
      ChainWritten(d, d, g, first, cs, data, 0, 0);
    }
  }

  /** The fields of a directory entry that the driver uses (include/fs/fat.h:62-75). */
  datatype Dirent = Dirent(name: seq<Byte>, attributes: nat, first: nat, size: nat)

  const DIRENT := 32
  const ARCHIVE: Byte := 0x20

  /** The 32 bytes the driver writes for a new file (fs/fat.c:791-802). */
  function EncodeDirent(name: seq<Byte>, first: nat, size: nat): (r: seq<Byte>)
    requires |name| == 11
    ensures |r| == DIRENT
  {
    name + [ARCHIVE, 0, 0, 0, 0, 0, 0, 0, 0]
    + [first / 0x1_0000 % 256, first / 0x100_0000 % 256] + [0, 0, 0, 0]
    + [first % 256, first / 256 % 256]
    + [size % 256, size / 256 % 256, size / 256 / 256 % 256, size / 256 / 256 / 256 % 256]
  }

  function Half(low: nat, high: nat): nat {
    low + 256 * high
  }

  /** The entry at offset `o` as the driver reads it; the cluster number is split over two fields. */
  function DecodeDirent(s: Sector, o: nat): Dirent
    requires o + DIRENT <= SECTOR
  {
    Dirent(s[o..o + 11], s[o + 11], Half(s[o + 20], s[o + 21]) * 0x1_0000 + Half(s[o + 26], s[o + 27]),
           Half(s[o + 28], s[o + 29]) + 0x1_0000 * Half(s[o + 30], s[o + 31]))
  }

  function PutDirent(s: Sector, o: nat, e: seq<Byte>): Sector
    requires o + DIRENT <= SECTOR && |e| == DIRENT
  {
    s[..o] + e + s[o + DIRENT..]
  }

  function Dword(b0: nat, b1: nat, b2: nat, b3: nat): nat {
    b0 + 0x100 * b1 + 0x1_0000 * b2 + 0x100_0000 * b3
  }

  /** The bytes of a new entry at their offsets: name, archive attribute, the cluster number's high half at 20 and
      low half at 26, the size at 28, lowest byte first, and zeros. */
  lemma {:induction false} DirentBytes(s: Sector, o: nat, name: seq<Byte>, first: nat, size: nat)
    requires o + DIRENT <= SECTOR && |name| == 11 && first < WORD && size < WORD
    ensures var s' := PutDirent(s, o, EncodeDirent(name, first, size));
            && s'[o..o + 11] == name && s'[o + 11] == 0x20
            && s'[o + 12..o + 20] == [0, 0, 0, 0, 0, 0, 0, 0] && s'[o + 22..o + 26] == [0, 0, 0, 0]
            && first == Dword(s'[o + 26], s'[o + 27], s'[o + 20], s'[o + 21])
            && size == Dword(s'[o + 28], s'[o + 29], s'[o + 30], s'[o + 31])
  {
    var e := EncodeDirent(name, first, size);
    var s' := PutDirent(s, o, e);
    assert e[12..20] == [0, 0, 0, 0, 0, 0, 0, 0] && e[22..26] == [0, 0, 0, 0];
    hide EncodeDirent;
    assert forall k {:trigger s'[o + k]} :: 0 <= k < DIRENT ==> s'[o + k] == e[k];
    assert s'[o..o + 11] == e[..11] && s'[o + 12..o + 20] == e[12..20] && s'[o + 22..o + 26] == e[22..26];
    hide PutDirent;
    EncodedFields(name, first, size);
  }

  /** A stored entry reads back whole; the other entries of the sector stay. */
  lemma {:induction false} DirentRoundTrip(s: Sector, o: nat, name: seq<Byte>, first: nat, size: nat)
    requires o + DIRENT <= SECTOR && |name| == 11 && first < WORD && size < WORD
    ensures var s' := PutDirent(s, o, EncodeDirent(name, first, size));
            && DecodeDirent(s', o) == Dirent(name, ARCHIVE, first, size)
            && forall k :: 0 <= k < SECTOR && !(o <= k < o + DIRENT) ==> s'[k] == s[k]
  {
    var e := EncodeDirent(name, first, size);
    var s' := PutDirent(s, o, e);
    hide EncodeDirent;
    assert forall k {:trigger s'[o + k]} :: 0 <= k < DIRENT ==> s'[o + k] == e[k];
    assert s'[o..o + 11] == e[..11];
    hide PutDirent;
    EncodedFields(name, first, size);
  }

  lemma {:induction false} EncodedFields(name: seq<Byte>, first: nat, size: nat)
    requires |name| == 11 && first < WORD && size < WORD
    ensures var e := EncodeDirent(name, first, size);
            && e[..11] == name && e[11] == ARCHIVE
            && Half(e[20], e[21]) * 0x1_0000 + Half(e[26], e[27]) == first
            && Half(e[28], e[29]) + 0x1_0000 * Half(e[30], e[31]) == size
  {
    Digits(first);
    Digits(size);
    Quotients(first);
  }

  lemma {:induction false} Quotients(n: nat)
    ensures n / 0x1_0000 == n / 256 / 256 && n / 0x100_0000 == n / 256 / 256 / 256
  {}

  /** The clusters of a volume are exactly those whose sectors are all on it. */
  lemma {:induction false} ClusterExistsIff(g: Geometry, c: nat)
    requires g.sectorsPerCluster > 0 && g.FirstData() <= g.totalSectors && c >= 2
    ensures c < g.MaxCluster() <==>
            g.reserved + 2 * g.fatSize + g.rootSectors + (c - 2) * g.sectorsPerCluster + g.sectorsPerCluster
            <= g.totalSectors
  {
    var room, spc := g.totalSectors - g.FirstData(), g.sectorsPerCluster;
    var m := room / spc;
    assert room == m * spc + room % spc;
    if c - 2 < m {
      ClusterRoom(room, spc, c - 2);
    } else {
      Times(m, c - 2, spc);
    }
  }

  /** Clusters asked for, in 32-bit arithmetic (fs/fat.c:744-745). */
  function Needed(g: Geometry, size: nat): nat
    requires g.sectorsPerCluster > 0
  {
    RoundedUp(size, ClusterBytes(g))
  }

  function RoundedUp(size: nat, unit: nat): nat
    requires unit > 0
  {
    (size + unit - 1) % WORD / unit
  }

  function ClusterBytes(g: Geometry): (n: nat)
    ensures g.sectorsPerCluster > 0 ==> n > 0
  {
    g.sectorsPerCluster * SECTOR
  }

  /** The size, rounded up to clusters, still fits 32 bits. */
  predicate SizeFits(g: Geometry, size: nat) {
    size + ClusterBytes(g) - 1 < WORD
  }

  /** `n` clusters hold `size` bytes, and no fewer do: the last one has at least one byte of the file. */
  predicate Fills(g: Geometry, n: nat, size: nat) {
    && size <= n * g.sectorsPerCluster * 512
    && (n > 0 ==> (n - 1) * g.sectorsPerCluster * 512 < size)
  }

  /** Where the size fits, the clusters asked for are the least number that holds it; an empty file gets none. */
  lemma {:induction false} NeededIsLeast(g: Geometry, size: nat, n: nat)
    requires g.sectorsPerCluster > 0 && SizeFits(g, size)
    ensures Needed(g, size) <= n <==> size <= n * g.sectorsPerCluster * 512
    ensures Fills(g, Needed(g, size), size) && (Needed(g, size) == 0 <==> size == 0)
  {
    var spc := g.sectorsPerCluster;
    var cb, needed := spc * 512, Needed(g, size);
    RoundsUp(size, cb);
    Regroup(needed, spc);
    Regroup(n, spc);
    if needed <= n {
      Times(needed, n, cb);
    } else {
      Times(n, needed - 1, cb);
    }
    if needed > 0 {
      Regroup(needed - 1, spc);
    }
  }

  lemma {:induction false} Regroup(n: nat, spc: nat)
    ensures n * spc * 512 == n * (spc * 512)
  {}

  lemma {:induction false} RoundsUp(size: nat, unit: nat)
    requires unit > 0 && size + unit - 1 < WORD
    ensures var q := RoundedUp(size, unit);
            size <= q * unit && (q > 0 ==> (q - 1) * unit < size) && (q == 0 ==> size == 0)
  {
    var x := size + unit - 1;
    var q := x / unit;
    assert x == q * unit + x % unit;
    if q > 0 {
      assert (q - 1) * unit == q * unit - unit;
    }
  }

  lemma {:induction false} NeededIsEnough(g: Geometry, size: nat)
    requires g.sectorsPerCluster > 0 && SizeFits(g, size)
    ensures size <= Needed(g, size) * g.sectorsPerCluster * SECTOR
  {
    NeededIsLeast(g, size, 0);
  }

  /** A larger size asks for nothing at all. */
  lemma {:induction false} NeededWraps(g: Geometry, size: nat)
    requires 0 < g.sectorsPerCluster <= 64 && size < WORD && !SizeFits(g, size)
    ensures Needed(g, size) == 0
  {
    RoundsToZero(size, ClusterBytes(g));
  }

  lemma {:induction false} RoundsToZero(size: nat, unit: nat)
    requires 0 < unit <= WORD && size < WORD <= size + unit - 1
    ensures RoundedUp(size, unit) == 0
  {
    var rounded := size + unit - 1;
    assert rounded % WORD == rounded - WORD;
    QuotientZero(rounded - WORD, unit);
  }

  lemma {:induction false} QuotientZero(a: nat, unit: nat)
    requires a < unit
    ensures a / unit == 0
  {}

  /** A directory slot lies in the root area or in a cluster that is in use (fs/fat.c:272-310). */
  ghost predicate SlotOk(d: seq<Sector>, g: Geometry, sector: nat) {
    && GeometryOk(g, |d|) && sector < |d|
    && (g.reserved + 2 * g.fatSize <= sector < g.FirstData()
        || exists c :: UsedCluster(d, g, c) && InCluster(g, c, sector))
  }

  ghost predicate UsedCluster(d: seq<Sector>, g: Geometry, c: nat) {
    g.sectorsPerCluster > 0 && g.FirstData() <= g.totalSectors && 2 <= c < g.MaxCluster() && Entry(d, g, c) != 0
  }

  lemma {:induction false} SlotOutside(d: seq<Sector>, g: Geometry, sector: nat, cs: seq<nat>)
    requires SlotOk(d, g, sector) && FreeIn(Table(d, g), cs)
    ensures ClustersOk(g, |d|, cs) && !InClusters(g, cs, sector) && sector >= g.reserved + 2 * g.fatSize
  {
    forall i | 0 <= i < |cs| ensures 2 <= cs[i] < g.MaxCluster() && !InCluster(g, cs[i], sector) {
      ClusterSectors(g, |d|, cs[i]);
      assert Table(d, g)[cs[i]] == 0;
      if InCluster(g, cs[i], sector) {
        SlotElsewhere(d, g, sector, cs[i]);
      }
    }
    if sector < g.reserved + 2 * g.fatSize {
      var c :| UsedCluster(d, g, c) && InCluster(g, c, sector);
      ClusterSectors(g, |d|, c);
    }
  }

  lemma {:induction false} SlotElsewhere(d: seq<Sector>, g: Geometry, sector: nat, x: nat)
    requires SlotOk(d, g, sector) && 2 <= x < g.MaxCluster() && Entry(d, g, x) == 0
    ensures !InCluster(g, x, sector)
  {
    ClusterSectors(g, |d|, x);
    if InCluster(g, x, sector) {
      var c :| UsedCluster(d, g, c) && InCluster(g, c, sector);
      hide Entry, Lba, GeometryOk;
      ClustersApart(g, |d|, c, x, sector);
    }
  }

  /** The linked clusters are a chain for the data. */
  lemma {:induction false} ChainHolds(d0: seq<Sector>, d1: seq<Sector>, g: Geometry, needed: nat, first: nat, size: nat)
    requires Allocated(d0, d1, g, needed, true, first) && size <= needed * g.sectorsPerCluster * SECTOR
    ensures var cs := Chosen(Table(d0, g), needed);
            |d1| == |d0| && |cs| == needed && Ascending(cs) && FreeIn(Table(d0, g), cs) && Holds(d1, g, first, cs, size)
  {
    hide Allocated, GeometryOk, Entry, FreeFrom, Ascending, Chosen;
    AllocatedFacts(d0, d1, g, needed, first);
    var t, t1 := Table(d0, g), Table(d1, g);
    var cs := Chosen(t, needed);
    ChosenFacts(t, needed);
    forall i | 0 <= i < |cs| - 1 ensures Entry(d1, g, cs[i]) == cs[i + 1] {
      assert t1[cs[i]] == Link(cs, i, END % Values(g.fatType));
    }
  }

  lemma {:induction false} AllocatedFacts(d0: seq<Sector>, d1: seq<Sector>, g: Geometry, needed: nat, first: nat)
    requires Allocated(d0, d1, g, needed, true, first)
    ensures GeometryOk(g, |d0|) && |d1| == |d0| && |Table(d0, g)| >= 2
    ensures var cs := Chosen(Table(d0, g), needed);
            && |cs| == needed && first == (if cs == [] then 0 else cs[0])
            && Chained(Table(d0, g), Table(d1, g), cs, END % Values(g.fatType))
  {
    hide Chained, FreeFrom, Entry, SpareSame, CopiesEqual;
  }

  /** Outside the tables, the given clusters and one sector, nothing has changed. */
  ghost predicate SameElsewhere(d: seq<Sector>, d': seq<Sector>, g: Geometry, cs: seq<nat>, sector: nat) {
    && |d'| == |d|
    && forall l: nat :: l < |d| && l != sector ==>
         !(g.reserved <= l < g.reserved + 2 * g.fatSize) && !InClusters(g, cs, l) ==> d'[l] == d[l]
  }

  /** What creating a file means, given the disk before. */
  ghost predicate Created(d0: seq<Sector>, d: seq<Sector>, g: Geometry, name: seq<Byte>, data: seq<Byte>,
                          sector: nat, offset: nat, ok: bool) {
    && GeometryOk(g, |d0|) && |d| == |d0| && sector < |d0| && offset + DIRENT <= SECTOR
    && var t := Table(d0, g);
    var needed := Needed(g, |data|);
    var cs := Chosen(t, needed);
    && (ok <==> needed <= |FreeFrom(t, 2)|)
    && (SizeFits(g, |data|) ==>
      && (ok <==> |data| <= |FreeFrom(t, 2)| * g.sectorsPerCluster * 512)
      && (ok ==> Fills(g, |cs|, |data|)))
    && (!ok ==> OnlyTables(d0, d, g) && Chained(t, Table(d, g), Drop(cs, GUARD), 0))
    && (ok ==>
      && Chained(t, Table(d, g), cs, END % Values(g.fatType))
      && SameElsewhere(d0, d, g, cs, sector)
      && DecodeDirent(d[sector], offset) == Dirent(name, ARCHIVE, if cs == [] then 0 else cs[0], |data|)
      && (forall k :: 0 <= k < SECTOR && !(offset <= k < offset + DIRENT) ==> d[sector][k] == d0[sector][k])
      && (SizeFits(g, |data|) ==>
         Holds(d, g, if cs == [] then 0 else cs[0], cs, |data|) && FileBytes(d, g, cs, |data|) == data))
  }

  /** The slot is sound and no cluster the file could get has a torn entry. */
  ghost predicate CleanCreate(d: seq<Sector>, g: Geometry, size: nat, sector: nat) {
    SlotOk(d, g, sector) && CleanRequest(d, g, Needed(g, size))
  }

  lemma {:induction false} ChosenFirst(d: seq<Sector>, g: Geometry, needed: nat)
    requires GeometryOk(g, |d|)
    ensures var cs := Chosen(Table(d, g), needed);
            cs == [] || (2 <= cs[0] < g.MaxCluster() && cs[0] < WORD)
  {
    hide GeometryOk, Chosen, Entry;
    BoundExists(g, |d|);
    var cs := Chosen(Table(d, g), needed);
    ChosenFacts(Table(d, g), needed);
    if cs != [] {
      WithinLimit(g, |d|, cs[0]);
    }
  }

  lemma {:induction false} SlotUntouched(
      d0: seq<Sector>, d1: seq<Sector>, d2: seq<Sector>, g: Geometry, cs: seq<nat>, sector: nat)
    requires OnlyTables(d0, d1, g) && SameOutside(d1, d2, g, cs) && sector < |d0|
    requires !InClusters(g, cs, sector) && sector >= g.reserved + 2 * g.fatSize
    ensures d2[sector] == d0[sector]
  {}

  lemma {:induction false} TableAfterData(
      d1: seq<Sector>, d2: seq<Sector>, g: Geometry, cs: seq<nat>, sector: nat, s: Sector)
    requires ClustersOk(g, |d1|, cs) && SameOutside(d1, d2, g, cs)
    requires g.reserved + 2 * g.fatSize <= sector < |d1|
    ensures Table(d2[sector := s], g) == Table(d1, g)
  {
    var d := d2[sector := s];
    forall c: nat | c < g.MaxCluster() ensures Entry(d, g, c) == Entry(d1, g, c) {
      hide Entry, InClusters;
      TablesKept(d1, d2, g, cs, c);
      SameTableSectors(d2, d, g, c);
    }
  }

  lemma {:induction false} ElsewhereSame(
      d0: seq<Sector>, d1: seq<Sector>, d2: seq<Sector>, g: Geometry, cs: seq<nat>, sector: nat, s: Sector)
    requires OnlyTables(d0, d1, g) && SameOutside(d1, d2, g, cs) && sector < |d0|
    ensures SameElsewhere(d0, d2[sector := s], g, cs, sector)
  {}

  lemma {:induction false} HoldsAfter(d: seq<Sector>, d': seq<Sector>, g: Geometry, first: nat, cs: seq<nat>, size: nat)
    requires Holds(d, g, first, cs, size) && |d'| == |d| && Table(d', g) == Table(d, g)
    ensures Holds(d', g, first, cs, size)
  {
    hide Entry, GeometryOk;
    forall i | 0 <= i < |cs| - 1 ensures Entry(d', g, cs[i]) == cs[i + 1] {
      assert Table(d', g)[cs[i]] == Table(d, g)[cs[i]];
    }
  }

  /** A file's bytes depend on its own sectors only. */
  lemma {:induction false} BytesSame(d: seq<Sector>, d': seq<Sector>, g: Geometry, cs: seq<nat>, n: nat)
    requires |d'| == |d| && forall l: nat :: l < |d| && InClusters(g, cs, l) ==> d'[l] == d[l]
    ensures FileBytes(d', g, cs, n) == FileBytes(d, g, cs, n)
  {
    hide SectorOf, InClusters;
    forall k: nat | k < n ensures Content(d', g, cs, k) == Content(d, g, cs, k) {
      if HasSector(d, g, cs, k / SECTOR) {
        OwnSector(g, cs, k / SECTOR);
      }
    }
  }

  /** The three phases of a successful creation put together. */
  lemma {:induction false} CreationDone(
      d0: seq<Sector>, d1: seq<Sector>, d2: seq<Sector>, g: Geometry, name: seq<Byte>, data: seq<Byte>, sector: nat,
      offset: nat, first: nat)
    requires CleanCreate(d0, g, |data|, sector) && offset + DIRENT <= SECTOR && |name| == 11 && |data| < WORD
    requires Allocated(d0, d1, g, Needed(g, |data|), true, first) && |d2| == |d1| == |d0|
    requires SizeFits(g, |data|) ==> DataOn(d1, d2, g, Chosen(Table(d0, g), Needed(g, |data|)), data)
    requires !SizeFits(g, |data|) ==> d2 == d1
    ensures var d := d2[sector := PutDirent(d2[sector], offset, EncodeDirent(name, first, |data|))];
            Created(d0, d, g, name, data, sector, offset, true)
  {
    hide GeometryOk, Table, PutDirent, EncodeDirent, DecodeDirent, InClusters, FreeFrom, FreeIn, Ascending, FileBytes;
    hide Holds, Lba, SlotOk, Chained, Chosen, Link, SameElsewhere, Needed, SizeFits, Fills, SpareSame, CopiesEqual;
    BoundOf(g, |d0|);
    SlotOnDisk(d0, g, sector);
    var t, needed := Table(d0, g), Needed(g, |data|);
    AllocatedFacts(d0, d1, g, needed, first);
    var cs := Chosen(t, needed);
    var s := PutDirent(d2[sector], offset, EncodeDirent(name, first, |data|));
    var d := d2[sector := s];
    ChosenFacts(t, needed);
    SlotOutside(d0, g, sector, cs);
    ChosenFirst(d0, g, needed);
    DirentRoundTrip(d2[sector], offset, name, first, |data|);
    SameOutsideItself(d1, g, cs);
    assert SameOutside(d1, d2, g, cs);
    assert TablesOnly(d0, d1, g) && OnlyTables(d0, d1, g);
    if SizeFits(g, |data|) {
      NeededIsEnough(g, |data|);
      DataReadable(d0, d1, d2, g, first, cs, data, sector, s);
      RoomIff(d0, g, |data|);
    }
    SlotUntouched(d0, d1, d2, g, cs, sector);
    TableAfterData(d1, d2, g, cs, sector, s);
    ElsewhereSame(d0, d1, d2, g, cs, sector, s);
  }

  lemma {:induction false} SameOutsideItself(d: seq<Sector>, g: Geometry, cs: seq<nat>)
    ensures SameOutside(d, d, g, cs)
  {}

  lemma {:induction false} DataReadable(
      d0: seq<Sector>, d1: seq<Sector>, d2: seq<Sector>, g: Geometry, first: nat, cs: seq<nat>, data: seq<Byte>,
      sector: nat, s: Sector)
    requires GeometryOk(g, |d0|) && |data| <= Needed(g, |data|) * g.sectorsPerCluster * SECTOR
    requires Allocated(d0, d1, g, Needed(g, |data|), true, first) && cs == Chosen(Table(d0, g), Needed(g, |data|))
    requires DataOn(d1, d2, g, cs, data) && !InClusters(g, cs, sector)
    requires g.reserved + 2 * g.fatSize <= sector < |d0|
    ensures Holds(d2[sector := s], g, first, cs, |data|) && FileBytes(d2[sector := s], g, cs, |data|) == data
  {
    assert g.sectorsPerCluster > 0 && |d1| == |d0| && |d2| == |d0|;
    hide Needed, GeometryOk, Table, InClusters, FileBytes, SameOutside, Chosen, FreeFrom;
    ChainHolds(d0, d1, g, Needed(g, |data|), first, |data|);
    hide Allocated;
    TableAfterData(d1, d2, g, cs, sector, s);
    HoldsAfter(d1, d2[sector := s], g, first, cs, |data|);
    BytesSame(d2, d2[sector := s], g, cs, |data|);
  }

  /** There is room exactly if the free clusters hold the file; it then gets the least number that does. */
  lemma {:induction false} RoomIff(d: seq<Sector>, g: Geometry, size: nat)
    requires GeometryOk(g, |d|) && g.sectorsPerCluster > 0 && SizeFits(g, size)
    ensures |Table(d, g)| >= 2
    ensures var t := Table(d, g);
            && (Needed(g, size) <= |FreeFrom(t, 2)| <==> size <= |FreeFrom(t, 2)| * g.sectorsPerCluster * 512)
            && (Needed(g, size) <= |FreeFrom(t, 2)| ==> Fills(g, |Chosen(t, Needed(g, size))|, size))
  {
    BoundExists(g, |d|);
    hide GeometryOk, Needed, FreeFrom, Fills, SizeFits;
    NeededIsLeast(g, size, |FreeFrom(Table(d, g), 2)|);
  }

  /** A request that found too few clusters. */
  lemma {:induction false} CreationFailed(
      d0: seq<Sector>, d: seq<Sector>, g: Geometry, name: seq<Byte>, data: seq<Byte>, sector: nat, offset: nat,
      first: nat)
    requires CleanCreate(d0, g, |data|, sector) && offset + DIRENT <= SECTOR
    requires Allocated(d0, d, g, Needed(g, |data|), false, first) && |d| == |d0|
    ensures Created(d0, d, g, name, data, sector, offset, false)
  {
    hide GeometryOk, Table, Chained, OnlyTables, Chosen, FreeFrom, Needed, DecodeDirent, Holds, FileBytes;
    hide SameElsewhere, Fills, SizeFits;
    BoundOf(g, |d0|);
    if SizeFits(g, |data|) {
      RoomIff(d0, g, |data|);
    }
  }

  lemma {:induction false} BoundOf(g: Geometry, n: nat)
    requires GeometryOk(g, n)
    ensures 0 < g.sectorsPerCluster <= 64
  {}

  /** What the data phase needs, from the allocation. */
  lemma {:induction false} ReadyForData(d0: seq<Sector>, d1: seq<Sector>, g: Geometry, size: nat, first: nat)
    requires 0 < g.sectorsPerCluster <= 64 && size < WORD
    requires CleanRequest(d0, g, Needed(g, size)) && Allocated(d0, d1, g, Needed(g, size), true, first)
    ensures var cs := Chosen(Table(d0, g), Needed(g, size));
            && Ascending(cs)
            && (SizeFits(g, size) ==> Holds(d1, g, first, cs, size))
            && (!SizeFits(g, size) ==> first == 0)
  {
    ChosenFacts(Table(d0, g), Needed(g, size));
    if SizeFits(g, size) {
      NeededIsEnough(g, size);
      ChainHolds(d0, d1, g, Needed(g, size), first, size);
    } else {
      NeededWraps(g, size);
    }
  }

  /** Disk and success after a file is created in a slot (fs/fat.c:743-805). */
  function Creation(
      d: seq<Sector>, g: Geometry, m: nat, name: seq<Byte>, data: seq<Byte>, sector: nat, offset: nat)
      : (r: (seq<Sector>, bool))
    requires g.sectorsPerCluster > 0 && |name| == 11 && offset + DIRENT <= SECTOR
    ensures |r.0| == |d|
  {
    var a := Allocation(d, g, m, Needed(g, |data|));
    if !a.1 then (a.0, false) else
      var w := WriteChain(a.0, g, a.2, a.2, data, 0);
      if !w.1 || sector >= |d| then (w.0, false)
      else (w.0[sector := PutDirent(w.0[sector], offset, EncodeDirent(name, a.2, |data|))], true)
  }

  /** If the slot is sound and no entry to be written is torn, creation does what it should. */
  lemma {:induction false} CreationIsRight(
      d: seq<Sector>, g: Geometry, m: nat, name: seq<Byte>, data: seq<Byte>, sector: nat, offset: nat)
    requires CleanCreate(d, g, |data|, sector) && IsBound(g, |d|, m)
    requires |name| == 11 && |data| < WORD && offset + DIRENT <= SECTOR && 0 < g.sectorsPerCluster <= 64 && sector < |d|
    ensures var r := Creation(d, g, m, name, data, sector, offset); Created(d, r.0, g, name, data, sector, offset, r.1)
  {
    hide GeometryOk, SlotOk, CleanRequest, Allocated, Allocation, Created, Needed, Chosen, Table, Holds, Ascending;
    hide DataOn, PutDirent, EncodeDirent, IsBound, WriteChain, SizeFits;
    var needed := Needed(g, |data|);
    var a := Allocation(d, g, m, needed);
    AllocationIsRight(d, g, m, needed);
    if !a.1 {
      CreationFailed(d, a.0, g, name, data, sector, offset, a.2);
    } else {
      TableExists(d, g, m);
      var cs := Chosen(Table(d, g), needed);
      ReadyForData(d, a.0, g, |data|, a.2);
      var w := WriteChain(a.0, g, a.2, a.2, data, 0);
      if SizeFits(g, |data|) {
        WriteIsRight(a.0, g, a.2, cs, data);
      } else {
        NothingWritten(a.0, g, data);
      }
      CreationDone(d, a.0, w.0, g, name, data, sector, offset, a.2);
    }
  }

  lemma {:induction false} TableExists(d: seq<Sector>, g: Geometry, m: nat)
    requires IsBound(g, |d|, m)
    ensures GeometryOk(g, |d|) && |Table(d, g)| >= 2
  {}

  lemma {:induction false} NothingWritten(d: seq<Sector>, g: Geometry, data: seq<Byte>)
    requires g.sectorsPerCluster > 0
    ensures WriteChain(d, g, 0, 0, data, 0) == (d, true)
  {}

  /** A new file in a free slot (fs/fat.c:743-805). */
  method CreateFile(fs: Fat, name: seq<Byte>, data: seq<Byte>, sector: nat, offset: nat) returns (ok: bool)
    requires GeometryOk(fs.g, fs.disk.Length) && |name| == 11 && offset + DIRENT <= SECTOR
    modifies fs`buffer, fs.disk
    ensures (fs.disk[..], ok) == Creation(old(fs.disk[..]), fs.g, fs.g.MaxCluster(), name, data, sector, offset)
  {
    BoundExists(fs.g, fs.disk.Length);
    hide GeometryOk, Allocation, Needed, WriteChain, PutDirent, EncodeDirent;
    var first;
    ok, first := AllocateChain(fs, Needed(fs.g, |data|));
    if !ok {
      return;
    }
    ok := WriteData(fs, first, data);
    if !ok {
      return;
    }
    ok := fs.DevRead(sector);
    if !ok {
      return;
    }
    fs.buffer := PutDirent(fs.buffer, offset, EncodeDirent(name, first, |data|));
    ok := fs.DevWrite(sector);
  }

  /** Every creation in a sound slot of every disk of this layout does what it should. */
  ghost predicate CreatesRight(g: Geometry, n: nat)
    requires GeometryOk(g, n)
  {
    forall d: seq<Sector>, name: seq<Byte>, data: seq<Byte>, sector: nat, offset: nat ::
      |d| == n && |name| == 11 && |data| < WORD && offset + DIRENT <= SECTOR && SlotOk(d, g, sector) ==>
        CreatesRightOn(d, g, name, data, sector, offset)
  }

  ghost predicate CreatesRightOn(
      d: seq<Sector>, g: Geometry, name: seq<Byte>, data: seq<Byte>, sector: nat, offset: nat)
    requires GeometryOk(g, |d|) && |name| == 11 && offset + DIRENT <= SECTOR
  {
    var r := Creation(d, g, g.MaxCluster(), name, data, sector, offset);
    Created(d, r.0, g, name, data, sector, offset, r.1)
  }

  /** Creation is right on every disk and for all data if and only if no valid cluster straddles. */
  lemma {:induction false} CreationIff(g: Geometry, n: nat)
    requires GeometryOk(g, n)
    ensures CreatesRight(g, n) <==> Untorn(g)
  {
    BoundExists(g, n);
    assert g.sectorsPerCluster <= 64;
    hide Creation, Created, CleanRequest, GeometryOk, SlotOk;
    if Untorn(g) {
      forall d: seq<Sector>, name: seq<Byte>, data: seq<Byte>, sector: nat, offset: nat
        | |d| == n && |name| == 11 && |data| < WORD && offset + DIRENT <= SECTOR && SlotOk(d, g, sector)
        ensures CreatesRightOn(d, g, name, data, sector, offset)
      {
        UntornRequest(d, g, Needed(g, |data|));
        SlotOnDisk(d, g, sector);
        CreationIsRight(d, g, g.MaxCluster(), name, data, sector, offset);
      }
    } else {
      TornCreation(g, n);
    }
  }

  lemma {:induction false} SlotOnDisk(d: seq<Sector>, g: Geometry, sector: nat)
    requires SlotOk(d, g, sector)
    ensures sector < |d| && sector >= g.reserved + 2 * g.fatSize
  {
    SlotOutside(d, g, sector, []);
  }

  const ELEVEN: seq<Byte> := [65, 65, 65, 65, 65, 65, 65, 65, 65, 65, 65]

  /** A file of one byte that is given cluster 341, with its directory entry in cluster 2. */
  lemma {:induction false} TornCreation(g: Geometry, n: nat)
    requires GeometryOk(g, n) && !Untorn(g)
    ensures var d := TornDisk(g.reserved, n);
            SlotOk(d, g, Lba(g, 2)) && !CreatesRightOn(d, g, ELEVEN, [0], Lba(g, 2), 0)
  {
    var d, l := TornDisk(g.reserved, n), Lba(g, 2);
    BoundExists(g, n);
    ClusterSectors(g, n, 2);
    ClusterSectors(g, n, 341);
    TornDiskEntries(g, n, 2);
    hide GeometryOk, Entry, TornDisk, Lba, AfterWrite, Allocation, WriteChain, PutDirent, EncodeDirent, Needed, Created;
    assert UsedCluster(d, g, 2) && InCluster(g, 2, l);
    var r := Creation(d, g, g.MaxCluster(), ELEVEN, [0], l, 0);
    TornAllocationResult(g, n);
    OneCluster(g, n);
    TornFreesAnother(g, n, END);
    var d1 := AfterWrite(d, g, 341, END);
    OneSector(d1, g, n);
    assert Table(d, g)[2] == Entry(d, g, 2);
    SameTableAbove(d1, r.0, g, 2);
    ChosenFacts(Table(d, g), 1);
    assert 2 !in Chosen(Table(d, g), 1);
    if CreatesRightOn(d, g, ELEVEN, [0], l, 0) {
      CreatedChained(d, r.0, g, ELEVEN, [0], l, 0);
    }
  }

  lemma {:induction false} OneCluster(g: Geometry, n: nat)
    requires GeometryOk(g, n)
    ensures g.sectorsPerCluster > 0 && Needed(g, 1) == 1
  {
    RoundsToOne(ClusterBytes(g));
  }

  lemma {:induction false} RoundsToOne(unit: nat)
    requires 0 < unit < WORD
    ensures RoundedUp(1, unit) == 1
  {
    assert (1 + unit - 1) % WORD == unit;
    SelfQuotient(unit);
  }

  lemma {:induction false} SelfQuotient(unit: nat)
    requires unit > 0
    ensures unit / unit == 1
  {}

  /** One byte on cluster 341 is one sector written, past the tables. */
  lemma {:induction false} OneSector(d: seq<Sector>, g: Geometry, n: nat)
    requires GeometryOk(g, n) && |d| == n && 341 < g.MaxCluster()
    ensures var l := Lba(g, 341);
            && g.sectorsPerCluster > 0 && g.FirstData() <= l < n
            && WriteChain(d, g, 341, 341, [0], 0) == (d[l := Block([0], 0)], true)
  {
    BoundExists(g, n);
    ClusterSectors(g, n, 341);
    hide GeometryOk, Lba, Entry, Block;
    var l := Lba(g, 341);
    var d1 := d[l := Block([0], 0)];
    assert WriteSectors(d1, g, 341, [0], 1, 1) == Progress(d1, 1, true);
    assert WriteSectors(d, g, 341, [0], 0, 0) == Progress(d1, 1, true);
    assert Entry(d1, g, 341) < LAST ==> WriteChain(d1, g, 341, Entry(d1, g, 341), [0], 1) == (d1, true);
  }

  /** Writes above the tables leave every entry alone. */
  lemma {:induction false} SameTableAbove(d: seq<Sector>, d': seq<Sector>, g: Geometry, c: nat)
    requires GeometryOk(g, |d|) && |d'| == |d| && c < g.MaxCluster()
    requires forall l: nat :: l < g.FirstData() && l < |d| ==> d'[l] == d[l]
    ensures Entry(d', g, c) == Entry(d, g, c)
  {
    TablesBelow(g, |d|);
    SameTableSectors(d, d', g, c);
  }

  lemma {:induction false} TablesBelow(g: Geometry, n: nat)
    requires GeometryOk(g, n)
    ensures g.reserved + 2 * g.fatSize <= g.FirstData() <= n
  {}

  lemma {:induction false} CreatedChained(
      d0: seq<Sector>, d: seq<Sector>, g: Geometry, name: seq<Byte>, data: seq<Byte>, sector: nat, offset: nat)
    requires Created(d0, d, g, name, data, sector, offset, true)
    ensures GeometryOk(g, |d0|) && |d| == |d0| && |Table(d0, g)| >= 2
    ensures Chained(Table(d0, g), Table(d, g), Chosen(Table(d0, g), Needed(g, |data|)), END % Values(g.fatType))
  {
    hide Chained, Chosen, FreeFrom, Holds, FileBytes, DecodeDirent, SameElsewhere, OnlyTables, Entry;
  }

  /**
   * Another file, all of whose clusters are in use, keeps its chain and its bytes, whether creation succeeds
   * or fails.
   */
  lemma {:induction false} OtherFilesKept(
      d0: seq<Sector>, d: seq<Sector>, g: Geometry, name: seq<Byte>, data: seq<Byte>, sector: nat, offset: nat,
      ok: bool, first: nat, fs: seq<nat>, size: nat)
    requires Created(d0, d, g, name, data, sector, offset, ok)
    requires Holds(d0, g, first, fs, size) && !InClusters(g, fs, sector)
    requires forall i :: 0 <= i < |fs| ==> Entry(d0, g, fs[i]) != 0
    ensures Holds(d, g, first, fs, size) && FileBytes(d, g, fs, size) == FileBytes(d0, g, fs, size)
  {
    hide Entry, GeometryOk, Chosen, Needed, Lba, FileBytes, DecodeDirent, InClusters, FreeFrom, Ascending;
    BoundExists(g, |d0|);
    var t, t', cs := Table(d0, g), Table(d, g), Chosen(Table(d0, g), Needed(g, |data|));
    ChosenFacts(t, Needed(g, |data|));
    ghost var linked := if ok then cs else Drop(cs, GUARD);
    assert |d| == |d0| && Chained(t, t', linked, if ok then END % Values(g.fatType) else 0);
    assert SameElsewhere(d0, d, g, cs, sector) by {
      if !ok {
        assert OnlyTables(d0, d, g);
      }
    }
    assert forall x :: x in linked ==> x in cs;
    hide Created;
    FreeClustersOk(d0, g, cs);
    forall i | 0 <= i < |fs| ensures fs[i] !in cs && Entry(d, g, fs[i]) == Entry(d0, g, fs[i]) {
      assert t[fs[i]] == Entry(d0, g, fs[i]) && t'[fs[i]] == Entry(d, g, fs[i]);
    }
    forall l: nat | l < |d0| && InClusters(g, fs, l) ensures d[l] == d0[l] {
      FileApart(g, |d0|, fs, cs, l);
    }
    BytesSame(d0, d, g, fs, size);
  }

  lemma {:induction false} FreeClustersOk(d: seq<Sector>, g: Geometry, cs: seq<nat>)
    requires GeometryOk(g, |d|) && FreeIn(Table(d, g), cs)
    ensures ClustersOk(g, |d|, cs)
  {
    hide GeometryOk, Entry;
  }

  lemma {:induction false} FileApart(g: Geometry, n: nat, fs: seq<nat>, cs: seq<nat>, l: nat)
    requires ClustersOk(g, n, fs) && ClustersOk(g, n, cs) && InClusters(g, fs, l)
    requires forall i :: 0 <= i < |fs| ==> fs[i] !in cs
    ensures !InClusters(g, cs, l) && l >= g.reserved + 2 * g.fatSize
  {
    var i :| 0 <= i < |fs| && InCluster(g, fs[i], l);
    ClusterSectors(g, n, fs[i]);
    hide Lba, GeometryOk;
    forall j | 0 <= j < |cs| ensures !InCluster(g, cs[j], l) {
      if InCluster(g, cs[j], l) {
        ClustersApart(g, n, fs[i], cs[j], l);
      }
    }
  }

  /** A directory entry read back from its slot. */
  method ReadSlot(fs: Fat, sector: nat, offset: nat) returns (e: Dirent)
    requires sector < fs.disk.Length && offset + DIRENT <= SECTOR
    modifies fs`buffer
    ensures e == DecodeDirent(fs.disk[sector], offset)
  {
    var _ := fs.DevRead(sector);
    e := DecodeDirent(fs.buffer, offset);
  }

  /**
   * A new file, created and then loaded through its directory entry. Creation succeeds exactly when
   * there are enough free clusters; the loaded bytes are the written ones if and only if the size
   * rounded up to clusters fits 32 bits. Beyond that the driver reports success and stores nothing.
   */
  method CreateAndLoad(fs: Fat, name: seq<Byte>, data: seq<Byte>, sector: nat, offset: nat, max: nat)
    returns (ok: bool, loaded: seq<Byte>)
    requires GeometryOk(fs.g, fs.disk.Length) && |name| == 11 && |data| < WORD && offset + DIRENT <= SECTOR
    modifies fs`buffer, fs.disk
    ensures CleanCreate(old(fs.disk[..]), fs.g, |data|, sector) ==>
              && (ok <==> Needed(fs.g, |data|) <= |FreeFrom(Table(old(fs.disk[..]), fs.g), 2)|)
              && (ok && max > 0 ==> (loaded == Slice(data, 0, max) <==> SizeFits(fs.g, |data|)))
              && (ok && !SizeFits(fs.g, |data|) ==> loaded == [])
    ensures CleanCreate(old(fs.disk[..]), fs.g, |data|, sector) && SizeFits(fs.g, |data|) ==>
              && (ok <==> |data| <= |FreeFrom(Table(old(fs.disk[..]), fs.g), 2)| * fs.g.sectorsPerCluster * 512)
              && (ok ==> loaded == data[..if |data| <= max then |data| else max])
              && (ok && |data| <= max ==> loaded == data)
  {
    ghost var d0, g := fs.disk[..], fs.g;
    ghost var good := CleanCreate(d0, g, |data|, sector);
    BoundExists(g, |d0|);
    ghost var cs := Chosen(Table(d0, g), Needed(g, |data|));
    loaded := [];
    if good {
      assert sector < |d0| && g.sectorsPerCluster <= 64;
      CreationIsRight(d0, g, g.MaxCluster(), name, data, sector, offset);
    }
    hide Creation, Created, CleanCreate, DecodeDirent, Holds, FileBytes, SizeFits, GeometryOk, Table, FreeFrom;
    hide Needed, Chosen;
    ok := CreateFile(fs, name, data, sector, offset);
    ghost var d := fs.disk[..];
    if good {
      CreatedLoads(d0, d, g, name, data, sector, offset, ok);
    }
    if ok && sector < fs.disk.Length {
      var e := ReadSlot(fs, sector, offset);
      loaded := LoadFile(fs, e.first, e.size, max, cs);
    }
  }

  lemma {:induction false} CreatedLoads(d0: seq<Sector>, d: seq<Sector>, g: Geometry, name: seq<Byte>, data: seq<Byte>,
                                        sector: nat, offset: nat, ok: bool)
    requires Created(d0, d, g, name, data, sector, offset, ok) && |data| < WORD
    ensures GeometryOk(g, |d0|) && sector < |d| && offset + DIRENT <= SECTOR
    ensures ok <==> Needed(g, |data|) <= |FreeFrom(Table(d0, g), 2)|
    ensures ok ==>
              var e, cs := DecodeDirent(d[sector], offset), Chosen(Table(d0, g), Needed(g, |data|));
              && e.size == |data|
              && (if SizeFits(g, |data|) then Holds(d, g, e.first, cs, |data|) && FileBytes(d, g, cs, |data|) == data
                  else e.first == 0 && data != [])
  {
    if !SizeFits(g, |data|) {
      NeededWraps(g, |data|);
    }
    hide Table, FreeFrom, DecodeDirent, Holds, FileBytes;
  }
}
