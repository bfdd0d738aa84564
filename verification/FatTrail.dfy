/** Freeing that goes on past the end mark, where the mark is no cluster (fs/fat.c:657-666 with 760). */
module FatTrails {
  import opened CArithmetic
  import opened FatCodec
  import opened FatVolume
  import opened FatChains
  import opened FatFreeing
  import opened Lists

  /** The mirrored write for one of these numbers never lands on the sector of another. */
  ghost predicate Apart(g: Geometry, rs: seq<nat>) {
    forall i, j :: 0 <= i < |rs| && 0 <= j < |rs| ==> Place(g, rs[i]) + g.fatSize != Place(g, rs[j])
  }

  ghost predicate Numbers(g: Geometry, rs: seq<nat>) {
    forall i :: 0 <= i < |rs| ==> 2 <= rs[i] < LAST && !Straddles(g.fatType, rs[i])
  }

  ghost predicate LeadsTo(d: seq<Sector>, g: Geometry, rs: seq<nat>, v: nat) {
    forall i {:trigger Entry(d, g, rs[i])} :: 0 <= i < |rs| ==> Entry(d, g, rs[i]) == Link(rs, i, v)
  }

  /** Following the disk as it is from `rs[0]` gives the numbers `rs`, and then `v`. */
  ghost predicate Trail(d: seq<Sector>, g: Geometry, rs: seq<nat>, v: nat) {
    rs != [] && NoDup(rs) && Numbers(g, rs) && Apart(g, rs) && LeadsTo(d, g, rs, v)
  }

  // What one write does to entries elsewhere, in the tables or not.

  /** An entry in one sector, from that sector. */
  function InSector(t: FatType, s: Sector, o: nat, odd: bool): nat
    requires o + Span(t) <= SECTOR
  {
    match t
    case FAT12 => Get12(s[o], s[o + 1], odd)
    case FAT16 =>
      var low: nat, high: nat := s[o], s[o + 1];
      low + 256 * high
    case FAT32 => Get32(s[o], s[o + 1], s[o + 2], s[o + 3])
  }

  lemma {:induction false} EntryInSector(d: seq<Sector>, g: Geometry, x: nat)
    requires !Straddles(g.fatType, x) && Place(g, x) < |d|
    ensures Offset(g.fatType, x) % SECTOR + Span(g.fatType) <= SECTOR
    ensures Entry(d, g, x) == InSector(g.fatType, d[Place(g, x)], Offset(g.fatType, x) % SECTOR, x % 2 == 1)
  {
    hide Get12, Get32;
    var off := Offset(g.fatType, x);
    Aligned(x);
    match g.fatType
    case FAT12 => SameSector(off, 1, 0);
    case FAT16 => SameSector(off, 1, 0);
    case FAT32 =>
      SameSector(off, 1, 0);
      SameSector(off, 2, 0);
      SameSector(off, 3, 0);
  }

  lemma {:induction false} SameSectorEntry(d: seq<Sector>, d': seq<Sector>, g: Geometry, x: nat)
    requires !Straddles(g.fatType, x) && Place(g, x) < |d| == |d'| && d'[Place(g, x)] == d[Place(g, x)]
    ensures Entry(d', g, x) == Entry(d, g, x)
  {
    hide Entry, Straddles, Place;
    EntryInSector(d, g, x);
    EntryInSector(d', g, x);
  }

  /** Clearing an entry in one sector clears it there and leaves every other entry of the sector alone. */
  lemma {:induction false} ClearedSector(d: seq<Sector>, g: Geometry, c: nat, x: nat)
    requires !Straddles(g.fatType, c) && !Straddles(g.fatType, x) && Place(g, x) == Place(g, c) < |d| && g.fatSize > 0
    ensures Entry(AfterWrite(d, g, c, 0), g, x) == if x == c then 0 else Entry(d, g, x)
  {
    var d' := AfterWrite(d, g, c, 0);
    match g.fatType
    case FAT12 => ClearedSector12(d, g, c, x);
    case FAT16 => ClearedSector16(d, g, c, x);
    case FAT32 => ClearedSector32(d, g, c, x);
  }

  lemma {:induction false} ClearedSector16(d: seq<Sector>, g: Geometry, c: nat, x: nat)
    requires g.fatType == FAT16 && Place(g, x) == Place(g, c) < |d| && g.fatSize > 0
    ensures Entry(AfterWrite(d, g, c, 0), g, x) == if x == c then 0 else Entry(d, g, x)
  {
    hide Entry;
    Aligned(c);
    var s, o, d' := d[Place(g, c)], 2 * c % SECTOR, AfterWrite(d, g, c, 0);
    assert d'[Place(g, c)] == Patch2(s, o, 0);
    hide AfterWrite;
    EntryInSector(d, g, x);
    EntryInSector(d', g, x);
    if x != c {
      Halves(c, x);
    }
  }

  lemma {:induction false} Halves(c: nat, x: nat)
    requires 2 * c / SECTOR == 2 * x / SECTOR && c != x
    ensures 2 * c % SECTOR + 2 <= 2 * x % SECTOR || 2 * x % SECTOR + 2 <= 2 * c % SECTOR
  {
    assert 2 * c == SECTOR * (2 * c / SECTOR) + 2 * c % SECTOR;
    assert 2 * x == SECTOR * (2 * x / SECTOR) + 2 * x % SECTOR;
  }

  lemma {:induction false} ClearedSector32(d: seq<Sector>, g: Geometry, c: nat, x: nat)
    requires g.fatType == FAT32 && Place(g, x) == Place(g, c) < |d| && g.fatSize > 0
    ensures Entry(AfterWrite(d, g, c, 0), g, x) == if x == c then 0 else Entry(d, g, x)
  {
    hide Get32, Put32, Patch4, Entry;
    Aligned(c);
    var s, o, d' := d[Place(g, c)], 4 * c % SECTOR, AfterWrite(d, g, c, 0);
    var n := Put32(s[o], s[o + 1], s[o + 2], s[o + 3], 0);
    assert d'[Place(g, c)] == Patch4(s, o, n);
    hide AfterWrite;
    EntryInSector(d, g, x);
    EntryInSector(d', g, x);
    PatchedBytes(s, o, n);
    Quad32(s[o], s[o + 1], s[o + 2], s[o + 3], 0);
    if x != c {
      Quarters(c, x);
    }
  }

  lemma {:induction false} Quarters(c: nat, x: nat)
    requires 4 * c / SECTOR == 4 * x / SECTOR && c != x
    ensures 4 * c % SECTOR + 4 <= 4 * x % SECTOR || 4 * x % SECTOR + 4 <= 4 * c % SECTOR
  {
    assert 4 * c == SECTOR * (4 * c / SECTOR) + 4 * c % SECTOR;
    assert 4 * x == SECTOR * (4 * x / SECTOR) + 4 * x % SECTOR;
  }

  lemma {:induction false} ClearedSector12(d: seq<Sector>, g: Geometry, c: nat, x: nat)
    requires g.fatType == FAT12 && Place(g, x) == Place(g, c) < |d| && g.fatSize > 0
    requires !Straddles(g.fatType, c) && !Straddles(g.fatType, x)
    ensures Entry(AfterWrite(d, g, c, 0), g, x) == if x == c then 0 else Entry(d, g, x)
  {
    hide Get12, Put12, Offset, Entry;
    var s, o, p, d' := d[Place(g, c)], Offset(FAT12, c) % SECTOR, Offset(FAT12, x) % SECTOR, AfterWrite(d, g, c, 0);
    OffsetIs12(c);
    OffsetIs12(x);
    EntryInSector(d, g, x);
    EntryInSector(d', g, x);
    var odd := c % 2 == 1;
    var n := Put12(s[o], s[o + 1], odd, 0);
    Pair12(s[o], s[o + 1], odd, 0);
    var s' := Patch2(s, o, n);
    assert s'[o] == n % 256 && s'[o + 1] == n / 256 % 256;
    assert d'[Place(g, c)] == s';
    hide AfterWrite;
    Nibbles(s[p], s[p + 1]);
    Nibbles(s'[p], s'[p + 1]);
    if x != c {
      Positions12(x, c);
      assert Offset(FAT12, x) - p == Offset(FAT12, c) - o;
    }
  }

  /** Clearing one entry leaves every other one alone that the mirrored write does not hit. */
  lemma {:induction false} ElsewhereKept(d: seq<Sector>, g: Geometry, c: nat, x: nat)
    requires !Straddles(g.fatType, c) && !Straddles(g.fatType, x) && g.fatSize > 0
    requires x != c && Place(g, x) != Place(g, c) + g.fatSize
    ensures Entry(AfterWrite(d, g, c, 0), g, x) == Entry(d, g, x)
  {
    hide Entry, Offset, Straddles;
    if Place(g, c) < |d| {
      if Place(g, x) == Place(g, c) {
        ClearedSector(d, g, c, x);
      } else if Place(g, x) < |d| {
        OtherSectors(d, g, c, Place(g, x));
        SameSectorEntry(d, AfterWrite(d, g, c, 0), g, x);
      } else {
        OffTheDisk(d, g, x);
        OffTheDisk(AfterWrite(d, g, c, 0), g, x);
      }
    } else {
      OffTheDisk(d, g, c);
    }
  }

  /** A write changes the sector of the entry and its mirror only. */
  lemma {:induction false} OtherSectors(d: seq<Sector>, g: Geometry, c: nat, l: nat)
    requires !Straddles(g.fatType, c) && l != Place(g, c) && l != Place(g, c) + g.fatSize && l < |d|
    ensures AfterWrite(d, g, c, 0)[l] == d[l]
  {
    hide Offset, Put12, Put32, Patch2, Patch4;
  }

  lemma {:induction false} OffTheDisk(d: seq<Sector>, g: Geometry, c: nat)
    requires Place(g, c) >= |d|
    ensures AfterWrite(d, g, c, 0) == d && Entry(d, g, c) == FailedRead(g.fatType)
  {}

  // Following a trail.

  lemma {:induction false} TrailStep(d: seq<Sector>, g: Geometry, rs: seq<nat>, v: nat)
    requires Trail(d, g, rs, v) && g.fatSize > 0
    ensures rs != [] && 2 <= rs[0] < LAST && Entry(d, g, rs[0]) == Link(rs, 0, v)
    ensures |rs| > 1 ==> 2 <= rs[1] < LAST && Trail(AfterWrite(d, g, rs[0], 0), g, rs[1..], v)
  {
    hide AfterWrite, Entry, Straddles, Place;
    var d1, rest := AfterWrite(d, g, rs[0], 0), rs[1..];
    forall i | 0 <= i < |rest| ensures Entry(d1, g, rest[i]) == Link(rest, i, v) {
      assert rest[i] == rs[i + 1] && rs[i + 1] != rs[0];
      ElsewhereKept(d, g, rs[0], rs[i + 1]);
      assert Entry(d, g, rs[i + 1]) == Link(rs, i + 1, v);
    }
  }

  /** The run clears a trail in order, and then goes on with the value at its end. */
  lemma {:induction false} FreedTrail(d: seq<Sector>, g: Geometry, rs: seq<nat>, v: nat, n: nat)
    requires Trail(d, g, rs, v) && g.fatSize > 0 && |rs| <= n
    ensures v < LAST ==> Freed(d, g, rs[0], n) == Freed(Cleared(d, g, rs), g, v, n - |rs|)
    ensures v >= LAST ==> Freed(d, g, rs[0], n) == Cleared(d, g, rs)
    decreases n
  {
    hide AfterWrite, Entry, Trail;
    TrailStep(d, g, rs, v);
    var d1 := AfterWrite(d, g, rs[0], 0);
    if |rs| > 1 {
      FreedTrail(d1, g, rs[1..], v, n - 1);
    } else {
      assert rs[1..] == [];
      ClearedNone(d1, g);
    }
  }

  lemma {:induction false} ClearedNone(d: seq<Sector>, g: Geometry)
    ensures Cleared(d, g, []) == d
  {}

  /** Clearing other entries leaves this one alone. */
  lemma {:induction false} ClearedKeeps(d: seq<Sector>, g: Geometry, rs: seq<nat>, x: nat)
    requires Numbers(g, rs) && x !in rs && !Straddles(g.fatType, x) && g.fatSize > 0
    requires forall i :: 0 <= i < |rs| ==> Place(g, x) != Place(g, rs[i]) + g.fatSize
    ensures Entry(Cleared(d, g, rs), g, x) == Entry(d, g, x)
    decreases |rs|
  {
    hide AfterWrite, Entry, Straddles, Place;
    if rs != [] {
      ElsewhereKept(d, g, rs[0], x);
      var rest := rs[1..];
      assert forall i :: 0 <= i < |rest| ==> rest[i] == rs[i + 1];
      ClearedKeeps(AfterWrite(d, g, rs[0], 0), g, rest, x);
    }
  }

  /** Every number of the trail that is on the disk then reads 0. */
  lemma {:induction false} ClearedReadsZero(d: seq<Sector>, g: Geometry, rs: seq<nat>, k: nat)
    requires NoDup(rs) && Numbers(g, rs) && Apart(g, rs) && g.fatSize > 0
    requires k < |rs| && Place(g, rs[k]) < |d|
    ensures Entry(Cleared(d, g, rs), g, rs[k]) == 0
    decreases |rs|
  {
    hide AfterWrite, Entry, Straddles, Place;
    var d1, rest := AfterWrite(d, g, rs[0], 0), rs[1..];
    assert forall i :: 0 <= i < |rest| ==> rest[i] == rs[i + 1] && rest[i] != rs[0];
    if k == 0 {
      ClearedSector(d, g, rs[0], rs[0]);
      ClearedKeeps(d1, g, rest, rs[0]);
    } else {
      ClearedReadsZero(d1, g, rest, k - 1);
    }
  }

  /** Past the last cluster the table is not touched. */
  lemma {:induction false} ClearedPast(d: seq<Sector>, g: Geometry, rs: seq<nat>)
    requires GeometryOk(g, |d|) && Numbers(g, rs)
    requires forall i :: 0 <= i < |rs| ==> g.MaxCluster() <= rs[i]
    ensures Table(Cleared(d, g, rs), g) == Table(d, g)
    decreases |rs|
  {
    BoundExists(g, |d|);
    hide GeometryOk, AfterWrite, Table, Straddles;
    if rs != [] {
      StepTable(d, g, rs[0]);
      var rest := rs[1..];
      assert forall i :: 0 <= i < |rest| ==> rest[i] == rs[i + 1];
      ClearedPast(AfterWrite(d, g, rs[0], 0), g, rest);
    }
  }

  lemma {:induction false} ClearedLast(d: seq<Sector>, g: Geometry, rs: seq<nat>, v: nat)
    ensures Cleared(d, g, rs + [v]) == AfterWrite(Cleared(d, g, rs), g, v, 0)
    decreases |rs|
  {
    hide AfterWrite;
    if rs == [] {
      assert [] + [v] == [v] && [v][1..] == [];
    } else {
      assert (rs + [v])[1..] == rs[1..] + [v];
      ClearedLast(AfterWrite(d, g, rs[0], 0), g, rs[1..], v);
    }
  }

  // Freeing a file where the mark is past the last cluster.

  ghost predicate Past(g: Geometry, rs: seq<nat>)
    requires g.sectorsPerCluster > 0 && g.FirstData() <= g.totalSectors
  {
    forall i :: 0 <= i < |rs| ==> g.MaxCluster() <= rs[i]
  }

  /**
   * With `n` steps left, the run goes from the mark through `rs`, all past the last cluster, to `v`: a value
   * that ends it, a number it has been at, a cluster, or whatever there is when the guard stops it.
   */
  ghost predicate PastTrail(d: seq<Sector>, g: Geometry, rs: seq<nat>, v: nat, n: nat) {
    && GeometryOk(g, |d|) && MarkSector(g) < |d|
    && Trail(d, g, rs, v) && rs[0] == Mark(g.fatType) && Past(g, rs) && |rs| <= n
    && (|rs| == n || v < g.MaxCluster() || v in rs || v >= LAST)
  }

  /**
   * Every disk has such a trail, unless a number on it has its entry in two sectors, or the mirrored write for
   * one lands on the sector of another.
   */
  lemma {:induction false} TrailExists(d: seq<Sector>, g: Geometry, n: nat) returns (rs: seq<nat>, v: nat)
    requires GeometryOk(g, |d|) && MarkSector(g) < |d| && g.MaxCluster() <= Mark(g.fatType) && n > 0
    ensures rs != [] && rs[0] == Mark(g.fatType) && LeadsTo(d, g, rs, v)
    ensures Apart(g, rs) && (forall i :: 0 <= i < |rs| ==> !Straddles(g.fatType, rs[i])) ==> PastTrail(d, g, rs, v, n)
  {
    hide GeometryOk, Entry, Straddles, Place;
    EndIsNeverSeen(g.fatType);
    BoundExists(g, |d|);
    rs, v := [Mark(g.fatType)], Entry(d, g, Mark(g.fatType));
    while |rs| < n && g.MaxCluster() <= v < LAST && v !in rs
      invariant rs != [] && rs[0] == Mark(g.fatType) && |rs| <= n
      invariant LeadsTo(d, g, rs, v) && NoDup(rs) && Past(g, rs)
      invariant forall i :: 0 <= i < |rs| ==> rs[i] < LAST
      decreases n - |rs|
    {
      Prolonged(d, g, rs, v);
      rs, v := rs + [v], Entry(d, g, v);
    }
  }

  lemma {:induction false} Prolonged(d: seq<Sector>, g: Geometry, rs: seq<nat>, v: nat)
    requires rs != [] && LeadsTo(d, g, rs, v)
    ensures LeadsTo(d, g, rs + [v], Entry(d, g, v))
  {
    hide Entry;
    var rs' := rs + [v];
    forall i | 0 <= i < |rs'| ensures Entry(d, g, rs'[i]) == Link(rs', i, Entry(d, g, v)) {
      if i < |rs| {
        assert rs'[i] == rs[i] && Entry(d, g, rs[i]) == Link(rs, i, v);
      }
    }
  }

  /** The numbers whose entries the run clears, as far as it goes on at `v`. */
  function Visited(rs: seq<nat>, v: nat, n: nat): seq<nat> {
    if |rs| < n && 2 <= v < LAST then rs + [v] else rs
  }

  /** The run goes on at a cluster. */
  predicate ReachesCluster(g: Geometry, rs: seq<nat>, v: nat, n: nat)
    requires g.sectorsPerCluster > 0 && g.FirstData() <= g.totalSectors
  {
    |rs| < n && 2 <= v < g.MaxCluster()
  }

  lemma {:induction false} TrailOnDisk(d: seq<Sector>, g: Geometry, rs: seq<nat>, v: nat, k: nat)
    requires Trail(d, g, rs, v) && rs[0] == Mark(g.fatType) && MarkSector(g) < |d| && v < LAST && k < |rs|
    ensures Place(g, rs[k]) < |d|
  {
    hide EntryAt;
    assert Entry(d, g, rs[k]) == Link(rs, k, v) < LAST;
    if g.fatType == FAT16 {
      if k > 0 {
        assert Entry(d, g, rs[k - 1]) == Link(rs, k - 1, v) == rs[k];
      }
      assert rs[k] <= 0xFFFF;
    }
  }

  /** The run is never caught in a circle: a number it comes to again reads 0. */
  lemma {:induction false} ReturnsToZero(d: seq<Sector>, g: Geometry, rs: seq<nat>, v: nat)
    requires Trail(d, g, rs, v) && rs[0] == Mark(g.fatType) && MarkSector(g) < |d| && g.fatSize > 0 && v in rs
    ensures 2 <= v < LAST && Entry(Cleared(d, g, rs), g, v) == 0
  {
    hide Entry, Cleared, Place, Straddles;
    var k: nat :| k < |rs| && rs[k] == v;
    TrailOnDisk(d, g, rs, v, k);
    ClearedReadsZero(d, g, rs, k);
  }

  lemma {:induction false} FreedToCluster(d: seq<Sector>, g: Geometry, rs: seq<nat>, v: nat, n: nat)
    requires PastTrail(d, g, rs, v, n)
    ensures Table(Cleared(d, g, rs), g) == Table(d, g) && Numbers(g, rs)
    ensures v < LAST ==> Freed(d, g, Mark(g.fatType), n) == Freed(Cleared(d, g, rs), g, v, n - |rs|)
    ensures v >= LAST ==> Freed(d, g, Mark(g.fatType), n) == Cleared(d, g, rs)
  {
    hide GeometryOk, Entry, Freed, Cleared, Table, Place, Straddles;
    TablesOnDisk(d, g);
    FreedTrail(d, g, rs, v, n);
    ClearedPast(d, g, rs);
  }

  /** Where the run meets no cluster in use, the disk is the one with exactly the visited entries cleared. */
  lemma {:induction false} FreedPast(d: seq<Sector>, g: Geometry, rs: seq<nat>, v: nat, n: nat)
    requires PastTrail(d, g, rs, v, n)
    requires ReachesCluster(g, rs, v, n) ==> Entry(d, g, v) == 0 && !Straddles(g.fatType, v)
    ensures Numbers(g, Visited(rs, v, n))
    ensures Freed(d, g, Mark(g.fatType), n) == Cleared(d, g, Visited(rs, v, n))
    ensures Table(Cleared(d, g, Visited(rs, v, n)), g) == Table(d, g)
  {
    hide GeometryOk, Entry, Freed, Cleared, Straddles, AfterWrite, Place;
    FreedToCluster(d, g, rs, v, n);
    TablesOnDisk(d, g);
    BoundExists(g, |d|);
    var d1 := Cleared(d, g, rs);
    if |rs| == n && v < LAST {
      FreedNothing(d1, g, v);
    } else if v < 2 {
      FreedStops(d1, g, v, n - |rs|);
    } else if v < LAST {
      if v in rs {
        ReturnsToZero(d, g, rs, v);
      } else {
        assert Table(d1, g)[v] == Entry(d1, g, v) && Table(d, g)[v] == Entry(d, g, v);
      }
      FreedOnce(d1, g, v, n - |rs|);
      ClearedLast(d, g, rs, v);
      StepTable(d1, g, v);
      assert v < g.MaxCluster() ==> Table(d1, g)[v] == Entry(d1, g, v);
    }
  }

  lemma {:induction false} FreedStops(d: seq<Sector>, g: Geometry, c: nat, n: nat)
    requires c < 2
    ensures Freed(d, g, c, n) == d
  {}

  /** Where it comes to a cluster in use, that cluster is lost. */
  lemma {:induction false} FreedInUse(d: seq<Sector>, g: Geometry, rs: seq<nat>, v: nat, n: nat)
    requires PastTrail(d, g, rs, v, n) && ReachesCluster(g, rs, v, n)
    requires !MeetsTorn(Cleared(d, g, rs), g, v, n - |rs|)
    ensures Entry(Freed(d, g, Mark(g.fatType), n), g, v) == 0
  {
    hide GeometryOk, Entry, Freed, Cleared, Straddles, AfterWrite, Place, MeetsTorn;
    BoundExists(g, |d|);
    FreedToCluster(d, g, rs, v, n);
    var d1 := Cleared(d, g, rs);
    FreedFirst(d1, g, v, n - |rs|);
    var d' := Freed(d1, g, v, n - |rs|);
    assert Table(d', g)[v] == Entry(d', g, v);
  }

  lemma {:induction false} FreedFirst(d: seq<Sector>, g: Geometry, c: nat, n: nat)
    requires GeometryOk(g, |d|) && !MeetsTorn(d, g, c, n) && 2 <= c < g.MaxCluster() && n > 0
    ensures Table(Freed(d, g, c, n), g)[c] == 0
  {
    hide GeometryOk, Entry, Straddles, AfterWrite;
    var d1 := AfterWrite(d, g, c, 0);
    TableBelowLast(d, g);
    StepTable(d, g, c);
    if Entry(d, g, c) < LAST {
      FreedKeepsFree(d1, g, Entry(d, g, c), n - 1, c);
    }
  }

  /** Every sector written for these numbers lies in the tables, or off the disk, or keeps its contents. */
  ghost predicate Harmless(d: seq<Sector>, g: Geometry, ps: seq<nat>) {
    forall i {:trigger ps[i]} :: 0 <= i < |ps| ==>
      SectorHarmless(d, g, ps, Place(g, ps[i])) && SectorHarmless(d, g, ps, Place(g, ps[i]) + g.fatSize)
  }

  ghost predicate SectorHarmless(d: seq<Sector>, g: Geometry, ps: seq<nat>, l: nat) {
    l >= |d| || l < g.reserved + 2 * g.fatSize || Cleared(d, g, ps)[l] == d[l]
  }

  lemma {:induction false} HarmlessIff(d: seq<Sector>, g: Geometry, ps: seq<nat>)
    requires Numbers(g, ps)
    ensures OnlyTables(d, Cleared(d, g, ps), g) <==> Harmless(d, g, ps)
  {
    hide Cleared, Straddles;
    var d' := Cleared(d, g, ps);
    if Harmless(d, g, ps) {
      forall l: nat | l < |d| && !(g.reserved <= l < g.reserved + 2 * g.fatSize) ensures d'[l] == d[l] {
        if i: nat :| i < |ps| && (l == Place(g, ps[i]) || l == Place(g, ps[i]) + g.fatSize) {
          assert SectorHarmless(d, g, ps, Place(g, ps[i])) && SectorHarmless(d, g, ps, Place(g, ps[i]) + g.fatSize);
        } else {
          ClearedElsewhere(d, g, ps, l);
        }
      }
    }
  }

  lemma {:induction false} ClearedElsewhere(d: seq<Sector>, g: Geometry, ps: seq<nat>, l: nat)
    requires Numbers(g, ps) && l < |d|
    requires forall i :: 0 <= i < |ps| ==> l != Place(g, ps[i]) && l != Place(g, ps[i]) + g.fatSize
    ensures Cleared(d, g, ps)[l] == d[l]
    decreases |ps|
  {
    hide AfterWrite, Straddles, Place;
    if ps != [] {
      OtherSectors(d, g, ps[0], l);
      var rest := ps[1..];
      assert forall i :: 0 <= i < |rest| ==> rest[i] == ps[i + 1];
      ClearedElsewhere(AfterWrite(d, g, ps[0], 0), g, rest, l);
    }
  }

  /** The run comes to no cluster in use, does no harm outside the tables and leaves equal copies equal. */
  ghost predicate HarmlessRun(d: seq<Sector>, dc: seq<Sector>, g: Geometry, rs: seq<nat>, v: nat, n: nat)
    requires GeometryOk(g, |d|) && |dc| == |d|
  {
    && (ReachesCluster(g, rs, v, n) ==> Entry(dc, g, v) == 0)
    && Harmless(dc, g, Visited(rs, v, n))
    && (CopiesEqual(d, g) ==> CopiesEqual(Cleared(dc, g, Visited(rs, v, n)), g))
  }

  /** On FAT12, the run comes to no entry in two sectors after its trail. */
  ghost predicate CleanRun(dc: seq<Sector>, g: Geometry, rs: seq<nat>, v: nat, n: nat) {
    g.fatType == FAT12 && |rs| < n ==> !MeetsTorn(Cleared(dc, g, rs), g, v, n - |rs|)
  }

  /**
   * Freeing a chain is right if and only if the run past the mark does no harm. The run is a trail on `dc`, the
   * disk with exactly the chain cleared; what it does is known before its first write.
   */
  lemma {:induction false} SmallVolumeIff(
    d: seq<Sector>, dc: seq<Sector>, g: Geometry, cs: seq<nat>, rs: seq<nat>, v: nat, n: nat)
    requires FileChain(d, g, cs) && g.MaxCluster() <= Mark(g.fatType)
    requires dc == Cleared(d, g, cs) && |cs| + n == GUARD
    requires PastTrail(dc, g, rs, v, n) && CleanRun(dc, g, rs, v, n)
    ensures FreesRight(d, Freed(d, g, cs[0], GUARD), g, cs) <==> HarmlessRun(d, dc, g, rs, v, n)
    ensures ReachesCluster(g, rs, v, n) ==> Entry(Freed(d, g, cs[0], GUARD), g, v) == 0
  {
    hide GeometryOk, Entry, Freed, Cleared, Straddles, MeetsTorn, CopiesEqual, Harmless, Trail, Past, LinkedTo;
    hide Members, Zeroed;
    FreedPastMark(d, g, cs);
    BoundExists(g, |d|);
    if ReachesCluster(g, rs, v, n) {
      NoneTorn(Cleared(dc, g, rs), g, v, n - |rs|);
      FreedInUse(dc, g, rs, v, n);
    }
    if ReachesCluster(g, rs, v, n) && Entry(dc, g, v) != 0 {
      var d' := Freed(dc, g, Mark(g.fatType), n);
      assert Table(d', g)[v] == Entry(d', g, v) && Table(dc, g)[v] == Entry(dc, g, v);
    } else {
      FreedPast(dc, g, rs, v, n);
      HarmlessIff(dc, g, Visited(rs, v, n));
      OnlyTablesFrom(d, dc, Cleared(dc, g, Visited(rs, v, n)), g);
    }
  }

  lemma {:induction false} NoneTorn(d: seq<Sector>, g: Geometry, c: nat, n: nat)
    requires g.fatType == FAT12 ==> !MeetsTorn(d, g, c, n)
    requires 2 <= c < LAST && n > 0
    ensures !MeetsTorn(d, g, c, n) && !Straddles(g.fatType, c)
  {
    if g.fatType != FAT12 {
      OnlyFat12Tears(d, g, c, n);
    }
  }

  lemma {:induction false} OnlyTablesFrom(d: seq<Sector>, d1: seq<Sector>, d2: seq<Sector>, g: Geometry)
    requires OnlyTables(d, d1, g) && |d2| == |d1|
    ensures OnlyTables(d, d2, g) <==> OnlyTables(d1, d2, g)
  {}

  /** Where the mark's sector is off the disk, its entry cannot be read or written, and freeing is right. */
  lemma {:induction false} MarkOffDisk(d: seq<Sector>, g: Geometry, cs: seq<nat>)
    requires FileChain(d, g, cs) && g.MaxCluster() <= Mark(g.fatType) && MarkSector(g) >= |d|
    ensures FreesRight(d, Freed(d, g, cs[0], GUARD), g, cs)
  {
    hide GeometryOk, Entry, Freed, Cleared, Straddles, CopiesEqual, OnlyTables, LinkedTo, Members, Zeroed, Table;
    FreedPastMark(d, g, cs);
    FreedOffDisk(Cleared(d, g, cs), g, Mark(g.fatType), GUARD - |cs|);
  }

  lemma {:induction false} FreedOffDisk(d: seq<Sector>, g: Geometry, c: nat, n: nat)
    requires MarkSector(g) >= |d| && Mark(g.fatType) <= c
    ensures Freed(d, g, c, n) == d
    decreases n
  {
    hide AfterWrite, Entry;
    if 2 <= c < LAST && n > 0 {
      OffTheDisk(d, g, c);
      if FailedRead(g.fatType) < LAST {
        FreedOffDisk(d, g, FailedRead(g.fatType), n - 1);
      }
    }
  }

  // On FAT12, where the run past the mark stays clear of entries in two sectors.

  /** A run that has freed the file `vs` and is back at the mark reads one of these there. */
  predicate Settles(vs: seq<nat>, t: FatType, w: nat) {
    w < 2 || w >= LAST || w == Mark(t) || w in vs
  }

  lemma {:induction false} ChainNotTorn(d: seq<Sector>, g: Geometry, vs: seq<nat>, n: nat)
    requires FileChain(d, g, vs) && g.MaxCluster() <= Mark(g.fatType)
    requires Settles(vs, g.fatType, Entry(Cleared(d, g, vs), g, Mark(g.fatType)))
    ensures !MeetsTorn(d, g, vs[0], n)
  {
    hide GeometryOk, AfterWrite, Entry, Cleared, Straddles, LinkedTo, Members, Zeroed, MeetsTorn, Settles;
    BoundExists(g, |d|);
    ClearedFacts(d, g, vs);
    var d1 := Cleared(d, g, vs);
    forall x | x in vs ensures x < g.MaxCluster() && Table(d1, g)[x] == 0 && !Straddles(g.fatType, x) {
      ClearedMember(d, g, vs, x);
    }
    forall m: nat ensures !MeetsTorn(d1, g, Mark(g.fatType), m) {
      BackAtMark(d1, g, vs, m);
    }
    ToMarkNotTorn(d, g, vs, n);
  }

  lemma {:induction false} ClearedMember(d: seq<Sector>, g: Geometry, vs: seq<nat>, x: nat)
    requires FileChain(d, g, vs) && x in vs
    requires Table(Cleared(d, g, vs), g) == Zeroed(Table(d, g), vs)
    ensures x < g.MaxCluster() && Table(Cleared(d, g, vs), g)[x] == 0 && !Straddles(g.fatType, x)
  {
    hide GeometryOk, Entry, Cleared, LinkedTo, Table, Straddles;
  }

  lemma {:induction false} ToMarkNotTorn(d: seq<Sector>, g: Geometry, vs: seq<nat>, n: nat)
    requires FileChain(d, g, vs)
    requires forall m: nat :: !MeetsTorn(Cleared(d, g, vs), g, Mark(g.fatType), m)
    ensures !MeetsTorn(d, g, vs[0], n)
    decreases n
  {
    hide GeometryOk, AfterWrite, Entry, Straddles, FileChain;
    if n > 0 {
      ChainStep(d, g, vs);
      FirstInOneSector(d, g, vs);
      var d1 := AfterWrite(d, g, vs[0], 0);
      assert Cleared(d, g, vs) == Cleared(d1, g, vs[1..]);
      if |vs| > 1 {
        ToMarkNotTorn(d1, g, vs[1..], n - 1);
      } else {
        assert vs[1..] == [];
        assert !MeetsTorn(d1, g, Mark(g.fatType), n - 1);
      }
    }
  }

  lemma {:induction false} FirstInOneSector(d: seq<Sector>, g: Geometry, vs: seq<nat>)
    requires FileChain(d, g, vs)
    ensures !Straddles(g.fatType, vs[0])
  {
    hide GeometryOk, Entry, Straddles, LinkedTo;
  }

  lemma {:induction false} BackAtMark(d: seq<Sector>, g: Geometry, vs: seq<nat>, m: nat)
    requires GeometryOk(g, |d|) && g.MaxCluster() <= Mark(g.fatType)
    requires forall x :: x in vs ==> x < g.MaxCluster() && Table(d, g)[x] == 0 && !Straddles(g.fatType, x)
    requires Settles(vs, g.fatType, Entry(d, g, Mark(g.fatType)))
    ensures !MeetsTorn(d, g, Mark(g.fatType), m)
  {
    hide GeometryOk, AfterWrite, Entry, Straddles;
    EndIsNeverSeen(g.fatType);
    TablesOnDisk(d, g);
    var e := Mark(g.fatType);
    var w, d1 := Entry(d, g, e), AfterWrite(d, g, e, 0);
    if m > 0 && 2 <= w < LAST {
      if w == e {
        MarkReadsAgain(d, g);
      } else {
        StepTable(d, g, e);
        assert Table(d1, g)[w] == Entry(d1, g, w);
      }
      ZeroNotTorn(d1, g, w, m - 1);
    }
  }

  lemma {:induction false} ZeroNotTorn(d: seq<Sector>, g: Geometry, c: nat, n: nat)
    requires !Straddles(g.fatType, c) && (Entry(d, g, c) < 2 || Entry(d, g, c) >= LAST || c < 2)
    ensures !MeetsTorn(d, g, c, n)
  {
    hide AfterWrite, Entry, Straddles;
    assert !MeetsTorn(AfterWrite(d, g, c, 0), g, 0, if n > 0 then n - 1 else 0);
  }

  /** A mark that led to itself reads 0 the second time. */
  lemma {:induction false} MarkReadsAgain(d: seq<Sector>, g: Geometry)
    requires Entry(d, g, Mark(g.fatType)) == Mark(g.fatType) && g.fatSize > 0
    ensures Entry(AfterWrite(d, g, Mark(g.fatType), 0), g, Mark(g.fatType)) == 0
  {
    hide Entry, AfterWrite, Straddles;
    EndIsNeverSeen(g.fatType);
    if Place(g, Mark(g.fatType)) >= |d| {
      OffTheDisk(d, g, Mark(g.fatType));
      assert false;
    }
    ClearedSector(d, g, Mark(g.fatType), Mark(g.fatType));
  }

  /**
   * No entry in two sectors is met if the run ends, or is back where it was, or comes to a free cluster or the
   * start of another file, all entries in one sector, from which it goes back to the mark and settles.
   */
  lemma {:induction false} RunIsClean(dc: seq<Sector>, g: Geometry, rs: seq<nat>, v: nat, n: nat, vs: seq<nat>)
    requires PastTrail(dc, g, rs, v, n) && g.MaxCluster() <= Mark(g.fatType)
    requires ReachesCluster(g, rs, v, n) && Entry(dc, g, v) == 0 ==> !Straddles(g.fatType, v)
    requires ReachesCluster(g, rs, v, n) && Entry(dc, g, v) != 0 ==>
             && FileChain(dc, g, vs) && vs[0] == v
             && Settles(vs, g.fatType, Entry(Cleared(Cleared(dc, g, rs), g, vs), g, Mark(g.fatType)))
    ensures CleanRun(dc, g, rs, v, n)
  {
    hide GeometryOk, Entry, Cleared, Straddles, AfterWrite, Place, Settles;
    FreedToCluster(dc, g, rs, v, n);
    TablesOnDisk(dc, g);
    var d1 := Cleared(dc, g, rs);
    if 2 <= v < LAST && |rs| < n {
      if v in rs {
        ReturnsToZero(dc, g, rs, v);
        ZeroNotTorn(d1, g, v, n - |rs|);
      } else {
        assert Table(d1, g)[v] == Entry(d1, g, v) && Table(dc, g)[v] == Entry(dc, g, v);
        if Entry(dc, g, v) == 0 {
          ZeroNotTorn(d1, g, v, n - |rs|);
        } else {
          SameTableSameChain(dc, d1, g, vs);
          ChainNotTorn(d1, g, vs, n - |rs|);
        }
      }
    }
  }

  lemma {:induction false} SameTableSameChain(d: seq<Sector>, d': seq<Sector>, g: Geometry, cs: seq<nat>)
    requires FileChain(d, g, cs) && |d'| == |d| && Table(d', g) == Table(d, g)
    ensures FileChain(d', g, cs)
  {
    hide GeometryOk, Entry, Straddles;
    BoundExists(g, |d|);
    forall i | 0 <= i < |cs| ensures Entry(d', g, cs[i]) == Link(cs, i, Mark(g.fatType)) {
      assert Table(d', g)[cs[i]] == Entry(d', g, cs[i]) && Table(d, g)[cs[i]] == Entry(d, g, cs[i]);
    }
  }

  // Where the mark's entry is the second copy's entry of a cluster.

  /** At the mark the driver reads the entry of cluster `x` in the second copy. */
  predicate CopyEntry(g: Geometry, x: nat)
    requires g.sectorsPerCluster > 0 && g.FirstData() <= g.totalSectors
  {
    && x < g.MaxCluster() && (g.fatType == FAT12 ==> x % 2 == 0)
    && Offset(g.fatType, x) + g.fatSize * SECTOR == Offset(g.fatType, Mark(g.fatType))
  }

  /** FAT16 with 128 to 255 table sectors; FAT12 with 6 or 9, as on a floppy disk; FAT32 with 256 to 511. */
  lemma {:induction false} CopyEntries(g: Geometry, n: nat, x: nat)
    requires GeometryOk(g, n) && CopyEntry(g, x)
    ensures g.fatType == FAT12 ==> (g.fatSize == 9 && x == 1016) || (g.fatSize == 6 && x == 2040)
    ensures g.fatType == FAT16 ==> 128 <= g.fatSize <= 255 && x == END - 256 * g.fatSize
    ensures g.fatType == FAT32 ==> 256 <= g.fatSize <= 511 && x == END - 128 * g.fatSize
    ensures !InTable(g, Mark(g.fatType)) && MarkSector(g) == Place(g, x) + g.fatSize < n && !Straddles(g.fatType, x)
    ensures InTable(g, x) && Offset(g.fatType, x) % SECTOR == Offset(g.fatType, Mark(g.fatType)) % SECTOR
  {
    hide GeometryOk, Offset;
    ValidClusterFits(EmptyDisk(n), g, x);
    TablesOnDisk(EmptyDisk(n), g);
    EndIsNeverSeen(g.fatType);
    CopySizes(g, x);
    CopyPlace(Offset(g.fatType, x), g.fatSize);
  }

  lemma {:induction false} CopySizes(g: Geometry, x: nat)
    requires InTable(g, x) && Offset(g.fatType, x) + g.fatSize * SECTOR == Offset(g.fatType, Mark(g.fatType))
    requires g.fatType == FAT12 ==> x % 2 == 0
    ensures g.fatType == FAT12 ==> (g.fatSize == 9 && x == 1016) || (g.fatSize == 6 && x == 2040)
    ensures g.fatType == FAT16 ==> 128 <= g.fatSize <= 255 && x == END - 256 * g.fatSize
    ensures g.fatType == FAT32 ==> 256 <= g.fatSize <= 511 && x == END - 128 * g.fatSize
  {
    EndOffset();
    hide Mark;
    if g.fatType == FAT12 {
      OffsetIs12(x);
      assert x == 2 * (x / 2);
      CopySizes12(g.fatSize, x / 2);
    }
  }

  lemma {:induction false} EndOffset()
    ensures Offset(FAT12, Mark(FAT12)) == 6132 && Offset(FAT16, Mark(FAT16)) == 131056
            && Offset(FAT32, Mark(FAT32)) == 262112
  {}

  lemma {:induction false} CopySizes12(fatSize: nat, m: nat)
    requires 3 * m + fatSize * SECTOR == 6132 && 3 * m + 2 <= fatSize * SECTOR
    ensures (fatSize == 9 && m == 508) || (fatSize == 6 && m == 1020)
  {
    assert 6 <= fatSize <= 11;
  }

  lemma {:induction false} CopyPlace(off: nat, fatSize: nat)
    ensures (off + fatSize * SECTOR) / SECTOR == off / SECTOR + fatSize
    ensures (off + fatSize * SECTOR) % SECTOR == off % SECTOR
  {}

  /** With equal copies it reads what the table has for `x`. */
  lemma {:induction false} MarkReadsCopy(d: seq<Sector>, g: Geometry, x: nat)
    requires GeometryOk(g, |d|) && CopyEntry(g, x) && CopiesEqual(d, g)
    ensures Entry(d, g, Mark(g.fatType)) == Entry(d, g, x) == Table(d, g)[x]
  {
    hide GeometryOk, Entry, Straddles, Offset, CopiesEqual;
    BoundExists(g, |d|);
    CopyEntries(g, |d|, x);
    EndIsNeverSeen(g.fatType);
    MirrorEqual(d, g, x);
    SameBytes(d, g, x, Mark(g.fatType));
  }

  lemma {:induction false} MirrorEqual(d: seq<Sector>, g: Geometry, x: nat)
    requires GeometryOk(g, |d|) && InTable(g, x) && CopiesEqual(d, g)
    ensures Place(g, x) + g.fatSize < |d| && d[Place(g, x) + g.fatSize] == d[Place(g, x)]
  {
    WritePlace(d, g, x);
  }

  /** Two entries at the same place of equal sectors are equal. */
  lemma {:induction false} SameBytes(d: seq<Sector>, g: Geometry, x: nat, y: nat)
    requires !Straddles(g.fatType, x) && !Straddles(g.fatType, y) && Place(g, x) < |d| && Place(g, y) < |d|
    requires d[Place(g, x)] == d[Place(g, y)] && Offset(g.fatType, x) % SECTOR == Offset(g.fatType, y) % SECTOR
    requires g.fatType == FAT12 ==> x % 2 == y % 2
    ensures Entry(d, g, x) == Entry(d, g, y)
  {
    hide Entry, Straddles, Offset;
    EntryInSector(d, g, x);
    EntryInSector(d, g, y);
  }

  /**
   * With equal copies, and no link into a free cluster, freeing a file is right if and only if the cluster
   * whose entry is read at the mark is free or the file's own, and the mirror of that sector does no harm.
   */
  lemma {:induction false} SecondCopyIff(
    d: seq<Sector>, dc: seq<Sector>, g: Geometry, cs: seq<nat>, x: nat, rs: seq<nat>, v: nat, n: nat)
    requires FileChain(d, g, cs) && g.MaxCluster() <= Mark(g.fatType) && CopyEntry(g, x) && CopiesEqual(d, g)
    requires dc == Cleared(d, g, cs) && |cs| + n == GUARD
    requires PastTrail(dc, g, rs, v, n) && CleanRun(dc, g, rs, v, n)
    requires ReachesCluster(g, rs, v, n) ==> Entry(dc, g, v) != 0
    ensures FreesRight(d, Freed(d, g, cs[0], GUARD), g, cs) <==>
            (x in cs || Entry(d, g, x) == 0) && MirrorHarmless(dc, g)
  {
    hide GeometryOk, Entry, Freed, Cleared, Straddles, MeetsTorn, CopiesEqual, Trail, Past, LinkedTo, Members, CleanRun;
    FreedPastMark(d, g, cs);
    BoundExists(g, |d|);
    MarkReadsCopy(dc, g, x);
    assert Table(d, g)[x] == Entry(d, g, x) && Entry(dc, g, Mark(g.fatType)) == Zeroed(Table(d, g), cs)[x];
    if Entry(dc, g, Mark(g.fatType)) == 0 {
      ZeroAtMarkIff(d, g, cs);
    } else {
      SmallVolumeIff(d, dc, g, cs, rs, v, n);
      if !ReachesCluster(g, rs, v, n) {
        FreedPast(dc, g, rs, v, n);
        CopiesDiffer(dc, g, x, rs, v, n);
      }
    }
  }

  /** The visit at the mark clears the entry in one copy only. */
  lemma {:induction false} CopiesDiffer(d: seq<Sector>, g: Geometry, x: nat, rs: seq<nat>, v: nat, n: nat)
    requires PastTrail(d, g, rs, v, n) && !ReachesCluster(g, rs, v, n) && CopyEntry(g, x) && Entry(d, g, x) != 0
    requires Table(Cleared(d, g, Visited(rs, v, n)), g) == Table(d, g)
    ensures !CopiesEqual(Cleared(d, g, Visited(rs, v, n)), g)
  {
    hide GeometryOk, Entry, Cleared, Straddles, CopiesEqual, AfterWrite, Place;
    var d', e := Cleared(d, g, Visited(rs, v, n)), Mark(g.fatType);
    TablesOnDisk(d, g);
    EndIsNeverSeen(g.fatType);
    TrailOnMark(d, g, rs, v);
    if |rs| < n && 2 <= v < LAST {
      ClearedLast(d, g, rs, v);
      var d1 := Cleared(d, g, rs);
      var k: nat :| k < |rs| && rs[k] == v;
      if v == e {
        assert Place(g, e) < |d1|;
        ClearedSector(d1, g, e, e);
      } else {
        ElsewhereKept(d1, g, v, e);
      }
    }
    assert Entry(d', g, e) == 0;
    assert Table(d', g)[x] == Entry(d', g, x) && Table(d, g)[x] == Entry(d, g, x);
    if CopiesEqual(d', g) {
      MarkReadsCopy(d', g, x);
    }
  }

  lemma {:induction false} TrailOnMark(d: seq<Sector>, g: Geometry, rs: seq<nat>, v: nat)
    requires Trail(d, g, rs, v) && rs[0] == Mark(g.fatType) && MarkSector(g) < |d| && g.fatSize > 0
    ensures Entry(Cleared(d, g, rs), g, Mark(g.fatType)) == 0 && Place(g, Mark(g.fatType)) < |d|
  {
    hide Entry, Cleared, Straddles;
    ClearedReadsZero(d, g, rs, 0);
  }

  /** Three clusters in two files, where the mark's entry is the second copy's entry of the first. */
  function TwoFiles(g: Geometry, n: nat, x: nat): (d: seq<Sector>)
    ensures |d| == n
  {
    AfterWrite(AfterWrite(AfterWrite(EmptyDisk(n), g, x, 3), g, 3, END), g, 2, END)
  }

  /** On every such volume there is a disk on which deleting the file of cluster 2 frees the end of another file. */
  lemma {:induction false} SecondCopyFails(g: Geometry, n: nat, x: nat)
    requires GeometryOk(g, n) && g.MaxCluster() <= Mark(g.fatType) && CopyEntry(g, x)
    ensures var d := TwoFiles(g, n, x);
            && FileChain(d, g, [x, 3]) && FileChain(d, g, [2]) && Entry(d, g, 3) != 0
            && !FreesRight(d, Freed(d, g, 2, GUARD), g, [2]) && Entry(Freed(d, g, 2, GUARD), g, 3) == 0
  {
    hide GeometryOk, Entry, Freed, Cleared, Straddles, MeetsTorn, CopiesEqual, FileChain, CleanRun, FreesRight;
    hide TwoFiles, CopyEntry;
    hide HarmlessRun;
    BoundExists(g, n);
    TwoFilesFacts(g, n, x);
    var d := TwoFiles(g, n, x);
    var dc := Cleared(d, g, [2]);
    TwoFilesRun(g, n, x);
    SmallVolumeIff(d, dc, g, [2], [Mark(g.fatType)], 3, GUARD - 1);
    HarmsCluster(d, dc, g, [Mark(g.fatType)], 3, GUARD - 1);
  }

  lemma {:induction false} HarmsCluster(d: seq<Sector>, dc: seq<Sector>, g: Geometry, rs: seq<nat>, v: nat, n: nat)
    requires GeometryOk(g, |d|) && |dc| == |d| && ReachesCluster(g, rs, v, n) && Entry(dc, g, v) != 0
    ensures !HarmlessRun(d, dc, g, rs, v, n)
  {}

  lemma {:induction false} TwoFilesFacts(g: Geometry, n: nat, x: nat)
    requires GeometryOk(g, n) && g.MaxCluster() <= Mark(g.fatType) && CopyEntry(g, x)
    ensures var d, m := TwoFiles(g, n, x), Mark(g.fatType);
            && 3 < x < g.MaxCluster() && CopiesEqual(d, g)
            && FileChain(d, g, [x, 3]) && FileChain(d, g, [2]) && FileChain(d, g, [3])
            && Entry(d, g, 2) == Entry(d, g, 3) == m && Entry(d, g, x) == 3
  {
    hide GeometryOk, Entry, AfterWrite, OnlyTables, SpareSame, CopiesEqual, FileChain, Offset, Straddles;
    var d0 := EmptyDisk(n);
    BoundExists(g, n);
    CopyEntries(g, n, x);
    TablesOnDisk(d0, g);
    EmptyCopies(g, n);
    FirstInOneSectors(g.fatType);
    var d1 := AfterWrite(d0, g, x, 3);
    var d2 := AfterWrite(d1, g, 3, END);
    var d := AfterWrite(d2, g, 2, END);
    CleanWrite(d0, g, x, 3);
    CleanWrite(d1, g, 3, END);
    CleanWrite(d2, g, 2, END);
    assert Table(d, g)[2] == Entry(d, g, 2) && Table(d, g)[3] == Entry(d, g, 3) && Table(d, g)[x] == Entry(d, g, x);
    ShortChain(d, g, [x, 3]);
    ShortChain(d, g, [2]);
    ShortChain(d, g, [3]);
  }

  lemma {:induction false} FirstInOneSectors(t: FatType)
    ensures !Straddles(t, 2) && !Straddles(t, 3)
  {}

  /** A chain of one or two clusters, from its entries. */
  lemma {:induction false} ShortChain(d: seq<Sector>, g: Geometry, cs: seq<nat>)
    requires GeometryOk(g, |d|) && 1 <= |cs| <= 2
    requires 2 <= cs[0] < g.MaxCluster() && !Straddles(g.fatType, cs[0])
    requires |cs| == 2 ==> 2 <= cs[1] < g.MaxCluster() && !Straddles(g.fatType, cs[1]) && cs[0] != cs[1]
    requires |cs| == 2 ==> Entry(d, g, cs[0]) == cs[1]
    requires Entry(d, g, cs[|cs| - 1]) == Mark(g.fatType)
    ensures FileChain(d, g, cs)
  {
    hide GeometryOk, Entry, Straddles;
    BoundExists(g, |d|);
  }

  lemma {:induction false} EmptyCopies(g: Geometry, n: nat)
    requires g.reserved + 2 * g.fatSize <= n
    ensures CopiesEqual(EmptyDisk(n), g)
  {}

  /** The shortest trail: the mark alone. */
  lemma {:induction false} MarkAlone(d: seq<Sector>, g: Geometry, n: nat)
    requires GeometryOk(g, |d|) && MarkSector(g) < |d| && g.MaxCluster() <= Mark(g.fatType) && n > 0
    requires var v := Entry(d, g, Mark(g.fatType)); v < g.MaxCluster() || v == Mark(g.fatType) || v >= LAST
    ensures PastTrail(d, g, [Mark(g.fatType)], Entry(d, g, Mark(g.fatType)), n)
  {
    hide GeometryOk, Entry, Straddles;
    EndIsNeverSeen(g.fatType);
    TablesOnDisk(d, g);
  }

  /** After the file of cluster 2, the run goes from the mark to cluster 3. */
  lemma {:induction false} TwoFilesRun(g: Geometry, n: nat, x: nat)
    requires GeometryOk(g, n) && g.MaxCluster() <= Mark(g.fatType) && CopyEntry(g, x)
    ensures var dc, rs := Cleared(TwoFiles(g, n, x), g, [2]), [Mark(g.fatType)];
            && PastTrail(dc, g, rs, 3, GUARD - 1) && CleanRun(dc, g, rs, 3, GUARD - 1)
            && Entry(dc, g, 3) != 0
  {
    hide GeometryOk, Entry, Cleared, Straddles, CopiesEqual, TwoFiles, CopyEntry, FileChain, Offset, PastTrail;
    hide MeetsTorn;
    hide InTable;
    BoundExists(g, n);
    TwoFilesFacts(g, n, x);
    CopyEntries(g, n, x);
    EndIsNeverSeen(g.fatType);
    var d, e := TwoFiles(g, n, x), Mark(g.fatType);
    var dc := Cleared(d, g, [2]);
    FreedPastMark(d, g, [2]);
    assert Table(dc, g)[3] == Entry(dc, g, 3) && Table(d, g)[3] == Entry(d, g, 3);
    assert Table(dc, g)[x] == Entry(dc, g, x) && Table(d, g)[x] == Entry(d, g, x);
    MarkReadsCopy(dc, g, x);
    MarkAlone(dc, g, GUARD - 1);
    if g.fatType == FAT12 {
      FirstInOneSectors(FAT12);
      ShortChain(dc, g, [3]);
      FloppyRun(dc, g, x, GUARD - 1);
    }
  }

  /** On FAT12 the run clears cluster 3, finds the mark's entry cleared, and stops. */
  lemma {:induction false} FloppyRun(dc: seq<Sector>, g: Geometry, x: nat, n: nat)
    requires PastTrail(dc, g, [Mark(g.fatType)], 3, n) && CopyEntry(g, x) && g.fatType == FAT12
    requires g.MaxCluster() <= Mark(g.fatType) && FileChain(dc, g, [3])
    ensures CleanRun(dc, g, [Mark(g.fatType)], 3, n)
  {
    hide GeometryOk, Entry, Cleared, Straddles, CopyEntry, FileChain, CleanRun;
    var e, rs := Mark(g.fatType), [Mark(g.fatType)];
    CopyEntries(g, |dc|, x);
    TablesOnDisk(dc, g);
    EndIsNeverSeen(g.fatType);
    FirstInOneSectors(g.fatType);
    TrailOnMark(dc, g, rs, 3);
    assert Place(g, 3) == g.reserved && Place(g, x) != g.reserved;
    ClearedKeeps(Cleared(dc, g, rs), g, [3], e);
    RunIsClean(dc, g, rs, 3, n, [3]);
  }
}
