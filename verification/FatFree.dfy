/** Freeing a file's chain, which ends in a mark the driver does not recognise (fs/fat.c:657-666 with 760). */
module FatFreeing {
  import opened CArithmetic
  import opened FatCodec
  import opened FatVolume
  import opened FatChains
  import opened Lists

  /** The end mark as an entry of the table holds it. */
  function Mark(t: FatType): nat {
    END % Values(t)
  }

  /** In every entry width the mark is below the bound the driver tests for, and so taken for a cluster. */
  lemma {:induction false} EndIsNeverSeen(t: FatType)
    ensures 2 <= Mark(t) < LAST && !Straddles(t, Mark(t))
  {
    Straddlers(Mark(t));
  }

  ghost predicate Members(g: Geometry, cs: seq<nat>)
    requires g.sectorsPerCluster > 0 && g.FirstData() <= g.totalSectors
  {
    forall i :: 0 <= i < |cs| ==> 2 <= cs[i] < g.MaxCluster() && !Straddles(g.fatType, cs[i])
  }

  ghost predicate LinkedTo(d: seq<Sector>, g: Geometry, cs: seq<nat>) {
    forall i {:trigger Entry(d, g, cs[i])} :: 0 <= i < |cs| ==> Entry(d, g, cs[i]) == Link(cs, i, Mark(g.fatType))
  }

  /** `cs` is a file's chain as the driver leaves it; no entry of it lies in two sectors. */
  ghost predicate FileChain(d: seq<Sector>, g: Geometry, cs: seq<nat>) {
    && GeometryOk(g, |d|) && cs != [] && NoDup(cs)
    && Members(g, cs) && LinkedTo(d, g, cs)
  }

  /** The disk with exactly the entries of `cs` cleared, one after the other. */
  function Cleared(d: seq<Sector>, g: Geometry, cs: seq<nat>): (d': seq<Sector>)
    ensures |d'| == |d|
    decreases |cs|
  {
    if cs == [] then d else Cleared(AfterWrite(d, g, cs[0], 0), g, cs[1..])
  }

  ghost function Zeroed(t: seq<nat>, cs: seq<nat>): seq<nat> {
    seq(|t|, x requires 0 <= x < |t| => if x in cs then 0 else t[x])
  }

  /**
   * Freeing is right if it clears the chain's entries and nothing else, inside the tables, and keeps equal
   * copies equal.
   */
  ghost predicate FreesRight(d: seq<Sector>, d': seq<Sector>, g: Geometry, cs: seq<nat>)
    requires GeometryOk(g, |d|) && |d'| == |d|
  {
    && OnlyTables(d, d', g) && Table(d', g) == Zeroed(Table(d, g), cs)
    && (CopiesEqual(d, g) ==> CopiesEqual(d', g))
  }

  lemma {:induction false} MembersTail(g: Geometry, cs: seq<nat>)
    requires g.sectorsPerCluster > 0 && g.FirstData() <= g.totalSectors
    requires cs != [] && NoDup(cs) && Members(g, cs)
    ensures 2 <= cs[0] < g.MaxCluster() && !Straddles(g.fatType, cs[0])
    ensures NoDup(cs[1..]) && Members(g, cs[1..]) && cs[0] !in cs[1..]
  {
    var rest := cs[1..];
    forall i | 0 <= i < |rest| ensures rest[i] == cs[i + 1] != cs[0] {}
  }

  lemma {:induction false} ZeroedStep(t: seq<nat>, cs: seq<nat>)
    requires cs != [] && cs[0] < |t|
    ensures Zeroed(t[cs[0] := 0], cs[1..]) == Zeroed(t, cs)
  {
    assert cs == [cs[0]] + cs[1..];
  }

  /** What an allocation links is such a chain. */
  lemma {:induction false} AllocatedChain(d0: seq<Sector>, d: seq<Sector>, g: Geometry, needed: nat, first: nat)
    requires CleanRequest(d0, g, needed) && Allocated(d0, d, g, needed, true, first) && needed > 0
    ensures FileChain(d, g, Chosen(Table(d0, g), needed)) && Chosen(Table(d0, g), needed)[0] == first
  {
    hide Entry, FreeFrom;
    var t, t', cs := Table(d0, g), Table(d, g), Chosen(Table(d0, g), needed);
    ChosenFacts(t, needed);
    assert |d| == |d0|;
    hide GeometryOk, Chosen, TablesOnly, Straddles;
    BoundExists(g, |d|);
    forall i | 0 <= i < |cs| ensures Entry(d, g, cs[i]) == Link(cs, i, Mark(g.fatType)) {
      assert t'[cs[i]] == Link(cs, i, END % Values(g.fatType));
    }
  }

  /** Clearing entries one by one clears exactly these entries. */
  lemma {:induction false} ClearedFacts(d: seq<Sector>, g: Geometry, cs: seq<nat>)
    requires GeometryOk(g, |d|) && NoDup(cs) && Members(g, cs)
    ensures TablesOnly(d, Cleared(d, g, cs), g) && Table(Cleared(d, g, cs), g) == Zeroed(Table(d, g), cs)
    decreases |cs|
  {
    BoundExists(g, |d|);
    hide GeometryOk, AfterWrite, TablesOnly, Table, Members, Straddles;
    if cs == [] {
      TablesOnlySelf(d, g);
      assert Zeroed(Table(d, g), []) == Table(d, g);
    } else {
      var d1 := AfterWrite(d, g, cs[0], 0);
      MembersTail(g, cs);
      CleanWrite(d, g, cs[0], 0);
      ClearedFacts(d1, g, cs[1..]);
      TablesOnlyTransitive(d, d1, Cleared(d1, g, cs[1..]), g);
      ZeroedStep(Table(d, g), cs);
    }
  }

  /** One cluster freed, the rest of the chain is still the file's. */
  lemma {:induction false} ChainStep(d: seq<Sector>, g: Geometry, cs: seq<nat>)
    requires FileChain(d, g, cs)
    ensures cs != [] && 2 <= cs[0] < LAST && Entry(d, g, cs[0]) == Link(cs, 0, Mark(g.fatType)) < LAST
    ensures |cs| > 1 ==> FileChain(AfterWrite(d, g, cs[0], 0), g, cs[1..])
  {
    BoundExists(g, |d|);
    hide GeometryOk, AfterWrite, Entry, Straddles;
    MembersTail(g, cs);
    EndIsNeverSeen(g.fatType);
    WithinLimit(g, |d|, cs[0]);
    CleanWrite(d, g, cs[0], 0);
    var d1, rest := AfterWrite(d, g, cs[0], 0), cs[1..];
    if |cs| > 1 {
      WithinLimit(g, |d|, cs[1]);
    }
    forall i | 0 <= i < |rest| ensures Entry(d1, g, rest[i]) == Link(rest, i, Mark(g.fatType)) {
      assert rest[i] == cs[i + 1] && rest[i] != cs[0] && Entry(d, g, cs[i + 1]) == Link(cs, i + 1, Mark(g.fatType));
      assert Table(d1, g)[rest[i]] == Table(d, g)[rest[i]];
    }
  }

  /** The run frees the chain's clusters in order, as far as the guard lets it, and then goes on at the mark. */
  lemma {:induction false} FreedToMark(d: seq<Sector>, g: Geometry, cs: seq<nat>, n: nat)
    requires FileChain(d, g, cs)
    ensures n < |cs| ==> Freed(d, g, cs[0], n) == Cleared(d, g, cs[..n])
    ensures n >= |cs| ==> Freed(d, g, cs[0], n) == Freed(Cleared(d, g, cs), g, Mark(g.fatType), n - |cs|)
    decreases n
  {
    hide GeometryOk, AfterWrite, Entry, FileChain;
    if n > 0 {
      ChainStep(d, g, cs);
      var d1 := AfterWrite(d, g, cs[0], 0);
      if |cs| > 1 {
        FreedToMark(d1, g, cs[1..], n - 1);
        assert n < |cs| ==> cs[..n][1..] == cs[1..][..n - 1];
      } else {
        assert cs[1..] == [];
      }
    }
  }

  /** One step of the run clears the cluster's entry, if there is such a cluster, and no other. */
  lemma {:induction false} StepTable(d: seq<Sector>, g: Geometry, c: nat)
    requires GeometryOk(g, |d|) && !Straddles(g.fatType, c)
    ensures Table(AfterWrite(d, g, c, 0), g) == if c < g.MaxCluster() then Table(d, g)[c := 0] else Table(d, g)
  {
    hide GeometryOk, AfterWrite, EntryAt, EntryWritten, Entry;
    var d1 := AfterWrite(d, g, c, 0);
    BoundExists(g, |d|);
    if c < g.MaxCluster() {
      CleanWrite(d, g, c, 0);
    } else {
      forall x: nat | x < g.MaxCluster() ensures Entry(d1, g, x) == Entry(d, g, x) {
        StepElsewhere(d, g, c, x);
      }
    }
  }

  lemma {:induction false} StepElsewhere(d: seq<Sector>, g: Geometry, c: nat, x: nat)
    requires GeometryOk(g, |d|) && !Straddles(g.fatType, c)
    requires x < g.MaxCluster() <= c
    ensures Entry(AfterWrite(d, g, c, 0), g, x) == Entry(d, g, x)
  {
    hide GeometryOk, AfterWrite, EntryAt, EntryWritten;
    var d1 := AfterWrite(d, g, c, 0);
    ValidClusterFits(d, g, x);
    ValidClusterFits(d1, g, x);
    if InTable(g, c) {
      WriteIsLocalIff(d, g, c, 0);
      ReadOther(d, d1, g.reserved, g.fatType, c, 0, g.fatSize * SECTOR, x);
    } else {
      OutsideFirstTable(d, g, c, 0);
      TablesOnDisk(d, g);
      SameTableSectors(d, d1, g, x);
    }
  }

  lemma {:induction false} TablesOnDisk(d: seq<Sector>, g: Geometry)
    requires GeometryOk(g, |d|)
    ensures g.reserved + 2 * g.fatSize <= |d| && g.fatSize > 0
  {}

  /** A write for an entry past the first table leaves the first table alone. */
  lemma {:induction false} OutsideFirstTable(d: seq<Sector>, g: Geometry, c: nat, value: nat)
    requires !InTable(g, c) && !Straddles(g.fatType, c)
    ensures forall l: nat :: g.reserved <= l < g.reserved + g.fatSize && l < |d| ==>
            AfterWrite(d, g, c, value)[l] == d[l]
  {
    Aligned(c);
    hide Put12, Put32, Patch2, Patch4;
    PastTable(Offset(g.fatType, c), Span(g.fatType), g.fatSize);
  }

  lemma {:induction false} PastTable(off: nat, span: nat, fatSize: nat)
    requires off % SECTOR + span <= SECTOR && off + span > fatSize * SECTOR
    ensures off / SECTOR >= fatSize
  {
    assert off == off / SECTOR * SECTOR + off % SECTOR;
  }

  /** The run from `c` comes to an entry that lies in two sectors within `n` steps. */
  ghost predicate MeetsTorn(d: seq<Sector>, g: Geometry, c: nat, n: nat)
    decreases n
  {
    && 2 <= c < LAST && n > 0
    && (Straddles(g.fatType, c)
        || (Entry(d, g, c) < LAST && MeetsTorn(AfterWrite(d, g, c, 0), g, Entry(d, g, c), n - 1)))
  }

  lemma {:induction false} OnlyFat12Tears(d: seq<Sector>, g: Geometry, c: nat, n: nat)
    requires g.fatType != FAT12
    ensures !MeetsTorn(d, g, c, n)
    decreases n
  {
    hide AfterWrite, Entry;
    if n > 0 {
      OnlyFat12Tears(AfterWrite(d, g, c, 0), g, Entry(d, g, c), n - 1);
    }
  }

  lemma {:induction false} FreedKeepsFree(d: seq<Sector>, g: Geometry, c: nat, n: nat, x: nat)
    requires GeometryOk(g, |d|) && !MeetsTorn(d, g, c, n) && x < g.MaxCluster() && Table(d, g)[x] == 0
    ensures Table(Freed(d, g, c, n), g)[x] == 0
    decreases n
  {
    hide GeometryOk, AfterWrite, Entry, Straddles;
    if 2 <= c < LAST && n > 0 {
      StepTable(d, g, c);
      if Entry(d, g, c) < LAST {
        FreedKeepsFree(AfterWrite(d, g, c, 0), g, Entry(d, g, c), n - 1, x);
      }
    }
  }

  /** The run from `c` comes to a cluster that is in use within `n` steps. */
  ghost predicate MeetsUsed(d: seq<Sector>, g: Geometry, c: nat, n: nat)
    requires GeometryOk(g, |d|)
    decreases n
  {
    && 2 <= c < LAST && n > 0
    && ((c < g.MaxCluster() && Entry(d, g, c) != 0)
        || (Entry(d, g, c) < LAST && MeetsUsed(AfterWrite(d, g, c, 0), g, Entry(d, g, c), n - 1)))
  }

  /** A run leaves the table as it was if and only if it meets no cluster in use. */
  lemma {:induction false} RunHarmsIff(d: seq<Sector>, g: Geometry, c: nat, n: nat)
    requires GeometryOk(g, |d|) && !MeetsTorn(d, g, c, n)
    ensures Table(Freed(d, g, c, n), g) == Table(d, g) <==> !MeetsUsed(d, g, c, n)
    decreases n
  {
    hide GeometryOk, AfterWrite, Entry, Straddles;
    BoundExists(g, |d|);
    if 2 <= c < LAST && n > 0 {
      var d1, next := AfterWrite(d, g, c, 0), Entry(d, g, c);
      StepTable(d, g, c);
      assert c < g.MaxCluster() ==> Table(d, g)[c] == next;
      if c < g.MaxCluster() && next != 0 {
        if next < LAST {
          FreedKeepsFree(d1, g, next, n - 1, c);
        }
      } else {
        assert Table(d1, g) == Table(d, g);
        if next < LAST {
          RunHarmsIff(d1, g, next, n - 1);
        }
      }
    }
  }

  /**
   * The table is right after freeing if and only if, past the mark, no cluster in use is met; on FAT12, as
   * long as the run comes to no entry that lies in two sectors.
   */
  lemma {:induction false} TableRightIff(d: seq<Sector>, g: Geometry, cs: seq<nat>)
    requires FileChain(d, g, cs)
    requires g.fatType == FAT12 && |cs| <= GUARD ==> !MeetsTorn(Cleared(d, g, cs), g, Mark(g.fatType), GUARD - |cs|)
    ensures Table(Freed(d, g, cs[0], GUARD), g) == Zeroed(Table(d, g), cs) <==>
            |cs| <= GUARD && !MeetsUsed(Cleared(d, g, cs), g, Mark(g.fatType), GUARD - |cs|)
  {
    hide GeometryOk, AfterWrite, Entry, Freed, Cleared, LinkedTo, Members, Zeroed, Table;
    FreedToMark(d, g, cs, GUARD);
    BoundExists(g, |d|);
    if |cs| > GUARD {
      GuardLeaks(d, g, cs);
    } else {
      ClearedFacts(d, g, cs);
      if g.fatType != FAT12 {
        OnlyFat12Tears(Cleared(d, g, cs), g, Mark(g.fatType), GUARD - |cs|);
      }
      RunHarmsIff(Cleared(d, g, cs), g, Mark(g.fatType), GUARD - |cs|);
    }
  }

  /**
   * On a FAT32 volume with more than 65528 cluster numbers the mark is a cluster like any other. A chain is
   * freed as it should be if and only if the guard stops the run just before it, or that cluster belongs to
   * the chain or is free; otherwise it is lost to the file that has it.
   */
  lemma {:induction false} LargeVolumeIff(d: seq<Sector>, g: Geometry, cs: seq<nat>)
    requires FileChain(d, g, cs) && g.fatType == FAT32 && END < g.MaxCluster()
    ensures FreesRight(d, Freed(d, g, cs[0], GUARD), g, cs) <==>
            |cs| <= 65536 && (|cs| == 65536 || 0xFFF8 in cs || Entry(d, g, 0xFFF8) == 0)
    ensures |cs| < 65536 && 0xFFF8 !in cs ==> Entry(Freed(d, g, cs[0], GUARD), g, 0xFFF8) == 0
  {
    hide GeometryOk, AfterWrite, Entry, Freed, Cleared, Table, Zeroed, OnlyTables, LinkedTo, Members;
    FreedToMark(d, g, cs, GUARD);
    BoundExists(g, |d|);
    if |cs| > GUARD {
      GuardLeaks(d, g, cs);
    } else {
      var dc := Cleared(d, g, cs);
      ClearedFacts(d, g, cs);
      ClearedIsRight(d, g, cs);
      if |cs| == GUARD {
        FreedNothing(dc, g, END);
      } else {
        MarkIsCluster(d, dc, g, cs, GUARD - |cs|);
      }
    }
  }

  lemma {:induction false} FreedNothing(d: seq<Sector>, g: Geometry, c: nat)
    ensures Freed(d, g, c, 0) == d
  {}

  lemma {:induction false} ClearedIsRight(d: seq<Sector>, g: Geometry, cs: seq<nat>)
    requires FileChain(d, g, cs)
    ensures FreesRight(d, Cleared(d, g, cs), g, cs)
  {
    hide GeometryOk, Cleared, Table, OnlyTables, SpareSame;
    BoundExists(g, |d|);
    ClearedFacts(d, g, cs);
  }

  /** A chain longer than the guard allows keeps its tail. */
  lemma {:induction false} GuardLeaks(d: seq<Sector>, g: Geometry, cs: seq<nat>)
    requires FileChain(d, g, cs) && |cs| > GUARD
    ensures Table(Freed(d, g, cs[0], GUARD), g) != Zeroed(Table(d, g), cs)
  {
    hide GeometryOk, AfterWrite, Entry, Freed, Cleared, Straddles;
    BoundExists(g, |d|);
    EndIsNeverSeen(g.fatType);
    FreedToMark(d, g, cs, GUARD);
    var front, x := cs[..GUARD], cs[GUARD];
    forall i | 0 <= i < |front| ensures front[i] == cs[i] != x {}
    ClearedFacts(d, g, front);
    var t, t' := Table(d, g), Table(Cleared(d, g, front), g);
    assert t'[x] == t[x] == Entry(d, g, x) == Link(cs, GUARD, Mark(g.fatType)) != 0;
    assert x in cs;
  }

  lemma {:induction false} MarkIsCluster(d: seq<Sector>, dc: seq<Sector>, g: Geometry, cs: seq<nat>, n: nat)
    requires GeometryOk(g, |d|) && |dc| == |d| && g.fatType == FAT32 && END < g.MaxCluster() && n > 0
    requires FreesRight(d, dc, g, cs)
    ensures FreesRight(d, Freed(dc, g, END, n), g, cs) <==> END in cs || Entry(d, g, END) == 0
    ensures Entry(Freed(dc, g, END, n), g, END) == 0
  {
    hide GeometryOk, AfterWrite, Entry, OnlyTables, CopiesEqual;
    var d1, next := AfterWrite(dc, g, END, 0), Entry(dc, g, END);
    var t := Table(d, g);
    assert Table(dc, g)[END] == next && t[END] == Entry(d, g, END);
    CleanWrite(dc, g, END, 0);
    assert Table(d1, g)[END] == Entry(d1, g, END) == 0;
    if next == 0 {
      assert Freed(dc, g, END, n) == d1;
      assert Table(d1, g) == Table(dc, g);
      hide Table;
      ValidClusterFits(dc, g, END);
      WriteFrame(dc, g, END, 0);
      FrameTransitive(d, dc, d1, g);
    } else {
      if next < LAST {
        OnlyFat12Tears(d1, g, next, n - 1);
        FreedKeepsFree(d1, g, next, n - 1, END);
      }
      var d' := Freed(dc, g, END, n);
      assert Table(d', g)[END] == Entry(d', g, END) == 0;
      assert Zeroed(t, cs)[END] == next;
    }
  }

  /** A large volume on which deleting the file of cluster 2 takes a cluster from another file. */
  lemma {:induction false} LargeVolumeFails(g: Geometry, n: nat)
    requires GeometryOk(g, n) && g.fatType == FAT32 && END < g.MaxCluster()
    ensures var d := AfterWrite(AfterWrite(EmptyDisk(n), g, END, END), g, 2, END);
            && FileChain(d, g, [2]) && Entry(d, g, END) != 0
            && !FreesRight(d, Freed(d, g, 2, GUARD), g, [2]) && Entry(Freed(d, g, 2, GUARD), g, END) == 0
  {
    hide GeometryOk, AfterWrite, Entry, Freed, FreesRight;
    var d0 := EmptyDisk(n);
    var d1 := AfterWrite(d0, g, END, END);
    var d := AfterWrite(d1, g, 2, END);
    BoundExists(g, n);
    CleanWrite(d0, g, END, END);
    CleanWrite(d1, g, 2, END);
    assert Table(d, g)[2] == Entry(d, g, 2) == END && Table(d, g)[END] == Entry(d, g, END) == END;
    LargeVolumeIff(d, g, [2]);
  }

  /** The sector that holds an entry, as the driver computes it. */
  function Place(g: Geometry, c: nat): nat {
    g.reserved + Offset(g.fatType, c) / SECTOR
  }

  function MarkSector(g: Geometry): nat {
    Place(g, Mark(g.fatType))
  }

  /** The mirror of the mark's sector lies in the second table, or off the disk, or holds the same already. */
  ghost predicate MirrorHarmless(d: seq<Sector>, g: Geometry) {
    && MarkSector(g) < |d|
    && (InTable(g, Mark(g.fatType)) || MarkSector(g) + g.fatSize >= |d|
        || d[MarkSector(g) + g.fatSize] == d[MarkSector(g)])
  }

  /**
   * On FAT12, FAT16 and smaller FAT32 volumes the mark is past the last cluster. Where the entry read there
   * is 0, a chain is freed as it should be if and only if the mirrored write back of that sector does no harm.
   */
  lemma {:induction false} ZeroAtMarkIff(d: seq<Sector>, g: Geometry, cs: seq<nat>)
    requires FileChain(d, g, cs) && g.MaxCluster() <= Mark(g.fatType)
    requires Entry(Cleared(d, g, cs), g, Mark(g.fatType)) == 0
    ensures FreesRight(d, Freed(d, g, cs[0], GUARD), g, cs) <==> MirrorHarmless(Cleared(d, g, cs), g)
  {
    hide GeometryOk, AfterWrite, Entry, Freed, Cleared, Table, Zeroed, OnlyTables, CopiesEqual, Members, LinkedTo;
    hide Straddles;
    FreedPastMark(d, g, cs);
    EndIsNeverSeen(g.fatType);
    var dc, e := Cleared(d, g, cs), Mark(g.fatType);
    FreedOnce(dc, g, e, GUARD - |cs|);
    ZeroAtMark(d, dc, g);
  }

  /** What is left after the chain itself, where the mark is past the last cluster. */
  lemma {:induction false} FreedPastMark(d: seq<Sector>, g: Geometry, cs: seq<nat>)
    requires FileChain(d, g, cs) && g.MaxCluster() <= Mark(g.fatType)
    ensures |cs| < GUARD
    ensures var dc := Cleared(d, g, cs);
            && Freed(d, g, cs[0], GUARD) == Freed(dc, g, Mark(g.fatType), GUARD - |cs|)
            && OnlyTables(d, dc, g) && Table(dc, g) == Zeroed(Table(d, g), cs)
            && (CopiesEqual(d, g) ==> CopiesEqual(dc, g))
  {
    hide GeometryOk, AfterWrite, Entry, Freed, Cleared, Table, Zeroed, OnlyTables, CopiesEqual, LinkedTo, Straddles;
    BoundExists(g, |d|);
    ChainIsShort(g, cs);
    FreedToMark(d, g, cs, GUARD);
    ClearedFacts(d, g, cs);
  }

  lemma {:induction false} ZeroAtMark(d: seq<Sector>, dc: seq<Sector>, g: Geometry)
    requires GeometryOk(g, |d|) && |dc| == |d| && OnlyTables(d, dc, g)
    requires g.MaxCluster() <= Mark(g.fatType) && Entry(dc, g, Mark(g.fatType)) == 0
    ensures var d1 := AfterWrite(dc, g, Mark(g.fatType), 0);
            && Table(d1, g) == Table(dc, g) && (CopiesEqual(dc, g) ==> CopiesEqual(d1, g))
            && (OnlyTables(d, d1, g) <==> MirrorHarmless(dc, g))
  {
    hide GeometryOk, AfterWrite, Entry, Table, OnlyTables, CopiesEqual, Straddles;
    var e := Mark(g.fatType);
    EndIsNeverSeen(g.fatType);
    ZeroWrite(dc, g, e);
    if InTable(g, e) {
      StepTable(dc, g, e);
      WriteFrame(dc, g, e, 0);
      FrameTransitive(d, dc, AfterWrite(dc, g, e, 0), g);
    } else {
      MarkOutside(d, dc, g);
    }
  }

  lemma {:induction false} FreedOnce(d: seq<Sector>, g: Geometry, c: nat, n: nat)
    requires 2 <= c < LAST && Entry(d, g, c) == 0 && n > 0
    ensures Freed(d, g, c, n) == AfterWrite(d, g, c, 0)
  {
    hide AfterWrite, Entry;
    assert Freed(AfterWrite(d, g, c, 0), g, 0, n - 1) == AfterWrite(d, g, c, 0);
  }

  /** A chain without repetition has fewer clusters than there are numbers. */
  lemma {:induction false} ChainIsShort(g: Geometry, cs: seq<nat>)
    requires g.sectorsPerCluster > 0 && g.FirstData() <= g.totalSectors
    requires NoDup(cs) && Members(g, cs)
    ensures |cs| <= g.MaxCluster() - 2
  {
    ElementsSize(cs);
    Below(g.MaxCluster(), Elements(cs) + {0, 1});
  }

  lemma {:induction false} Below(n: nat, s: set<nat>)
    requires forall x :: x in s ==> x < n
    ensures |s| <= n
    decreases n
  {
    if n > 0 {
      Below(n - 1, s - {n - 1});
    }
  }

  /** Clearing an entry that is clear already writes its sector back as it is, to both places. */
  lemma {:induction false} ZeroWrite(d: seq<Sector>, g: Geometry, c: nat)
    requires Entry(d, g, c) == 0 && !Straddles(g.fatType, c)
    ensures var lba := g.reserved + Offset(g.fatType, c) / SECTOR;
            lba < |d| && AfterWrite(d, g, c, 0) == Store(d, lba, g.fatSize, d[lba])
  {
    var off := Offset(g.fatType, c);
    var lba, o := g.reserved + off / SECTOR, off % SECTOR;
    Aligned(c);
    hide Store;
    match g.fatType
    case FAT12 =>
      SameSector(off, 1, 0);
      ZeroPatch12(d[lba], o, c % 2 == 1);
    case FAT16 =>
      SameSector(off, 1, 0);
      assert Patch2(d[lba], o, 0) == d[lba];
    case FAT32 =>
      SameSector(off, 1, 0);
      SameSector(off, 2, 0);
      SameSector(off, 3, 0);
      ZeroPatch32(d[lba], o);
  }

  lemma {:induction false} ZeroPatch12(s: Sector, o: nat, odd: bool)
    requires o + 2 <= SECTOR && Get12(s[o], s[o + 1], odd) == 0
    ensures Patch2(s, o, Put12(s[o], s[o + 1], odd, 0)) == s
  {
    var b0: nat, b1: nat := s[o], s[o + 1];
    var v := b0 + 256 * b1;
    assert Put12(s[o], s[o + 1], odd, 0) == v;
    assert v % 256 == b0 && v / 256 % 256 == b1;
  }

  lemma {:induction false} ZeroPatch32(s: Sector, o: nat)
    requires o + 4 <= SECTOR && Get32(s[o], s[o + 1], s[o + 2], s[o + 3]) == 0
    ensures Patch4(s, o, Put32(s[o], s[o + 1], s[o + 2], s[o + 3], 0)) == s
  {
    hide Get32, Put32;
    var b0: nat, b1: nat, b2: nat, b3: nat := s[o], s[o + 1], s[o + 2], s[o + 3];
    ZeroPut32(b0, b1, b2, b3);
    BytesOf(b0, b1, b2, b3);
  }

  lemma {:induction false} ZeroPut32(b0: Byte, b1: Byte, b2: Byte, b3: Byte)
    requires Get32(b0, b1, b2, b3) == 0
    ensures Put32(b0, b1, b2, b3, 0) == b0 + 0x100 * b1 + 0x1_0000 * b2 + 0x100_0000 * b3
  {}

  lemma {:induction false} BytesOf(b0: nat, b1: nat, b2: nat, b3: nat)
    requires b0 < 256 && b1 < 256 && b2 < 256 && b3 < 256
    ensures var v := b0 + 0x100 * b1 + 0x1_0000 * b2 + 0x100_0000 * b3;
            v % 256 == b0 && v / 256 % 256 == b1 && v / 256 / 256 % 256 == b2 && v / 256 / 256 / 256 % 256 == b3
  {
    var r: nat := b2 + 256 * b3;
    var q: nat := b1 + 256 * r;
    var v: nat := b0 + 256 * q;
    assert v / 256 == q && q / 256 == r && r / 256 == b3;
  }

  lemma {:induction false} MarkOutside(d: seq<Sector>, dc: seq<Sector>, g: Geometry)
    requires GeometryOk(g, |d|) && |dc| == |d| && OnlyTables(d, dc, g)
    requires !InTable(g, Mark(g.fatType)) && MarkSector(g) < |d|
    ensures var d1 := Store(dc, MarkSector(g), g.fatSize, dc[MarkSector(g)]);
            && Table(d1, g) == Table(dc, g) && (CopiesEqual(dc, g) ==> CopiesEqual(d1, g))
            && (OnlyTables(d, d1, g) <==> MirrorHarmless(dc, g))
  {
    var lba := MarkSector(g);
    var d1 := Store(dc, lba, g.fatSize, dc[lba]);
    TablesOnDisk(d, g);
    MarkInOneSector(g);
    assert forall l: nat :: l < |d| && l != lba + g.fatSize ==> d1[l] == dc[l];
    hide Entry, GeometryOk, Store;
    forall x: nat | x < g.MaxCluster() ensures Entry(d1, g, x) == Entry(dc, g, x) {
      SameTableSectors(dc, d1, g, x);
    }
  }

  lemma {:induction false} MarkInOneSector(g: Geometry)
    requires !InTable(g, Mark(g.fatType))
    ensures MarkSector(g) >= g.reserved + g.fatSize
  {
    var off := Offset(g.fatType, Mark(g.fatType));
    Aligned(Mark(g.fatType));
    EndIsNeverSeen(g.fatType);
    PastTable(off, Span(g.fatType), g.fatSize);
  }

  /** An empty table, and a sector in use where the mirror of the mark's sector will be written. */
  function DisturbedDisk(g: Geometry, n: nat): (d: seq<Sector>)
    requires MarkSector(g) + g.fatSize < n
    ensures |d| == n
  {
    EmptyDisk(n)[MarkSector(g) + g.fatSize := FullSector()]
  }

  /** On every such volume there is a disk on which deleting a file overwrites a sector outside the tables. */
  lemma {:induction false} SmallVolumeFails(g: Geometry, n: nat)
    requires GeometryOk(g, n) && 2 < g.MaxCluster() <= Mark(g.fatType)
    requires !InTable(g, Mark(g.fatType)) && MarkSector(g) + g.fatSize < n
    ensures var d := AfterWrite(DisturbedDisk(g, n), g, 2, END);
            && FileChain(d, g, [2]) && Entry(Cleared(d, g, [2]), g, Mark(g.fatType)) == 0
            && !FreesRight(d, Freed(d, g, 2, GUARD), g, [2])
  {
    hide GeometryOk, AfterWrite, Entry, Freed, FreesRight, TablesOnly, DisturbedDisk, Straddles;
    var d0 := DisturbedDisk(g, n);
    var d := AfterWrite(d0, g, 2, END);
    BoundExists(g, n);
    SecondInOneSector(g.fatType);
    CleanWrite(d0, g, 2, END);
    assert Table(d, g)[2] == Entry(d, g, 2) == Mark(g.fatType);
    assert FileChain(d, g, [2]);
    DisturbedRestored(g, n);
    ZeroAtMarkIff(d, g, [2]);
  }

  lemma {:induction false} SecondInOneSector(t: FatType)
    ensures !Straddles(t, 2)
  {}

  lemma {:induction false} DisturbedRestored(g: Geometry, n: nat)
    requires GeometryOk(g, n) && 2 < g.MaxCluster() <= Mark(g.fatType)
    requires !InTable(g, Mark(g.fatType)) && MarkSector(g) + g.fatSize < n
    ensures var d0 := DisturbedDisk(g, n);
            && Cleared(AfterWrite(d0, g, 2, END), g, [2]) == d0
            && Entry(d0, g, Mark(g.fatType)) == 0 && !MirrorHarmless(d0, g)
  {
    hide GeometryOk, AfterWrite, Entry, DisturbedDisk, Straddles, OnlyTables, CopiesEqual, SpareSame, MirrorHarmless;
    hide InTable;
    hide Place;
    var d0 := DisturbedDisk(g, n);
    TablesOnDisk(d0, g);
    DisturbedFacts(g, n);
    var d := AfterWrite(d0, g, 2, END);
    var dc := AfterWrite(d, g, 2, 0);
    BoundExists(g, n);
    SecondInOneSector(g.fatType);
    CleanWrite(d0, g, 2, END);
    CleanWrite(d, g, 2, 0);
    TablesOnlyTransitive(d0, d, dc, g);
    assert Cleared(dc, g, []) == dc && [2][1..] == [];
    assert Table(d0, g)[2] == Entry(d0, g, 2);
    assert Table(dc, g) == Table(d0, g);
    SameTableSameDisk(d0, dc, g);
  }

  lemma {:induction false} DisturbedFacts(g: Geometry, n: nat)
    requires GeometryOk(g, n) && 2 < g.MaxCluster() <= Mark(g.fatType)
    requires !InTable(g, Mark(g.fatType)) && MarkSector(g) + g.fatSize < n
    ensures var d0 := DisturbedDisk(g, n);
            CopiesEqual(d0, g) && Entry(d0, g, 2) == 0 && Entry(d0, g, Mark(g.fatType)) == 0 && !MirrorHarmless(d0, g)
  {
    var d0 := DisturbedDisk(g, n);
    TablesOnDisk(d0, g);
    MarkInOneSector(g);
    ValidClusterFits(d0, g, 2);
    hide GeometryOk;
    EndIsNeverSeen(g.fatType);
    EmptyEntry(d0, g, 2);
    EmptyEntry(d0, g, Mark(g.fatType));
    assert FullSector()[0] != EmptySector()[0];
  }
}
