/** Who owns the pages that are neither free nor part of the paging structures. */
module PageOwnership {
  import opened Lists
  import opened FreeLists
  import opened PhysicalMemory
  import opened PageTables
  import opened RoundRobin

  const MAX_USER_PAGES := 96

  datatype Use = PcbPage(task: nat) | StackPage(task: nat) | FramePage(task: nat, virt: Word)

  /** The page under a kernel stack top. */
  function StackOf(t: Pcb): nat
    requires t.kernelEsp0 >= PAGE_SIZE
  {
    (t.kernelEsp0 - PAGE_SIZE) / PAGE_SIZE
  }

  ghost function EntryAt(m: seq<Page>, d: nat, virt: Word): Word {
    Walk(m, d, PdIndex(virt), PtIndex(virt))
  }

  /** A registered user page: private, mapped, and backed by a frame of this task. */
  ghost predicate UserPageOk(m: seq<Page>, g: Layout, use: map<nat, Use>, p: nat, d: nat, virt: Word)
    requires g.kdir < |m|
  {
    && virt % PAGE_SIZE == 0
    && !Present(m[g.kdir][PdIndex(virt)])
    && EntryAt(m, d, virt) != 0
    && Frame(EntryAt(m, d, virt)) in use
    && use[Frame(EntryAt(m, d, virt))] == FramePage(p, virt)
  }

  ghost predicate PcbOk(m: seq<Page>, g: Layout, use: map<nat, Use>, dirOwner: map<nat, nat>, p: nat, t: Pcb)
    requires g.kdir < |m|
  {
    && p % PAGE_SIZE == 0 && p / PAGE_SIZE in use && use[p / PAGE_SIZE] == PcbPage(p)
    && t.pageDirectory % PAGE_SIZE == 0
    && (t.kernelEsp0 != 0 ==> t.kernelEsp0 % PAGE_SIZE == 0 && t.kernelEsp0 >= PAGE_SIZE
                              && StackOf(t) in use && use[StackOf(t)] == StackPage(p))
    && (if t.isUser then
          && t.kernelEsp0 != 0
          && t.pageDirectory / PAGE_SIZE in g.dirs
          && t.pageDirectory / PAGE_SIZE in dirOwner && dirOwner[t.pageDirectory / PAGE_SIZE] == p
          && |t.userPages| <= MAX_USER_PAGES && NoDup(t.userPages)
          && forall k :: 0 <= k < |t.userPages| ==>
             UserPageOk(m, g, use, p, t.pageDirectory / PAGE_SIZE, t.userPages[k])
        else t.pageDirectory == g.kdir * PAGE_SIZE && t.userPages == [])
  }

  ghost predicate UseOk(n: nat, free: seq<nat>, g: Layout, use: map<nat, Use>) {
    forall x :: x in use ==> 0 < x < n && x !in free && x !in g.Pages()
  }

  ghost predicate Owned(
      m: seq<Page>, free: seq<nat>, g: Layout, pcbs: map<nat, Pcb>, use: map<nat, Use>, dirOwner: map<nat, nat>) {
    && g.kdir < |m|
    && UseOk(|m|, free, g, use)
    && forall p :: p in pcbs ==> PcbOk(m, g, use, dirOwner, p, pcbs[p])
  }

  ghost function Frames(m: seq<Page>, d: nat, pages: seq<Word>): set<nat> {
    set k | 0 <= k < |pages| :: Frame(EntryAt(m, d, pages[k]))
  }

  /** Every page a user task occupies: PCB, kernel stack, directory, private tables, frames. */
  ghost function Footprint(m: seq<Page>, g: Layout, p: nat, t: Pcb): set<nat>
    requires t.kernelEsp0 >= PAGE_SIZE
  {
    {p / PAGE_SIZE, StackOf(t), t.pageDirectory / PAGE_SIZE}
    + g.TablesOf(t.pageDirectory / PAGE_SIZE)
    + Frames(m, t.pageDirectory / PAGE_SIZE, t.userPages)
  }

  /** Page-aligned addresses are told apart by their slots. */
  lemma {:induction false} AlignedSlots(v: Word, w: Word)
    requires v % PAGE_SIZE == 0 && w % PAGE_SIZE == 0
    requires PdIndex(v) == PdIndex(w) && PtIndex(v) == PtIndex(w)
    ensures v == w
  {}

  /** Ownership survives when each task still finds its own entries. */
  lemma {:induction false} OwnedFrame(
      m: seq<Page>, free: seq<nat>, g: Layout, m': seq<Page>, free': seq<nat>, g': Layout, pcbs: map<nat, Pcb>,
      use: map<nat, Use>, dirOwner: map<nat, nat>)
    requires Owned(m, free, g, pcbs, use, dirOwner) && |m'| == |m| && g'.kdir == g.kdir && g.dirs <= g'.dirs
    requires m'[g.kdir] == m[g.kdir] && SameWalks(m, m', g)
    requires UseOk(|m|, free', g', use)
    ensures Owned(m', free', g', pcbs, use, dirOwner)
    ensures forall p :: p in pcbs && pcbs[p].isUser && pcbs[p].kernelEsp0 >= PAGE_SIZE ==>
              Frames(m', pcbs[p].pageDirectory / PAGE_SIZE, pcbs[p].userPages) ==
                Frames(m, pcbs[p].pageDirectory / PAGE_SIZE, pcbs[p].userPages)
  {
    hide PdIndex, PtIndex, Walk;
    forall p | p in pcbs
      ensures PcbOk(m', g', use, dirOwner, p, pcbs[p])
    {
      assert PcbOk(m, g, use, dirOwner, p, pcbs[p]);
    }
    forall p | p in pcbs && pcbs[p].isUser && pcbs[p].kernelEsp0 >= PAGE_SIZE
      ensures Frames(m', pcbs[p].pageDirectory / PAGE_SIZE, pcbs[p].userPages) ==
              Frames(m, pcbs[p].pageDirectory / PAGE_SIZE, pcbs[p].userPages)
    {
      assert PcbOk(m, g, use, dirOwner, p, pcbs[p]);
    }
  }

  /** All directories but `d`, and the kernel's, translate alike. */
  ghost predicate OthersSame(m: seq<Page>, m': seq<Page>, g: Layout, d: nat) {
    forall d', i: nat, j: nat :: (d' in g.dirs || d' == g.kdir) && d' != d && i < ENTRIES && j < ENTRIES ==>
      Walk(m', d', i, j) == Walk(m, d', i, j)
  }

  /** The free list has gained exactly the frames of the first `k` pages. */
  ghost predicate FramesFreed(l: seq<nat>, l0: seq<nat>, m0: seq<Page>, d: nat, pages: seq<Word>, k: nat)
    requires k <= |pages|
  {
    forall x :: x in l <==> x in l0 || x in Frames(m0, d, pages[..k])
  }

  lemma {:induction false} OneMoreFrame(m: seq<Page>, d: nat, pages: seq<Word>, k: nat)
    requires k < |pages|
    ensures Frames(m, d, pages[..k + 1]) == Frames(m, d, pages[..k]) + {Frame(EntryAt(m, d, pages[k]))}
  {
    hide EntryAt;
    var a, b := pages[..k], pages[..k + 1];
    assert forall i :: 0 <= i < k ==> b[i] == a[i];
    assert b[k] == pages[k];
    forall x | x in Frames(m, d, a)
      ensures x in Frames(m, d, b)
    {
      var i :| 0 <= i < k && x == Frame(EntryAt(m, d, a[i]));
      assert x == Frame(EntryAt(m, d, b[i]));
    }
  }

  /** Unmapping one registered page and freeing its frame. */
  lemma {:induction false} ReleasePage(m: seq<Page>, m1: seq<Page>, m2: seq<Page>, g: Layout, d: nat, virt: Word)
    requires g.kdir < |m| && d in g.dirs && g.kdir !in g.dirs && !Present(m[g.kdir][PdIndex(virt)])
             && virt % PAGE_SIZE == 0
    requires Wrote(m, m1, g, d, PdIndex(virt), PtIndex(virt), 0) && SameWalks(m1, m2, g)
    ensures OthersSame(m, m2, g, d)
    ensures forall v: Word :: v % PAGE_SIZE == 0 && v != virt ==> EntryAt(m2, d, v) == EntryAt(m, d, v)
  {
    hide Walk, PdIndex, PtIndex;
    forall v: Word | v % PAGE_SIZE == 0 && v != virt
      ensures EntryAt(m2, d, v) == EntryAt(m, d, v)
    {
      if PdIndex(v) == PdIndex(virt) && PtIndex(v) == PtIndex(virt) {
        AlignedSlots(v, virt);
      }
    }
  }

  /** The pages recorded for task `p`. */
  ghost function UsedBy(use: map<nat, Use>, p: nat): set<nat> {
    set x | x in use && use[x].task == p
  }

  /** Everything a user task occupies is recorded as its own or is part of its directory. */
  lemma {:induction false} FootprintOwned(
      m: seq<Page>, free: seq<nat>, g: Layout, pcbs: map<nat, Pcb>, use: map<nat, Use>, dirOwner: map<nat, nat>, z: nat,
      x: nat)
    requires Owned(m, free, g, pcbs, use, dirOwner) && z in pcbs && pcbs[z].isUser
    requires x in Footprint(m, g, z, pcbs[z])
    ensures x in UsedBy(use, z) || x == pcbs[z].pageDirectory / PAGE_SIZE
            || x in g.TablesOf(pcbs[z].pageDirectory / PAGE_SIZE)
  {
    hide EntryAt, PdIndex, PtIndex;
    var t := pcbs[z];
    assert PcbOk(m, g, use, dirOwner, z, t);
    if x in Frames(m, t.pageDirectory / PAGE_SIZE, t.userPages) {
      var k :| 0 <= k < |t.userPages| && x == Frame(EntryAt(m, t.pageDirectory / PAGE_SIZE, t.userPages[k]));
      assert UserPageOk(m, g, use, z, t.pageDirectory / PAGE_SIZE, t.userPages[k]);
    }
  }

  /** Releasing all that task `z` occupies leaves the other tasks' pages and footprints alone. */
  lemma {:induction false} DropTask(m: seq<Page>, free: seq<nat>, g: Layout, m': seq<Page>, free': seq<nat>,
                                    pcbs: map<nat, Pcb>, use: map<nat, Use>, dirOwner: map<nat, nat>, z: nat)
    requires Owned(m, free, g, pcbs, use, dirOwner) && z in pcbs && pcbs[z].isUser
    requires |m'| == |m| && m'[g.kdir] == m[g.kdir]
    requires SameWalks(m, m', g.Without(pcbs[z].pageDirectory / PAGE_SIZE))
    requires forall x :: x in free' <==> x in free || x in Footprint(m, g, z, pcbs[z])
    ensures var d := pcbs[z].pageDirectory / PAGE_SIZE;
            Owned(m', free', g.Without(d), pcbs - {z}, use - UsedBy(use, z), dirOwner - {d})
    ensures var d := pcbs[z].pageDirectory / PAGE_SIZE;
            forall q :: q in pcbs && q != z && pcbs[q].isUser ==>
              Footprint(m', g.Without(d), q, pcbs[q]) == Footprint(m, g, q, pcbs[q])
  {
    hide EntryAt, PdIndex, PtIndex, Walk;
    var d := pcbs[z].pageDirectory / PAGE_SIZE;
    var g', use' := g.Without(d), use - UsedBy(use, z);
    assert PcbOk(m, g, use, dirOwner, z, pcbs[z]);
    forall x | x in use'
      ensures 0 < x < |m'| && x !in free' && x !in g'.Pages()
    {
      assert x !in g.Pages() && d in g.Pages();
      if x in Footprint(m, g, z, pcbs[z]) {
        FootprintOwned(m, free, g, pcbs, use, dirOwner, z, x);
      }
    }
    forall q | q in pcbs && q != z
      ensures PcbOk(m', g', use', dirOwner - {d}, q, pcbs[q])
      ensures pcbs[q].isUser ==> Footprint(m', g', q, pcbs[q]) == Footprint(m, g, q, pcbs[q])
    {
      assert PcbOk(m, g, use, dirOwner, q, pcbs[q]);
      KeepTask(m, g, m', use, dirOwner, z, d, q, pcbs[q]);
    }
  }

  lemma {:induction false} KeepTask(m: seq<Page>, g: Layout, m': seq<Page>, use: map<nat, Use>, dirOwner: map<nat, nat>,
                                    z: nat, d: nat, q: nat, t: Pcb)
    requires g.kdir < |m| == |m'| && m'[g.kdir] == m[g.kdir] && PcbOk(m, g, use, dirOwner, q, t) && q != z
    requires d in dirOwner && dirOwner[d] == z && SameWalks(m, m', g.Without(d))
    ensures PcbOk(m', g.Without(d), use - UsedBy(use, z), dirOwner - {d}, q, t)
    ensures t.isUser ==> Footprint(m', g.Without(d), q, t) == Footprint(m, g, q, t)
  {
    hide PdIndex, PtIndex, Walk;
    var e := t.pageDirectory / PAGE_SIZE;
    if t.isUser {
      forall k | 0 <= k < |t.userPages|
        ensures UserPageOk(m', g.Without(d), use - UsedBy(use, z), q, e, t.userPages[k])
        ensures EntryAt(m', e, t.userPages[k]) == EntryAt(m, e, t.userPages[k])
      {
        assert UserPageOk(m, g, use, q, e, t.userPages[k]);
      }
      assert Frames(m', e, t.userPages) == Frames(m, e, t.userPages);
      assert g.Without(d).TablesOf(e) == g.TablesOf(e);
    }
  }

  lemma {:induction false} FreePageUnused(
      m: seq<Page>, free: seq<nat>, g: Layout, pcbs: map<nat, Pcb>, use: map<nat, Use>, dirOwner: map<nat, nat>, p: nat)
    requires Owned(m, free, g, pcbs, use, dirOwner) && p % PAGE_SIZE == 0 && p / PAGE_SIZE in free
    ensures p / PAGE_SIZE !in use && p !in pcbs
  {
    assert p in pcbs ==> PcbOk(m, g, use, dirOwner, p, pcbs[p]);
  }

  /** Other tasks' footprints do not depend on new directories or on unchanged translations. */
  ghost predicate FootprintsKept(m: seq<Page>, g: Layout, m': seq<Page>, g': Layout, pcbs: map<nat, Pcb>, but: nat) {
    forall q :: q in pcbs && q != but && pcbs[q].isUser && pcbs[q].kernelEsp0 >= PAGE_SIZE ==>
      Footprint(m', g', q, pcbs[q]) == Footprint(m, g, q, pcbs[q])
  }

  /** A new kernel task on two pages from the free list. */
  lemma {:induction false} AddKernelTask(m: seq<Page>, free: seq<nat>, free': seq<nat>, g: Layout, pcbs: map<nat, Pcb>,
                                         use: map<nat, Use>, dirOwner: map<nat, nat>, p: nat, s: nat, t: Pcb)
    requires PagingOk(m, free, g) && Owned(m, free, g, pcbs, use, dirOwner)
    requires p % PAGE_SIZE == 0 && p / PAGE_SIZE in free && s in free && p / PAGE_SIZE != s && 0 < s < |m|
             && 0 < p / PAGE_SIZE < |m|
    requires forall x :: x in free' ==> x in free && x != p / PAGE_SIZE && x != s
    requires !t.isUser && t.kernelEsp0 == s * PAGE_SIZE + PAGE_SIZE && t.pageDirectory == g.kdir * PAGE_SIZE
             && t.userPages == []
    ensures Owned(m, free', g, pcbs[p := t], use[p / PAGE_SIZE := PcbPage(p)][s := StackPage(p)], dirOwner)
  {
    hide PdIndex, PtIndex, Walk, EntryAt, UserPageOk;
    var use' := use[p / PAGE_SIZE := PcbPage(p)][s := StackPage(p)];
    FreePageUnused(m, free, g, pcbs, use, dirOwner, p);
    assert s !in use && s !in g.Pages() && p / PAGE_SIZE !in g.Pages();
    forall q | q in pcbs
      ensures PcbOk(m, g, use', dirOwner, q, pcbs[q])
    {
      KeepWithMoreUses(m, g, m, g, use, use', dirOwner, dirOwner, q, pcbs[q]);
    }
  }

  lemma {:induction false} KeepWithMoreUses(
      m: seq<Page>, g: Layout, m': seq<Page>, g': Layout, use: map<nat, Use>, use': map<nat, Use>,
      dirOwner: map<nat, nat>, dirOwner': map<nat, nat>, q: nat, t: Pcb)
    requires g.kdir < |m| && PcbOk(m, g, use, dirOwner, q, t) && |m'| == |m|
    requires g'.kdir == g.kdir && g.dirs <= g'.dirs && m'[g.kdir] == m[g.kdir]
    requires forall x :: x in use ==> x in use' && use'[x] == use[x]
    requires forall x :: x in dirOwner && x in g.dirs ==> x in dirOwner' && dirOwner'[x] == dirOwner[x]
    requires t.isUser ==> forall i: nat, j: nat :: i < ENTRIES && j < ENTRIES ==>
               Walk(m', t.pageDirectory / PAGE_SIZE, i, j) == Walk(m, t.pageDirectory / PAGE_SIZE, i, j)
    ensures PcbOk(m', g', use', dirOwner', q, t)
    ensures t.isUser ==>
            Frames(m', t.pageDirectory / PAGE_SIZE, t.userPages) == Frames(m, t.pageDirectory / PAGE_SIZE, t.userPages)
  {
    hide PdIndex, PtIndex, Walk;
    var d := t.pageDirectory / PAGE_SIZE;
    if t.isUser {
      forall k | 0 <= k < |t.userPages|
        ensures UserPageOk(m', g', use', q, d, t.userPages[k])
                && EntryAt(m', d, t.userPages[k]) == EntryAt(m, d, t.userPages[k])
      {
        assert UserPageOk(m, g, use, q, d, t.userPages[k]);
      }
    }
  }

  /** A new user task on three pages from the free list, one of them its directory. */
  lemma {:induction false} AddUserTask(
      m: seq<Page>, free: seq<nat>, g: Layout, m': seq<Page>, free': seq<nat>, g': Layout, pcbs: map<nat, Pcb>,
      use: map<nat, Use>, dirOwner: map<nat, nat>, p: nat, s: nat, d: nat, t: Pcb)
    requires PagingOk(m, free, g) && Owned(m, free, g, pcbs, use, dirOwner) && |m'| == |m|
    requires p % PAGE_SIZE == 0 && p / PAGE_SIZE in free && s in free && d in free
    requires p / PAGE_SIZE != s && p / PAGE_SIZE != d && s != d && 0 < s < |m| && 0 < p / PAGE_SIZE < |m|
    requires forall x :: x in free' <==> x in free && x != p / PAGE_SIZE && x != s && x != d
    requires g' == g.(dirs := g.dirs + {d}) && SameWalks(m, m', g) && m'[g.kdir] == m[g.kdir]
    requires t.isUser && t.kernelEsp0 == s * PAGE_SIZE + PAGE_SIZE && t.pageDirectory == d * PAGE_SIZE
             && t.userPages == []
    ensures Owned(m', free', g', pcbs[p := t], use[p / PAGE_SIZE := PcbPage(p)][s := StackPage(p)], dirOwner[d := p])
    ensures p !in pcbs && Footprint(m', g', p, t) == {p / PAGE_SIZE, s, d}
    ensures FootprintsKept(m, g, m', g', pcbs, p)
  {
    hide PdIndex, PtIndex, Walk, EntryAt, UserPageOk, KernelSlotOk, UserSlotOk;
    var use' := use[p / PAGE_SIZE := PcbPage(p)][s := StackPage(p)];
    FreePageUnused(m, free, g, pcbs, use, dirOwner, p);
    assert s !in use && s !in g.Pages() && p / PAGE_SIZE !in g.Pages() && d !in g.Pages() && d !in use;
    assert g'.Pages() == g.Pages() + {d};
    forall q | q in pcbs
      ensures PcbOk(m', g', use', dirOwner[d := p], q, pcbs[q])
      ensures pcbs[q].isUser && pcbs[q].kernelEsp0 >= PAGE_SIZE ==>
              Footprint(m', g', q, pcbs[q]) == Footprint(m, g, q, pcbs[q])
    {
      assert PcbOk(m, g, use, dirOwner, q, pcbs[q]);
      KeepWithMoreUses(m, g, m', g', use, use', dirOwner, dirOwner[d := p], q, pcbs[q]);
    }
    assert g'.TablesOf(d) == {} by {
      assert forall x :: x in g.tables ==> TableOk(m, g, x);
    }
    assert Frames(m', d, []) == {};
  }

  /** A frame from the free list becomes a registered page of task `p`, with or without a new table. */
  lemma {:induction false} AddFrame(
      m: seq<Page>, free: seq<nat>, g: Layout, m': seq<Page>, free': seq<nat>, g': Layout, pcbs: map<nat, Pcb>,
      use: map<nat, Use>, dirOwner: map<nat, nat>, p: nat, f: nat, virt: Word, e: Word)
    requires PagingOk(m, free, g) && Owned(m, free, g, pcbs, use, dirOwner) && |m'| == |m| && m'[g.kdir] == m[g.kdir]
    requires p in pcbs && pcbs[p].isUser && |pcbs[p].userPages| < MAX_USER_PAGES && virt !in pcbs[p].userPages
    requires virt % PAGE_SIZE == 0 && e != 0 && Frame(e) == f && 0 < f < |m| && f in free && f !in free'
    requires !Present(m[g.kdir][PdIndex(virt)])
    requires Wrote(m, m', g, pcbs[p].pageDirectory / PAGE_SIZE, PdIndex(virt), PtIndex(virt), e)
    requires g'.kdir == g.kdir && g'.dirs == g.dirs && forall x :: x in free' || x in g'.Pages() ==>
             x in free || x in g.Pages()
    requires f !in g'.Pages()
    ensures var t := pcbs[p].(userPages := pcbs[p].userPages + [virt]);
            && Owned(m', free', g', pcbs[p := t], use[f := FramePage(p, virt)], dirOwner)
            && Frames(m', t.pageDirectory / PAGE_SIZE, t.userPages) ==
               Frames(m, t.pageDirectory / PAGE_SIZE, pcbs[p].userPages) + {f}
    ensures forall q :: q in pcbs && q != p && pcbs[q].isUser ==>
              Frames(m', pcbs[q].pageDirectory / PAGE_SIZE, pcbs[q].userPages) ==
                Frames(m, pcbs[q].pageDirectory / PAGE_SIZE, pcbs[q].userPages)
  {
    var t, d := pcbs[p].(userPages := pcbs[p].userPages + [virt]), pcbs[p].pageDirectory / PAGE_SIZE;
    var use' := use[f := FramePage(p, virt)];
    hide PdIndex, PtIndex, Walk;
    assert f !in use && PcbOk(m, g, use, dirOwner, p, pcbs[p]);
    forall q | q in pcbs && q != p
      ensures PcbOk(m', g', use', dirOwner, q, pcbs[q])
      ensures pcbs[q].isUser ==>
                Frames(m', pcbs[q].pageDirectory / PAGE_SIZE, pcbs[q].userPages) ==
                Frames(m, pcbs[q].pageDirectory / PAGE_SIZE, pcbs[q].userPages)
    {
      assert PcbOk(m, g, use, dirOwner, q, pcbs[q]);
      hide UserPageOk, EntryAt;
      KeepWithMoreUses(m, g, m', g', use, use', dirOwner, dirOwner, q, pcbs[q]);
    }
    assert EntryAt(m', d, virt) == e;
    forall k | 0 <= k < |pcbs[p].userPages|
      ensures UserPageOk(m', g', use', p, d, pcbs[p].userPages[k])
              && EntryAt(m', d, pcbs[p].userPages[k]) == EntryAt(m, d, pcbs[p].userPages[k])
    {
      KeepOtherPage(m, g, m', g', use, use', p, d, virt, pcbs[p].userPages[k], e);
    }
    FramesExtend(m, m', d, pcbs[p].userPages, virt);
    assert PcbOk(m', g', use', dirOwner, p, t);
  }

  lemma {:induction false} KeepOtherPage(
      m: seq<Page>, g: Layout, m': seq<Page>, g': Layout, use: map<nat, Use>, use': map<nat, Use>, p: nat, d: nat,
      virt: Word, v: Word, e: Word)
    requires g.kdir < |m| == |m'| && m'[g.kdir] == m[g.kdir] && g'.kdir == g.kdir && d in g.dirs && v != virt
             && virt % PAGE_SIZE == 0
    requires Wrote(m, m', g, d, PdIndex(virt), PtIndex(virt), e) && UserPageOk(m, g, use, p, d, v)
    requires forall x :: x in use ==> x in use' && use'[x] == use[x]
    ensures UserPageOk(m', g', use', p, d, v) && EntryAt(m', d, v) == EntryAt(m, d, v)
  {
    hide PdIndex, PtIndex, Walk;
    if PdIndex(v) == PdIndex(virt) && PtIndex(v) == PtIndex(virt) {
      AlignedSlots(v, virt);
    }
  }

  lemma {:induction false} FramesExtend(m: seq<Page>, m': seq<Page>, d: nat, pages: seq<Word>, virt: Word)
    requires forall k :: 0 <= k < |pages| ==> EntryAt(m', d, pages[k]) == EntryAt(m, d, pages[k])
    ensures Frames(m', d, pages + [virt]) == Frames(m, d, pages) + {Frame(EntryAt(m', d, virt))}
  {
    hide EntryAt;
    var all := pages + [virt];
    OneMoreFrame(m', d, all, |pages|);
    assert all[..|pages|] == pages && all[..|pages| + 1] == all;
    assert Frames(m', d, pages) == Frames(m, d, pages);
  }

  lemma {:induction false} FootprintNotFree(
      m: seq<Page>, free: seq<nat>, g: Layout, pcbs: map<nat, Pcb>, use: map<nat, Use>, dirOwner: map<nat, nat>, p: nat)
    requires PagingOk(m, free, g) && Owned(m, free, g, pcbs, use, dirOwner) && p in pcbs && pcbs[p].isUser
    ensures forall x :: x in Footprint(m, g, p, pcbs[p]) ==> x !in free
  {
    hide EntryAt, PdIndex, PtIndex, KernelSlotOk, UserSlotOk, TableOk;
    forall x | x in Footprint(m, g, p, pcbs[p])
      ensures x !in free
    {
      FootprintOwned(m, free, g, pcbs, use, dirOwner, p, x);
      assert PcbOk(m, g, use, dirOwner, p, pcbs[p]);
      assert x in use || x in g.Pages();
    }
  }

  /** The footprints after a page was added: the task's grows by the frame and a new table, if any. */
  lemma {:induction false} FootprintGrows(
      m: seq<Page>, free: seq<nat>, g: Layout, m': seq<Page>, free': seq<nat>, g': Layout, pcbs: map<nat, Pcb>,
      use: map<nat, Use>, dirOwner: map<nat, nat>, p: nat, t': Pcb, f: nat, grew: bool)
    requires PagingOk(m, free, g) && Owned(m, free, g, pcbs, use, dirOwner) && p in pcbs && pcbs[p].isUser
    requires pcbs[p].kernelEsp0 >= PAGE_SIZE && t' == pcbs[p].(userPages := t'.userPages)
    requires var d := pcbs[p].pageDirectory / PAGE_SIZE;
             && Frames(m', d, t'.userPages) == Frames(m, d, pcbs[p].userPages) + {f} && NoDup(free) && free != []
                && f == free[0]
             && (if !grew then g' == g && free' == free[1..]
                 else |free| > 1 && free' == free[2..]
                      && exists i: nat :: g' == g.(tables := g.tables[free[1] := UserTable(d, i)]))
    ensures forall x :: x in free <==>
            x in free' || (x in Footprint(m', g', p, t') && x !in Footprint(m, g, p, pcbs[p]))
    ensures forall x :: x in Footprint(m, g, p, pcbs[p]) ==> x in Footprint(m', g', p, t')
  {
    var d := pcbs[p].pageDirectory / PAGE_SIZE;
    FootprintNotFree(m, free, g, pcbs, use, dirOwner, p);
    assert forall x :: x in g.tables ==> x in g.Pages();
    hide Frames, Owned, KernelSlotOk, UserSlotOk, TableOk;
    if !grew {
      assert free == [f] + free[1..];
      assert Footprint(m', g', p, t') == Footprint(m, g, p, pcbs[p]) + {f};
    } else {
      assert free == [f, free[1]] + free[2..];
      assert free[1] in free && free[1] !in g.tables;
      assert g'.TablesOf(d) == g.TablesOf(d) + {free[1]};
      assert Footprint(m', g', p, t') == Footprint(m, g, p, pcbs[p]) + {f, free[1]};
    }
  }

  lemma {:induction false} AddFramePreconditions(
      m: seq<Page>, free: seq<nat>, g: Layout, free': seq<nat>, g': Layout, pcbs: map<nat, Pcb>, use: map<nat, Use>,
      dirOwner: map<nat, nat>, grew: bool, u: TableUse)
    requires PagingOk(m, free, g) && Owned(m, free, g, pcbs, use, dirOwner) && NoDup(free) && free != []
    requires if !grew then g' == g && free' == free[1..]
             else |free| > 1 && free' == free[2..] && g' == g.(tables := g.tables[free[1] := u])
    ensures free[0] in free && free[0] !in free' && free[0] !in g'.Pages() && g'.kdir == g.kdir && g'.dirs == g.dirs
    ensures forall x :: x in free' || x in g'.Pages() ==> x in free || x in g.Pages()
  {
    hide KernelSlotOk, UserSlotOk, TableOk;
    assert free[0] in free && free[0] !in g.Pages();
  }

  /** No other task has a table or a frame in what was added. */
  lemma {:induction false} KeptFromFrames(
      m: seq<Page>, g: Layout, m': seq<Page>, g': Layout, pcbs: map<nat, Pcb>, p: nat, d: nat, i: nat, free: seq<nat>,
      use: map<nat, Use>, dirOwner: map<nat, nat>, grew: bool)
    requires PagingOk(m, free, g) && Owned(m, free, g, pcbs, use, dirOwner) && p in pcbs && pcbs[p].isUser
             && d == pcbs[p].pageDirectory / PAGE_SIZE
    requires if !grew then g' == g else |free| > 1 && g' == g.(tables := g.tables[free[1] := UserTable(d, i)])
    requires forall q :: q in pcbs && q != p && pcbs[q].isUser ==>
               Frames(m', pcbs[q].pageDirectory / PAGE_SIZE, pcbs[q].userPages) ==
                 Frames(m, pcbs[q].pageDirectory / PAGE_SIZE, pcbs[q].userPages)
    ensures FootprintsKept(m, g, m', g', pcbs, p)
  {
    hide KernelSlotOk, UserSlotOk, TableOk, Frames, UserPageOk;
    forall q | q in pcbs && q != p && pcbs[q].isUser && pcbs[q].kernelEsp0 >= PAGE_SIZE
      ensures Footprint(m', g', q, pcbs[q]) == Footprint(m, g, q, pcbs[q])
    {
      assert PcbOk(m, g, use, dirOwner, q, pcbs[q]) && PcbOk(m, g, use, dirOwner, p, pcbs[p]);
      var e := pcbs[q].pageDirectory / PAGE_SIZE;
      assert e != d;
      assert grew ==> free[1] in free && free[1] !in g.Pages();
      assert g'.TablesOf(e) == g.TablesOf(e);
    }
  }

  /** Two user tasks have no page in common. */
  lemma {:induction false} FootprintsDisjoint(
      m: seq<Page>, free: seq<nat>, g: Layout, pcbs: map<nat, Pcb>, use: map<nat, Use>, dirOwner: map<nat, nat>, p: nat,
      q: nat)
    requires PagingOk(m, free, g) && Owned(m, free, g, pcbs, use, dirOwner)
    requires p in pcbs && q in pcbs && p != q && pcbs[p].isUser && pcbs[q].isUser
    ensures Footprint(m, g, p, pcbs[p]) !! Footprint(m, g, q, pcbs[q])
  {
    hide EntryAt, PdIndex, PtIndex, KernelSlotOk, UserSlotOk, TableOk, UserPageOk, Footprint;
    assert PcbOk(m, g, use, dirOwner, p, pcbs[p]) && PcbOk(m, g, use, dirOwner, q, pcbs[q]);
    forall x | x in Footprint(m, g, p, pcbs[p])
      ensures x !in Footprint(m, g, q, pcbs[q])
    {
      FootprintOwned(m, free, g, pcbs, use, dirOwner, p, x);
      if x in Footprint(m, g, q, pcbs[q]) {
        FootprintOwned(m, free, g, pcbs, use, dirOwner, q, x);
      }
    }
  }

  /** The pages that move between the free list and user tasks. */
  ghost predicate InPool(m: seq<Page>, free: seq<nat>, g: Layout, pcbs: map<nat, Pcb>, x: nat) {
    x in free || exists p :: p in pcbs && InFootprint(m, g, pcbs, p, x)
  }

  ghost predicate InFootprint(m: seq<Page>, g: Layout, pcbs: map<nat, Pcb>, p: nat, x: nat)
    requires p in pcbs
  {
    pcbs[p].isUser && pcbs[p].kernelEsp0 >= PAGE_SIZE && x in Footprint(m, g, p, pcbs[p])
  }

  /** A task whose footprint takes up what the free list loses keeps the pool as it was. */
  lemma {:induction false} PoolKept(m: seq<Page>, free: seq<nat>, g: Layout, pcbs: map<nat, Pcb>,
                                    m': seq<Page>, free': seq<nat>, g': Layout, pcbs': map<nat, Pcb>, p: nat, t: Pcb)
    requires pcbs' == pcbs[p := t] && t.isUser && t.kernelEsp0 >= PAGE_SIZE && FootprintsKept(m, g, m', g', pcbs, p)
    requires forall x :: x in free <==>
             x in free' || (x in Footprint(m', g', p, t) && !(p in pcbs && InFootprint(m, g, pcbs, p, x)))
    requires p in pcbs ==> forall x :: InFootprint(m, g, pcbs, p, x) ==> x in Footprint(m', g', p, t)
    ensures forall x :: InPool(m', free', g', pcbs', x) <==> InPool(m, free, g, pcbs, x)
  {
    forall x
      ensures InPool(m', free', g', pcbs', x) <==> InPool(m, free, g, pcbs, x)
    {
      assert forall q :: q in pcbs && q != p ==> (InFootprint(m', g', pcbs', q, x) <==> InFootprint(m, g, pcbs, q, x));
      assert InFootprint(m', g', pcbs', p, x) <==> x in Footprint(m', g', p, t);
      if q :| q in pcbs && InFootprint(m, g, pcbs, q, x) {
        assert q in pcbs' && InFootprint(m', g', pcbs', q, x);
      }
    }
  }

  /** Handing whole footprints to the free list keeps the pool as it was. */
  lemma {:induction false} PoolAfterReap(m: seq<Page>, free: seq<nat>, g: Layout, pcbs: map<nat, Pcb>,
                                         m': seq<Page>, free': seq<nat>, g': Layout, pcbs': map<nat, Pcb>, zs: seq<nat>)
    requires forall z :: z in zs ==> z in pcbs && pcbs[z].isUser && pcbs[z].kernelEsp0 >= PAGE_SIZE
    requires forall q :: q in pcbs' <==> q in pcbs && q !in zs
    requires forall q, x :: q in pcbs' ==> (InFootprint(m', g', pcbs', q, x) <==> InFootprint(m, g, pcbs, q, x))
    requires forall x :: x in free' <==>
             x in free || exists i :: 0 <= i < |zs| && x in Footprint(m, g, zs[i], pcbs[zs[i]])
    ensures forall x :: InPool(m', free', g', pcbs', x) <==> InPool(m, free, g, pcbs, x)
  {
    hide Footprint;
    forall x
      ensures InPool(m', free', g', pcbs', x) <==> InPool(m, free, g, pcbs, x)
    {
      if i :| 0 <= i < |zs| && x in Footprint(m, g, zs[i], pcbs[zs[i]]) {
        assert InFootprint(m, g, pcbs, zs[i], x);
      }
      if q :| q in pcbs && InFootprint(m, g, pcbs, q, x) {
        if q in zs {
          var i :| 0 <= i < |zs| && zs[i] == q;
        } else {
          assert InFootprint(m', g', pcbs', q, x);
        }
      }
    }
  }

  lemma {:induction false} StateKeepsPool(
      m: seq<Page>, free: seq<nat>, g: Layout, was: map<nat, Pcb>, now: map<nat, Pcb>)
    requires now.Keys == was.Keys
    requires forall p :: p in now ==> now[p] == was[p].(state := now[p].state, ticksUsed := now[p].ticksUsed)
    ensures KeepsPool(Holding(m, free, g, was), Holding(m, free, g, now))
  {
    assert forall q, x :: q in now ==> (InFootprint(m, g, now, q, x) <==> InFootprint(m, g, was, q, x));
    hide InFootprint;
    assert forall q :: q in now <==> q in was;
  }

  /** The pages that matter for the pool, and who has them, at one moment. */
  datatype Holding = Holding(m: seq<Page>, free: seq<nat>, g: Layout, pcbs: map<nat, Pcb>)

  /** No page enters or leaves the pool, and tasks that remain occupy what they did. */
  ghost predicate KeepsPool(a: Holding, b: Holding) {
    && (forall x :: InPool(b.m, b.free, b.g, b.pcbs, x) <==> InPool(a.m, a.free, a.g, a.pcbs, x))
    && forall q, x :: q in b.pcbs && q in a.pcbs ==>
       (InFootprint(b.m, b.g, b.pcbs, q, x) <==> InFootprint(a.m, a.g, a.pcbs, q, x))
  }

  lemma {:induction false} SameFramesKeepPool(a: Holding, b: Holding)
    requires a.pcbs == b.pcbs && a.free == b.free && a.g == b.g
    requires forall p :: p in a.pcbs && a.pcbs[p].isUser && a.pcbs[p].kernelEsp0 >= PAGE_SIZE ==>
               Frames(b.m, a.pcbs[p].pageDirectory / PAGE_SIZE, a.pcbs[p].userPages) ==
                 Frames(a.m, a.pcbs[p].pageDirectory / PAGE_SIZE, a.pcbs[p].userPages)
    ensures KeepsPool(a, b)
  {
    hide Frames;
    assert forall q, x :: q in a.pcbs ==>
           (InFootprint(b.m, b.g, b.pcbs, q, x) <==> InFootprint(a.m, a.g, a.pcbs, q, x));
    hide InFootprint;
  }

  lemma {:induction false} KeepsPoolSelf(a: Holding)
    ensures KeepsPool(a, a)
  {}

  lemma {:induction false} KeepsPoolTransitive(a: Holding, b: Holding, c: Holding)
    requires KeepsPool(a, b) && KeepsPool(b, c) && a.pcbs.Keys * c.pcbs.Keys <= b.pcbs.Keys
    ensures KeepsPool(a, c)
  {
    hide InPool, InFootprint;
    assert forall q :: q in a.pcbs && q in c.pcbs ==> q in a.pcbs.Keys * c.pcbs.Keys;
  }

  /** As `KeepsPool`, except that task `p` may have grown. */
  ghost predicate KeepsPoolBut(a: Holding, b: Holding, p: nat) {
    && (forall x :: InPool(b.m, b.free, b.g, b.pcbs, x) <==> InPool(a.m, a.free, a.g, a.pcbs, x))
    && forall q, x :: q in b.pcbs && q in a.pcbs && q != p ==>
         (InFootprint(b.m, b.g, b.pcbs, q, x) <==> InFootprint(a.m, a.g, a.pcbs, q, x))
  }

  lemma {:induction false} KeepsPoolThroughGrowth(a: Holding, b: Holding, c: Holding, p: nat)
    requires KeepsPool(a, b) && KeepsPoolBut(b, c, p) && p !in a.pcbs && a.pcbs.Keys <= b.pcbs.Keys
    ensures KeepsPool(a, c)
  {
    hide InPool, InFootprint;
    assert forall q :: q in a.pcbs ==> q in b.pcbs.Keys;
  }

  lemma {:induction false} GrowthKeepsPool(a: Holding, b: Holding, p: nat, t: Pcb)
    requires b.pcbs == a.pcbs[p := t] && t.isUser && t.kernelEsp0 >= PAGE_SIZE
             && FootprintsKept(a.m, a.g, b.m, b.g, a.pcbs, p)
    requires forall x :: x in a.free <==>
             x in b.free || (x in Footprint(b.m, b.g, p, t) && !(p in a.pcbs && InFootprint(a.m, a.g, a.pcbs, p, x)))
    requires p in a.pcbs ==> forall x :: InFootprint(a.m, a.g, a.pcbs, p, x) ==> x in Footprint(b.m, b.g, p, t)
    ensures KeepsPoolBut(a, b, p)
    ensures p !in a.pcbs ==> KeepsPool(a, b)
  {
    PoolKept(a.m, a.free, a.g, a.pcbs, b.m, b.free, b.g, b.pcbs, p, t);
    hide InPool;
    assert forall q, x :: q in b.pcbs && q in a.pcbs && q != p ==>
        (InFootprint(b.m, b.g, b.pcbs, q, x) <==> InFootprint(a.m, a.g, a.pcbs, q, x));
  }

  /** With the same tasks occupying the same pages, the same pages are free. */
  lemma {:induction false} PoolDeterminesFree(
      a: Holding, b: Holding, useA: map<nat, Use>, ownA: map<nat, nat>, useB: map<nat, Use>, ownB: map<nat, nat>)
    requires PagingOk(a.m, a.free, a.g) && Owned(a.m, a.free, a.g, a.pcbs, useA, ownA)
    requires PagingOk(b.m, b.free, b.g) && Owned(b.m, b.free, b.g, b.pcbs, useB, ownB)
    requires KeepsPool(a, b) && a.pcbs.Keys == b.pcbs.Keys
    ensures forall x :: x in b.free <==> x in a.free
  {
    OccupiedNotFree(a, useA, ownA);
    OccupiedNotFree(b, useB, ownB);
    hide InFootprint, PagingOk, Owned;
    assert forall q :: q in a.pcbs <==> q in b.pcbs.Keys;
    forall x
      ensures x in b.free <==> x in a.free
    {
      assert InPool(b.m, b.free, b.g, b.pcbs, x) <==> InPool(a.m, a.free, a.g, a.pcbs, x);
    }
  }

  lemma {:induction false} OccupiedNotFree(a: Holding, use: map<nat, Use>, own: map<nat, nat>)
    requires PagingOk(a.m, a.free, a.g) && Owned(a.m, a.free, a.g, a.pcbs, use, own)
    ensures forall q, x :: q in a.pcbs && InFootprint(a.m, a.g, a.pcbs, q, x) ==> x !in a.free
  {
    forall q, x | q in a.pcbs && InFootprint(a.m, a.g, a.pcbs, q, x)
      ensures x !in a.free
    {
      FootprintNotFree(a.m, a.free, a.g, a.pcbs, use, own, q);
    }
  }

  /** The same pages are in the pool. */
  ghost predicate SamePages(a: Holding, b: Holding) {
    forall x :: InPool(b.m, b.free, b.g, b.pcbs, x) <==> InPool(a.m, a.free, a.g, a.pcbs, x)
  }

  lemma {:induction false} KeepsPoolSamePages(a: Holding, b: Holding)
    ensures KeepsPool(a, b) ==> SamePages(a, b)
    ensures forall p :: KeepsPoolBut(a, b, p) ==> SamePages(a, b)
  {
    hide InPool, InFootprint;
  }

  lemma {:induction false} SamePagesTransitive(a: Holding, b: Holding, c: Holding)
    requires SamePages(a, b) && SamePages(b, c)
    ensures SamePages(a, c)
  {
    hide InPool;
  }
}
