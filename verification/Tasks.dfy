/** Tasks, their memory and the scheduler of proc/task.c over the page-table manager. */
module Tasks {
  import opened Lists
  import opened FreeLists
  import opened PhysicalMemory
  import opened PageTables
  import opened VirtualMemory
  import opened RoundRobin
  import opened SchedulerProperties
  import opened SchedulerLaws
  import opened PageOwnership
  import Bitmaps

  /** Free a page that is in use outside the paging structures; no translation changes. */
  method FreeOwnedPage(vmm: Vmm, addr: nat)
    requires vmm.Valid() && addr % PAGE_SIZE == 0
    requires 0 < addr / PAGE_SIZE < vmm.pmm.mem.Length && addr / PAGE_SIZE !in vmm.pmm.list
             && addr / PAGE_SIZE !in vmm.layout.Pages()
    modifies vmm.pmm, vmm.pmm.bitmap, vmm.pmm.mem
    ensures vmm.Valid()
    ensures SameWalks(old(vmm.pmm.mem[..]), vmm.pmm.mem[..], vmm.layout)
    ensures vmm.pmm.mem[vmm.kernelDir] == old(vmm.pmm.mem[vmm.kernelDir])
    ensures vmm.pmm.list == [addr / PAGE_SIZE] + old(vmm.pmm.list)
  {
    hide Bitmaps.Bit, KernelSlotOk, UserSlotOk, TableOk, Threaded, Walk;
    ghost var m: seq<Page>, l := vmm.pmm.mem[..], vmm.pmm.list;
    assert vmm.kernelDir in vmm.layout.Pages();
    vmm.pmm.FreePage(addr);
    PagingFrame(m, l, vmm.pmm.mem[..], vmm.pmm.list, vmm.layout);
  }

  /** Take a page off the free list for use outside the paging structures. */
  method TakePage(vmm: Vmm) returns (addr: nat)
    requires vmm.Valid()
    modifies vmm.pmm, vmm.pmm.bitmap
    ensures vmm.Valid() && vmm.pmm.mem[..] == old(vmm.pmm.mem[..])
    ensures addr == 0 <==> old(vmm.pmm.list) == []
    ensures addr == 0 ==> vmm.pmm.list == old(vmm.pmm.list)
    ensures addr != 0 ==>
              && addr == old(vmm.pmm.list)[0] * PAGE_SIZE && 0 < addr / PAGE_SIZE < vmm.pmm.mem.Length
              && vmm.pmm.list == old(vmm.pmm.list)[1..]
              && addr / PAGE_SIZE !in vmm.layout.Pages() && addr / PAGE_SIZE !in vmm.pmm.list
  {
    hide Bitmaps.Bit, PagingOk, Threaded;
    if vmm.pmm.list != [] {
      vmm.HeadIsFresh();
    }
    addr := vmm.pmm.AllocPage();
  }

  /**
   * Take a run of pages off the free list for use outside the paging structures. Link words are written on the
   * way, yet no page table and no translation changes.
   */
  method TakePages(vmm: Vmm, count: nat) returns (addr: nat)
    requires vmm.Valid()
    modifies vmm.pmm, vmm.pmm.bitmap, vmm.pmm.mem
    ensures vmm.Valid()
    ensures SameWalks(old(vmm.pmm.mem[..]), vmm.pmm.mem[..], vmm.layout)
    ensures forall x :: x in vmm.layout.Pages() ==> vmm.pmm.mem[x] == old(vmm.pmm.mem[x])
    ensures addr == 0 <==> count == 0 || forall s: nat :: !RunFree(old(vmm.pmm.list), s, count)
    ensures addr == 0 ==> vmm.pmm.list == old(vmm.pmm.list)
    ensures addr != 0 ==>
              && FirstFit(old(vmm.pmm.list), count, addr / PAGE_SIZE)
              && vmm.pmm.list == RemoveRun(old(vmm.pmm.list), addr / PAGE_SIZE, count)
              && forall x :: x in old(vmm.pmm.list) && x !in vmm.pmm.list ==>
                   x < vmm.pmm.mem.Length && x !in vmm.layout.Pages()
  {
    hide Bitmaps.Bit, KernelSlotOk, UserSlotOk, TableOk, Threaded, Walk, RemoveRun, UnlinkRunMem, NoDup;
    ghost var m: seq<Page>, l := vmm.pmm.mem[..], vmm.pmm.list;
    vmm.pmm.ListInRange();
    vmm.pmm.ListDistinct();
    assert forall x :: x in l ==> x < |m| && x !in vmm.layout.Pages();
    addr := vmm.pmm.AllocContiguous(count);
    if count > 0 && exists s: nat :: RunFree(l, s, count) {
      RemoveRunFacts(l, addr / PAGE_SIZE, count);
    }
    PagingFrame(m, l, vmm.pmm.mem[..], vmm.pmm.list, vmm.layout);
  }

  /** proc/task.c:145-150 for one registered page. */
  method FreeUserPage(vmm: Vmm, dir: nat, virt: Word, ghost use: map<nat, Use>, ghost p: nat)
    requires vmm.Valid() && vmm.Live(dir)
    requires UserPageOk(vmm.pmm.mem[..], vmm.layout, use, p, dir / PAGE_SIZE, virt)
    requires var f := Frame(vmm.Entry(dir / PAGE_SIZE, virt));
             0 < f < vmm.pmm.mem.Length && f !in vmm.pmm.list && f !in vmm.layout.Pages()
    modifies vmm.pmm, vmm.pmm.bitmap, vmm.pmm.mem
    ensures vmm.Valid()
    ensures OthersSame(old(vmm.pmm.mem[..]), vmm.pmm.mem[..], vmm.layout, dir / PAGE_SIZE)
    ensures vmm.pmm.mem[vmm.kernelDir] == old(vmm.pmm.mem[vmm.kernelDir])
    ensures forall v: Word :: v % PAGE_SIZE == 0 && v != virt ==>
              EntryAt(vmm.pmm.mem[..], dir / PAGE_SIZE, v) == EntryAt(old(vmm.pmm.mem[..]), dir / PAGE_SIZE, v)
    ensures vmm.pmm.list == [old(Frame(vmm.Entry(dir / PAGE_SIZE, virt)))] + old(vmm.pmm.list)
  {
    hide Bitmaps.Bit, KernelSlotOk, UserSlotOk, TableOk, Threaded, Walk, PdIndex, PtIndex;
    ghost var m: seq<Page>, g := vmm.pmm.mem[..], vmm.layout;
    assert 0 !in g.Pages() && vmm.kernelDir in g.Pages();
    var phys := vmm.GetPhysAddr(dir, virt);
    if phys != 0 {
      var unmapped := vmm.UnmapPage(dir, virt);
      ghost var m1: seq<Page> := vmm.pmm.mem[..];
      FreeOwnedPage(vmm, phys);
      ReleasePage(m, m1, vmm.pmm.mem[..], g, dir / PAGE_SIZE, virt);
    }
  }

  /** proc/task.c:144-151. */
  method FreeUserPages(vmm: Vmm, dir: nat, pages: seq<Word>, ghost use: map<nat, Use>, ghost p: nat)
    requires vmm.Valid() && vmm.Live(dir) && NoDup(pages) && |pages| <= MAX_USER_PAGES
    requires UseOk(vmm.pmm.mem.Length, vmm.pmm.list, vmm.layout, use)
    requires forall k :: 0 <= k < |pages| ==> UserPageOk(vmm.pmm.mem[..], vmm.layout, use, p, dir / PAGE_SIZE, pages[k])
    modifies vmm.pmm, vmm.pmm.bitmap, vmm.pmm.mem
    ensures vmm.Valid()
    ensures OthersSame(old(vmm.pmm.mem[..]), vmm.pmm.mem[..], vmm.layout, dir / PAGE_SIZE)
    ensures vmm.pmm.mem[vmm.kernelDir] == old(vmm.pmm.mem[vmm.kernelDir])
    ensures FramesFreed(vmm.pmm.list, old(vmm.pmm.list), old(vmm.pmm.mem[..]), dir / PAGE_SIZE, pages, |pages|)
  {
    hide Bitmaps.Bit, KernelSlotOk, UserSlotOk, TableOk, Threaded, Walk, PdIndex, PtIndex;
    var d := dir / PAGE_SIZE;
    ghost var m0: seq<Page>, l0, g := vmm.pmm.mem[..], vmm.pmm.list, vmm.layout;
    var i := 0;
    while i < |pages| && i < 96
      invariant 0 <= i <= |pages| && vmm.Valid()
      invariant OthersSame(m0, vmm.pmm.mem[..], g, d)
      invariant vmm.pmm.mem[vmm.kernelDir] == m0[vmm.kernelDir]
      invariant forall k :: i <= k < |pages| ==> EntryAt(vmm.pmm.mem[..], d, pages[k]) == EntryAt(m0, d, pages[k])
      invariant FramesFreed(vmm.pmm.list, l0, m0, d, pages, i)
    {
      OneMoreFrame(m0, d, pages, i);
      FrameStillUsed(m0, g, use, p, d, pages, i);
      FreeUserPage(vmm, dir, pages[i], use, p);
      i := i + 1;
    }
    assert pages[..|pages|] == pages;
  }

  /** Frames of distinct registered pages are distinct. */
  lemma {:induction false} FrameStillUsed(
      m: seq<Page>, g: Layout, use: map<nat, Use>, p: nat, d: nat, pages: seq<Word>, i: nat)
    requires g.kdir < |m| && i < |pages| && NoDup(pages)
    requires forall k :: 0 <= k < |pages| ==> UserPageOk(m, g, use, p, d, pages[k])
    ensures Frame(EntryAt(m, d, pages[i])) in use && Frame(EntryAt(m, d, pages[i])) !in Frames(m, d, pages[..i])
  {
    hide EntryAt, PdIndex, PtIndex;
    assert UserPageOk(m, g, use, p, d, pages[i]);
    var before := pages[..i];
    forall k | 0 <= k < |before|
      ensures Frame(EntryAt(m, d, before[k])) != Frame(EntryAt(m, d, pages[i]))
    {
      assert UserPageOk(m, g, use, p, d, pages[k]) && pages[k] != pages[i];
    }
  }

  /** A singly linked list of PCBs through their `next` fields. */
  ghost predicate Chain(next: map<nat, nat>, head: nat, l: seq<nat>) {
    && head == NextAt(l, 0)
    && (forall i :: 0 <= i < |l| ==> l[i] != 0 && l[i] in next)
    && forall i: nat :: i < |l| ==> LinkTo(next, l, i)
  }

  ghost predicate LinkTo(next: map<nat, nat>, l: seq<nat>, i: nat)
    requires i < |l| && l[i] in next
  {
    next[l[i]] == NextAt(l, i + 1)
  }

  ghost function NextAt(l: seq<nat>, i: nat): nat {
    if i < |l| then l[i] else 0
  }

  lemma {:induction false} ChainForget(next: map<nat, nat>, head: nat, l: seq<nat>, z: nat)
    requires Chain(next, head, l) && z !in l
    ensures Chain(next - {z}, head, l)
  {
    forall i: nat | i < |l|
      ensures l[i] in next - {z} && LinkTo(next - {z}, l, i)
    {
      assert LinkTo(next, l, i) && l[i] in l;
    }
  }

  lemma {:induction false} ChainTail(next: map<nat, nat>, head: nat, l: seq<nat>)
    requires Chain(next, head, l) && NoDup(l) && l != []
    ensures Chain(next - {l[0]}, next[l[0]], l[1..])
  {
    assert LinkTo(next, l, 0);
    forall i: nat | i < |l| - 1
      ensures l[1..][i] in next - {l[0]} && LinkTo(next - {l[0]}, l[1..], i)
    {
      assert LinkTo(next, l, i + 1) && l[1..][i] == l[i + 1];
    }
  }

  lemma {:induction false} CandidatesOf(l: seq<nat>, x: nat)
    requires x in l
    ensures var f := Following(l, x);
            Candidates(l, x) == if |f| > MAX_TASKS + 1 then f[..MAX_TASKS + 1] else f
  {}

  /** The state in which the current task has just exited. */
  ghost predicate JustExited(t: Sched) {
    && t.current in t.pcbs && t.pcbs[t.current].state == Terminated
    && Safe(t.(pcbs := WithState(t.pcbs, t.current, Running)))
  }

  lemma {:induction false} AlmostSafe(t: Sched)
    requires JustExited(t)
    ensures NoDup(t.list) && NoDup(t.zombies) && t.current in t.list && t.current !in t.zombies
    ensures forall p :: p in t.list ==> p in t.pcbs && p !in t.zombies
    ensures forall p :: p in Without(t.list, t.current) ==> p in t.list && p != t.current
    ensures |Following(t.list, t.current)| == |t.list| - 1
  {
    FollowingMembers(t.list, t.current);
  }

  /** The state in which task `n` has taken over from the terminated one. */
  ghost function Succeeded(t: Sched, n: nat): Sched
    requires n in t.pcbs && t.current in t.list
  {
    t.(list := Without(t.list, t.current), zombies := [t.current] + t.zombies, current := n,
       pcbs := WithState(t.pcbs, n, Running), cr3 := Active(t.cr3, t.pcbs[n].pageDirectory))
  }

  lemma {:induction false} RetireAlmost(t: Sched, n: nat)
    requires JustExited(t) && |t.list| > 1 && n in t.pcbs && t.current in t.list
    requires var f, c := Following(t.list, t.current), Candidates(t.list, t.current);
             var j := FirstReady(t.pcbs, c);
             n == if f == [] then 0 else if j < 0 then f[0] else c[j]
    ensures Retire(t) == Succeeded(t, n) && Safe(Succeeded(t, n))
  {
    AlmostSafe(t);
    var s := t.(pcbs := WithState(t.pcbs, t.current, Running));
    assert t == s.(pcbs := WithState(s.pcbs, s.current, Terminated));
    RetireSafe(s, t);
  }

  lemma {:induction false} ActiveOwn(cr3: nat, dir: nat)
    requires dir != 0
    ensures Active(cr3, dir) == dir
  {}

  lemma {:induction false} StateOnly(pcbs: map<nat, Pcb>, p: nat, st: TaskState)
    requires p in pcbs
    ensures WithState(pcbs, p, st).Keys == pcbs.Keys
    ensures forall q :: q in pcbs ==>
              var t := WithState(pcbs, p, st)[q];
              t.isUser == pcbs[q].isUser && t.pageDirectory == pcbs[q].pageDirectory
                && t.kernelEsp0 == pcbs[q].kernelEsp0
  {}

  lemma {:induction false} RetireLast(t: Sched)
    requires JustExited(t) && |t.list| == 1
    ensures t.current in t.list && (forall p :: p in t.list ==> p in t.pcbs)
    ensures Retire(t) == t.(list := Without(t.list, t.current), zombies := [t.current] + t.zombies)
  {
    AlmostSafe(t);
  }

  /**
   * A scan that found the first `tries` tasks not ready has seen as much as the scheduler looks at, or stands
   * on the first ready one.
   */
  lemma {:induction false} ScanResult(pcbs: map<nat, Pcb>, f: seq<nat>, tries: nat)
    requires tries <= MAX_TASKS && forall k :: 0 <= k < tries && k < |f| ==> !IsReady(pcbs, f[k])
    ensures var c := if |f| > MAX_TASKS + 1 then f[..MAX_TASKS + 1] else f;
            var j := FirstReady(pcbs, c);
            && (tries < |f| && IsReady(pcbs, f[tries]) ==> j == tries)
            && (tries >= |f| || (tries == MAX_TASKS && !IsReady(pcbs, f[tries])) ==> j < 0)
  {
    var c := if |f| > MAX_TASKS + 1 then f[..MAX_TASKS + 1] else f;
    var j := FirstReady(pcbs, c);
    assert j >= 0 ==> c[j] == f[j];
    assert tries < |f| ==> c[tries] == f[tries];
  }

  /** The globals of proc/task.c and the live PCBs, keyed by address; a freed PCB is in neither map. */
  class Kernel {
    const vmm: Vmm
    var taskList: nat
    var currentTask: nat
    var zombieList: nat
    var idleTask: nat
    var tssEsp0: nat
    var pcbs: map<nat, Pcb>
    var next: map<nat, nat>
    ghost var list: seq<nat>
    ghost var zombies: seq<nat>
    ghost var use: map<nat, Use>
    ghost var dirOwner: map<nat, nat>

    constructor (vmm: Vmm)
      ensures this.vmm == vmm && currentTask == 0 && pcbs == map[] && list == [] && zombies == []
      ensures taskList == 0 && zombieList == 0 && next == map[] && use == map[] && dirOwner == map[]
    {
      this.vmm := vmm;
      taskList, currentTask, zombieList, idleTask, tssEsp0 := 0, 0, 0, 0, 0;
      pcbs, next := map[], map[];
      list, zombies, use, dirOwner := [], [], map[], map[];
    }

    ghost function View(): Sched
      reads this, vmm`currentDir
    {
      Sched(list, currentTask, zombies, pcbs, tssEsp0, vmm.currentDir)
    }

    /** Memory is partitioned among the free list, the paging structures and the tasks. */
    ghost predicate Partitioned()
      reads this`pcbs, this`use, this`dirOwner, vmm`layout, vmm.pmm, vmm.pmm.mem, vmm.pmm.bitmap
    {
      && vmm.Valid()
      && Owned(vmm.pmm.mem[..], vmm.pmm.list, vmm.layout, pcbs, use, dirOwner)
    }

    ghost predicate Linked()
      reads this
    {
      && Chain(next, taskList, list) && Chain(next, zombieList, zombies)
      && next.Keys == pcbs.Keys
    }

    /** Zombies are user tasks, and the directory in use is the current task's own. */
    ghost predicate Valid()
      reads this, vmm, vmm.pmm, vmm.pmm.mem, vmm.pmm.bitmap
    {
      && Partitioned() && Linked() && Safe(View())
      && (forall z :: z in zombies ==> pcbs[z].isUser)
      && vmm.currentDir == pcbs[currentTask].pageDirectory != 0
    }

    ghost function FootprintOf(p: nat): set<nat>
      requires p in pcbs && pcbs[p].kernelEsp0 >= PAGE_SIZE
      reads this`pcbs, vmm`layout, vmm.pmm, vmm.pmm.mem
    {
      Footprint(vmm.pmm.mem[..], vmm.layout, p, pcbs[p])
    }

    /** Page `x` belongs to user task `q`. */
    ghost predicate Occupies(q: nat, x: nat)
      requires q in pcbs
      reads this`pcbs, vmm`layout, vmm.pmm, vmm.pmm.mem
    {
      InFootprint(vmm.pmm.mem[..], vmm.layout, pcbs, q, x)
    }

    ghost function Held(): Holding
      reads this`pcbs, vmm`layout, vmm.pmm, vmm.pmm.mem
    {
      Holding(vmm.pmm.mem[..], vmm.pmm.list, vmm.layout, pcbs)
    }

    /** No page entered or left the pool, and the tasks that remain occupy what they did. */
    twostate predicate SamePool()
      reads this`pcbs, vmm`layout, vmm.pmm, vmm.pmm.mem
    {
      KeepsPool(old(Held()), Held())
    }

    lemma {:induction false} UserTaskFacts(p: nat)
      requires Partitioned() && p in pcbs && pcbs[p].isUser
      ensures pcbs[p].kernelEsp0 >= PAGE_SIZE && pcbs[p].kernelEsp0 % PAGE_SIZE == 0 && p % PAGE_SIZE == 0
      ensures vmm.Live(pcbs[p].pageDirectory) && pcbs[p].pageDirectory != 0
      ensures pcbs[p].pageDirectory / PAGE_SIZE < vmm.pmm.mem.Length
      ensures NoDup(pcbs[p].userPages) && |pcbs[p].userPages| <= MAX_USER_PAGES
      ensures forall k :: 0 <= k < |pcbs[p].userPages| ==>
                UserPageOk(vmm.pmm.mem[..], vmm.layout, use, p, pcbs[p].pageDirectory / PAGE_SIZE, pcbs[p].userPages[k])
      ensures StackOf(pcbs[p]) in use && p / PAGE_SIZE in use && StackOf(pcbs[p]) != p / PAGE_SIZE
      ensures StackOf(pcbs[p]) !in Frames(vmm.pmm.mem[..], pcbs[p].pageDirectory / PAGE_SIZE, pcbs[p].userPages)
      ensures p / PAGE_SIZE !in Frames(vmm.pmm.mem[..], pcbs[p].pageDirectory / PAGE_SIZE, pcbs[p].userPages)
    {
      hide EntryAt, PdIndex, PtIndex;
      var t, d := pcbs[p], pcbs[p].pageDirectory / PAGE_SIZE;
      assert PcbOk(vmm.pmm.mem[..], vmm.layout, use, dirOwner, p, t);
      assert d in vmm.layout.Pages();
      forall k | 0 <= k < |t.userPages|
        ensures use[Frame(EntryAt(vmm.pmm.mem[..], d, t.userPages[k]))].FramePage?
      {
        assert UserPageOk(vmm.pmm.mem[..], vmm.layout, use, p, d, t.userPages[k]);
      }
    }

    /** proc/task.c:141-161: everything free_task gives back. */
    method FreeTaskPages(z: nat)
      requires Partitioned() && z in pcbs && pcbs[z].isUser && pcbs[z].pageDirectory != vmm.currentDir
      modifies vmm`layout, vmm.pmm, vmm.pmm.bitmap, vmm.pmm.mem
      ensures vmm.Valid() && vmm.layout == old(vmm.layout).Without(pcbs[z].pageDirectory / PAGE_SIZE)
      ensures SameWalks(old(vmm.pmm.mem[..]), vmm.pmm.mem[..], vmm.layout)
      ensures vmm.pmm.mem[vmm.kernelDir] == old(vmm.pmm.mem[vmm.kernelDir])
      ensures old(pcbs[z].kernelEsp0 >= PAGE_SIZE)
      ensures forall x :: x in vmm.pmm.list <==> x in old(vmm.pmm.list) || x in old(FootprintOf(z))
    {
      hide Bitmaps.Bit, KernelSlotOk, UserSlotOk, TableOk, Threaded, Walk, PcbOk, EntryAt, UserPageOk;
      var t := pcbs[z];
      var dir := if t.pageDirectory != 0 then t.pageDirectory else vmm.currentDir;
      UserTaskFacts(z);
      FreeUserPages(vmm, dir, t.userPages, use, z);
      if t.kernelEsp0 != 0 {
        FreeOwnedPage(vmm, t.kernelEsp0 - PAGE_SIZE);
      }
      if t.pageDirectory != 0 && t.pageDirectory != vmm.currentDir {
        vmm.DestroyDirectory(t.pageDirectory);
      }
      FreeOwnedPage(vmm, z);
    }

    /** proc/task.c:139-162 for a user task that is off both lists and not the current one. */
    method FreeTask(z: nat)
      requires Partitioned() && z in pcbs && pcbs[z].isUser && pcbs[z].pageDirectory != vmm.currentDir
      modifies this`pcbs, this`next, this`use, this`dirOwner, vmm`layout, vmm.pmm, vmm.pmm.bitmap, vmm.pmm.mem
      ensures Partitioned()
      ensures pcbs == old(pcbs) - {z} && next == old(next) - {z}
      ensures old(pcbs[z].kernelEsp0 >= PAGE_SIZE)
      ensures forall x :: x in vmm.pmm.list <==> x in old(vmm.pmm.list) || x in old(FootprintOf(z))
      ensures forall q :: q in pcbs && pcbs[q].isUser && pcbs[q].kernelEsp0 >= PAGE_SIZE ==>
              FootprintOf(q) == old(FootprintOf(q))
    {
      hide Bitmaps.Bit, PagingOk, Threaded, Walk, PcbOk, EntryAt, UserPageOk;
      ghost var m: seq<Page>, l, g := vmm.pmm.mem[..], vmm.pmm.list, vmm.layout;
      FreeTaskPages(z);
      DropTask(m, l, g, vmm.pmm.mem[..], vmm.pmm.list, pcbs, use, dirOwner, z);
      ghost var d := pcbs[z].pageDirectory / PAGE_SIZE;
      pcbs, next := pcbs - {z}, next - {z};
      use, dirOwner := use - UsedBy(use, z), dirOwner - {d};
    }

    /** Zombies are whole user tasks, off the task list, in directories that are not in use. */
    ghost predicate ZombiesOk()
      reads this, vmm`currentDir
    {
      && NoDup(zombies)
      && forall z :: z in zombies ==>
           && z !in list && z in pcbs && pcbs[z].isUser && pcbs[z].kernelEsp0 >= PAGE_SIZE
           && pcbs[z].pageDirectory != vmm.currentDir
    }

    /** One round of proc/task.c:176-180. */
    method ReapOne()
      requires Partitioned() && Linked() && ZombiesOk() && zombieList != 0
      modifies this`zombieList, this`zombies, this`pcbs, this`next, this`use, this`dirOwner,
               vmm`layout, vmm.pmm, vmm.pmm.bitmap, vmm.pmm.mem
      ensures Partitioned() && Linked() && ZombiesOk()
      ensures old(zombies) != [] && zombies == old(zombies)[1..] && pcbs == old(pcbs) - {old(zombies)[0]}
      ensures forall x :: x in vmm.pmm.list <==>
              x in old(vmm.pmm.list) || old(zombies[0] in pcbs && Occupies(zombies[0], x))
      ensures SamePool()
    {
      hide Partitioned, Footprint, Chain;
      ghost var m: seq<Page>, l, g, p0 := vmm.pmm.mem[..], vmm.pmm.list, vmm.layout, pcbs;
      assert zombies != [] && zombieList == zombies[0] && zombieList in next by {
        ChainStart(next, zombieList, zombies);
      }
      var z := zombieList;
      assert z in zombies;
      ChainForget(next, taskList, list, z);
      ChainTail(next, zombieList, zombies);
      zombieList := next[z];
      zombies := zombies[1..];
      assert forall y :: y in zombies <==> y in old(zombies) && y != z by {
        NoDupTail(old(zombies));
      }
      FreeTask(z);
      PoolAfterReap(m, l, g, p0, vmm.pmm.mem[..], vmm.pmm.list, vmm.layout, pcbs, [z]);
    }

    /** Whether page `x` is part of the footprint of one of the first `k` tasks of `zs`. */
    ghost predicate Occupied(zs: seq<nat>, k: nat, x: nat)
      requires k <= |zs| && forall z :: z in zs ==> z in pcbs
      reads this`pcbs, vmm`layout, vmm.pmm, vmm.pmm.mem
    {
      exists i :: 0 <= i < k && Occupies(zs[i], x)
    }

    /** proc/task.c:175-181. Every zombie's pages go back to the free list, and nothing else does. */
    method ReapZombies()
      requires Partitioned() && Linked() && ZombiesOk()
      modifies this`zombieList, this`zombies, this`pcbs, this`next, this`use, this`dirOwner,
               vmm`layout, vmm.pmm, vmm.pmm.bitmap, vmm.pmm.mem
      ensures Partitioned() && Linked() && zombies == []
      ensures old(ZombiesOk())
      ensures pcbs == old(pcbs) - (set z | z in old(zombies))
      ensures forall x :: x in vmm.pmm.list <==> x in old(vmm.pmm.list) || old(Occupied(zombies, |zombies|, x))
      ensures SamePool()
    {
      hide Partitioned, InFootprint, Chain, InPool;
      ghost var z0, p0, l0 := zombies, pcbs, vmm.pmm.list;
      ghost var k := 0;
      while zombieList != 0
        invariant 0 <= k <= |z0| && zombies == z0[k..]
        invariant Partitioned() && Linked() && ZombiesOk()
        invariant pcbs == p0 - (set z | z in z0[..k])
        invariant SamePool()
        invariant forall x :: x in vmm.pmm.list <==> x in l0 || old(Occupied(z0, k, x))
        decreases |z0| - k
      {
        ReapOne();
        assert z0[..k + 1] == z0[..k] + [z0[k]];
        k := k + 1;
      }
      assert z0[k..] == [] by {
        ChainStart(next, zombieList, zombies);
      }
      assert z0[..k] == z0;
    }

    /** Put a PCB at the head of the task list. */
    method Link(p: nat, t: Pcb)
      requires Linked() && p != 0 && p !in pcbs && forall x :: x in list || x in zombies ==> x in pcbs
      modifies this`pcbs, this`next, this`taskList, this`list
      ensures Linked() && list == [p] + old(list) && pcbs == old(pcbs)[p := t]
    {
      hide Chain;
      ChainPush(next, taskList, list, p);
      ChainIgnore(next, zombieList, zombies, p, taskList);
      pcbs := pcbs[p := t];
      next := next[p := taskList];
      taskList := p;
      list := [p] + list;
    }

    /** proc/task.c:214-264: a kernel task, made while the kernel directory is active. */
    method TaskCreate(entry: nat) returns (task: nat)
      requires Partitioned() && Linked() && (forall x :: x in list || x in zombies ==> x in pcbs)
      requires vmm.currentDir == vmm.kernelDir * PAGE_SIZE
      modifies this`pcbs, this`next, this`taskList, this`list, this`use, vmm.pmm, vmm.pmm.bitmap, vmm.pmm.mem
      ensures Partitioned() && Linked()
      ensures task == 0 <==> entry == 0 || |old(vmm.pmm.list)| < 2
      ensures task == 0 ==> list == old(list) && pcbs == old(pcbs) && vmm.pmm.list == old(vmm.pmm.list)
      ensures task != 0 ==>
                && list == [task] + old(list) && task !in old(pcbs) && task / PAGE_SIZE == old(vmm.pmm.list)[0]
                && pcbs == old(pcbs)[task := Pcb(Ready, 0, old(vmm.pmm.list)[1] * PAGE_SIZE + PAGE_SIZE, false,
                   vmm.currentDir, [])]
                && vmm.pmm.list == old(vmm.pmm.list)[2..]
    {
      hide Bitmaps.Bit, PagingOk, Threaded, PcbOk, UseOk, Chain;
      if entry == 0 {
        return 0;
      }
      ghost var m: seq<Page>, l := vmm.pmm.mem[..], vmm.pmm.list;
      task := TakePage(vmm);
      if task == 0 {
        return;
      }
      var stack := TakePage(vmm);
      if stack == 0 {
        FreeOwnedPage(vmm, task);
        assert vmm.pmm.list == l;
        OwnedFrame(m, l, vmm.layout, vmm.pmm.mem[..], l, vmm.layout, pcbs, use, dirOwner);
        return 0;
      }
      var t := Pcb(Ready, 0, stack + PAGE_SIZE, false, vmm.currentDir, []);
      assert l == [l[0], l[1]] + vmm.pmm.list;
      AddKernelTask(m, l, vmm.pmm.list, vmm.layout, pcbs, use, dirOwner, task, stack / PAGE_SIZE, t);
      use := use[task / PAGE_SIZE := PcbPage(task)][stack / PAGE_SIZE := StackPage(task)];
      FreePageUnused(m, l, vmm.layout, old(pcbs), old(use), dirOwner, task);
      Link(task, t);
    }

    /** proc/task.c:291-295. */
    method GiveBackTwo(kstack: nat, task: nat, ghost l: seq<nat>)
      requires vmm.Valid() && Owned(vmm.pmm.mem[..], l, vmm.layout, pcbs, use, dirOwner)
      requires kstack % PAGE_SIZE == 0 && task % PAGE_SIZE == 0
               && [task / PAGE_SIZE, kstack / PAGE_SIZE] + vmm.pmm.list == l
      requires 0 < kstack / PAGE_SIZE < vmm.pmm.mem.Length && 0 < task / PAGE_SIZE < vmm.pmm.mem.Length
      requires kstack / PAGE_SIZE !in vmm.layout.Pages() && task / PAGE_SIZE !in vmm.layout.Pages()
      requires NoDup(l)
      modifies vmm.pmm, vmm.pmm.bitmap, vmm.pmm.mem
      ensures vmm.Valid() && Owned(vmm.pmm.mem[..], l, vmm.layout, pcbs, use, dirOwner)
      ensures vmm.pmm.list == l
      ensures forall h: Holding :: h == Holding(old(vmm.pmm.mem[..]), l, vmm.layout, pcbs) ==> KeepsPool(h, Held())
    {
      hide Bitmaps.Bit, PagingOk, Threaded, PcbOk, UseOk, Walk, EntryAt, KeepsPool, Frames;
      ghost var m: seq<Page>, g := vmm.pmm.mem[..], vmm.layout;
      assert l[0] !in l[1..] && l[1] !in l[2..] && l[2..] == vmm.pmm.list;
      hide NoDup;
      FreeOwnedPage(vmm, kstack);
      ghost var m1: seq<Page> := vmm.pmm.mem[..];
      assert vmm.pmm.list == l[1..];
      FreeOwnedPage(vmm, task);
      assert vmm.pmm.list == l;
      OwnedFrame(m, l, g, m1, l, g, pcbs, use, dirOwner);
      OwnedFrame(m1, l, g, vmm.pmm.mem[..], l, g, pcbs, use, dirOwner);
      SameFramesKeepPool(Holding(m, l, g, pcbs), Held());
    }

    /** proc/task.c:273-295: PCB, kernel stack and directory, or none of them. */
    method TakeThree() returns (task: nat, kstack: nat, dir: nat)
      requires Partitioned()
      modifies vmm`layout, vmm.pmm, vmm.pmm.bitmap, vmm.pmm.mem
      ensures vmm.Valid()
      ensures task == 0 <==> |old(vmm.pmm.list)| < 3
      ensures task == 0 ==> Partitioned() && vmm.layout == old(vmm.layout) && vmm.pmm.list == old(vmm.pmm.list)
                            && SamePool()
      ensures task != 0 ==>
                && task == old(vmm.pmm.list)[0] * PAGE_SIZE && kstack == old(vmm.pmm.list)[1] * PAGE_SIZE
                && dir == old(vmm.pmm.list)[2] * PAGE_SIZE && vmm.pmm.list == old(vmm.pmm.list)[3..]
                && 0 < task / PAGE_SIZE < vmm.pmm.mem.Length && 0 < kstack / PAGE_SIZE < vmm.pmm.mem.Length && dir != 0
                && vmm.layout == old(vmm.layout).(dirs := old(vmm.layout.dirs) + {dir / PAGE_SIZE})
                && SameWalks(old(vmm.pmm.mem[..]), vmm.pmm.mem[..], old(vmm.layout))
                && vmm.pmm.mem[vmm.kernelDir] == old(vmm.pmm.mem[vmm.kernelDir])
    {
      hide Bitmaps.Bit, PagingOk, Threaded, PcbOk, UseOk, Walk, EntryAt, KeepsPool, Frames;
      ghost var h := Held();
      KeepsPoolSelf(h);
      ghost var m: seq<Page>, l, g := vmm.pmm.mem[..], vmm.pmm.list, vmm.layout;
      vmm.pmm.ListDistinct();
      hide NoDup;
      kstack, dir := 0, 0;
      task := TakePage(vmm);
      if task == 0 {
        return;
      }
      kstack := TakePage(vmm);
      if kstack == 0 {
        FreeOwnedPage(vmm, task);
        assert vmm.pmm.list == l;
        OwnedFrame(m, l, g, vmm.pmm.mem[..], l, g, pcbs, use, dirOwner);
        SameFramesKeepPool(h, Held());
        task := 0;
        return;
      }
      ghost var l2 := vmm.pmm.list;
      assert l == [l[0], l[1]] + l2;
      dir := vmm.CreateDirectory();
      if dir == 0 {
        GiveBackTwo(kstack, task, l);
        task := 0;
        return;
      }
      assert vmm.pmm.list == l[3..];
    }

    /** proc/task.c:269-337. On success the new task's footprint is exactly what left the free list;
        on failure every page taken so far has gone back. */
    method TaskCreateUser(entry: nat, stack: nat) returns (task: nat)
      requires Partitioned() && Linked() && (forall x :: x in list || x in zombies ==> x in pcbs)
      modifies this`pcbs, this`next, this`taskList, this`list, this`use, this`dirOwner,
               vmm`layout, vmm.pmm, vmm.pmm.bitmap, vmm.pmm.mem
      ensures Partitioned() && Linked()
      ensures task == 0 <==> entry == 0 || stack == 0 || |old(vmm.pmm.list)| < 3
      ensures task == 0 ==> list == old(list) && pcbs == old(pcbs) && vmm.pmm.list == old(vmm.pmm.list)
      ensures task != 0 ==>
                && list == [task] + old(list) && task !in old(pcbs) && task == old(vmm.pmm.list)[0] * 4096
                && pcbs == old(pcbs)[task := Pcb(Ready, 0, old(vmm.pmm.list)[1] * 4096 + 4096, true,
                                                 old(vmm.pmm.list)[2] * 4096, [])]
                && FootprintOf(task) == (set x | x in old(vmm.pmm.list)[..3])
                && vmm.pmm.list == old(vmm.pmm.list)[3..]
      ensures SamePool()
    {
      hide Bitmaps.Bit, PagingOk, Threaded, Owned, Chain, SameWalks, KeepsPool, NoDup, Footprint;
      KeepsPoolSelf(Held());
      ghost var m: seq<Page>, l, g := vmm.pmm.mem[..], vmm.pmm.list, vmm.layout;
      vmm.pmm.ListDistinct();
      assert vmm.kernelDir < |m| && m[vmm.kernelDir] == vmm.pmm.mem[vmm.kernelDir] by {
        vmm.KernelDirInside();
      }
      if entry == 0 || stack == 0 {
        return 0;
      }
      var kstack, dir;
      task, kstack, dir := TakeThree();
      if task == 0 {
        return;
      }
      Admit(task, kstack, dir, m, l, g);
    }

    /** proc/task.c:316-334: the three pages become the task's block, kernel stack and directory. */
    method Admit(task: nat, kstack: nat, dir: nat, ghost m: seq<Page>, ghost l: seq<nat>, ghost g: Layout)
      requires vmm.Valid() && Linked() && (forall x :: x in list || x in zombies ==> x in pcbs)
      requires PagingOk(m, l, g) && Owned(m, l, g, pcbs, use, dirOwner) && |m| == vmm.pmm.mem.Length
      requires NoDup(l) && |l| >= 3 && vmm.pmm.list == l[3..]
      requires task == l[0] * PAGE_SIZE && kstack == l[1] * PAGE_SIZE && dir == l[2] * PAGE_SIZE
      requires 0 < task / PAGE_SIZE < |m| && 0 < kstack / PAGE_SIZE < |m|
      requires vmm.layout == g.(dirs := g.dirs + {dir / PAGE_SIZE})
      requires SameWalks(m, vmm.pmm.mem[..], g) && g.kdir == vmm.kernelDir && vmm.pmm.mem[vmm.kernelDir] == m[g.kdir]
      modifies this`pcbs, this`next, this`taskList, this`list, this`use, this`dirOwner
      ensures Partitioned() && Linked()
      ensures list == [task] + old(list) && task !in old(pcbs)
      ensures pcbs == old(pcbs)[task := Pcb(Ready, 0, kstack + PAGE_SIZE, true, dir, [])]
      ensures FootprintOf(task) == (set x | x in l[..3])
      ensures KeepsPool(Holding(m, l, g, old(pcbs)), Held())
    {
      hide Bitmaps.Bit, PagingOk, Threaded, PcbOk, UseOk, Chain, Walk, SameWalks, KeepsPool, NoDup, InFootprint;
      hide FootprintsKept;
      hide Pmm.Valid, Footprint;
      AfterThree(l);
      ghost var h := Holding(m, l, g, pcbs);
      var t := Pcb(Ready, 0, kstack + PAGE_SIZE, true, dir, []);
      AddUserTask(m, l, g, vmm.pmm.mem[..], vmm.pmm.list, vmm.layout, pcbs, use, dirOwner, task, kstack / PAGE_SIZE,
        dir / PAGE_SIZE, t);
      use := use[task / PAGE_SIZE := PcbPage(task)][kstack / PAGE_SIZE := StackPage(task)];
      dirOwner := dirOwner[dir / PAGE_SIZE := task];
      Link(task, t);
      GrowthKeepsPool(h, Held(), task, t);
    }

    /** A frame from the free list, mapped at `virt` in the task's own directory; 0 if that fails. */
    method MapNewFrame(p: nat, virt: Word) returns (frame: nat, ghost grew: bool)
      requires Partitioned() && p in pcbs && pcbs[p].isUser && pcbs[p].kernelEsp0 >= PAGE_SIZE
      modifies vmm`layout, vmm.pmm, vmm.pmm.bitmap, vmm.pmm.mem
      ensures vmm.Valid() && vmm.pmm.mem[vmm.kernelDir] == old(vmm.pmm.mem[vmm.kernelDir])
      ensures frame == 0 ==> Partitioned() && vmm.pmm.list == old(vmm.pmm.list) && vmm.layout == old(vmm.layout)
                             && SamePool()
      ensures frame != 0 ==> vmm.Entry(pcbs[p].pageDirectory / PAGE_SIZE, virt) == frame + 7
      ensures frame != 0 ==>
                && UserAccess(vmm.pmm.mem[..], pcbs[p].pageDirectory / PAGE_SIZE, PdIndex(virt), PtIndex(virt))
                && WriteAccess(vmm.pmm.mem[..], pcbs[p].pageDirectory / PAGE_SIZE, PdIndex(virt), PtIndex(virt))
      ensures frame != 0 ==>
                && old(vmm.pmm.list) != [] && frame == old(vmm.pmm.list)[0] * PAGE_SIZE
                && 0 < frame / PAGE_SIZE < vmm.pmm.mem.Length
                && !Present(vmm.pmm.mem[vmm.kernelDir][PdIndex(virt)])
                && Wrote(old(vmm.pmm.mem[..]), vmm.pmm.mem[..], old(vmm.layout), pcbs[p].pageDirectory / PAGE_SIZE,
                         PdIndex(virt), PtIndex(virt), SetEntry(frame, WRITE + USER_FLAG))
                && if !grew then vmm.layout == old(vmm.layout) && vmm.pmm.list == old(vmm.pmm.list)[1..]
                   else && |old(vmm.pmm.list)| > 1 && vmm.pmm.list == old(vmm.pmm.list)[2..]
                        && vmm.layout == old(vmm.layout).(tables := old(vmm.layout.tables)[old(vmm.pmm.list)[1] :=
                                                          UserTable(pcbs[p].pageDirectory / PAGE_SIZE, PdIndex(virt))])
    {
      hide Bitmaps.Bit, PagingOk, Threaded, PcbOk, UseOk, Walk, SameWalks, Wrote, EntryAt, PdIndex, PtIndex, SetEntry;
      hide KeepsPool, Frames;
      ghost var h := Held();
      KeepsPoolSelf(h);
      ghost var m: seq<Page>, l, g := vmm.pmm.mem[..], vmm.pmm.list, vmm.layout;
      UserTaskFacts(p);
      var dir := pcbs[p].pageDirectory;
      grew := false;
      frame := TakePage(vmm);
      if frame == 0 {
        return;
      }
      grew := !Present(m[dir / PAGE_SIZE][PdIndex(virt)]);
      var ok := vmm.MapPage(dir, virt, frame, WRITE + USER_FLAG);
      if !ok {
        ghost var m1: seq<Page> := vmm.pmm.mem[..];
        FreeOwnedPage(vmm, frame);
        assert vmm.pmm.list == l;
        OwnedFrame(m, l, g, m1, l, g, pcbs, use, dirOwner);
        OwnedFrame(m1, l, g, vmm.pmm.mem[..], l, g, pcbs, use, dirOwner);
        SameFramesKeepPool(h, Held());
        frame := 0;
        return;
      }
      UserMapMissesKernel(m, l, g, dir / PAGE_SIZE, PdIndex(virt));
      WroteThere(m, vmm.pmm.mem[..], g, dir / PAGE_SIZE, PdIndex(virt), PtIndex(virt),
        SetEntry(frame, WRITE + USER_FLAG));
      EntryFormat(frame, WRITE + USER_FLAG);
    }

    /** kmain.c:148-175 and 236-246 for one page: take a frame, map it with user access in the task's
        own directory, register it; a frame that cannot be mapped goes back. */
    method AddUserPage(p: nat, virt: Word) returns (ok: bool)
      requires Partitioned() && p in pcbs && pcbs[p].isUser && pcbs[p].kernelEsp0 >= PAGE_SIZE
      requires virt % PAGE_SIZE == 0 && virt !in pcbs[p].userPages && |pcbs[p].userPages| < MAX_USER_PAGES
      modifies this`pcbs, this`use, vmm`layout, vmm.pmm, vmm.pmm.bitmap, vmm.pmm.mem
      ensures Partitioned()
      ensures !ok ==> pcbs == old(pcbs) && vmm.pmm.list == old(vmm.pmm.list) && vmm.layout == old(vmm.layout)
      ensures ok ==> pcbs == old(pcbs)[p := old(pcbs)[p].(userPages := old(pcbs)[p].userPages + [virt])]
      ensures ok ==> forall x :: x in old(vmm.pmm.list) <==>
              x in vmm.pmm.list || (x in FootprintOf(p) && x !in old(FootprintOf(p)))
      ensures ok ==> forall x :: x in old(FootprintOf(p)) ==> x in FootprintOf(p)
      ensures ok ==> old(vmm.pmm.list) != []
                     && vmm.Entry(pcbs[p].pageDirectory / PAGE_SIZE, virt) == old(vmm.pmm.list)[0] * 4096 + 7
      ensures ok ==>
                && UserAccess(vmm.pmm.mem[..], pcbs[p].pageDirectory / PAGE_SIZE, PdIndex(virt), PtIndex(virt))
                && WriteAccess(vmm.pmm.mem[..], pcbs[p].pageDirectory / PAGE_SIZE, PdIndex(virt), PtIndex(virt))
      ensures KeepsPoolBut(old(Held()), Held(), p)
    {
      hide Bitmaps.Bit, PagingOk, Threaded, PcbOk, UseOk, Walk, SameWalks, Wrote, EntryAt, PdIndex, PtIndex, SetEntry;
      hide Footprint, InPool;
      ghost var h := Held();
      ghost var m: seq<Page>, l, g := vmm.pmm.mem[..], vmm.pmm.list, vmm.layout;
      vmm.pmm.ListDistinct();
      ghost var grew;
      var frame;
      frame, grew := MapNewFrame(p, virt);
      if frame == 0 {
        return false;
      }
      var t' := pcbs[p].(userPages := pcbs[p].userPages + [virt]);
      AddFramePreconditions(m, l, g, vmm.pmm.list, vmm.layout, pcbs, use, dirOwner, grew,
                            UserTable(pcbs[p].pageDirectory / PAGE_SIZE, PdIndex(virt)));
      hide NoDup;
      AddFrame(m, l, g, vmm.pmm.mem[..], vmm.pmm.list, vmm.layout, pcbs, use, dirOwner, p, frame / PAGE_SIZE, virt,
        SetEntry(frame, WRITE + USER_FLAG));
      FootprintGrows(m, l, g, vmm.pmm.mem[..], vmm.pmm.list, vmm.layout, pcbs, use, dirOwner, p, t', frame / PAGE_SIZE,
        grew);
      KeptFromFrames(m, g, vmm.pmm.mem[..], vmm.layout, pcbs, p, pcbs[p].pageDirectory / PAGE_SIZE, PdIndex(virt), l,
        use, dirOwner, grew);
      pcbs := pcbs[p := t'];
      use := use[frame / PAGE_SIZE := FramePage(p, virt)];
      GrowthKeepsPool(h, Held(), p, t');
      ok := true;
    }

    /** The successor in cyclic list order, as both scans compute it. */
    function Cyclic(p: nat): nat
      requires p in next
      reads this`next, this`taskList
    {
      if next[p] != 0 then next[p] else taskList
    }

    /** proc/task.c:420-432: the first ready task after the current one, 0 if none is found. */
    method FindNext() returns (n: nat)
      requires Linked() && NoDup(list) && currentTask in list && forall p :: p in list ==> p in pcbs
      ensures var c := Candidates(list, currentTask); var j := FirstReady(pcbs, c); n == if j < 0 then 0 else c[j]
    {
      hide NoDup, Chain, Following;
      ghost var f, c := Following(list, currentTask), Candidates(list, currentTask);
      FollowingMembers(list, currentTask);
      CycleStart(next, taskList, list, currentTask);
      assert currentTask in next;
      n := Cyclic(currentTask);
      if n == currentTask {
        return 0;
      }
      var tries := 0;
      while pcbs[n].state != Ready && tries < 32
        invariant 0 <= tries <= 32 && tries < |f| && n == f[tries]
        invariant forall k :: 0 <= k < tries ==> !IsReady(pcbs, f[k])
        decreases 32 - tries
      {
        assert n in f;
        CycleStep(next, taskList, list, currentTask, tries);
        n := Cyclic(n);
        tries := tries + 1;
        if n == currentTask {
          return 0;
        }
      }
      assert f[tries] in f;
      ScanResult(pcbs, f, tries);
      if pcbs[n].state != Ready {
        return 0;
      }
    }

    /** proc/task.c:365-375: take the current task out of the task list. */
    method UnlinkCurrent()
      requires Linked() && NoDup(list) && currentTask in list && forall z :: z in zombies ==> z !in list
      modifies this`next, this`taskList, this`list
      ensures Linked() && list == Without(old(list), currentTask)
      ensures next[currentTask] == old(next[currentTask]) == NextAt(old(list), Index(old(list), currentTask) + 1)
    {
      ghost var at := Index(list, currentTask);
      ghost var i := 0;
      var prev, t := 0, taskList;
      while t != 0 && t != currentTask
        invariant 0 <= i <= at && t == list[i]
        invariant prev == if i == 0 then 0 else list[i - 1]
        decreases |list| - i
      {
        assert LinkTo(next, list, i);
        prev := t;
        t := next[t];
        i := i + 1;
      }
      ChainUnlink(next, taskList, list, i);
      ChainIgnoreAt(next, zombieList, zombies, list, i);
      assert i == at && LinkTo(next, list, i);
      if t == currentTask {
        if prev != 0 {
          next := next[prev := next[currentTask]];
        } else {
          taskList := next[currentTask];
        }
      }
      list := Without(list, currentTask);
    }

    /** proc/task.c:170-173. */
    method FreeTaskLater(p: nat)
      requires Linked() && p != 0 && p in pcbs && p !in list && p !in zombies
      modifies this`next, this`zombieList, this`zombies
      ensures Linked() && zombies == [p] + old(zombies)
    {
      hide Chain;
      ChainIgnore(next, taskList, list, p, zombieList);
      ChainPush(next, zombieList, zombies, p);
      next := next[p := zombieList];
      zombieList := p;
      zombies := [p] + zombies;
    }

    /** proc/task.c:390-398: starting from `start`, the first ready task of the shortened list, or
        `start` itself; `x` is the task that left `l`. */
    method PickReady(start: nat, ghost l: seq<nat>, ghost x: nat) returns (n: nat)
      requires Linked() && NoDup(l) && x in l && list == Without(l, x) && list != [] && start == Following(l, x)[0]
      requires forall p :: p in list ==> p in pcbs
      ensures var c := Candidates(l, x); var j := FirstReady(pcbs, c); n == if j < 0 then start else c[j]
    {
      hide NoDup, Chain, Following, Without, Index, Candidates, FirstReady;
      ghost var f, c := Following(l, x), Candidates(l, x);
      FollowingMembers(l, x);
      CycleWithoutStart(next, taskList, l, x);
      assert forall p :: p in f ==> p in pcbs && p in next;
      var pick, tries := start, 0;
      ghost var i := 0;
      while pcbs[pick].state != Ready && tries < 32
        invariant 0 <= tries <= 32 && 0 <= i < |f| && pick == f[i] && pick in pcbs
        invariant tries < |f| ==> i == tries
        invariant forall k :: 0 <= k < tries && k < |f| ==> !IsReady(pcbs, f[k])
        decreases 32 - tries
      {
        assert pick in f;
        CycleWithout(next, taskList, l, x, i);
        pick := Cyclic(pick);
        i := if i + 1 < |f| then i + 1 else 0;
        tries := tries + 1;
        assert f[i] in f;
      }
      assert IsReady(pcbs, pick) ==> tries < |f|;
      ScanResult(pcbs, f, tries);
      CandidatesOf(l, x);
      n := if pcbs[pick].state == Ready then pick else start;
    }

    /** A state that is safe except that the current task may have just been marked terminated. */
    ghost predicate AlmostValid()
      reads this, vmm, vmm.pmm, vmm.pmm.mem, vmm.pmm.bitmap
    {
      && Partitioned() && Linked()
      && currentTask in pcbs && (pcbs[currentTask].state == Terminated ==> pcbs[currentTask].isUser)
      && Safe(View().(pcbs := WithState(pcbs, currentTask, Running)))
      && (pcbs[currentTask].state == Running || pcbs[currentTask].state == Terminated)
      && (forall z :: z in zombies ==> pcbs[z].isUser)
      && vmm.currentDir == pcbs[currentTask].pageDirectory != 0
    }

    /** Two user tasks never share a directory, and no user task has the kernel's. */
    lemma {:induction false} OwnDirectory(p: nat, q: nat)
      requires Partitioned() && p in pcbs && q in pcbs && p != q && pcbs[p].isUser
      ensures pcbs[p].pageDirectory != pcbs[q].pageDirectory
      ensures pcbs[q].pageDirectory != 0 && pcbs[p].pageDirectory != 0 && pcbs[p].kernelEsp0 >= PAGE_SIZE
    {
      hide UserPageOk, KernelSlotOk, UserSlotOk, TableOk;
      assert PcbOk(vmm.pmm.mem[..], vmm.layout, use, dirOwner, p, pcbs[p]);
      assert PcbOk(vmm.pmm.mem[..], vmm.layout, use, dirOwner, q, pcbs[q]);
      assert vmm.kernelDir in vmm.layout.Pages();
      assert pcbs[q].isUser ==> pcbs[q].pageDirectory / PAGE_SIZE in vmm.layout.Pages();
      assert pcbs[p].pageDirectory / PAGE_SIZE in vmm.layout.Pages();
    }

    /** Changing scheduling fields of a PCB leaves the partition alone. */
    lemma {:induction false} StateIrrelevant(
        m: seq<Page>, free: seq<nat>, g: Layout, was: map<nat, Pcb>, now: map<nat, Pcb>, u: map<nat, Use>,
        o: map<nat, nat>)
      requires Owned(m, free, g, was, u, o)
      requires forall p :: p in now ==>
               p in was && now[p] == was[p].(state := now[p].state, ticksUsed := now[p].ticksUsed)
      ensures Owned(m, free, g, now, u, o)
    {
      hide UserPageOk;
      forall p | p in now
        ensures PcbOk(m, g, u, o, p, now[p])
      {
        assert PcbOk(m, g, u, o, p, was[p]);
      }
    }

    /** proc/task.c:404-407 and 451-453. */
    method ActivateDirectory(dir: nat)
      modifies vmm`currentDir
      ensures vmm.currentDir == Active(old(vmm.currentDir), dir)
    {
      if dir != 0 && dir != vmm.currentDir {
        vmm.SwitchDirectory(dir);
      }
    }

    method SetState(p: nat, st: TaskState)
      requires Partitioned() && p in pcbs
      modifies this`pcbs
      ensures Partitioned() && pcbs == WithState(old(pcbs), p, st) && SamePool()
    {
      hide Vmm.Valid, PcbOk, UseOk, KeepsPool;
      StateIrrelevant(vmm.pmm.mem[..], vmm.pmm.list, vmm.layout, pcbs, WithState(pcbs, p, st), use, dirOwner);
      StateKeepsPool(vmm.pmm.mem[..], vmm.pmm.list, vmm.layout, pcbs, WithState(pcbs, p, st));
      pcbs := WithState(pcbs, p, st);
    }

    /** proc/task.c:400-407, and 439 with 445-453: task `n` runs, in its own directory. */
    method Become(n: nat)
      requires Partitioned() && n in pcbs
      modifies this`currentTask, this`pcbs, vmm`currentDir
      ensures Partitioned() && SamePool()
      ensures currentTask == n && pcbs == WithState(old(pcbs), n, Running)
      ensures vmm.currentDir == Active(old(vmm.currentDir), old(pcbs)[n].pageDirectory)
    {
      hide Partitioned, KeepsPool;
      currentTask := n;
      SetState(n, Running);
      ActivateDirectory(pcbs[n].pageDirectory);
    }

    /** proc/task.c:365-398: move the current task to the zombies and choose its successor, 0 if none. */
    method Depart() returns (n: nat)
      requires Linked() && NoDup(list) && currentTask in list && currentTask !in zombies
      requires (forall z :: z in zombies ==> z !in list) && forall p :: p in list ==> p in pcbs
      modifies this`next, this`taskList, this`list, this`zombieList, this`zombies
      ensures Linked() && list == Without(old(list), currentTask) && zombies == [currentTask] + old(zombies)
      ensures var f, c := Following(old(list), currentTask), Candidates(old(list), currentTask);
              var j := FirstReady(pcbs, c);
              n == if f == [] then 0 else if j < 0 then f[0] else c[j]
      ensures n == 0 <==> |old(list)| == 1
      ensures n != 0 ==> n in list && n != currentTask
    {
      ghost var x, l := currentTask, list;
      assert 0 !in l by {
        ChainNonzero(next, taskList, l);
      }
      FollowingMembers(l, x);
      hide Chain, Following, Without, Candidates, Index, FirstReady;
      UnlinkCurrent();
      n := next[currentTask];
      FreeTaskLater(currentTask);
      FirstAfter(l, x);
      if n == 0 {
        n := taskList;
      }
      if n == 0 {
        return;
      }
      n := PickReady(n, l, x);
      CandidateIsFollowing(l, x);
    }

    /** proc/task.c:364-407. With no task left the machine halts. */
    method ScheduleTerminated() returns (running: bool)
      requires AlmostValid() && pcbs[currentTask].state == Terminated
      modifies this`next, this`taskList, this`list, this`zombieList, this`zombies, this`currentTask, this`pcbs,
               vmm`currentDir
      ensures View() == Retire(old(View())) && SamePool()
      ensures running <==> |old(list)| > 1
      ensures running ==> Valid()
    {
      hide Chain, NoDup, Following, Without, Candidates, Index, FirstReady, Partitioned, KeepsPool, Safe, InFootprint;
      hide InPool;
      hide Footprint, PcbOk, Retire, Active, WithState;
      ghost var h := Held();
      KeepsPoolSelf(h);
      ghost var t := View();
      AlmostSafe(t);
      var n := Depart();
      if n == 0 {
        RetireLast(t);
        return false;
      }
      RetireAlmost(t, n);
      OwnDirectory(currentTask, n);
      assert Held() == h;
      ActiveOwn(t.cr3, pcbs[n].pageDirectory);
      StateOnly(pcbs, n, Running);
      Become(n);
      running := true;
    }

    /** The task after the one that left, or the new head. */
    lemma {:induction false} FirstAfter(l: seq<nat>, x: nat)
      requires Linked() && NoDup(l) && x in l && list == Without(l, x) && 0 !in l
      ensures var after := NextAt(l, Index(l, x) + 1); var n := if after == 0 then taskList else after;
              if |l| > 1 then n != 0 && Following(l, x) != [] && n == Following(l, x)[0]
              else n == 0 && Following(l, x) == []
    {
      FollowingMembers(l, x);
      if |l| > 1 {
        CycleWithoutStart(next, taskList, l, x);
        assert Following(l, x)[0] in Following(l, x);
      }
    }

    lemma {:induction false} ZombiesAreOk()
      requires Valid()
      ensures ZombiesOk()
    {
      hide Partitioned, Chain, NoDup;
      forall z | z in zombies
        ensures z !in list && z in pcbs && pcbs[z].isUser && pcbs[z].kernelEsp0 >= PAGE_SIZE
        ensures pcbs[z].pageDirectory != vmm.currentDir
      {
        OwnDirectory(z, currentTask);
      }
    }

    /** proc/task.c:434-453: reap the zombies, then hand over to task `n`. */
    method HandOver(n: nat)
      requires Partitioned() && Linked() && ZombiesOk() && currentTask in list && n in list && n != currentTask
      requires forall p :: p in list ==> p in pcbs
      modifies this`currentTask, this`tssEsp0, this`zombieList, this`zombies, this`pcbs, this`next, this`use,
               this`dirOwner,
               vmm`layout, vmm`currentDir, vmm.pmm, vmm.pmm.bitmap, vmm.pmm.mem
      ensures Partitioned() && Linked() && old(ZombiesOk()) && list == old(list) && zombies == []
      ensures currentTask == n && vmm.currentDir == Active(old(vmm.currentDir), old(pcbs)[n].pageDirectory)
      ensures tssEsp0 == if old(pcbs)[n].kernelEsp0 != 0 then old(pcbs)[n].kernelEsp0 else old(tssEsp0)
      ensures pcbs == WithState(WithState(old(pcbs), old(currentTask), Ready), n, Running) - (set z | z in old(zombies))
      ensures SamePool()
    {
      hide Chain, Partitioned, KeepsPool, NoDup, InFootprint, InPool, Footprint, PcbOk;
      ghost var h := Held();
      ReapZombies();
      ghost var h1 := Held();
      SwitchTo(n);
      KeepsPoolTransitive(h, h1, Held());
    }

    /** proc/task.c:437-453: the current task goes back to ready, task `n` runs on its own stack and directory. */
    method SwitchTo(n: nat)
      requires Partitioned() && currentTask in pcbs && n in pcbs && n != currentTask
      modifies this`currentTask, this`tssEsp0, this`pcbs, vmm`currentDir
      ensures Partitioned() && SamePool()
      ensures currentTask == n && vmm.currentDir == Active(old(vmm.currentDir), old(pcbs)[n].pageDirectory)
      ensures tssEsp0 == if old(pcbs)[n].kernelEsp0 != 0 then old(pcbs)[n].kernelEsp0 else old(tssEsp0)
      ensures pcbs == WithState(WithState(old(pcbs), old(currentTask), Ready), n, Running)
    {
      hide Chain, Partitioned, KeepsPool, NoDup, InFootprint, InPool, Footprint, PcbOk;
      ghost var h := Held();
      SetState(currentTask, Ready);
      ghost var h1 := Held();
      if pcbs[n].kernelEsp0 != 0 {
        tssEsp0 := pcbs[n].kernelEsp0;
      }
      Become(n);
      KeepsPoolTransitive(h, h1, Held());
    }

    /** proc/task.c:419-453. The zombies' pages, and no others, go back when a switch happens. */
    method ScheduleRunning()
      requires Valid()
      modifies this`currentTask, this`tssEsp0, this`zombieList, this`zombies, this`pcbs, this`next, this`use,
               this`dirOwner,
               vmm`layout, vmm`currentDir, vmm.pmm, vmm.pmm.bitmap, vmm.pmm.mem
      ensures Valid() && old(ZombiesOk())
      ensures View() == Rotate(old(View()))
      ensures SamePool()
    {
      hide Chain, NoDup, Following, Candidates, FirstReady, Partitioned, KeepsPool;
      KeepsPoolSelf(Held());
      ZombiesAreOk();
      ghost var s := View();
      FollowingMembers(list, currentTask);
      RotateSafe(s);
      assert forall p :: p in list ==> p in pcbs;
      var n := FindNext();
      CandidateIsFollowing(list, currentTask);
      ChainNonzero(next, taskList, list);
      if n == 0 {
        return;
      }
      OwnDirectoryActive(n);
      hide Safe, ZombiesOk;
      HandOver(n);
      assert View() == Rotate(s);
    }

    lemma {:induction false} OwnDirectoryActive(n: nat)
      requires Partitioned() && n in pcbs
      ensures pcbs[n].pageDirectory != 0
    {
      hide UserPageOk, KernelSlotOk, UserSlotOk, TableOk;
      assert PcbOk(vmm.pmm.mem[..], vmm.layout, use, dirOwner, n, pcbs[n]);
      assert vmm.kernelDir in vmm.layout.Pages();
      assert pcbs[n].isUser ==> pcbs[n].pageDirectory / PAGE_SIZE in vmm.layout.Pages();
    }

    /** proc/task.c:354-471. False once the machine has halted for want of a task. */
    method Schedule() returns (running: bool)
      requires AlmostValid()
      modifies this`taskList, this`list, this`currentTask, this`tssEsp0, this`zombieList, this`zombies, this`pcbs,
               this`next,
               this`use, this`dirOwner, vmm`layout, vmm`currentDir, vmm.pmm, vmm.pmm.bitmap, vmm.pmm.mem
      ensures old(currentTask in list && forall p :: p in list ==> p in pcbs)
      ensures View() == RoundRobin.Schedule(old(View()))
      ensures running <==> old(pcbs[currentTask].state) == Running || |old(list)| > 1
      ensures running ==> Valid()
      ensures SamePool()
    {
      hide Chain, NoDup, Partitioned, KeepsPool, Rotate, Retire;
      if pcbs[currentTask].state == Terminated {
        running := ScheduleTerminated();
      } else {
        assert pcbs == WithState(pcbs, currentTask, Running);
        ScheduleRunning();
        running := true;
      }
    }

    /** driver/pit.c:47-49: the new tick count of the current task. */
    method SetTicks(n: nat)
      requires Valid() && n < TIME_SLICE_TICKS
      modifies this`pcbs
      ensures Valid() && SamePool()
      ensures View() == old(View()).(pcbs := old(pcbs)[currentTask := old(pcbs)[currentTask].(ticksUsed := n)])
    {
      hide Chain, NoDup, Vmm.Valid, PcbOk, UseOk, KeepsPool;
      var now := pcbs[currentTask := pcbs[currentTask].(ticksUsed := n)];
      StateIrrelevant(vmm.pmm.mem[..], vmm.pmm.list, vmm.layout, pcbs, now, use, dirOwner);
      StateKeepsPool(vmm.pmm.mem[..], vmm.pmm.list, vmm.layout, pcbs, now);
      pcbs := now;
    }

    /** driver/pit.c:46-52. */
    method Tick()
      requires Valid()
      modifies this`taskList, this`list, this`currentTask, this`tssEsp0, this`zombieList, this`zombies, this`pcbs,
               this`next,
               this`use, this`dirOwner, vmm`layout, vmm`currentDir, vmm.pmm, vmm.pmm.bitmap, vmm.pmm.mem
      ensures Valid() && View() == AfterTick(old(View())) && SamePool()
      ensures old(currentTask in pcbs && !pcbs[currentTask].isUser) ==> View() == old(View())
      ensures old(currentTask in pcbs && pcbs[currentTask].isUser && pcbs[currentTask].ticksUsed + 1 < 3) ==>
                && currentTask == old(currentTask) && list == old(list) && zombies == old(zombies)
                && tssEsp0 == old(tssEsp0) && vmm.currentDir == old(vmm.currentDir)
                && pcbs == old(pcbs)[currentTask := old(pcbs)[currentTask].(
                                       ticksUsed := old(pcbs)[currentTask].ticksUsed + 1)]
      ensures old(currentTask in pcbs && pcbs[currentTask].isUser && pcbs[currentTask].ticksUsed + 1 >= 3) ==>
                && list == old(list) && old(currentTask) in pcbs && pcbs[old(currentTask)].ticksUsed == 0
    {
      hide Rotate, KeepsPool, Partitioned, Chain, NoDup;
      ghost var h := Held();
      TickFields(View());
      assert KeepsPool(h, h) by {
        KeepsPoolSelf(h);
      }
      if pcbs[currentTask].isUser {
        var ticks := pcbs[currentTask].ticksUsed + 1;
        SetTicks(if ticks >= TIME_SLICE_TICKS then 0 else ticks);
        ghost var h1 := Held();
        if ticks >= TIME_SLICE_TICKS {
          ScheduleRunning();
          KeepsPoolTransitive(h, h1, Held());
        }
      }
    }

    /** proc/task.c:480-485 for a user task. */
    method Exit() returns (running: bool)
      requires Valid() && pcbs[currentTask].isUser
      modifies this`taskList, this`list, this`currentTask, this`tssEsp0, this`zombieList, this`zombies, this`pcbs,
               this`next,
               this`use, this`dirOwner, vmm`layout, vmm`currentDir, vmm.pmm, vmm.pmm.bitmap, vmm.pmm.mem
      ensures View() == Step(old(View()), Event.Exit) && SamePool()
      ensures running <==> |old(list)| > 1
      ensures running ==> Valid()
    {
      hide Chain, NoDup, Partitioned, KeepsPool, Retire, Rotate;
      ghost var s, h := View(), Held();
      SetState(currentTask, Terminated);
      assert View().(pcbs := WithState(pcbs, currentTask, Running)) == s;
      ghost var h1 := Held();
      running := Schedule();
      KeepsPoolTransitive(h, h1, Held());
    }

    /** kmain.c:262-281: the ready user task `p` is entered directly; the task that was running stays
        marked so. */
    method Launch(p: nat)
      requires Valid() && p in list && pcbs[p].isUser
      modifies this`currentTask, this`pcbs, this`tssEsp0, vmm`currentDir
      ensures Valid() && SamePool()
      ensures View() == old(View()).(current := p, pcbs := WithState(old(pcbs), p, Running),
                                     esp0 := old(pcbs)[p].kernelEsp0, cr3 := old(pcbs)[p].pageDirectory)
    {
      hide Chain, NoDup, Partitioned, KeepsPool;
      OwnDirectoryActive(p);
      tssEsp0 := pcbs[p].kernelEsp0;
      Become(p);
    }

    /** A user task is created while the scheduler runs. */
    method Spawn(entry: nat, stack: nat) returns (task: nat)
      requires Valid()
      modifies this`pcbs, this`next, this`taskList, this`list, this`use, this`dirOwner,
               vmm`layout, vmm.pmm, vmm.pmm.bitmap, vmm.pmm.mem
      ensures Valid() && SamePool()
      ensures task == 0 <==> entry == 0 || stack == 0 || |old(vmm.pmm.list)| < 3
      ensures task == 0 ==> View() == old(View())
      ensures task != 0 ==>
                && task !in old(pcbs) && task in pcbs && pcbs[task].isUser && pcbs[task].userPages == []
                && pcbs[task].kernelEsp0 >= PAGE_SIZE && pcbs[task].state == Ready && pcbs[task].ticksUsed == 0
                && list == [task] + old(list) && pcbs == old(pcbs)[task := pcbs[task]]
                && View() == Step(old(View()), Create(task, pcbs[task]))
    {
      hide Chain, Partitioned, KeepsPool, Footprint, NoDup;
      ghost var s := View();
      task := TaskCreateUser(entry, stack);
      if task != 0 {
        StepSafe(s, Create(task, pcbs[task]));
      }
    }

    /** A page is added to a live user task while the scheduler runs. */
    method Grow(p: nat, virt: Word) returns (ok: bool)
      requires Valid() && p in pcbs && pcbs[p].isUser
      requires virt % PAGE_SIZE == 0 && virt !in pcbs[p].userPages && |pcbs[p].userPages| < MAX_USER_PAGES
      modifies this`pcbs, this`use, vmm`layout, vmm.pmm, vmm.pmm.bitmap, vmm.pmm.mem
      ensures Valid() && KeepsPoolBut(old(Held()), Held(), p)
      ensures pcbs ==
              if ok then old(pcbs)[p := old(pcbs)[p].(userPages := old(pcbs)[p].userPages + [virt])] else old(pcbs)
    {
      hide Chain, Partitioned, KeepsPoolBut, Footprint, NoDup;
      UserTaskFacts(p);
      ok := AddUserPage(p, virt);
    }

    /** proc/task.c:193-209: the idle task, kept running and without a kernel stack top. */
    method TaskInit(idleLoop: nat) returns (ok: bool)
      requires vmm.Valid() && vmm.currentDir == vmm.kernelDir * PAGE_SIZE != 0
      requires pcbs == map[] && next == map[] && use == map[] && dirOwner == map[]
      requires list == [] && zombies == [] && taskList == 0 && zombieList == 0
      modifies this, vmm.pmm, vmm.pmm.bitmap, vmm.pmm.mem
      ensures ok <==> idleLoop != 0 && |old(vmm.pmm.list)| >= 2
      ensures ok ==> Valid() && list == [idleTask] == [currentTask] && zombies == []
      ensures ok ==> pcbs.Keys == {idleTask} && !pcbs[idleTask].isUser
      ensures ok ==> Lively(View(), idleTask)
    {
      hide Bitmaps.Bit, PagingOk, Threaded, Owned, Chain, NoDup, Safe;
      ChainEmpty(next);
      ChainEmpty(map[]);
      NoOwners(vmm.pmm.mem[..], vmm.pmm.list, vmm.layout);
      var idle := TaskCreate(idleLoop);
      if idle == 0 {
        return false;
      }
      assert list == [idle] && pcbs == map[idle := pcbs[idle]];
      StartIdle(idle);
      ok := true;
    }

    /** proc/task.c:202-208: the one task there is becomes the running idle task. */
    method StartIdle(idle: nat)
      requires Partitioned() && Linked() && list == [idle] && zombies == [] && zombieList == 0
      requires pcbs.Keys == {idle} && !pcbs[idle].isUser && pcbs[idle].ticksUsed == 0 && idle != 0
      requires vmm.currentDir == pcbs[idle].pageDirectory != 0
      modifies this`pcbs, this`next, this`taskList, this`currentTask, this`idleTask
      ensures Valid() && idleTask == currentTask == idle && pcbs.Keys == {idle} && !pcbs[idle].isUser
    {
      hide Bitmaps.Bit, PagingOk, Threaded, Owned, Chain, NoDup, Safe, Vmm.Valid;
      IdleFields(vmm.pmm.mem[..], vmm.pmm.list, vmm.layout, pcbs, use, dirOwner, idle);
      ChainIgnoreSingle(next, idle);
      ChainEmpty(next[idle := 0]);
      pcbs := pcbs[idle := pcbs[idle].(state := Running, kernelEsp0 := 0)];
      next := next[idle := 0];
      taskList, currentTask, idleTask := idle, idle, idle;
      IdleIsSafe(View(), idle);
    }

    /** One action on the running kernel, and the events of the abstract scheduler it amounts to. Pages are
        added, and tasks entered, only where the model's callers do so; other requests are ignored. */
    method Perform(a: Action) returns (running: bool, ghost es: seq<Event>)
      requires Valid()
      modifies this`taskList, this`list, this`currentTask, this`tssEsp0, this`zombieList, this`zombies, this`pcbs,
               this`next,
               this`use, this`dirOwner, vmm`layout, vmm`currentDir, vmm.pmm, vmm.pmm.bitmap, vmm.pmm.mem
      ensures running ==> Valid()
      ensures SamePages(old(Held()), Held())
      ensures Safe(old(View())) && Explains(old(View()), a, es)
      ensures running ==> AllPossible(old(View()), es) && View() == Run(old(View()), es)
      ensures !running ==> es == [Event.Exit] && |old(list)| == 1 && View() == Step(old(View()), Event.Exit)
    {
      hide Valid, KeepsPool, KeepsPoolBut, SamePages, Safe, Rotate, Retire, Run, AllPossible;
      ValidFacts();
      ghost var h, s := Held(), View();
      RunNothing(s);
      KeepsPoolSelf(h);
      running, es := true, [];
      match a {
        case Spawn(entry, stack) =>
          var task := Spawn(entry, stack);
          if task != 0 {
            es := [Create(task, pcbs[task])];
            RunOne(s, es[0]);
          }
        case Grow(p, virt) => es := GrowRequest(p, virt);
        case Enter(p) => es := EnterRequest(p);
        case TimerTick =>
          Tick();
          es := [Event.Tick];
          RunOne(s, es[0]);
        case GiveWay =>
          ScheduleRunning();
          es := [Yield];
          RunOne(s, es[0]);
        case Quit =>
          if pcbs[currentTask].isUser {
            running := Exit();
            es := [Event.Exit];
            if running {
              RunOne(s, es[0]);
            }
          }
      }
      KeepsPoolSamePages(h, Held());
    }

    /** A page for a user task, if the request is one the callers make. */
    method GrowRequest(p: nat, virt: Word) returns (ghost es: seq<Event>)
      requires Valid()
      modifies this`pcbs, this`use, vmm`layout, vmm.pmm, vmm.pmm.bitmap, vmm.pmm.mem
      ensures Valid() && Safe(old(View())) && SamePages(old(Held()), Held())
      ensures Explains(old(View()), Action.Grow(p, virt), es)
      ensures AllPossible(old(View()), es) && View() == Run(old(View()), es)
    {
      hide Valid, KeepsPool, KeepsPoolBut, SamePages, Safe, Run, AllPossible;
      ValidFacts();
      ghost var h, s := Held(), View();
      KeepsPoolSelf(h);
      RunNothing(s);
      es := [];
      if p in pcbs && pcbs[p].isUser && virt % PAGE_SIZE == 0 && virt !in pcbs[p].userPages
        && |pcbs[p].userPages| < MAX_USER_PAGES {
        var ok := Grow(p, virt);
        if ok {
          es := [Extended(p, virt)];
          RunOne(s, es[0]);
        }
      }
      KeepsPoolSamePages(h, Held());
    }

    /** A ready user task entered directly; other requests are ignored. */
    method EnterRequest(p: nat) returns (ghost es: seq<Event>)
      requires Valid()
      modifies this`currentTask, this`pcbs, this`tssEsp0, vmm`currentDir
      ensures Valid() && Safe(old(View())) && SamePages(old(Held()), Held())
      ensures Explains(old(View()), Enter(p), es)
      ensures AllPossible(old(View()), es) && View() == Run(old(View()), es)
    {
      hide Valid, KeepsPool, SamePages, Safe, Run, AllPossible;
      ValidFacts();
      ghost var h, s := Held(), View();
      KeepsPoolSelf(h);
      RunNothing(s);
      es := [];
      if p in pcbs && pcbs[p].isUser && pcbs[p].state == Ready {
        Launch(p);
        es := [Entered(p)];
        RunOne(s, es[0]);
      }
      KeepsPoolSamePages(h, Held());
    }

    lemma {:induction false} ValidFacts()
      requires Valid()
      ensures Safe(View()) && currentTask in pcbs && pcbs[currentTask].state == Running && currentTask in list
      ensures forall p :: p in list ==> p in pcbs
      ensures forall p :: p in pcbs && pcbs[p].state == Ready ==> p in list
    {}

    /** Over every run of actions the memory stays partitioned, the lists stay safe, no page enters or
        leaves the pool of free and user-task pages, and lists, states and directory are what the
        abstract scheduler makes of the events of the actions, one after the other. */
    method PerformAll(actions: seq<Action>) returns (running: bool, ghost trace: seq<seq<Event>>)
      requires Valid()
      modifies this`taskList, this`list, this`currentTask, this`tssEsp0, this`zombieList, this`zombies, this`pcbs,
               this`next,
               this`use, this`dirOwner, vmm`layout, vmm`currentDir, vmm.pmm, vmm.pmm.bitmap, vmm.pmm.mem
      ensures running ==> Valid()
      ensures SamePages(old(Held()), Held())
      ensures Safe(old(View()))
      ensures running ==>
              |trace| == |actions| && AllPossible(old(View()), Flat(trace)) && View() == Run(old(View()), Flat(trace))
      ensures running ==> forall k :: 0 <= k < |actions| ==> ExplainsAt(old(View()), actions, trace, k)
      ensures !running ==> exists k :: 0 <= k < |actions| && actions[k] == Quit
    {
      assert Safe(View());
      hide Valid, SamePages, KeepsPool, Safe, Run, AllPossible, Explains, Flat, Step;
      ghost var h, s0 := Held(), View();
      KeepsPoolSelf(h);
      KeepsPoolSamePages(h, h);
      RunNothing(s0);
      running, trace := true, [];
      var k := 0;
      while k < |actions| && running
        invariant 0 <= k <= |actions| && (running ==> Valid())
        invariant SamePages(h, Held())
        invariant running ==> |trace| == k && AllPossible(s0, Flat(trace)) && View() == Run(s0, Flat(trace))
        invariant running ==> forall i :: 0 <= i < k ==> ExplainsAt(s0, actions, trace, i)
        invariant !running ==> exists i :: 0 <= i < |actions| && actions[i] == Quit
      {
        ghost var h1, s, es := Held(), View(), [];
        running, es := Perform(actions[k]);
        SamePagesTransitive(h, h1, Held());
        if running {
          TraceGrows(s0, actions, trace, es, k);
          trace := trace + [es];
        } else {
          OnlyQuitHalts(s, actions[k], es);
        }
        k := k + 1;
      }
    }

    /** Bounded waiting on the linked lists themselves: among `3 * d` ticks, yields and exits there is one after
        which the task with `d - 1` ready tasks ahead of it is the current one. */
    method ServeWithin(actions: seq<Action>, w: nat, ghost idle: nat, ghost d: nat) returns (served: nat)
      requires Valid() && Waiting(View(), w, idle) && Ahead(View(), w) == d - 1
      requires |actions| == TIME_SLICE_TICKS * d && forall k :: 0 <= k < |actions| ==> IsTurn(actions[k])
      modifies this`taskList, this`list, this`currentTask, this`tssEsp0, this`zombieList, this`zombies, this`pcbs,
               this`next,
               this`use, this`dirOwner, vmm`layout, vmm`currentDir, vmm.pmm, vmm.pmm.bitmap, vmm.pmm.mem
      ensures Valid() && served <= |actions| && currentTask == w
    {
      PatienceBound(View(), w, idle);
      hide Valid, Waiting, Patience, Ahead, SamePages, Safe, Step, Run, AllPossible, Explains;
      served := 0;
      while currentTask != w
        invariant Valid() && served <= |actions|
        invariant currentTask != w ==> Waiting(View(), w, idle) && Patience(View(), w, idle) <= |actions| - served
        decreases |actions| - served
      {
        ghost var s, es := View(), [];
        PatiencePositive(s, w, idle);
        var alive;
        alive, es := Perform(actions[served]);
        TurnAdvances(s, actions[served], es, w, idle);
        served := served + 1;
      }
    }

    /** The whole life of a user task: created, given any pages, entered, ended and reaped. Exactly
        the pages that were free before are free afterwards, and the counter is what it was. */
    method UserLife(entry: nat, stack: nat, pages: seq<Word>) returns (created: bool)
      requires Valid() && zombies == [] && NoDup(pages) && |pages| <= MAX_USER_PAGES
      requires forall k :: 0 <= k < |pages| ==> pages[k] % PAGE_SIZE == 0
      modifies this`taskList, this`list, this`currentTask, this`tssEsp0, this`zombieList, this`zombies, this`pcbs,
               this`next,
               this`use, this`dirOwner, vmm`layout, vmm`currentDir, vmm.pmm, vmm.pmm.bitmap, vmm.pmm.mem
      ensures created <==> entry != 0 && stack != 0 && |old(vmm.pmm.list)| >= 3
      ensures Valid() && zombies == [] && pcbs.Keys == old(pcbs.Keys)
      ensures forall x :: x in vmm.pmm.list <==> x in old(vmm.pmm.list)
      ensures vmm.pmm.freePages == old(vmm.pmm.freePages)
    {
      ghost var h0, u0, o0 := Held(), use, dirOwner;
      PartitionFacts();
      hide Valid, KeepsPool, NoDup, PagingOk, Owned;
      created := BirthToDeath(entry, stack, pages);
      EndState(h0, u0, o0);
    }

    method BirthToDeath(entry: nat, stack: nat, pages: seq<Word>) returns (created: bool)
      requires Valid() && zombies == [] && NoDup(pages) && |pages| <= MAX_USER_PAGES
      requires forall k :: 0 <= k < |pages| ==> pages[k] % PAGE_SIZE == 0
      modifies this`taskList, this`list, this`currentTask, this`tssEsp0, this`zombieList, this`zombies, this`pcbs,
               this`next,
               this`use, this`dirOwner, vmm`layout, vmm`currentDir, vmm.pmm, vmm.pmm.bitmap, vmm.pmm.mem
      ensures created <==> entry != 0 && stack != 0 && |old(vmm.pmm.list)| >= 3
      ensures Valid() && zombies == [] && KeepsPool(old(Held()), Held()) && pcbs.Keys == old(pcbs.Keys)
    {
      ghost var h0 := Held();
      assert currentTask in pcbs && h0.pcbs == pcbs;
      KeepsPoolSelf(h0);
      hide *;
      var task := Spawn(entry, stack);
      created := task != 0;
      if created {
        FreshTask(h0.pcbs, task);
        LiveThrough(task, pages, h0);
      }
    }

    lemma {:induction false} FreshTask(was: map<nat, Pcb>, task: nat)
      requires Valid() && list != [] && task == list[0] && task !in was && pcbs == was[task := pcbs[task]]
               && currentTask in was
      ensures task in list && task != currentTask && pcbs.Keys == was.Keys + {task}
    {}

    /** The life of a task that has just been created, up to its reaping. */
    method LiveThrough(task: nat, pages: seq<Word>, ghost h0: Holding)
      requires Valid() && zombies == [] && NoDup(pages) && |pages| <= MAX_USER_PAGES
      requires forall k :: 0 <= k < |pages| ==> pages[k] % PAGE_SIZE == 0
      requires task in list && task != currentTask && pcbs[task].isUser && pcbs[task].state == Ready
               && pcbs[task].userPages == []
      requires KeepsPool(h0, Held()) && task !in h0.pcbs && pcbs.Keys == h0.pcbs.Keys + {task}
      modifies this`taskList, this`list, this`currentTask, this`tssEsp0, this`zombieList, this`zombies, this`pcbs,
               this`next,
               this`use, this`dirOwner, vmm`layout, vmm`currentDir, vmm.pmm, vmm.pmm.bitmap, vmm.pmm.mem
      ensures Valid() && zombies == [] && KeepsPool(h0, Held()) && pcbs.Keys == h0.pcbs.Keys
    {
      hide Valid, KeepsPool;
      GrowAll(task, pages, h0);
      EnterAndEnd(task, h0);
    }

    lemma {:induction false} PartitionFacts()
      requires Partitioned()
      ensures PagingOk(vmm.pmm.mem[..], vmm.pmm.list, vmm.layout) && NoDup(vmm.pmm.list)
              && vmm.pmm.freePages == |vmm.pmm.list|
      ensures Owned(vmm.pmm.mem[..], vmm.pmm.list, vmm.layout, pcbs, use, dirOwner)
    {}

    /** Every page of `pages` is tried once. */
    method GrowAll(task: nat, pages: seq<Word>, ghost h0: Holding)
      requires Valid() && NoDup(pages) && |pages| <= MAX_USER_PAGES && forall k :: 0 <= k < |pages| ==>
               pages[k] % PAGE_SIZE == 0
      requires task in list && pcbs[task].isUser && pcbs[task].state == Ready && pcbs[task].userPages == []
      requires KeepsPool(h0, Held()) && task !in h0.pcbs && pcbs.Keys == h0.pcbs.Keys + {task}
      modifies this`pcbs, this`use, vmm`layout, vmm.pmm, vmm.pmm.bitmap, vmm.pmm.mem
      ensures Valid() && KeepsPool(h0, Held()) && pcbs.Keys == h0.pcbs.Keys + {task}
      ensures pcbs[task].isUser && pcbs[task].state == Ready
    {
      var i := 0;
      hide Valid, KeepsPool, KeepsPoolBut;
      while i < |pages|
        invariant 0 <= i <= |pages|
        invariant Valid() && KeepsPool(h0, Held()) && pcbs.Keys == h0.pcbs.Keys + {task}
        invariant pcbs[task].isUser && pcbs[task].state == Ready && |pcbs[task].userPages| <= i
        invariant forall v :: v in pcbs[task].userPages ==> v in pages[..i]
      {
        ghost var h := Held();
        assert pages[i] !in pages[..i];
        assert pages[..i + 1] == pages[..i] + [pages[i]];
        var ok := Grow(task, pages[i]);
        KeepsPoolThroughGrowth(h0, h, Held(), task);
        i := i + 1;
      }
    }

    method EnterAndEnd(task: nat, ghost h0: Holding)
      requires Valid() && zombies == [] && task in list && task != currentTask && pcbs[task].isUser
      requires KeepsPool(h0, Held()) && task !in h0.pcbs && pcbs.Keys == h0.pcbs.Keys + {task}
      modifies this`taskList, this`list, this`currentTask, this`tssEsp0, this`zombieList, this`zombies, this`pcbs,
               this`next,
               this`use, this`dirOwner, vmm`layout, vmm`currentDir, vmm.pmm, vmm.pmm.bitmap, vmm.pmm.mem
      ensures Valid() && zombies == [] && KeepsPool(h0, Held()) && pcbs.Keys == h0.pcbs.Keys
    {
      hide *;
      StartCurrent(task, h0);
      ghost var h := Held();
      EndCurrent(h);
      KeepsPoolTransitive(h0, h, Held());
      assert h0.pcbs.Keys + {task} - {task} == h0.pcbs.Keys;
    }

    method StartCurrent(task: nat, ghost h0: Holding)
      requires Valid() && task in list && task != currentTask && pcbs[task].isUser
      requires KeepsPool(h0, Held()) && task !in h0.pcbs && pcbs.Keys == h0.pcbs.Keys + {task}
      modifies this`currentTask, this`pcbs, this`tssEsp0, vmm`currentDir
      ensures Valid() && KeepsPool(h0, Held()) && pcbs.Keys == h0.pcbs.Keys + {task} && Held().pcbs == pcbs
      ensures |list| > 1 && currentTask == task && currentTask in pcbs && pcbs[currentTask].isUser
    {
      TwoTasks(list, task, currentTask);
      hide Chain, Partitioned, KeepsPool, NoDup, Safe;
      ghost var h1 := Held();
      Launch(task);
      KeepsPoolTransitive(h0, h1, Held());
    }

    method EndCurrent(ghost h: Holding)
      requires Valid() && zombies == [] && |list| > 1 && currentTask in pcbs && pcbs[currentTask].isUser && h == Held()
      modifies this`taskList, this`list, this`currentTask, this`tssEsp0, this`zombieList, this`zombies, this`pcbs,
               this`next,
               this`use, this`dirOwner, vmm`layout, vmm`currentDir, vmm.pmm, vmm.pmm.bitmap, vmm.pmm.mem
      ensures Valid() && zombies == [] && KeepsPool(h, Held()) && pcbs.Keys == old(pcbs.Keys) - {old(currentTask)}
    {
      hide Chain, Partitioned, KeepsPool, NoDup, Retire;
      ghost var s := View();
      var running := Exit();
      RetireSafe(s, s.(pcbs := WithState(s.pcbs, s.current, Terminated)));
      RetireKeys(s.(pcbs := WithState(s.pcbs, s.current, Terminated)));
      ghost var h1 := Held();
      hide Safe, Rotate, Valid;
      ReapNow();
      KeepsPoolTransitive(h, h1, Held());
    }

    /** The reaping that the next switch performs (proc/task.c:435). */
    method ReapNow()
      requires Valid()
      modifies this`zombieList, this`zombies, this`pcbs, this`next, this`use, this`dirOwner,
               vmm`layout, vmm.pmm, vmm.pmm.bitmap, vmm.pmm.mem
      ensures Valid() && zombies == [] && SamePool() && pcbs == old(pcbs) - (set z | z in old(zombies))
    {
      hide Chain, Partitioned, KeepsPool, NoDup;
      ZombiesAreOk();
      SafeWithoutZombies(View());
      ReapZombies();
    }

    lemma {:induction false} EndState(h0: Holding, u0: map<nat, Use>, o0: map<nat, nat>)
      requires Valid() && KeepsPool(h0, Held()) && pcbs.Keys == h0.pcbs.Keys
      requires PagingOk(h0.m, h0.free, h0.g) && Owned(h0.m, h0.free, h0.g, h0.pcbs, u0, o0) && NoDup(h0.free)
      ensures forall x :: x in vmm.pmm.list <==> x in h0.free
      ensures vmm.pmm.freePages == |h0.free|
    {
      SamePoolSameFree(h0, u0, o0);
    }

    lemma {:induction false} SamePoolSameFree(h0: Holding, u0: map<nat, Use>, o0: map<nat, nat>)
      requires Partitioned() && KeepsPool(h0, Held()) && pcbs.Keys == h0.pcbs.Keys
      requires PagingOk(h0.m, h0.free, h0.g) && Owned(h0.m, h0.free, h0.g, h0.pcbs, u0, o0) && NoDup(h0.free)
      ensures forall x :: x in vmm.pmm.list <==> x in h0.free
      ensures vmm.pmm.freePages == |h0.free|
    {
      PoolDeterminesFree(h0, Held(), u0, o0, use, dirOwner);
      vmm.pmm.ListDistinct();
      SameMembersSameLength(vmm.pmm.list, h0.free);
    }
  }

  datatype Action = Spawn(entry: nat, stack: nat) | Grow(task: nat, virt: Word) | Enter(task: nat) | TimerTick | GiveWay
    | Quit

  /** The events that action `a` amounts to in state `s`: at most one, and none for a request that is ignored
      or for which memory is short. */
  ghost predicate Explains(s: Sched, a: Action, es: seq<Event>)
    requires s.current in s.pcbs
  {
    match a
    case Spawn(_, _) => es == [] || (|es| == 1 && es[0].Create?)
    case Grow(p, virt) => es == [] || (es == [Extended(p, virt)] && p in s.pcbs && s.pcbs[p].isUser)
    case Enter(p) => es == if p in s.pcbs && s.pcbs[p].isUser && s.pcbs[p].state == Ready then [Entered(p)] else []
    case TimerTick => es == [Event.Tick]
    case GiveWay => es == [Yield]
    case Quit => es == if s.pcbs[s.current].isUser then [Event.Exit] else []
  }

  predicate IsTurn(a: Action) {
    a.TimerTick? || a.GiveWay? || a.Quit?
  }

  lemma {:induction false} PatienceBound(s: Sched, w: nat, idle: nat)
    requires Waiting(s, w, idle)
    ensures s.current != w && Patience(s, w, idle) <= TIME_SLICE_TICKS * (Ahead(s, w) + 1)
  {
    FollowingMembers(s.list, s.current);
  }

  /** While `w` waits, a turn never halts the machine and brings `w` closer. */
  lemma {:induction false} TurnAdvances(s: Sched, a: Action, es: seq<Event>, w: nat, idle: nat)
    requires Safe(s) && Waiting(s, w, idle) && IsTurn(a) && Explains(s, a, es)
    ensures |s.list| > 1 && |es| == 1 && Possible(s, es[0]) && AllPossible(s, es)
    ensures var s' := Run(s, es);
            s'.current == w || (Waiting(s', w, idle) && Patience(s', w, idle) < Patience(s, w, idle))
  {
    FollowingMembers(s.list, s.current);
    TwoTasks(s.list, s.current, w);
    hide Step, Patience;
    EventAdvances(s, es[0], w, idle);
    RunOne(s, es[0]);
    assert es == [es[0]];
  }

  function Flat(trace: seq<seq<Event>>): seq<Event> {
    if trace == [] then [] else Flat(trace[..|trace| - 1]) + trace[|trace| - 1]
  }

  /** The `k`-th action's events are the ones its own state calls for. */
  ghost predicate ExplainsAt(s: Sched, actions: seq<Action>, trace: seq<seq<Event>>, k: nat)
    requires Safe(s) && k < |actions| && k < |trace|
  {
    AllPossible(s, Flat(trace[..k])) && Explains(Run(s, Flat(trace[..k])), actions[k], trace[k])
  }

  lemma {:induction false} RunNothing(s: Sched)
    requires Safe(s)
    ensures AllPossible(s, Flat([])) && Run(s, Flat([])) == s
  {}

  lemma {:induction false} OnlyQuitHalts(s: Sched, a: Action, es: seq<Event>)
    requires s.current in s.pcbs && Explains(s, a, es) && es == [Event.Exit]
    ensures a == Quit
  {}

  lemma {:induction false} TraceGrows(s: Sched, actions: seq<Action>, trace: seq<seq<Event>>, es: seq<Event>, k: nat)
    requires Safe(s) && k == |trace| < |actions| && AllPossible(s, Flat(trace))
    requires var t := Run(s, Flat(trace)); t.current in t.pcbs && Explains(t, actions[k], es) && AllPossible(t, es)
    requires forall i :: 0 <= i < k ==> ExplainsAt(s, actions, trace, i)
    ensures var trace' := trace + [es];
            && AllPossible(s, Flat(trace')) && Run(s, Flat(trace')) == Run(Run(s, Flat(trace)), es)
            && forall i :: 0 <= i <= k ==> ExplainsAt(s, actions, trace', i)
  {
    hide Explains, Run, AllPossible, Safe;
    var trace' := trace + [es];
    assert trace'[..k] == trace && Flat(trace') == Flat(trace) + es;
    RunConcat(s, Flat(trace), es);
    forall i | 0 <= i <= k ensures ExplainsAt(s, actions, trace', i) {
      if i < k {
        assert ExplainsAt(s, actions, trace, i) && trace'[..i] == trace[..i];
      }
    }
  }

  lemma {:induction false} TwoTasks(l: seq<nat>, a: nat, b: nat)
    requires a in l && b in l && a != b
    ensures |l| > 1
  {}

  lemma {:induction false} RetireKeys(t: Sched)
    requires t.current in t.list && forall p :: p in t.list ==> p in t.pcbs
    ensures Retire(t).pcbs.Keys == t.pcbs.Keys
  {
    CandidateIsFollowing(t.list, t.current);
    var f := Following(t.list, t.current);
    assert forall k :: 0 <= k < |f| ==> f[k] in t.list;
    assert f != [] ==> f[0] in f;
  }

  /** Reaping all zombies keeps a safe state safe. */
  lemma {:induction false} SafeWithoutZombies(s: Sched)
    requires Safe(s)
    ensures Safe(s.(zombies := [], pcbs := s.pcbs - (set z | z in s.zombies)))
  {}

  lemma {:induction false} NoOwners(m: seq<Page>, free: seq<nat>, g: Layout)
    requires PagingOk(m, free, g)
    ensures Owned(m, free, g, map[], map[], map[])
  {}

  lemma {:induction false} IdleIsSafe(s: Sched, p: nat)
    requires s.list == [p] && s.zombies == [] && s.current == p && s.pcbs.Keys == {p}
    requires s.pcbs[p].state == Running && s.pcbs[p].ticksUsed < TIME_SLICE_TICKS
    ensures Safe(s)
  {}

  lemma {:induction false} IdleFields(
      m: seq<Page>, free: seq<nat>, g: Layout, pcbs: map<nat, Pcb>, use: map<nat, Use>, o: map<nat, nat>, p: nat)
    requires Owned(m, free, g, pcbs, use, o) && p in pcbs && !pcbs[p].isUser
    ensures Owned(m, free, g, pcbs[p := pcbs[p].(state := Running, kernelEsp0 := 0)], use, o)
  {
    hide UserPageOk;
    assert forall q :: q in pcbs ==> PcbOk(m, g, use, o, q, pcbs[q]);
  }

  lemma {:induction false} ChainEmpty(next: map<nat, nat>)
    ensures Chain(next, 0, [])
  {}

  lemma {:induction false} ChainIgnoreSingle(next: map<nat, nat>, p: nat)
    requires p != 0
    ensures Chain(next[p := 0], p, [p])
  {}

  lemma {:induction false} ChainNonzero(next: map<nat, nat>, head: nat, l: seq<nat>)
    requires Chain(next, head, l)
    ensures 0 !in l
  {}

  lemma {:induction false} ChainUnlink(next: map<nat, nat>, head: nat, l: seq<nat>, i: nat)
    requires Chain(next, head, l) && NoDup(l) && i < |l|
    ensures var w := l[..i] + l[i + 1..];
            if i == 0 then Chain(next, next[l[0]], w)
            else l[i - 1] in next && Chain(next[l[i - 1] := next[l[i]]], head, w)
    ensures Without(l, l[i]) == l[..i] + l[i + 1..]
  {
    var w := l[..i] + l[i + 1..];
    IndexUnique(l, l[i], i);
    assert forall k :: 0 <= k < |w| ==> w[k] == if k < i then l[k] else l[k + 1];
    assert LinkTo(next, l, i);
    var next' := if i == 0 then next else next[l[i - 1] := next[l[i]]];
    hide Without, Index;
    forall k: nat | k < |w|
      ensures w[k] in next' && LinkTo(next', w, k)
    {
      var o := if k < i then k else k + 1;
      assert LinkTo(next, l, o) && w[k] == l[o];
    }
  }

  lemma {:induction false} ChainIgnoreAt(next: map<nat, nat>, head: nat, zs: seq<nat>, l: seq<nat>, i: nat)
    requires Chain(next, head, zs) && i < |l| && l[i] in next && forall z :: z in zs ==> z !in l
    ensures i > 0 ==> Chain(next[l[i - 1] := next[l[i]]], head, zs)
  {
    if i > 0 {
      assert l[i - 1] in l;
      ChainIgnore(next, head, zs, l[i - 1], next[l[i]]);
    }
  }

  /** In the shortened list the links run through the following tasks in a circle. */
  lemma {:induction false} CycleWithout(next: map<nat, nat>, head: nat, l: seq<nat>, x: nat, k: nat)
    requires NoDup(l) && x in l && Chain(next, head, Without(l, x)) && k < |Following(l, x)|
    ensures var f := Following(l, x);
            f[k] in next && (if next[f[k]] != 0 then next[f[k]] else head) == if k + 1 < |f| then f[k + 1] else f[0]
  {
    var i, f, w := Index(l, x), Following(l, x), Without(l, x);
    var m := if i + k < |w| then i + k else i + k - |w|;
    assert f[k] == w[m];
    CycleAt(next, head, w, m);
  }

  lemma {:induction false} CycleWithoutStart(next: map<nat, nat>, head: nat, l: seq<nat>, x: nat)
    requires NoDup(l) && x in l && Chain(next, head, Without(l, x)) && Without(l, x) != []
    ensures Following(l, x) != [] && Following(l, x)[0] == if Index(l, x) + 1 < |l| then l[Index(l, x) + 1] else head
    ensures forall y :: y in Following(l, x) ==> y in Without(l, x)
  {
    FollowingMembers(l, x);
  }

  lemma {:induction false} CycleAt(next: map<nat, nat>, head: nat, l: seq<nat>, i: nat)
    requires Chain(next, head, l) && i < |l|
    ensures l[i] in next
    ensures (if next[l[i]] != 0 then next[l[i]] else head) == if i + 1 < |l| then l[i + 1] else l[0]
  {
    assert LinkTo(next, l, i);
  }

  lemma {:induction false} CandidateIsFollowing(l: seq<nat>, x: nat)
    requires x in l
    ensures forall k :: 0 <= k < |Candidates(l, x)| ==> Candidates(l, x)[k] in Following(l, x)
  {
    forall k | 0 <= k < |Candidates(l, x)|
      ensures Candidates(l, x)[k] in Following(l, x)
    {
      assert Candidates(l, x)[k] == Following(l, x)[k];
    }
  }

  /** Walking the links from `x` visits the following tasks in order and returns to `x`. */
  lemma {:induction false} CycleStart(next: map<nat, nat>, head: nat, l: seq<nat>, x: nat)
    requires Chain(next, head, l) && NoDup(l) && x in l
    ensures x in next
    ensures var f := Following(l, x);
            (if next[x] != 0 then next[x] else head) == if f == [] then x else f[0]
    ensures forall y :: y in Following(l, x) ==> y in next && y != x
  {
    var i := Index(l, x);
    CycleAt(next, head, l, i);
    FollowingMembers(l, x);
    assert forall k :: 0 <= k < |l| ==> l[k] in next;
  }

  lemma {:induction false} CycleStep(next: map<nat, nat>, head: nat, l: seq<nat>, x: nat, k: nat)
    requires Chain(next, head, l) && NoDup(l) && x in l && k < |Following(l, x)|
    ensures var f := Following(l, x);
            f[k] in next && (if next[f[k]] != 0 then next[f[k]] else head) == if k + 1 < |f| then f[k + 1] else x
  {
    var i, f := Index(l, x), Following(l, x);
    var m := if i + 1 + k < |l| then i + 1 + k else i + 1 + k - |l|;
    assert f[k] == l[m];
    CycleAt(next, head, l, m);
  }

  lemma {:induction false} ChainPush(next: map<nat, nat>, head: nat, l: seq<nat>, p: nat)
    requires Chain(next, head, l) && p != 0 && p !in l
    ensures Chain(next[p := head], p, [p] + l)
  {
    var l' := [p] + l;
    forall i: nat | i < |l'|
      ensures l'[i] != 0 && l'[i] in next[p := head] && LinkTo(next[p := head], l', i)
    {
      if i > 0 {
        assert LinkTo(next, l, i - 1) && l[i - 1] in l;
      }
    }
  }

  lemma {:induction false} ChainIgnore(next: map<nat, nat>, head: nat, l: seq<nat>, p: nat, x: nat)
    requires Chain(next, head, l) && p !in l
    ensures Chain(next[p := x], head, l)
  {
    forall i: nat | i < |l|
      ensures l[i] in next[p := x] && LinkTo(next[p := x], l, i)
    {
      assert LinkTo(next, l, i) && l[i] in l;
    }
  }

  lemma {:induction false} ChainStart(next: map<nat, nat>, head: nat, l: seq<nat>)
    requires Chain(next, head, l)
    ensures head != 0 <==> l != []
    ensures l != [] ==> head == l[0] && head in next
  {}

  lemma {:induction false} NoDupTail(l: seq<nat>)
    requires NoDup(l) && l != []
    ensures NoDup(l[1..]) && forall y :: y in l[1..] <==> y in l && y != l[0]
  {
    forall y | y in l && y != l[0]
      ensures y in l[1..]
    {
      var q := IndexOf(l, y);
      assert l[1..][q - 1] == y;
    }
  }
}
