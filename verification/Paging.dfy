/** 32-bit two-level paging (section 4.3 of the Intel SDM, Volume 3A) over the pages of
    physical memory: what a walk finds, and when a set of directories is well formed. */
module PageTables {
  import opened Lists
  import opened FreeLists
  import opened PhysicalMemory

  const USER_FLAG := 4
  const ENTRIES := 1024

  predicate Present(e: Word) { e % 2 == 1 }

  predicate User(e: Word) { e / 4 % 2 == 1 }

  predicate Writable(e: Word) { e / 2 % 2 == 1 }

  function Frame(e: Word): nat { e / PAGE_SIZE }

  lemma {:induction false} EntryBits(frame: int, low: int)
    requires 0 <= frame && 0 <= low < 4096
    ensures (frame * 4096 + low) / 4096 == frame && (frame * 4096 + low) % 4096 == low
    ensures (frame * 4096 + low) / 4 % 2 == low / 4 % 2 && (frame * 4096 + low) % 2 == low % 2
  {
    assert (frame * 4096 + low) / 4 == frame * 1024 + low / 4;
    assert (frame * 1024 + low / 4) % 2 == low / 4 % 2;
  }

  lemma {:induction false} WriteBit(frame: int, low: int)
    requires 0 <= frame && 0 <= low < 4096
    ensures (frame * 4096 + low) / 2 % 2 == low / 2 % 2
  {
    assert (frame * 4096 + low) / 2 == frame * 2048 + low / 2;
    assert (frame * 2048 + low / 2) % 2 == low / 2 % 2;
  }

  lemma {:induction false} UserBitAdded(e: Word)
    requires !User(e)
    ensures e + USER_FLAG < 0x1_0000_0000 && User(e + USER_FLAG) && Frame(e + USER_FLAG) == Frame(e)
    ensures (Present(e + USER_FLAG) <==> Present(e)) && (Writable(e + USER_FLAG) <==> Writable(e))
  {
    LowBits(e / 8, e % 8);
    LowBits(e / 8, e % 8 + 4);
  }

  lemma {:induction false} LowBits(q: int, low: int)
    requires 0 <= q && 0 <= low < 8
    ensures (8 * q + low) % 2 == low % 2 && (8 * q + low) / 2 % 2 == low / 2 % 2 && (8 * q + low) / 4 % 2 == low / 4
    ensures (8 * q + low) / 4096 == q / 512
  {
    Halved(q, low);
    Quartered(q, low);
    Paged(q, low);
  }

  lemma {:induction false} Halved(q: int, low: int)
    requires 0 <= q && 0 <= low < 8
    ensures (8 * q + low) % 2 == low % 2 && (8 * q + low) / 2 % 2 == low / 2 % 2
  {
    EvenPart(4 * q + low / 2, low % 2);
    EvenPart(2 * q + low / 4, low / 2 % 2);
  }

  lemma {:induction false} EvenPart(h: int, b: int)
    requires 0 <= h && 0 <= b < 2
    ensures (2 * h + b) / 2 == h && (2 * h + b) % 2 == b
  {}

  lemma {:induction false} Quartered(q: int, low: int)
    requires 0 <= q && 0 <= low < 8
    ensures (8 * q + low) / 4 % 2 == low / 4
  {
    assert (8 * q + low) / 4 == 2 * q + low / 4;
  }

  lemma {:induction false} Paged(q: int, low: int)
    requires 0 <= q && 0 <= low < 8
    ensures (8 * q + low) / 4096 == q / 512
  {
    assert q == 512 * (q / 512) + q % 512;
  }

  function WithUser(e: Word): (r: Word)
    ensures User(r) && Frame(r) == Frame(e) && (Present(r) <==> Present(e)) && (Writable(r) <==> Writable(e))
  {
    if User(e) then e else UserBitAdded(e); e + USER_FLAG
  }

  /** mm/vmm.c:31-33: frame, low twelve flag bits, and the present bit. */
  function SetEntry(phys: Word, flags: Word): (e: Word)
    ensures Present(e) && Frame(e) == phys / PAGE_SIZE
    ensures e % PAGE_SIZE == (flags % PAGE_SIZE) / 2 * 2 + 1
    ensures (User(e) <==> User(flags)) && (Writable(e) <==> Writable(flags))
  {
    var low := flags % PAGE_SIZE / 2 * 2 + 1;
    EntryBits(phys / PAGE_SIZE, low);
    EntryBits(flags / PAGE_SIZE, flags % PAGE_SIZE);
    assert low / 4 == flags % PAGE_SIZE / 4;
    WriteBit(phys / PAGE_SIZE, low);
    WriteBit(flags / PAGE_SIZE, flags % PAGE_SIZE);
    assert low / 2 == flags % PAGE_SIZE / 2;
    phys / PAGE_SIZE * PAGE_SIZE + low
  }

  function PdIndex(virt: Word): (i: nat)
    ensures i < ENTRIES
  {
    virt / PAGE_SIZE / ENTRIES
  }

  function PtIndex(virt: Word): (j: nat)
    ensures j < ENTRIES
  {
    virt / PAGE_SIZE % ENTRIES
  }

  function PageBase(addr: Word): (r: Word)
    ensures r % PAGE_SIZE == 0 && r / PAGE_SIZE == addr / PAGE_SIZE
  {
    addr / PAGE_SIZE * PAGE_SIZE
  }

  lemma {:induction false} PageBaseIndices(virt: Word)
    ensures PdIndex(PageBase(virt)) == PdIndex(virt) && PtIndex(PageBase(virt)) == PtIndex(virt)
  {}

  /** What a page is used for by the paging structures. */
  datatype TableUse = KernelTable(slot: nat) | UserTable(dir: nat, slot: nat)

  /** The kernel directory, the live user directories, every page table in use, and the
      number of leading kernel slots the driver looks at. */
  datatype Layout = Layout(kdir: nat, dirs: set<nat>, tables: map<nat, TableUse>, bound: nat)
  {
    ghost function Pages(): set<nat> {
      {kdir} + dirs + tables.Keys
    }

    ghost function TablesOf(d: nat): set<nat> {
      set t | t in tables && tables[t].UserTable? && tables[t].dir == d
    }

    ghost function Without(d: nat): Layout {
      this.(dirs := dirs - {d}, tables := tables - TablesOf(d))
    }
  }

  /** The page-table entry a walk of directory `d` finds at slots `i`, `j`; 0 if there is none. */
  ghost function Walk(m: seq<Page>, d: nat, i: nat, j: nat): Word
    requires i < ENTRIES && j < ENTRIES
  {
    if d < |m| && Present(m[d][i]) && Frame(m[d][i]) < |m| && Present(m[Frame(m[d][i])][j])
    then m[Frame(m[d][i])][j] else 0
  }

  /** The two-level access rule: both entries present and both marked user. */
  ghost predicate UserAccess(m: seq<Page>, d: nat, i: nat, j: nat)
    requires i < ENTRIES && j < ENTRIES
  {
    Walk(m, d, i, j) != 0 && User(Walk(m, d, i, j)) && User(m[d][i])
  }

  /** Writing takes the right at both levels. */
  ghost predicate WriteAccess(m: seq<Page>, d: nat, i: nat, j: nat)
    requires i < ENTRIES && j < ENTRIES
  {
    Walk(m, d, i, j) != 0 && Writable(Walk(m, d, i, j)) && Writable(m[d][i])
  }

  ghost predicate NoUserEntries(m: seq<Page>, t: nat) {
    t < |m| && forall j: nat :: j < ENTRIES ==> Present(m[t][j]) ==> !User(m[t][j])
  }

  ghost predicate KernelSlotOk(m: seq<Page>, g: Layout, i: nat)
    requires i < ENTRIES && g.kdir < |m|
  {
    var e := m[g.kdir][i];
    Present(e) ==> i < g.bound && !User(e) && Writable(e)
                   && Frame(e) in g.tables && g.tables[Frame(e)] == KernelTable(i)
                   && NoUserEntries(m, Frame(e))
  }

  /** A user directory shares every kernel slot; its other tables belong to it alone. */
  ghost predicate UserSlotOk(m: seq<Page>, g: Layout, d: nat, i: nat)
    requires i < ENTRIES && g.kdir < |m| && d < |m|
  {
    var e := m[d][i];
    if Present(m[g.kdir][i]) then e == m[g.kdir][i]
    else Present(e) ==> Writable(e) && Frame(e) in g.tables && g.tables[Frame(e)] == UserTable(d, i)
                        && (User(e) || NoUserEntries(m, Frame(e)))
  }

  /** A page table in use is reached from the slot it is recorded under. */
  ghost predicate TableOk(m: seq<Page>, g: Layout, t: nat)
    requires g.kdir < |m| && t in g.tables
  {
    match g.tables[t]
    case KernelTable(i) => i < ENTRIES && Present(m[g.kdir][i]) && Frame(m[g.kdir][i]) == t
    case UserTable(d, i) => d in g.dirs && d < |m| && i < ENTRIES && Present(m[d][i]) && Frame(m[d][i]) == t
                            && !Present(m[g.kdir][i])
  }

  /** Directories, page tables and the free list never overlap. */
  ghost predicate Separate(n: nat, free: seq<nat>, g: Layout) {
    && g.kdir !in g.dirs && g.kdir !in g.tables && g.dirs !! g.tables.Keys
    && forall x :: x in g.Pages() ==> 0 < x < n && x !in free
  }

  ghost predicate PagingOk(m: seq<Page>, free: seq<nat>, g: Layout) {
    && Separate(|m|, free, g)
    && |m| <= MAX_PAGES
    && g.bound <= ENTRIES
    && g.kdir < |m|
    && (forall d :: d in g.dirs ==> d < |m|)
    && (forall i: nat :: i < ENTRIES ==> KernelSlotOk(m, g, i))
    && (forall d, i: nat :: d in g.dirs && i < ENTRIES ==> UserSlotOk(m, g, d, i))
    && (forall t :: t in g.tables ==> TableOk(m, g, t))
  }

  /** `Walk` only reads pages of the layout. */
  lemma {:induction false} WalkStays(m: seq<Page>, free: seq<nat>, g: Layout, d: nat, i: nat)
    requires PagingOk(m, free, g) && (d in g.dirs || d == g.kdir) && i < ENTRIES
    ensures Present(m[d][i]) ==> Frame(m[d][i]) in g.tables && 0 < Frame(m[d][i]) < |m|
  {
    assert KernelSlotOk(m, g, i);
    if d != g.kdir {
      assert UserSlotOk(m, g, d, i);
    }
    if Present(m[d][i]) {
      assert Frame(m[d][i]) in g.Pages();
    }
  }

  /** Memory that agrees on the pages of the layout has the same translations, and the
      free list may change as long as it stays clear of those pages. */
  lemma {:induction false} PagingFrame(m: seq<Page>, free: seq<nat>, m': seq<Page>, free': seq<nat>, g: Layout)
    requires PagingOk(m, free, g) && |m'| == |m|
    requires forall x :: x in g.Pages() ==> m'[x] == m[x] && x !in free'
    ensures PagingOk(m', free', g)
    ensures forall d, i: nat, j: nat :: (d in g.dirs || d == g.kdir) && i < ENTRIES && j < ENTRIES ==>
              Walk(m', d, i, j) == Walk(m, d, i, j)
  {
    assert g.kdir in g.Pages();
    assert forall t :: t in g.tables ==> t in g.Pages();
    assert forall d :: d in g.dirs ==> d in g.Pages();
    forall i: nat | i < ENTRIES
      ensures KernelSlotOk(m', g, i)
    {
      assert KernelSlotOk(m, g, i);
    }
    forall d, i: nat | d in g.dirs && i < ENTRIES
      ensures UserSlotOk(m', g, d, i)
    {
      assert UserSlotOk(m, g, d, i);
    }
    forall t | t in g.tables
      ensures TableOk(m', g, t)
    {
      assert TableOk(m, g, t);
    }
    forall d, i: nat, j: nat | (d in g.dirs || d == g.kdir) && i < ENTRIES && j < ENTRIES
      ensures Walk(m', d, i, j) == Walk(m, d, i, j)
    {
      WalkStays(m, free, g, d, i);
    }
  }

  /** On well-formed directories the access rule is decided by the page-table entry alone. */
  lemma {:induction false} UserAccessByEntry(m: seq<Page>, free: seq<nat>, g: Layout, d: nat, i: nat, j: nat)
    requires PagingOk(m, free, g) && (d in g.dirs || d == g.kdir) && i < ENTRIES && j < ENTRIES
    ensures UserAccess(m, d, i, j) <==> Walk(m, d, i, j) != 0 && User(Walk(m, d, i, j))
    ensures UserAccess(m, d, i, j) ==> !Present(m[g.kdir][i])
  {
    assert KernelSlotOk(m, g, i);
    if d != g.kdir {
      assert UserSlotOk(m, g, d, i);
    }
  }

  /** Every directory entry in use grants writing, so that the page-table entry decides here too. */
  lemma {:induction false} WriteAccessByEntry(m: seq<Page>, free: seq<nat>, g: Layout, d: nat, i: nat, j: nat)
    requires PagingOk(m, free, g) && (d in g.dirs || d == g.kdir) && i < ENTRIES && j < ENTRIES
    ensures WriteAccess(m, d, i, j) <==> Walk(m, d, i, j) != 0 && Writable(Walk(m, d, i, j))
  {
    assert KernelSlotOk(m, g, i);
    if d != g.kdir {
      assert UserSlotOk(m, g, d, i);
    }
  }

  lemma {:induction false} SlotsAreWritable(m: seq<Page>, free: seq<nat>, g: Layout, d: nat, i: nat)
    requires PagingOk(m, free, g) && (d in g.dirs || d == g.kdir) && i < ENTRIES
    ensures Present(m[d][i]) ==> Writable(m[d][i])
  {
    assert KernelSlotOk(m, g, i);
    if d != g.kdir {
      assert UserSlotOk(m, g, d, i);
    }
  }

  /** An entry made from a page address and flag bits: bit 0 present, bit 1 writable, bit 2 user. */
  lemma {:induction false} EntryFormat(phys: Word, flags: Word)
    requires phys % 4096 == 0 && flags < 4096
    ensures SetEntry(phys, flags) == phys + flags + (if flags % 2 == 0 then 1 else 0)
    ensures Writable(SetEntry(phys, 2)) && Writable(SetEntry(phys, 6)) && !Writable(SetEntry(phys, 4))
    ensures User(SetEntry(phys, 4)) && User(SetEntry(phys, 6)) && !User(SetEntry(phys, 2))
  {
    assert flags == flags / 2 * 2 + flags % 2 && flags % 4096 == flags;
    EntryRights(phys);
  }

  lemma {:induction false} EntryRights(phys: Word)
    ensures Writable(SetEntry(phys, 2)) && Writable(SetEntry(phys, 6)) && !Writable(SetEntry(phys, 4))
    ensures User(SetEntry(phys, 4)) && User(SetEntry(phys, 6)) && !User(SetEntry(phys, 2))
  {
    hide SetEntry;
    assert Writable(2) && Writable(6) && !Writable(4) && User(4) && User(6) && !User(2);
  }

  /** Every live directory and the kernel directory translate alike in `m` and `m'`. */
  ghost predicate SameWalks(m: seq<Page>, m': seq<Page>, g: Layout) {
    forall d, i: nat, j: nat :: (d in g.dirs || d == g.kdir) && i < ENTRIES && j < ENTRIES ==>
      Walk(m', d, i, j) == Walk(m, d, i, j)
  }

  ghost predicate SameTranslation(m: seq<Page>, a: nat, b: nat) {
    forall i: nat, j: nat :: i < ENTRIES && j < ENTRIES ==> Walk(m, a, i, j) == Walk(m, b, i, j)
  }

  /** Entry (`i`, `j`) of directory `d` became `e`, here and wherever slot `i` is shared. */
  ghost predicate Wrote(m: seq<Page>, m': seq<Page>, g: Layout, d: nat, i: nat, j: nat, e: Word)
    requires i < ENTRIES && j < ENTRIES && g.kdir < |m|
  {
    forall d', i': nat, j': nat :: (d' in g.dirs || d' == g.kdir) && i' < ENTRIES && j' < ENTRIES ==>
      Walk(m', d', i', j') == if i' == i && j' == j && (d' == d || Present(m[g.kdir][i])) then e
                              else Walk(m, d', i', j')
  }

  lemma {:induction false} WroteThere(m: seq<Page>, m': seq<Page>, g: Layout, d: nat, i: nat, j: nat, e: Word)
    requires i < ENTRIES && j < ENTRIES && g.kdir < |m| && d in g.dirs && Wrote(m, m', g, d, i, j, e)
    ensures Walk(m', d, i, j) == e
  {}

  lemma {:induction false} SameWalksSelf(m: seq<Page>, g: Layout)
    ensures SameWalks(m, m, g)
  {}

  /** A fresh directory copies the kernel's slots and translates like the kernel's. */
  lemma {:induction false} AddDirectory(m: seq<Page>, free: seq<nat>, g: Layout, d: nat)
    requires PagingOk(m, free, g) && 0 < d < |m| && d !in g.Pages() && d !in free
    ensures var m', g' := m[d := m[g.kdir]], g.(dirs := g.dirs + {d});
            PagingOk(m', free, g') && SameWalks(m, m', g) && SameTranslation(m', d, g.kdir)
  {
    var m', g' := m[d := m[g.kdir]], g.(dirs := g.dirs + {d});
    PagingFrame(m, free, m', free, g);
    assert forall i: nat :: i < ENTRIES ==> KernelSlotOk(m', g, i) && KernelSlotOk(m', g', i);
    forall e, i: nat | e in g'.dirs && i < ENTRIES
      ensures UserSlotOk(m', g', e, i)
    {
      assert e != d ==> UserSlotOk(m', g, e, i);
      assert KernelSlotOk(m, g, i);
    }
    assert forall t :: t in g.tables ==> TableOk(m', g, t) && TableOk(m', g', t);
  }

  lemma {:induction false} KernelDirNotFree(m: seq<Page>, free: seq<nat>, g: Layout)
    requires PagingOk(m, free, g)
    ensures g.kdir !in free
  {
    assert g.kdir in g.Pages();
  }

  lemma {:induction false} EmptyKernelDirectory(m: seq<Page>, free: seq<nat>, g: Layout)
    requires 0 < g.kdir < |m| <= MAX_PAGES && g.kdir !in free && g.dirs == {} && g.tables == map[] && g.bound <= ENTRIES
    requires m[g.kdir] == ZeroPage()
    ensures PagingOk(m, free, g)
    ensures forall i: nat, j: nat :: i < ENTRIES && j < ENTRIES ==> Walk(m, g.kdir, i, j) == 0
  {}

  /** While there are no user directories, a page without user entries becomes the table of
      an empty kernel slot. */
  lemma {:induction false} AddKernelTable(m: seq<Page>, free: seq<nat>, g: Layout, i: nat, t: nat, page: Page, e: Word)
    requires PagingOk(m, free, g) && g.dirs == {} && i < g.bound && !Present(m[g.kdir][i])
    requires 0 < t < |m| && t !in g.Pages() && t !in free
    requires Present(e) && !User(e) && Writable(e) && Frame(e) == t
    requires forall j: nat :: j < ENTRIES ==> !User(page[j])
    ensures var m1: seq<Page> := m[t := page];
            var m', g' := m1[g.kdir := m[g.kdir][i := e]], g.(tables := g.tables[t := KernelTable(i)]);
            && PagingOk(m', free, g')
            && forall i': nat, j: nat :: i' < ENTRIES && j < ENTRIES ==>
                 Walk(m', g.kdir, i', j) ==
                   if i' != i then Walk(m, g.kdir, i', j) else if Present(page[j]) then page[j] else 0
  {
    var m1: seq<Page> := m[t := page];
    var m', g' := m1[g.kdir := m[g.kdir][i := e]], g.(tables := g.tables[t := KernelTable(i)]);
    assert g'.Pages() == g.Pages() + {t};
    assert g.kdir in g.Pages();
    forall k: nat | k < ENTRIES
      ensures KernelSlotOk(m', g', k)
    {
      assert KernelSlotOk(m, g, k);
    }
    forall x | x in g'.tables
      ensures TableOk(m', g', x)
    {
      assert x != t ==> TableOk(m, g, x);
    }
    forall i': nat, j: nat | i' < ENTRIES && j < ENTRIES
      ensures Walk(m', g.kdir, i', j) ==
              if i' != i then Walk(m, g.kdir, i', j) else if Present(page[j]) then page[j] else 0
    {
      WalkStays(m, free, g, g.kdir, i');
    }
  }

  /** A zeroed page becomes the table of an empty slot; no translation changes. */
  lemma {:induction false} AddTable(m: seq<Page>, free: seq<nat>, g: Layout, d: nat, i: nat, t: nat, e: Word)
    requires PagingOk(m, free, g) && d in g.dirs && i < ENTRIES && !Present(m[d][i])
    requires 0 < t < |m| && t !in g.Pages() && t !in free && Present(e) && Writable(e) && Frame(e) == t
    ensures var m', g' := m[t := ZeroPage()][d := m[d][i := e]], g.(tables := g.tables[t := UserTable(d, i)]);
            PagingOk(m', free, g') && SameWalks(m, m', g)
  {
    var m', g' := m[t := ZeroPage()][d := m[d][i := e]], g.(tables := g.tables[t := UserTable(d, i)]);
    assert UserSlotOk(m, g, d, i);
    assert g'.Pages() == g.Pages() + {t};
    forall k: nat | k < ENTRIES
      ensures KernelSlotOk(m', g', k)
    {
      assert KernelSlotOk(m, g, k);
      WalkStays(m, free, g, g.kdir, k);
    }
    forall d', k: nat | d' in g.dirs && k < ENTRIES
      ensures UserSlotOk(m', g', d', k)
    {
      assert UserSlotOk(m, g, d', k);
      WalkStays(m, free, g, d', k);
    }
    forall x | x in g'.tables
      ensures TableOk(m', g', x)
    {
      assert x != t ==> TableOk(m, g, x);
    }
    forall d', i': nat, j: nat | (d' in g.dirs || d' == g.kdir) && i' < ENTRIES && j < ENTRIES
      ensures Walk(m', d', i', j) == Walk(m, d', i', j)
    {
      WalkStays(m, free, g, d', i');
    }
  }

  /** Marking a private directory slot as user changes no translation. */
  lemma {:induction false} MarkUser(m: seq<Page>, free: seq<nat>, g: Layout, d: nat, i: nat)
    requires PagingOk(m, free, g) && d in g.dirs && i < ENTRIES
    requires Present(m[d][i]) && !Present(m[g.kdir][i])
    ensures var m' := m[d := m[d][i := WithUser(m[d][i])]];
            PagingOk(m', free, g) && SameWalks(m, m', g)
  {
    var m' := m[d := m[d][i := WithUser(m[d][i])]];
    forall k: nat | k < ENTRIES
      ensures KernelSlotOk(m', g, k)
    {
      assert KernelSlotOk(m, g, k);
      WalkStays(m, free, g, g.kdir, k);
    }
    forall d', k: nat | d' in g.dirs && k < ENTRIES
      ensures UserSlotOk(m', g, d', k)
    {
      assert UserSlotOk(m, g, d', k);
      WalkStays(m, free, g, d', k);
    }
    forall x | x in g.tables
      ensures TableOk(m', g, x)
    {
      assert TableOk(m, g, x);
    }
    forall d', i': nat, j: nat | (d' in g.dirs || d' == g.kdir) && i' < ENTRIES && j < ENTRIES
      ensures Walk(m', d', i', j) == Walk(m, d', i', j)
    {
      WalkStays(m, free, g, d', i');
    }
  }

  /** Writing entry `j` of the table behind slot `i` changes that one translation, in this
      directory and in every directory that shares the table. */
  lemma {:induction false} WritePte(m: seq<Page>, free: seq<nat>, g: Layout, d: nat, i: nat, j: nat, e: Word)
    requires PagingOk(m, free, g) && (d in g.dirs || d == g.kdir) && i < ENTRIES && j < ENTRIES && Present(m[d][i])
    requires Frame(m[d][i]) < |m|
    requires e == 0 || (Present(e) && (User(e) ==> User(m[d][i])))
    ensures var m' := m[Frame(m[d][i]) := m[Frame(m[d][i])][j := e]];
            PagingOk(m', free, g) && Wrote(m, m', g, d, i, j, e)
  {
    var t := Frame(m[d][i]);
    var m' := m[t := m[t][j := e]];
    WalkStays(m, free, g, d, i);
    assert (d != g.kdir ==> UserSlotOk(m, g, d, i)) && KernelSlotOk(m, g, i);
    forall k: nat | k < ENTRIES
      ensures KernelSlotOk(m', g, k)
    {
      assert KernelSlotOk(m, g, k);
    }
    forall d', k: nat | d' in g.dirs && k < ENTRIES
      ensures UserSlotOk(m', g, d', k)
    {
      assert UserSlotOk(m, g, d', k);
    }
    forall x | x in g.tables
      ensures TableOk(m', g, x)
    {
      assert TableOk(m, g, x);
    }
    forall d', i': nat, j': nat | (d' in g.dirs || d' == g.kdir) && i' < ENTRIES && j' < ENTRIES
      ensures Walk(m', d', i', j') == if i' == i && j' == j && (d' == d || Present(m[g.kdir][i])) then e
                                      else Walk(m, d', i', j')
    {
      WalkStays(m, free, g, d', i');
      assert KernelSlotOk(m, g, i');
      assert d' != g.kdir ==> UserSlotOk(m, g, d', i');
    }
  }

  lemma {:induction false} WithoutPages(g: Layout, d: nat)
    ensures g.Without(d).Pages() <= g.Pages() && g.Without(d).kdir == g.kdir
    ensures g.Without(d).dirs <= g.dirs && g.Without(d).tables.Keys <= g.tables.Keys
  {}

  /** Forgetting a directory and its private tables leaves a well-formed rest. */
  lemma {:induction false} DropDirectory(m: seq<Page>, free: seq<nat>, g: Layout, d: nat)
    requires PagingOk(m, free, g) && d in g.dirs
    ensures PagingOk(m, free, g.Without(d))
    ensures g.TablesOf(d) !! g.Without(d).Pages() && d !in g.Without(d).Pages() && d !in g.TablesOf(d)
  {
    var g' := g.Without(d);
    assert Separate(|m|, free, g') by {
      WithoutPages(g, d);
    }
    forall k: nat | k < ENTRIES
      ensures KernelSlotOk(m, g', k)
    {
      assert KernelSlotOk(m, g, k);
    }
    forall d', k: nat | d' in g'.dirs && k < ENTRIES
      ensures UserSlotOk(m, g', d', k)
    {
      assert UserSlotOk(m, g, d', k);
    }
    forall x | x in g'.tables
      ensures TableOk(m, g', x)
    {
      assert TableOk(m, g, x);
    }
  }

  lemma {:induction false} UserMapMissesKernel(m: seq<Page>, free: seq<nat>, g: Layout, d: nat, i: nat)
    requires PagingOk(m, free, g) && d in g.dirs && i < ENTRIES
    requires Present(m[d][i]) ==> !Present(m[g.kdir][i])
    ensures !Present(m[g.kdir][i])
  {
    assert UserSlotOk(m, g, d, i);
  }

  /** The driver's test for a shared table: some leading kernel slot holds the same frame. */
  ghost predicate IsKernelFrame(m: seq<Page>, g: Layout, t: nat)
    requires g.kdir < |m| && g.bound <= ENTRIES
  {
    exists k: nat :: k < g.bound && Present(m[g.kdir][k]) && Frame(m[g.kdir][k]) == t
  }

  /** On a user directory the test says exactly whether the slot is a kernel slot. */
  lemma {:induction false} KernelTestExact(m: seq<Page>, free: seq<nat>, g: Layout, d: nat, i: nat)
    requires PagingOk(m, free, g) && (d in g.dirs || d == g.kdir) && i < ENTRIES && Present(m[d][i])
    ensures IsKernelFrame(m, g, Frame(m[d][i])) <==> Present(m[g.kdir][i])
  {
    assert UserSlotOk(m, g, d, i) && KernelSlotOk(m, g, i);
    if k: nat :| k < g.bound && Present(m[g.kdir][k]) && Frame(m[g.kdir][k]) == Frame(m[d][i]) {
      assert KernelSlotOk(m, g, k);
    }
  }
}

/** The page-table manager of mm/vmm.c. Directory arguments are physical addresses, 0 for NULL. */
module VirtualMemory {
  import opened Lists
  import opened FreeLists
  import opened PhysicalMemory
  import opened PageTables

  const WRITE := 2

  /** mm/vmm.c:140-141 and 195-196. */
  function KernelPdes(totalMemory: nat): nat {
    var n := totalMemory / (1024 * 4096) + 1;
    if n > ENTRIES then ENTRIES else n
  }

  /** mm/vmm.c:71-72. */
  function KernelTables(totalPages: nat): nat {
    var n := (totalPages + 1023) / 1024;
    if n > ENTRIES then ENTRIES else n
  }

  /** The entry that maps page `i * 1024 + j` onto itself, if it is within physical memory. */
  function IdentityEntry(totalMemory: nat, i: nat, j: nat): Word
    requires i < ENTRIES && j < ENTRIES
  {
    var phys := i * 1024 * 4096 + j * 4096;
    if phys < totalMemory then SetEntry(phys, WRITE) else 0
  }

  function IdentityPage(totalMemory: nat, i: nat): Page
    requires i < ENTRIES
  {
    seq(ENTRIES, j requires 0 <= j < ENTRIES => IdentityEntry(totalMemory, i, j))
  }

  /** Every whole page of physical memory is its own translation, writable for the kernel only; what lies past
      the end of memory has none. */
  lemma {:induction false} IdentityAt(totalMemory: nat, v: Word)
    requires totalMemory <= 0x1_0000_0000
    ensures v / 4096 < totalMemory / 4096 ==>
              && PdIndex(v) < KernelTables(totalMemory / 4096)
              && IdentityEntry(totalMemory, PdIndex(v), PtIndex(v)) == v / 4096 * 4096 + 3
    ensures v / 4096 * 4096 >= totalMemory ==> IdentityEntry(totalMemory, PdIndex(v), PtIndex(v)) == 0
  {
    hide SetEntry;
    var p, i, j := v / 4096, PdIndex(v), PtIndex(v);
    assert p == 1024 * i + j && i * 1024 * 4096 + j * 4096 == p * 4096;
    if p < totalMemory / 4096 {
      EntryOfPage(p);
    }
  }

  lemma {:induction false} EntryOfPage(p: nat)
    requires p < 0x10_0000
    ensures SetEntry(p * 4096, WRITE) == p * 4096 + 3
  {}

  /** The free list has gained exactly the tables of `d` recorded under slots below `i`. */
  ghost predicate FreedUpTo(l: seq<nat>, l0: seq<nat>, g: Layout, d: nat, i: nat) {
    forall x :: x in l <==> x in l0 || (x in g.TablesOf(d) && g.tables[x].slot < i)
  }

  /** The table of one slot: the kernel's, or the only one the directory has there. */
  lemma {:induction false} SlotTableFacts(m: seq<Page>, free: seq<nat>, g: Layout, d: nat, i: nat)
    requires PagingOk(m, free, g) && d in g.dirs && i < ENTRIES && Present(m[d][i])
    ensures g.Without(d).kdir in g.Without(d).Pages() && d !in g.Without(d).Pages() && g.kdir != d
    ensures var t := Frame(m[d][i]);
            && (forall x :: x in g.TablesOf(d) && g.tables[x].slot == i ==> x == t && !IsKernelFrame(m, g, t))
            && (!IsKernelFrame(m, g, t) ==>
                  && t in g.TablesOf(d) && g.tables[t].slot == i && 0 < t < |m| && t !in free
                  && t != d && t != g.kdir && t !in g.Without(d).Pages())
  {
    hide KernelSlotOk, Separate;
    var t := Frame(m[d][i]);
    assert UserSlotOk(m, g, d, i);
    KernelTestExact(m, free, g, d, i);
    DropDirectory(m, free, g, d);
    PagesApart(m, free, g, d);
    forall x | x in g.TablesOf(d) && g.tables[x].slot == i
      ensures x == t && !IsKernelFrame(m, g, t)
    {
      assert TableOk(m, g, x);
    }
  }

  lemma {:induction false} SameKernelFrames(m: seq<Page>, g: Layout, m': seq<Page>, g': Layout, t: nat)
    requires g.kdir < |m| == |m'| && g.bound <= ENTRIES && g'.kdir == g.kdir && g'.bound == g.bound
             && m'[g.kdir] == m[g.kdir]
    ensures IsKernelFrame(m', g', t) <==> IsKernelFrame(m, g, t)
  {}

  lemma {:induction false} PageAddress(p: nat)
    ensures p * PAGE_SIZE % PAGE_SIZE == 0 && p * PAGE_SIZE / PAGE_SIZE == p
  {}

  lemma {:induction false} PagesApart(m: seq<Page>, free: seq<nat>, g: Layout, d: nat)
    requires PagingOk(m, free, g) && d in g.dirs
    ensures g.Without(d).kdir in g.Without(d).Pages() && g.kdir != d && g.kdir !in g.TablesOf(d)
    ensures forall x :: x in g.TablesOf(d) ==> 0 < x < |m| && x !in free
  {
    assert forall x :: x in g.TablesOf(d) ==> x in g.Pages();
  }

  class Vmm {
    const pmm: Pmm
    const kernelDir: nat
    var currentDir: nat
    ghost var layout: Layout

    constructor (pmm: Pmm, kernelDir: nat)
      ensures this.pmm == pmm && this.kernelDir == kernelDir && currentDir == 0
      ensures layout == Layout(kernelDir, {}, map[], KernelPdes(pmm.totalMemory))
    {
      this.pmm := pmm;
      this.kernelDir := kernelDir;
      currentDir := 0;
      layout := Layout(kernelDir, {}, map[], KernelPdes(pmm.totalMemory));
    }

    ghost predicate Valid()
      reads this`layout, pmm, pmm.mem, pmm.bitmap
    {
      && pmm.Valid()
      && layout.kdir == kernelDir
      && layout.bound == KernelPdes(pmm.totalMemory)
      && PagingOk(pmm.mem[..], pmm.list, layout)
      && 0 !in pmm.list
    }

    /** A live user directory, by address. */
    ghost predicate Live(dir: nat)
      reads this`layout
    {
      dir % PAGE_SIZE == 0 && dir / PAGE_SIZE in layout.dirs
    }

    /** The entry that translates `virt` in directory page `d`; 0 if unmapped. */
    ghost function Entry(d: nat, virt: Word): Word
      reads pmm, pmm.mem
    {
      Walk(pmm.mem[..], d, PdIndex(virt), PtIndex(virt))
    }

    /** mm/vmm.c:148-155 and 197-204. */
    method IsKernelTable(t: nat) returns (isKernel: bool)
      requires Valid()
      ensures isKernel <==> IsKernelFrame(pmm.mem[..], layout, t)
    {
      hide Pmm.Valid, Bitmaps.Bit, KernelSlotOk, UserSlotOk, TableOk, Separate;
      var kernelPdes := pmm.totalMemory / (1024 * 4096) + 1;
      if kernelPdes > 1024 {
        kernelPdes := 1024;
      }
      var k := 0;
      while k < kernelPdes
        invariant 0 <= k <= kernelPdes
        invariant forall s: nat :: s < k ==> !(Present(pmm.mem[kernelDir][s]) && Frame(pmm.mem[kernelDir][s]) == t)
      {
        if Present(pmm.mem[kernelDir][k]) && Frame(pmm.mem[kernelDir][k]) == t {
          return true;
        }
        k := k + 1;
      }
      isKernel := false;
    }

    lemma {:induction false} KernelDirInside()
      requires Valid()
      ensures kernelDir < pmm.mem.Length
    {}

    lemma {:induction false} HeadIsFresh()
      requires Valid() && pmm.list != []
      ensures 0 < pmm.list[0] < |pmm.mem[..]| && pmm.list[0] !in layout.Pages() && pmm.list[0] !in pmm.list[1..]
              && 0 !in pmm.list[1..]
      ensures PagingOk(pmm.mem[..], pmm.list[1..], layout)
    {
      forall x | x in layout.Pages()
        ensures x !in pmm.list[1..]
      {
        assert x !in pmm.list;
      }
      assert pmm.list[0] in pmm.list;
      PagingFrame(pmm.mem[..], pmm.list, pmm.mem[..], pmm.list[1..], layout);
    }

    /** mm/vmm.c:115-130. */
    method CreateDirectory() returns (dir: nat)
      requires Valid()
      modifies this`layout, pmm, pmm.bitmap, pmm.mem
      ensures Valid()
      ensures dir == 0 <==> old(pmm.list) == []
      ensures dir == 0 ==> layout == old(layout) && pmm.list == old(pmm.list) && pmm.mem[..] == old(pmm.mem[..])
      ensures dir != 0 ==>
                && dir % PAGE_SIZE == 0 && dir == old(pmm.list)[0] * PAGE_SIZE && pmm.list == old(pmm.list)[1..]
                && layout == old(layout).(dirs := old(layout.dirs) + {dir / PAGE_SIZE})
                && SameWalks(old(pmm.mem[..]), pmm.mem[..], old(layout))
                && SameTranslation(pmm.mem[..], dir / PAGE_SIZE, kernelDir)
                && pmm.mem[kernelDir] == old(pmm.mem[kernelDir])
    {
      hide Bitmaps.Bit, KernelSlotOk, UserSlotOk, TableOk, Threaded, SameWalks;
      if pmm.list != [] {
        HeadIsFresh();
      }
      ghost var m: seq<Page> := pmm.mem[..];
      dir := pmm.AllocPage();
      assert pmm.mem[..] == m;
      if dir == 0 {
        return;
      }
      var d := dir / PAGE_SIZE;
      CopyKernelSlots(d);
      ThreadFrame(m, pmm.mem[..], pmm.list);
      layout := layout.(dirs := layout.dirs + {d});
      AddDirectory(m, pmm.list, old(layout), d);
    }

    /** mm/vmm.c:119-127. */
    method CopyKernelSlots(d: nat)
      requires d < pmm.mem.Length && kernelDir < pmm.mem.Length && d != kernelDir
      modifies pmm.mem
      ensures pmm.mem[..] == old(pmm.mem[..])[d := old(pmm.mem[kernelDir])]
    {
      pmm.mem[d] := ZeroPage();
      var i := 0;
      while i < 1024
        invariant 0 <= i <= 1024
        invariant forall x: nat :: x < pmm.mem.Length && x != d ==> pmm.mem[x] == old(pmm.mem[x])
        invariant forall k: nat :: k < i ==> pmm.mem[d][k] == old(pmm.mem[kernelDir][k])
      {
        pmm.mem[d] := pmm.mem[d][i := pmm.mem[kernelDir][i]];
        i := i + 1;
      }
      assert pmm.mem[d] == old(pmm.mem[kernelDir]);
    }

    /** mm/vmm.c:180-212: the table page behind slot `i`, allocated and marked user as needed;
        0 when no page is free or the slot is the kernel's and user access is asked for. */
    method EnsureTable(d: nat, i: nat, flags: Word) returns (pt: nat)
      requires Valid() && i < ENTRIES && (d in layout.dirs || (d == kernelDir && Present(pmm.mem[d][i])))
      modifies this`layout, pmm, pmm.bitmap, pmm.mem
      ensures Valid() && layout.dirs == old(layout.dirs)
      ensures pt == 0 <==> if Present(old(pmm.mem[d])[i]) then User(flags) && Present(old(pmm.mem[kernelDir])[i])
                           else old(pmm.list) == []
      ensures pt == 0 ==> layout == old(layout) && pmm.list == old(pmm.list) && pmm.mem[..] == old(pmm.mem[..])
      ensures pt != 0 ==> Present(pmm.mem[d][i]) && Frame(pmm.mem[d][i]) == pt
                          && (User(flags) ==> User(pmm.mem[d][i])) && Writable(pmm.mem[d][i])
      ensures pt != 0 && !Present(old(pmm.mem[d])[i]) ==>
                pmm.mem[d] == old(pmm.mem[d])[i := pt * 4096 + if User(flags) then 7 else 3]
      ensures SameWalks(old(pmm.mem[..]), pmm.mem[..], layout)
      ensures pmm.mem[kernelDir] == old(pmm.mem[kernelDir])
      ensures pt != 0 && Present(old(pmm.mem[d])[i]) ==> layout == old(layout) && pmm.list == old(pmm.list)
      ensures pt != 0 && !Present(old(pmm.mem[d])[i]) ==>
                && pt == old(pmm.list)[0] && pmm.list == old(pmm.list)[1..]
                && layout == old(layout).(tables := old(layout.tables)[pt := UserTable(d, i)])
    {
      hide Bitmaps.Bit, KernelSlotOk, UserSlotOk, TableOk, Threaded, LinkAt, Walk, IsKernelFrame, Frame, User, Present;
      hide Writable, WithUser, KernelPdes;
      ghost var m: seq<Page>, g := pmm.mem[..], layout;
      SlotsAreWritable(m, pmm.list, g, d, i);
      if !Present(pmm.mem[d][i]) {
        pt := NewTable(d, i, flags);
        return;
      }
      WalkStays(m, pmm.list, g, d, i);
      if User(flags) {
        KernelTestExact(m, pmm.list, g, d, i);
        var isKernel := IsKernelTable(Frame(pmm.mem[d][i]));
        if isKernel {
          SameWalksSelf(m, g);
          return 0;
        }
        WidenSlot(d, i);
      } else {
        SameWalksSelf(m, g);
      }
      pt := Frame(pmm.mem[d][i]);
    }

    /** mm/vmm.c:206: user access for a private table. */
    method WidenSlot(d: nat, i: nat)
      requires Valid() && i < ENTRIES && d in layout.dirs && Present(pmm.mem[d][i]) && !Present(pmm.mem[kernelDir][i])
      modifies pmm.mem
      ensures Valid() && pmm.mem[kernelDir] == old(pmm.mem[kernelDir])
      ensures SameWalks(old(pmm.mem[..]), pmm.mem[..], layout)
      ensures pmm.mem[d] == old(pmm.mem[d])[i := WithUser(old(pmm.mem[d])[i])]
    {
      hide Bitmaps.Bit, KernelSlotOk, UserSlotOk, TableOk, Threaded, LinkAt, Walk;
      ghost var m: seq<Page>, g := pmm.mem[..], layout;
      assert d in g.Pages() && kernelDir in g.Pages();
      pmm.mem[d] := pmm.mem[d][i := WithUser(pmm.mem[d][i])];
      MarkUser(m, pmm.list, g, d, i);
      ThreadFrame(m, pmm.mem[..], pmm.list);
    }

    /** mm/vmm.c:180-189: a table for an empty slot. The directory entry always grants writing. */
    method NewTable(d: nat, i: nat, flags: Word) returns (pt: nat)
      requires Valid() && i < ENTRIES && d in layout.dirs && !Present(pmm.mem[d][i])
      modifies this`layout, pmm, pmm.bitmap, pmm.mem
      ensures Valid() && pmm.mem[kernelDir] == old(pmm.mem[kernelDir])
      ensures pt == 0 <==> old(pmm.list) == []
      ensures pt == 0 ==> layout == old(layout) && pmm.list == old(pmm.list) && pmm.mem[..] == old(pmm.mem[..])
      ensures SameWalks(old(pmm.mem[..]), pmm.mem[..], layout) && layout.dirs == old(layout.dirs)
      ensures pt != 0 ==>
                && pt == old(pmm.list)[0] && pmm.list == old(pmm.list)[1..]
                && layout == old(layout).(tables := old(layout.tables)[pt := UserTable(d, i)])
                && Frame(pmm.mem[d][i]) == pt && Present(pmm.mem[d][i]) && Writable(pmm.mem[d][i])
                && (User(flags) ==> User(pmm.mem[d][i]))
                && pmm.mem[d] == old(pmm.mem[d])[i := pt * 4096 + if User(flags) then 7 else 3]
    {
      hide Bitmaps.Bit, KernelSlotOk, UserSlotOk, TableOk, Threaded, LinkAt, Walk;
      ghost var m: seq<Page>, g := pmm.mem[..], layout;
      assert d in g.Pages() && kernelDir in g.Pages();
      if pmm.list != [] {
        HeadIsFresh();
      }
      var page := pmm.AllocPage();
      if page == 0 {
        SameWalksSelf(m, g);
        return 0;
      }
      pt := page / PAGE_SIZE;
      pmm.mem[pt] := ZeroPage();
      var pdeFlags := if User(flags) then 1 + WRITE + USER_FLAG else 1 + WRITE;
      var pde := SetEntry(page, pdeFlags);
      pmm.mem[d] := pmm.mem[d][i := pde];
      ghost var m1: seq<Page> := m[pt := ZeroPage()];
      assert pmm.mem[..] == m1[d := m[d][i := pde]];
      layout := layout.(tables := layout.tables[pt := UserTable(d, i)]);
      AddTable(m, pmm.list, g, d, i, pt, pde);
      ThreadFrame(m, pmm.mem[..], pmm.list);
    }

    /** mm/vmm.c:169-223. */
    method MapPage(dir: nat, virt: Word, phys: Word, flags: Word) returns (ok: bool)
      requires Valid() && (dir == 0 || Live(dir)
               || (dir == kernelDir * PAGE_SIZE && Present(pmm.mem[kernelDir][PdIndex(virt)])))
      modifies this`layout, pmm, pmm.bitmap, pmm.mem
      ensures Valid() && layout.dirs == old(layout.dirs)
      ensures ok <==> && dir != 0 && old(Entry(dir / PAGE_SIZE, virt)) == 0
                      && if Present(old(pmm.mem[dir / PAGE_SIZE])[PdIndex(virt)])
                         then !(User(flags) && Present(old(pmm.mem[kernelDir])[PdIndex(virt)]))
                         else old(pmm.list) != []
      ensures ok ==> Wrote(old(pmm.mem[..]), pmm.mem[..], old(layout), dir / PAGE_SIZE, PdIndex(virt), PtIndex(virt),
              SetEntry(phys, flags))
      ensures ok ==> (WriteAccess(pmm.mem[..], dir / PAGE_SIZE, PdIndex(virt), PtIndex(virt)) <==> Writable(flags))
      ensures ok ==> (UserAccess(pmm.mem[..], dir / PAGE_SIZE, PdIndex(virt), PtIndex(virt)) <==> User(flags))
      ensures !ok ==> SameWalks(old(pmm.mem[..]), pmm.mem[..], old(layout))
      ensures pmm.mem[kernelDir] == old(pmm.mem[kernelDir])
      ensures !ok || Present(old(pmm.mem[dir / PAGE_SIZE])[PdIndex(virt)]) ==>
                layout == old(layout) && pmm.list == old(pmm.list)
      ensures ok && !Present(old(pmm.mem[dir / PAGE_SIZE])[PdIndex(virt)]) ==>
                && old(pmm.list) != [] && pmm.list == old(pmm.list)[1..]
                && layout == old(layout).(
                     tables := old(layout.tables)[old(pmm.list)[0] := UserTable(dir / PAGE_SIZE, PdIndex(virt))])
    {
      hide Bitmaps.Bit, KernelSlotOk, UserSlotOk, TableOk, Threaded, LinkAt, PdIndex, PtIndex, PageBase;
      if dir == 0 {
        SameWalksSelf(pmm.mem[..], layout);
        return false;
      }
      var d, i, j := dir / PAGE_SIZE, PdIndex(PageBase(virt)), PtIndex(PageBase(virt));
      PageBaseIndices(virt);
      ghost var m0: seq<Page>, g0 := pmm.mem[..], layout;
      assert kernelDir in g0.Pages();
      WalkStays(m0, pmm.list, g0, d, i);
      var pt := EnsureTable(d, i, flags);
      if pt == 0 {
        return false;
      }
      ghost var m: seq<Page>, g := pmm.mem[..], layout;
      WalkStays(m, pmm.list, g, d, i);
      if Present(pmm.mem[pt][j]) {
        return false;
      }
      var pte := SetEntry(PageBase(phys), flags);
      pmm.mem[pt] := pmm.mem[pt][j := pte];
      WritePte(m, pmm.list, g, d, i, j, pte);
      assert pt in g.Pages();
      ThreadFrame(m, pmm.mem[..], pmm.list);
      WriteAccessByEntry(pmm.mem[..], pmm.list, g, d, i, j);
      UserAccessByEntry(pmm.mem[..], pmm.list, g, d, i, j);
      ok := true;
    }

    /** mm/vmm.c:227-245. */
    method UnmapPage(dir: nat, virt: Word) returns (ok: bool)
      requires Valid() && (dir == 0 || dir == kernelDir * PAGE_SIZE || Live(dir))
      modifies pmm.mem
      ensures Valid()
      ensures ok <==> dir != 0 && old(Entry(dir / PAGE_SIZE, virt)) != 0
      ensures ok ==> Wrote(old(pmm.mem[..]), pmm.mem[..], layout, dir / PAGE_SIZE, PdIndex(virt), PtIndex(virt), 0)
      ensures !ok ==> pmm.mem[..] == old(pmm.mem[..])
      ensures pmm.mem[kernelDir] == old(pmm.mem[kernelDir])
    {
      hide Bitmaps.Bit, KernelSlotOk, UserSlotOk, TableOk, Threaded, LinkAt, PdIndex, PtIndex, PageBase;
      if dir == 0 {
        return false;
      }
      var d, i, j := dir / PAGE_SIZE, PdIndex(PageBase(virt)), PtIndex(PageBase(virt));
      PageBaseIndices(virt);
      ghost var m: seq<Page> := pmm.mem[..];
      if !Present(pmm.mem[d][i]) {
        return false;
      }
      WalkStays(m, pmm.list, layout, d, i);
      var pt := Frame(pmm.mem[d][i]);
      if !Present(pmm.mem[pt][j]) {
        return false;
      }
      pmm.mem[pt] := pmm.mem[pt][j := 0];
      WritePte(m, pmm.list, layout, d, i, j, 0);
      assert pt in layout.Pages();
      ThreadFrame(m, pmm.mem[..], pmm.list);
      ok := true;
    }

    /** mm/vmm.c:266-280. Frame 0 at offset 0 reads as unmapped. */
    method GetPhysAddr(dir: nat, virt: Word) returns (phys: Word)
      requires Valid() && (dir == 0 || dir == kernelDir * PAGE_SIZE || Live(dir))
      ensures phys == if dir == 0 || Entry(dir / PAGE_SIZE, virt) == 0 then 0
                      else Frame(Entry(dir / PAGE_SIZE, virt)) * PAGE_SIZE + virt % PAGE_SIZE
    {
      if dir == 0 {
        return 0;
      }
      var d, i, j := dir / PAGE_SIZE, PdIndex(virt), PtIndex(virt);
      WalkStays(pmm.mem[..], pmm.list, layout, d, i);
      if !Present(pmm.mem[d][i]) {
        return 0;
      }
      var pt := Frame(pmm.mem[d][i]);
      if !Present(pmm.mem[pt][j]) {
        return 0;
      }
      phys := Frame(pmm.mem[pt][j]) * PAGE_SIZE + virt % PAGE_SIZE;
    }

    /** mm/vmm.c:249-263: looks only at the page-table entry, yet decides the two-level rule. */
    method IsUserAccessible(virt: Word) returns (ok: bool)
      requires Valid() && (currentDir == 0 || currentDir == kernelDir * PAGE_SIZE || Live(currentDir))
      ensures ok <==> currentDir != 0 && UserAccess(pmm.mem[..], currentDir / PAGE_SIZE, PdIndex(virt), PtIndex(virt))
    {
      if currentDir == 0 {
        return false;
      }
      var d, i, j := currentDir / PAGE_SIZE, PdIndex(virt), PtIndex(virt);
      WalkStays(pmm.mem[..], pmm.list, layout, d, i);
      UserAccessByEntry(pmm.mem[..], pmm.list, layout, d, i, j);
      if !Present(pmm.mem[d][i]) {
        return false;
      }
      var pt := Frame(pmm.mem[d][i]);
      if !Present(pmm.mem[pt][j]) {
        return false;
      }
      if !User(pmm.mem[pt][j]) {
        return false;
      }
      ok := true;
    }

    /** mm/vmm.c:82-95: the identity table for the 4 MiB from slot `i`. */
    method FillTable(t: nat, i: nat)
      requires t < pmm.mem.Length && i < ENTRIES
      modifies pmm.mem
      ensures pmm.mem[..] == old(pmm.mem[..])[t := IdentityPage(pmm.totalMemory, i)]
    {
      pmm.mem[t] := ZeroPage();
      var j := 0;
      while j < 1024
        invariant 0 <= j <= 1024
        invariant forall x: nat :: x < pmm.mem.Length && x != t ==> pmm.mem[x] == old(pmm.mem[x])
        invariant forall k: nat :: k < ENTRIES ==>
                  pmm.mem[t][k] == if k < j then IdentityEntry(pmm.totalMemory, i, k) else 0
      {
        var phys := i * 1024 * 4096 + j * 4096;
        if phys >= pmm.totalMemory {
          break;
        }
        pmm.mem[t] := pmm.mem[t][j := SetEntry(phys, WRITE)];
        j := j + 1;
      }
      assert pmm.mem[t] == IdentityPage(pmm.totalMemory, i);
    }

    /** mm/vmm.c:61-102: the kernel directory maps physical memory onto itself, without user access. */
    method Init() returns (ok: bool)
      requires pmm.Valid() && 0 !in pmm.list && 0 < kernelDir < pmm.totalPages && kernelDir !in pmm.list
      requires layout == Layout(kernelDir, {}, map[], KernelPdes(pmm.totalMemory))
      modifies this, pmm, pmm.bitmap, pmm.mem
      ensures ok <==> |old(pmm.list)| >= KernelTables(pmm.totalPages)
      ensures ok ==> Valid() && layout.dirs == {} && currentDir == kernelDir * PAGE_SIZE
      ensures ok ==> pmm.list == old(pmm.list)[KernelTables(pmm.totalPages)..]
      ensures ok ==> forall i: nat, j: nat :: i < ENTRIES && j < ENTRIES ==>
                Walk(pmm.mem[..], kernelDir, i, j) ==
                if i < KernelTables(pmm.totalPages) then IdentityEntry(pmm.totalMemory, i, j) else 0
      ensures ok ==> forall v: Word :: v / 4096 < pmm.totalPages ==> Entry(kernelDir, v) == v / 4096 * 4096 + 3
      ensures ok ==> forall v: Word :: v / 4096 * 4096 >= pmm.totalMemory ==> Entry(kernelDir, v) == 0
    {
      hide Bitmaps.Bit, KernelSlotOk, UserSlotOk, TableOk, Threaded, Separate;
      ghost var l := pmm.list;
      pmm.mem[kernelDir] := ZeroPage();
      ThreadFrame(old(pmm.mem[..]), pmm.mem[..], pmm.list);
      EmptyKernelDirectory(pmm.mem[..], pmm.list, layout);
      var i := 0;
      while i < KernelTables(pmm.totalPages)
        invariant 0 <= i <= KernelTables(pmm.totalPages) && i <= |l| && pmm.list == l[i..]
        invariant Valid() && layout.dirs == {}
        invariant forall k: nat, j: nat :: k < ENTRIES && j < ENTRIES ==>
                    Walk(pmm.mem[..], kernelDir, k, j) == if k < i then IdentityEntry(pmm.totalMemory, k, j) else 0
        invariant forall k: nat :: i <= k < ENTRIES ==> !Present(pmm.mem[kernelDir][k])
      {
        ok := MapKernelTable(i);
        if !ok {
          return;
        }
        i := i + 1;
      }
      currentDir := kernelDir * PAGE_SIZE;
      ok := true;
      forall v: Word
        ensures v / 4096 < pmm.totalPages ==> Entry(kernelDir, v) == v / 4096 * 4096 + 3
        ensures v / 4096 * 4096 >= pmm.totalMemory ==> Entry(kernelDir, v) == 0
      {
        IdentityAt(pmm.totalMemory, v);
        var i, j := PdIndex(v), PtIndex(v);
        assert Walk(pmm.mem[..], kernelDir, i, j) ==
               if i < KernelTables(pmm.totalPages) then IdentityEntry(pmm.totalMemory, i, j) else 0;
      }
    }

    /** One round of mm/vmm.c:76-97. */
    method MapKernelTable(i: nat) returns (ok: bool)
      requires Valid() && layout.dirs == {} && i < KernelTables(pmm.totalPages) && !Present(pmm.mem[kernelDir][i])
      modifies this`layout, pmm, pmm.bitmap, pmm.mem
      ensures ok <==> old(pmm.list) != []
      ensures ok ==> Valid() && layout.dirs == {} && pmm.list == old(pmm.list)[1..]
      ensures ok ==> forall k: nat, j: nat :: k < ENTRIES && j < ENTRIES ==>
                Walk(pmm.mem[..], kernelDir, k, j) ==
                if k == i then IdentityEntry(pmm.totalMemory, i, j) else Walk(old(pmm.mem[..]), kernelDir, k, j)
      ensures ok ==> forall k: nat :: k < ENTRIES && k != i ==> pmm.mem[kernelDir][k] == old(pmm.mem[kernelDir])[k]
    {
      hide Bitmaps.Bit, KernelSlotOk, UserSlotOk, TableOk, Threaded, Separate;
      ghost var m: seq<Page>, g := pmm.mem[..], layout;
      if pmm.list != [] {
        HeadIsFresh();
      }
      var page := pmm.AllocPage();
      if page == 0 {
        return false;
      }
      var t := page / PAGE_SIZE;
      FillTable(t, i);
      ghost var m1: seq<Page> := m[t := IdentityPage(pmm.totalMemory, i)];
      assert kernelDir in g.Pages() && pmm.mem[kernelDir] == m[kernelDir];
      pmm.mem[kernelDir] := pmm.mem[kernelDir][i := SetEntry(page, WRITE)];
      assert pmm.mem[..] == m1[kernelDir := m[kernelDir][i := SetEntry(page, WRITE)]];
      layout := layout.(tables := layout.tables[t := KernelTable(i)]);
      AddKernelTable(m, pmm.list, g, i, t, IdentityPage(pmm.totalMemory, i), SetEntry(page, WRITE));
      assert forall x :: x in pmm.list ==> x in old(pmm.list);
      KernelDirNotFree(m, old(pmm.list), g);
      ThreadFrame(m, pmm.mem[..], pmm.list);
      ok := true;
    }

    /** mm/vmm.c:146-160 for one slot: free its table unless it is one of the kernel's. */
    method FreeSlotTable(d: nat, i: nat, ghost m0: seq<Page>, ghost l0: seq<nat>, ghost g0: Layout)
      requires Valid() && PagingOk(m0, l0, g0) && d in g0.dirs && i < ENTRIES && layout == g0.Without(d)
      requires |m0| == pmm.mem.Length && pmm.mem[d] == m0[d] && pmm.mem[kernelDir] == m0[kernelDir]
      requires Present(m0[d][i]) && FreedUpTo(pmm.list, l0, g0, d, i)
      modifies pmm, pmm.bitmap, pmm.mem
      ensures Valid()
      ensures SameWalks(old(pmm.mem[..]), pmm.mem[..], layout)
      ensures pmm.mem[d] == m0[d] && pmm.mem[kernelDir] == m0[kernelDir]
      ensures FreedUpTo(pmm.list, l0, g0, d, i + 1)
    {
      hide Bitmaps.Bit, KernelSlotOk, UserSlotOk, TableOk, Threaded, LinkAt, Walk, IsKernelFrame;
      ghost var m: seq<Page> := pmm.mem[..];
      var t := Frame(pmm.mem[d][i]);
      SlotTableFacts(m0, l0, g0, d, i);
      SameKernelFrames(m0, g0, m, layout, t);
      var isKernel := IsKernelTable(t);
      if isKernel {
        SameWalksSelf(m, layout);
        return;
      }
      PageAddress(t);
      pmm.FreePage(t * PAGE_SIZE);
      PagingFrame(m, old(pmm.list), pmm.mem[..], pmm.list, layout);
    }

    /** mm/vmm.c:135-165. */
    method DestroyDirectory(dir: nat)
      requires Valid() && (dir == 0 || Live(dir))
      modifies this`layout, pmm, pmm.bitmap, pmm.mem
      ensures Valid()
      ensures dir == 0 ==> layout == old(layout) && pmm.list == old(pmm.list) && pmm.mem[..] == old(pmm.mem[..])
      ensures dir != 0 ==>
                && layout == old(layout).Without(dir / PAGE_SIZE)
                && SameWalks(old(pmm.mem[..]), pmm.mem[..], layout)
                && pmm.mem[kernelDir] == old(pmm.mem[kernelDir])
                && forall x :: x in pmm.list <==>
                     x in old(pmm.list) || x == dir / PAGE_SIZE || x in old(layout).TablesOf(dir / PAGE_SIZE)
    {
      hide Bitmaps.Bit, KernelSlotOk, UserSlotOk, Threaded, LinkAt, Walk;
      if dir == 0 {
        return;
      }
      var d := dir / PAGE_SIZE;
      ghost var m0: seq<Page>, l0, g0 := pmm.mem[..], pmm.list, layout;
      DropDirectory(m0, l0, g0, d);
      layout := layout.Without(d);
      SameWalksSelf(m0, layout);
      var i := 0;
      while i < 1024
        invariant 0 <= i <= 1024
        invariant Valid() && layout == g0.Without(d)
        invariant SameWalks(m0, pmm.mem[..], layout)
        invariant pmm.mem[d] == m0[d] && pmm.mem[kernelDir] == m0[kernelDir]
        invariant FreedUpTo(pmm.list, l0, g0, d, i)
      {
        if Present(pmm.mem[d][i]) {
          FreeSlotTable(d, i, m0, l0, g0);
        } else {
          assert forall x :: x in g0.TablesOf(d) ==> TableOk(m0, g0, x);
        }
        i := i + 1;
      }
      assert forall x :: x in g0.TablesOf(d) ==> TableOk(m0, g0, x);
      assert d in g0.Pages() && d !in pmm.list;
      ghost var m1: seq<Page>, l1 := pmm.mem[..], pmm.list;
      pmm.FreePage(dir);
      assert kernelDir in layout.Pages();
      PagingFrame(m1, l1, pmm.mem[..], pmm.list, layout);
    }

    /** mm/vmm.c:284-288. */
    method SwitchDirectory(dir: nat)
      modifies this`currentDir
      ensures currentDir == if dir == 0 then old(currentDir) else dir
    {
      if dir == 0 {
        return;
      }
      currentDir := dir;
    }
  }

  /** From boot on the kernel's directory translates every address of a whole page of memory to itself. */
  method BootIdentity(vmm: Vmm, v: Word) returns (phys: Word)
    requires vmm.pmm.Valid() && 0 !in vmm.pmm.list && 0 < vmm.kernelDir < vmm.pmm.totalPages
    requires vmm.kernelDir !in vmm.pmm.list && |vmm.pmm.list| >= KernelTables(vmm.pmm.totalPages)
    requires vmm.layout == Layout(vmm.kernelDir, {}, map[], KernelPdes(vmm.pmm.totalMemory))
    modifies vmm, vmm.pmm, vmm.pmm.bitmap, vmm.pmm.mem
    ensures vmm.Valid()
    ensures v / 4096 < vmm.pmm.totalPages ==> phys == v
    ensures v / 4096 * 4096 >= vmm.pmm.totalMemory ==> phys == 0
  {
    hide PagingOk, Threaded, Bitmaps.Bit, Walk, IdentityEntry, KernelTables;
    EntryBits(v / 4096, 3);
    var ok := vmm.Init();
    phys := vmm.GetPhysAddr(vmm.kernelDir * PAGE_SIZE, v);
  }

}

/** Each directory as a finite map, and the machine of such maps that the page tables refine. */
module AddressSpaces {
  import opened Lists
  import opened FreeLists
  import opened PhysicalMemory
  import opened PageTables
  import opened VirtualMemory
  import Bitmaps

  type Space = map<(nat, nat), Word>

  /** What directory `d` maps: slot pairs to page-table entries. */
  ghost function SpaceOf(m: seq<Page>, d: nat): Space {
    map i: nat, j: nat | i < ENTRIES && j < ENTRIES && Walk(m, d, i, j) != 0 :: (i, j) := Walk(m, d, i, j)
  }

  /** Writing one entry adds or removes exactly one binding, and only there and in sharers. */
  lemma {:induction false} WroteOneBinding(
      m: seq<Page>, m': seq<Page>, g: Layout, d: nat, d': nat, i: nat, j: nat, e: Word)
    requires i < ENTRIES && j < ENTRIES && g.kdir < |m| && Wrote(m, m', g, d, i, j, e)
    requires d' in g.dirs || d' == g.kdir
    ensures SpaceOf(m', d') == if d' != d && !Present(m[g.kdir][i]) then SpaceOf(m, d')
                               else if e == 0 then SpaceOf(m, d') - {(i, j)} else SpaceOf(m, d')[(i, j) := e]
  {
    Bindings(m, d');
    Bindings(m', d');
    hide Walk, SpaceOf;
    var s, s' := SpaceOf(m, d'), SpaceOf(m', d');
    var hit := d' == d || Present(m[g.kdir][i]);
    assert forall p: (nat, nat) :: p.0 < ENTRIES && p.1 < ENTRIES ==>
        Walk(m', d', p.0, p.1) == if hit && p.0 == i && p.1 == j then e else Walk(m, d', p.0, p.1);
    hide Wrote;
    if !hit {
      assert s' == s;
    } else if e == 0 {
      assert s' == s - {(i, j)};
    } else {
      assert s' == s[(i, j) := e];
    }
  }

  lemma {:induction false} Bindings(m: seq<Page>, d: nat)
    ensures forall p: (nat, nat) {:trigger p in SpaceOf(m, d)} {:trigger Walk(m, d, p.0, p.1)} ::
            p.0 < ENTRIES && p.1 < ENTRIES ==>
              (p in SpaceOf(m, d) <==> Walk(m, d, p.0, p.1) != 0)
    ensures forall p: (nat, nat) {:trigger SpaceOf(m, d)[p]} :: p in SpaceOf(m, d) ==>
              p.0 < ENTRIES && p.1 < ENTRIES && SpaceOf(m, d)[p] == Walk(m, d, p.0, p.1)
    ensures forall p: (nat, nat) {:trigger p in SpaceOf(m, d)} :: p in SpaceOf(m, d) ==> p.0 < ENTRIES && p.1 < ENTRIES
  {
    hide Walk;
    forall p: (nat, nat) | p in SpaceOf(m, d)
      ensures p.0 < ENTRIES && p.1 < ENTRIES && SpaceOf(m, d)[p] == Walk(m, d, p.0, p.1)
    {
      assert p == (p.0, p.1);
    }
  }

  lemma {:induction false} SameTranslationSameSpace(m: seq<Page>, m': seq<Page>, d: nat, d': nat)
    requires forall i: nat, j: nat :: i < ENTRIES && j < ENTRIES ==> Walk(m', d', i, j) == Walk(m, d, i, j)
    ensures SpaceOf(m', d') == SpaceOf(m, d)
  {
    hide Walk;
  }

  lemma {:induction false} SameWalksSameSpace(m: seq<Page>, m': seq<Page>, g: Layout, d: nat)
    requires SameWalks(m, m', g) && (d in g.dirs || d == g.kdir)
    ensures SpaceOf(m', d) == SpaceOf(m, d)
  {
    hide Walk;
    SameTranslationSameSpace(m, m', d, d);
  }

  /** A successful map or unmap through one user directory leaves all other directories alone
      if and only if the kernel does not occupy the slot. */
  lemma {:induction false} IsolatedIff(
      m: seq<Page>, m': seq<Page>, free: seq<nat>, g: Layout, d: nat, i: nat, j: nat, e: Word)
    requires PagingOk(m, free, g) && d in g.dirs && i < ENTRIES && j < ENTRIES
    requires Wrote(m, m', g, d, i, j, e) && e != Walk(m, d, i, j)
    ensures (forall d' :: (d' in g.dirs || d' == g.kdir) && d' != d ==> SpaceOf(m', d') == SpaceOf(m, d'))
            <==> !Present(m[g.kdir][i])
  {
    if Present(m[g.kdir][i]) {
      assert UserSlotOk(m, g, d, i);
      assert Walk(m', g.kdir, i, j) == e && Walk(m, g.kdir, i, j) == Walk(m, d, i, j);
      if e != 0 {
        assert SpaceOf(m', g.kdir)[(i, j)] == e;
      } else {
        assert (i, j) in SpaceOf(m, g.kdir) && (i, j) !in SpaceOf(m', g.kdir);
      }
    } else {
      forall d' | (d' in g.dirs || d' == g.kdir) && d' != d
        ensures SpaceOf(m', d') == SpaceOf(m, d')
      {
        WroteOneBinding(m, m', g, d, d', i, j, e);
      }
    }
  }

  datatype Call =
    | Create
    | Map(dir: nat, virt: Word, phys: Word, flags: Word)
    | Unmap(dir: nat, virt: Word)
    | Destroy(dir: nat)

  /**
   * The abstract machine: what the kernel maps and in which slots, what each live directory maps and for
   * which slots it has tables of its own, and how many pages are free.
   */
  datatype World = World(kernel: Space, shared: set<nat>, spaces: map<nat, Space>, own: map<nat, set<nat>>, room: int)

  ghost predicate IsLive(w: World, dir: nat) {
    dir % PAGE_SIZE == 0 && dir / PAGE_SIZE in w.spaces && dir / PAGE_SIZE in w.own
  }

  /** When a call succeeds. Calls on directories that are not live fail. */
  ghost predicate Succeeds(w: World, c: Call) {
    match c
    case Create => w.room > 0
    case Map(dir, virt, _, flags) =>
      && IsLive(w, dir) && (PdIndex(virt), PtIndex(virt)) !in w.spaces[dir / PAGE_SIZE]
      && if PdIndex(virt) in w.shared then !User(flags) else PdIndex(virt) in w.own[dir / PAGE_SIZE] || w.room > 0
    case Unmap(dir, virt) => IsLive(w, dir) && (PdIndex(virt), PtIndex(virt)) in w.spaces[dir / PAGE_SIZE]
    case Destroy(dir) => IsLive(w, dir)
  }

  /** The results a call may have: an address that is not in use for a new directory, else 1 for success and 0. */
  ghost predicate Legit(w: World, c: Call, r: nat) {
    && (r != 0 <==> Succeeds(w, c))
    && (if c.Create? then r == 0 || (r % PAGE_SIZE == 0 && r / PAGE_SIZE !in w.spaces) else r <= 1)
  }

  /** One entry written in a map; 0 takes the binding away. */
  ghost function Bind(s: Space, virt: Word, e: Word): Space {
    if e == 0 then s - {(PdIndex(virt), PtIndex(virt))} else s[(PdIndex(virt), PtIndex(virt)) := e]
  }

  /** An entry written through directory `d`: in the kernel's slots it is everybody's. */
  ghost function Written(w: World, d: nat, virt: Word, e: Word): World {
    if PdIndex(virt) in w.shared then
      w.(kernel := Bind(w.kernel, virt, e), spaces := map x | x in w.spaces :: Bind(w.spaces[x], virt, e))
    else if d in w.spaces then w.(spaces := w.spaces[d := Bind(w.spaces[d], virt, e)])
    else w
  }

  /** A table of its own for slot `i` of directory `d`, if it has none and needs one. */
  ghost function Tabled(w: World, d: nat, i: nat): World {
    if i in w.shared || d !in w.own || i in w.own[d] then w
    else w.(own := w.own[d := w.own[d] + {i}], room := w.room - 1)
  }

  ghost function After(w: World, c: Call, r: nat): World {
    if r == 0 then w else
      match c
      case Create =>
        w.(spaces := w.spaces[r / PAGE_SIZE := w.kernel], own := w.own[r / PAGE_SIZE := {}], room := w.room - 1)
      case Map(dir, virt, phys, flags) =>
        Tabled(Written(w, dir / PAGE_SIZE, virt, SetEntry(phys, flags)), dir / PAGE_SIZE, PdIndex(virt))
      case Unmap(dir, virt) => Written(w, dir / PAGE_SIZE, virt, 0)
      case Destroy(dir) =>
        var d := dir / PAGE_SIZE;
        w.(spaces := w.spaces - {d}, own := w.own - {d}, room := w.room + 1 + if d in w.own then |w.own[d]| else 0)
  }

  ghost function Run(w: World, calls: seq<Call>, rs: seq<nat>): World
    requires |calls| == |rs|
  {
    if calls == [] then w
    else After(Run(w, calls[..|calls| - 1], rs[..|rs| - 1]), calls[|calls| - 1], rs[|rs| - 1])
  }

  /** Every result of the run is one its call may have at its time. */
  ghost predicate LegitAt(w: World, calls: seq<Call>, rs: seq<nat>, k: nat)
    requires k < |calls| && |rs| >= k + 1
  {
    Legit(Run(w, calls[..k], rs[..k]), calls[k], rs[k])
  }

  /** The call goes through one of the kernel's slots. */
  ghost predicate Through(shared: set<nat>, c: Call) {
    (c.Map? || c.Unmap?) && PdIndex(c.virt) in shared
  }

  /** The call names directory `d`. */
  predicate Names(c: Call, r: nat, d: nat) {
    match c
    case Create => r != 0 && r / PAGE_SIZE == d
    case Map(dir, _, _, _) => dir / PAGE_SIZE == d
    case Unmap(dir, _) => dir / PAGE_SIZE == d
    case Destroy(dir) => dir / PAGE_SIZE == d
  }

  /** The calls of a run that name directory `d` or go through the kernel's slots, with their results. */
  ghost function Own(shared: set<nat>, calls: seq<Call>, rs: seq<nat>, d: nat): (o: (seq<Call>, seq<nat>))
    requires |calls| == |rs|
    ensures |o.0| == |o.1|
  {
    if calls == [] then ([], []) else
      var n := |calls| - 1;
      var o := Own(shared, calls[..n], rs[..n], d);
      if Names(calls[n], rs[n], d) || Through(shared, calls[n]) then (o.0 + [calls[n]], o.1 + [rs[n]]) else o
  }

  ghost predicate AgreeOn(a: World, b: World, d: nat) {
    && a.shared == b.shared && a.kernel == b.kernel
    && (d in a.spaces <==> d in b.spaces) && (d in a.spaces ==> a.spaces[d] == b.spaces[d])
  }

  lemma {:induction false} WrittenAgrees(a: World, b: World, x: nat, virt: Word, e: Word, d: nat)
    requires AgreeOn(a, b, d)
    ensures AgreeOn(Written(a, x, virt, e), Written(b, x, virt, e), d)
    ensures x != d && PdIndex(virt) !in a.shared ==> AgreeOn(Written(a, x, virt, e), a, d)
    ensures Written(a, x, virt, e).shared == a.shared
    ensures PdIndex(virt) !in a.shared ==> Written(a, x, virt, e).kernel == a.kernel
  {
    hide Bind, PdIndex;
  }

  lemma {:induction false} TabledAgrees(w: World, d: nat, i: nat)
    ensures var t := Tabled(w, d, i); t.kernel == w.kernel && t.shared == w.shared && t.spaces == w.spaces
  {}

  lemma {:induction false} CallOnDirectory(a: World, b: World, c: Call, r: nat, d: nat)
    requires AgreeOn(a, b, d)
    ensures AgreeOn(After(a, c, r), After(b, c, r), d)
    ensures !Names(c, r, d) && !Through(a.shared, c) ==> AgreeOn(After(a, c, r), a, d)
    ensures After(a, c, r).shared == a.shared && (!Through(a.shared, c) ==> After(a, c, r).kernel == a.kernel)
  {
    hide Written, Tabled, PdIndex, PtIndex, SetEntry;
    if r != 0 {
      match c
      case Create =>
      case Map(dir, virt, phys, flags) =>
        var x, e := dir / PAGE_SIZE, SetEntry(phys, flags);
        WrittenAgrees(a, b, x, virt, e, d);
        TabledAgrees(Written(a, x, virt, e), x, PdIndex(virt));
        TabledAgrees(Written(b, x, virt, e), x, PdIndex(virt));
      case Unmap(dir, virt) => WrittenAgrees(a, b, dir / PAGE_SIZE, virt, 0, d);
      case Destroy(dir) =>
    }
  }

  /** Over every run, what a directory maps depends only on the calls that name it or go through the kernel's slots. */
  lemma {:induction false} OnlyOwnCallsMatter(w: World, calls: seq<Call>, rs: seq<nat>, d: nat)
    requires |calls| == |rs|
    ensures var o := Own(w.shared, calls, rs, d); AgreeOn(Run(w, calls, rs), Run(w, o.0, o.1), d)
    ensures Run(w, calls, rs).shared == w.shared
  {
    if calls != [] {
      var n := |calls| - 1;
      OnlyOwnCallsMatter(w, calls[..n], rs[..n], d);
      var o := Own(w.shared, calls[..n], rs[..n], d);
      var a, b := Run(w, calls[..n], rs[..n]), Run(w, o.0, o.1);
      CallOnDirectory(a, b, calls[n], rs[n], d);
      hide After, Names;
      assert (o.0 + [calls[n]])[..|o.0|] == o.0 && (o.1 + [rs[n]])[..|o.1|] == o.1;
    }
  }

  /** Over every run without calls through the kernel's slots, the kernel's map stays as it is. */
  lemma {:induction false} KernelKept(w: World, calls: seq<Call>, rs: seq<nat>)
    requires |calls| == |rs| && forall k :: 0 <= k < |calls| ==> !Through(w.shared, calls[k])
    ensures Run(w, calls, rs).kernel == w.kernel && Run(w, calls, rs).shared == w.shared
  {
    if calls != [] {
      var n := |calls| - 1;
      KernelKept(w, calls[..n], rs[..n]);
      var a := Run(w, calls[..n], rs[..n]);
      CallOnDirectory(a, a, calls[n], rs[n], 0);
    }
  }

  ghost function Spaces(m: seq<Page>, g: Layout): map<nat, Space> {
    map d | d in g.dirs :: SpaceOf(m, d)
  }

  ghost function OwnSlots(g: Layout, d: nat): set<nat> {
    set t | t in g.TablesOf(d) :: g.tables[t].slot
  }

  /** The kernel's slots. */
  ghost function Shared(kernelPage: Page): set<nat> {
    set i: nat | i < ENTRIES && Present(kernelPage[i])
  }

  ghost function WorldOf(m: seq<Page>, free: seq<nat>, g: Layout): World
    requires g.kdir < |m|
  {
    World(SpaceOf(m, g.kdir), Shared(m[g.kdir]), Spaces(m, g), map d | d in g.dirs :: OwnSlots(g, d), |free|)
  }

  /** A directory's own slots are those present in it and not the kernel's. */
  lemma {:induction false} OwnSlotsPresent(m: seq<Page>, free: seq<nat>, g: Layout, d: nat, i: nat)
    requires PagingOk(m, free, g) && d in g.dirs && i < ENTRIES
    ensures Present(m[d][i]) <==> i in Shared(m[g.kdir]) || i in OwnSlots(g, d)
    ensures i in OwnSlots(g, d) ==> i !in Shared(m[g.kdir])
  {
    assert UserSlotOk(m, g, d, i);
    if i in OwnSlots(g, d) {
      var t :| t in g.TablesOf(d) && g.tables[t].slot == i;
      assert TableOk(m, g, t);
    }
    if Present(m[d][i]) && !Present(m[g.kdir][i]) {
      assert Frame(m[d][i]) in g.TablesOf(d);
    }
  }

  /** No two tables stand in one slot. */
  lemma {:induction false} OwnSlotsSize(m: seq<Page>, free: seq<nat>, g: Layout, d: nat)
    requires PagingOk(m, free, g)
    ensures |OwnSlots(g, d)| == |g.TablesOf(d)|
  {
    var slots := map t | t in g.TablesOf(d) :: g.tables[t].slot;
    forall t, u | t in slots && u in slots && slots[t] == slots[u] ensures t == u {
      assert TableOk(m, g, t) && TableOk(m, g, u);
    }
    ValuesSize(slots);
    assert slots.Keys == g.TablesOf(d);
    forall x ensures x in OwnSlots(g, d) <==> x in slots.Values {
      if x in OwnSlots(g, d) {
        var t :| t in g.TablesOf(d) && g.tables[t].slot == x;
        assert slots[t] == x;
      }
    }
    assert OwnSlots(g, d) == slots.Values;
  }

  lemma {:induction false} ValuesSize(f: map<nat, nat>)
    requires forall t, u :: t in f && u in f && f[t] == f[u] ==> t == u
    ensures |f.Values| == |f.Keys|
    decreases |f|
  {
    if f.Keys != {} {
      var x :| x in f;
      var g := f - {x};
      assert f.Keys == g.Keys + {x};
      ValuesSize(g);
      assert f[x] !in g.Values;
      forall v ensures v in f.Values <==> v in g.Values + {f[x]} {
        if v in f.Values {
          var y :| y in f && f[y] == v;
          assert y != x ==> y in g && g[y] == v;
        }
      }
      assert f.Values == g.Values + {f[x]};
    } else {
      assert f.Values == {};
    }
  }

  ghost predicate Follows(
      m: seq<Page>, free: seq<nat>, g: Layout, c: Call, r: nat, m': seq<Page>, free': seq<nat>, g': Layout)
    requires g.kdir < |m| && g'.kdir < |m'|
  {
    && Legit(WorldOf(m, free, g), c, r)
    && WorldOf(m', free', g') == After(WorldOf(m, free, g), c, r)
  }

  /** Nothing changed that the machine sees. */
  lemma {:induction false} FollowsSame(m: seq<Page>, m': seq<Page>, free: seq<nat>, free': seq<nat>, g: Layout)
    requires g.kdir < |m| && |m'| == |m| && SameWalks(m, m', g) && m'[g.kdir] == m[g.kdir] && |free'| == |free|
    ensures WorldOf(m', free', g) == WorldOf(m, free, g)
  {
    SameWalksSameSpace(m, m', g, g.kdir);
    forall d | d in g.dirs
      ensures SpaceOf(m', d) == SpaceOf(m, d)
    {
      SameWalksSameSpace(m, m', g, d);
    }
    assert Spaces(m', g) == Spaces(m, g);
  }

  /** One entry written, in a slot with or without a new table. */
  lemma {:induction false} FollowsWrote(
      m: seq<Page>, free: seq<nat>, g: Layout, m': seq<Page>, free': seq<nat>, g': Layout, d: nat, virt: Word, e: Word)
    requires PagingOk(m, free, g) && d in g.dirs && |m'| == |m| && m'[g.kdir] == m[g.kdir]
    requires Wrote(m, m', g, d, PdIndex(virt), PtIndex(virt), e)
    requires g'.dirs == g.dirs && g'.kdir == g.kdir
             && (forall x :: x in g.dirs && x != d ==> OwnSlots(g', x) == OwnSlots(g, x))
    ensures var w, w' := WorldOf(m, free, g), WorldOf(m', free', g');
            w' == Written(w, d, virt, e).(own := w.own[d := OwnSlots(g', d)], room := |free'|)
  {
    hide PdIndex, PtIndex, SetEntry, Wrote, Walk, OwnSlots, UserSlotOk, KernelSlotOk, TableOk, Bind, SpaceOf, Present;
    PdIndexRange(virt);
    KernelDirApart(m, free, g, d);
    var i := PdIndex(virt);
    forall x | x in g.dirs || x == g.kdir
      ensures SpaceOf(m', x) ==
              if x != d && i !in Shared(m[g.kdir]) then SpaceOf(m, x) else Bind(SpaceOf(m, x), virt, e)
    {
      OneMapWrote(m, m', g, d, x, virt, e);
    }
    hide PagingOk;
    var w, w' := WorldOf(m, free, g), WorldOf(m', free', g');
    assert w'.spaces == Written(w, d, virt, e).spaces;
    assert w'.own == w.own[d := OwnSlots(g', d)];
  }

  lemma {:induction false} KernelDirApart(m: seq<Page>, free: seq<nat>, g: Layout, d: nat)
    requires PagingOk(m, free, g) && d in g.dirs
    ensures g.kdir != d && g.kdir < |m|
  {}

  lemma {:induction false} OneMapWrote(m: seq<Page>, m': seq<Page>, g: Layout, d: nat, x: nat, virt: Word, e: Word)
    requires g.kdir < |m| && Wrote(m, m', g, d, PdIndex(virt), PtIndex(virt), e) && (x in g.dirs || x == g.kdir)
    ensures SpaceOf(m', x) ==
            if x != d && PdIndex(virt) !in Shared(m[g.kdir]) then SpaceOf(m, x) else Bind(SpaceOf(m, x), virt, e)
  {
    hide Wrote, Walk, SpaceOf;
    PdIndexRange(virt);
    WroteOneBinding(m, m', g, d, x, PdIndex(virt), PtIndex(virt), e);
  }

  lemma {:induction false} PdIndexRange(virt: Word)
    ensures PdIndex(virt) < ENTRIES && PtIndex(virt) < ENTRIES
  {}

  /** Whether a page is mapped, and whether its slot has a table, can be read off the machine. */
  lemma {:induction false} Reads(m: seq<Page>, free: seq<nat>, g: Layout, d: nat, virt: Word)
    requires PagingOk(m, free, g) && d in g.dirs
    ensures var w, i := WorldOf(m, free, g), PdIndex(virt);
            && i < ENTRIES && d in w.spaces && d in w.own
            && ((i, PtIndex(virt)) in w.spaces[d] <==> Walk(m, d, i, PtIndex(virt)) != 0)
            && (Present(m[g.kdir][i]) <==> i in w.shared)
            && (Present(m[d][i]) <==> i in w.shared || i in w.own[d])
  {
    PdIndexRange(virt);
    hide PdIndex, PtIndex, Walk, SpaceOf, OwnSlots, Present;
    OwnSlotsPresent(m, free, g, d, PdIndex(virt));
    Bindings(m, d);
  }

  lemma {:induction false} FollowsMap(
      m: seq<Page>, free: seq<nat>, g: Layout, m': seq<Page>, free': seq<nat>, g': Layout, dir: nat, virt: Word,
      phys: Word, flags: Word)
    requires PagingOk(m, free, g) && dir % PAGE_SIZE == 0 && dir / PAGE_SIZE in g.dirs && |m'| == |m|
             && m'[g.kdir] == m[g.kdir]
    requires Succeeds(WorldOf(m, free, g), Map(dir, virt, phys, flags))
    requires Wrote(m, m', g, dir / PAGE_SIZE, PdIndex(virt), PtIndex(virt), SetEntry(phys, flags))
    requires if Present(m[dir / PAGE_SIZE][PdIndex(virt)]) then g' == g && free' == free
             else free != [] && free' == free[1..] && free[0] !in g.tables
                  && g' == g.(tables := g.tables[free[0] := UserTable(dir / PAGE_SIZE, PdIndex(virt))])
    ensures Follows(m, free, g, Map(dir, virt, phys, flags), 1, m', free', g')
  {
    var d := dir / PAGE_SIZE;
    hide PdIndex, PtIndex, SetEntry, Wrote, Walk, SpaceOf, Present, OwnSlots, PagingOk, Bind;
    Reads(m, free, g, d, virt);
    if g' != g {
      NewTable(g, free[0], d, PdIndex(virt));
    }
    FollowsWrote(m, free, g, m', free', g', d, virt, SetEntry(phys, flags));
    hide WorldOf;
    var w := WorldOf(m, free, g);
    WrittenOwn(w, d, virt, SetEntry(phys, flags));
  }

  lemma {:induction false} WrittenOwn(w: World, d: nat, virt: Word, e: Word)
    ensures Written(w, d, virt, e).own == w.own && Written(w, d, virt, e).room == w.room
    ensures Written(w, d, virt, e).shared == w.shared
  {}

  lemma {:induction false} NewTable(g: Layout, t: nat, d: nat, i: nat)
    requires t !in g.tables
    ensures var g' := g.(tables := g.tables[t := UserTable(d, i)]);
            && OwnSlots(g', d) == OwnSlots(g, d) + {i}
            && forall x :: x != d ==> OwnSlots(g', x) == OwnSlots(g, x)
  {
    var g' := g.(tables := g.tables[t := UserTable(d, i)]);
    assert g'.TablesOf(d) == g.TablesOf(d) + {t};
    forall x | x != d ensures OwnSlots(g', x) == OwnSlots(g, x) {
      assert g'.TablesOf(x) == g.TablesOf(x);
    }
  }

  lemma {:induction false} FollowsUnmap(m: seq<Page>, free: seq<nat>, g: Layout, m': seq<Page>, dir: nat, virt: Word)
    requires PagingOk(m, free, g) && dir % PAGE_SIZE == 0 && dir / PAGE_SIZE in g.dirs && |m'| == |m|
             && m'[g.kdir] == m[g.kdir]
    requires Succeeds(WorldOf(m, free, g), Unmap(dir, virt))
    requires Wrote(m, m', g, dir / PAGE_SIZE, PdIndex(virt), PtIndex(virt), 0)
    ensures Follows(m, free, g, Unmap(dir, virt), 1, m', free, g)
  {
    var d := dir / PAGE_SIZE;
    hide PdIndex, PtIndex, Wrote, Walk, SpaceOf, Present, OwnSlots, PagingOk, Bind;
    Reads(m, free, g, d, virt);
    FollowsWrote(m, free, g, m', free, g, d, virt, 0);
    var w := WorldOf(m, free, g);
    WrittenOwn(w, d, virt, 0);
    assert w.own[d := OwnSlots(g, d)] == w.own;
  }

  lemma {:induction false} FollowsCreate(
      m: seq<Page>, free: seq<nat>, g: Layout, m': seq<Page>, free': seq<nat>, g': Layout, r: nat)
    requires PagingOk(m, free, g) && free != [] && r == free[0] * PAGE_SIZE && r != 0 && free' == free[1..]
    requires |m'| == |m| && m'[g.kdir] == m[g.kdir] && SameWalks(m, m', g) && g' == g.(dirs := g.dirs + {r / PAGE_SIZE})
    requires SameTranslation(m', r / PAGE_SIZE, g.kdir)
    ensures Follows(m, free, g, Create, r, m', free', g')
  {
    hide Walk, SameWalks, SpaceOf, PagingOk, Present, OwnSlots;
    var n := r / PAGE_SIZE;
    NewDirectory(m, free, g, n);
    SameTranslationSameSpace(m', m', g.kdir, n);
    assert free[0] in free;
    forall d | d in g.dirs || d == g.kdir
      ensures SpaceOf(m', d) == SpaceOf(m, d)
    {
      SameWalksSameSpace(m, m', g, d);
    }
    var w, w' := WorldOf(m, free, g), WorldOf(m', free', g');
    assert w'.spaces == w.spaces[n := w.kernel];
    assert w'.own == w.own[n := {}];
  }

  lemma {:induction false} NewDirectory(m: seq<Page>, free: seq<nat>, g: Layout, n: nat)
    requires PagingOk(m, free, g) && n in free
    ensures var g' := g.(dirs := g.dirs + {n});
            && n !in g.dirs && n != g.kdir && OwnSlots(g', n) == {} && g.kdir < |m|
            && forall d :: OwnSlots(g', d) == OwnSlots(g, d)
  {
    var g' := g.(dirs := g.dirs + {n});
    assert forall t :: t in g.tables ==> TableOk(m, g, t);
    assert n !in g.Pages();
    forall d ensures g'.TablesOf(d) == g.TablesOf(d) {}
  }

  lemma {:induction false} FollowsDestroy(
      m: seq<Page>, free: seq<nat>, g: Layout, m': seq<Page>, free': seq<nat>, g': Layout, dir: nat)
    requires PagingOk(m, free, g) && NoDup(free) && NoDup(free') && dir % PAGE_SIZE == 0 && dir / PAGE_SIZE in g.dirs
    requires |m'| == |m| && m'[g.kdir] == m[g.kdir] && g' == g.Without(dir / PAGE_SIZE) && SameWalks(m, m', g')
    requires forall x :: x in free' <==> x in free || x == dir / PAGE_SIZE || x in g.TablesOf(dir / PAGE_SIZE)
    ensures Follows(m, free, g, Destroy(dir), 1, m', free', g')
  {
    hide Walk, SameWalks, SpaceOf, PagingOk, Present, OwnSlots, NoDup;
    var d := dir / PAGE_SIZE;
    OwnSlotsSize(m, free, g, d);
    FreedCount(m, free, g, free', d);
    OldDirectory(m, free, g, d);
    forall x | x in g'.dirs || x == g.kdir
      ensures SpaceOf(m', x) == SpaceOf(m, x)
    {
      SameWalksSameSpace(m, m', g', x);
    }
    var w, w' := WorldOf(m, free, g), WorldOf(m', free', g');
    assert w'.spaces == w.spaces - {d};
    assert w'.own == w.own - {d};
  }

  lemma {:induction false} OldDirectory(m: seq<Page>, free: seq<nat>, g: Layout, d: nat)
    requires PagingOk(m, free, g) && d in g.dirs
    ensures g.kdir != d && g.kdir < |m| && d !in free && d !in g.TablesOf(d)
    ensures g.Without(d).dirs == g.dirs - {d} && g.Without(d).kdir == g.kdir
    ensures forall x :: x != d ==> OwnSlots(g.Without(d), x) == OwnSlots(g, x)
    ensures forall t :: t in g.TablesOf(d) ==> t !in free
  {
    assert d in g.Pages() && g.TablesOf(d) <= g.Pages();
    hide PagingOk;
    forall x | x != d ensures OwnSlots(g.Without(d), x) == OwnSlots(g, x) {
      assert g.Without(d).TablesOf(x) == g.TablesOf(x);
    }
  }

  lemma {:induction false} FreedCount(m: seq<Page>, free: seq<nat>, g: Layout, free': seq<nat>, d: nat)
    requires PagingOk(m, free, g) && NoDup(free) && NoDup(free') && d in g.dirs
    requires forall x :: x in free' <==> x in free || x == d || x in g.TablesOf(d)
    ensures |free'| == |free| + 1 + |g.TablesOf(d)|
  {
    hide PagingOk, NoDup, OwnSlots;
    OldDirectory(m, free, g, d);
    ElementsSize(free);
    ElementsSize(free');
    ThreeParts(Elements(free'), Elements(free), d, g.TablesOf(d));
  }

  lemma {:induction false} ThreeParts(all: set<nat>, a: set<nat>, d: nat, b: set<nat>)
    requires d !in a && d !in b && a !! b && forall x :: x in all <==> x in a || x == d || x in b
    ensures |all| == |a| + 1 + |b|
  {
    assert all == a + {d} + b;
  }

  lemma {:induction false} MachineFacts(vmm: Vmm)
    requires vmm.Valid()
    ensures PagingOk(vmm.pmm.mem[..], vmm.pmm.list, vmm.layout) && NoDup(vmm.pmm.list) && 0 !in vmm.pmm.list
    ensures vmm.layout.kdir == vmm.kernelDir < vmm.pmm.mem.Length && 0 !in vmm.layout.dirs
    ensures forall p :: p in vmm.pmm.list ==> p !in vmm.layout.tables
  {
    var g := vmm.layout;
    assert 0 !in g.Pages() && forall p :: p in vmm.pmm.list ==> p !in g.Pages();
  }

  /** A call that fails changes nothing the machine sees. */
  lemma {:induction false} NothingHappened(
      m: seq<Page>, free: seq<nat>, g: Layout, m': seq<Page>, free': seq<nat>, c: Call)
    requires g.kdir < |m| && |m'| == |m| && m'[g.kdir] == m[g.kdir] && |free'| == |free|
    requires SameWalks(m, m', g) && !Succeeds(WorldOf(m, free, g), c)
    ensures Follows(m, free, g, c, 0, m', free', g)
  {
    hide SameWalks, WorldOf, Succeeds;
    FollowsSame(m, m', free, free', g);
    assert c.Create? ==> 0 / PAGE_SIZE == 0;
  }

  lemma {:induction false} WhenNotLive(m: seq<Page>, free: seq<nat>, g: Layout, c: Call)
    requires g.kdir < |m| && !c.Create? && !(c.dir % PAGE_SIZE == 0 && c.dir / PAGE_SIZE in g.dirs)
    ensures !Succeeds(WorldOf(m, free, g), c)
  {
    hide PdIndex, PtIndex, SpaceOf, OwnSlots;
  }

  /** The conditions of MapPage and UnmapPage, as the machine states them. */
  lemma {:induction false} MapConditions(
      m: seq<Page>, free: seq<nat>, g: Layout, dir: nat, virt: Word, phys: Word, flags: Word)
    requires PagingOk(m, free, g) && dir % PAGE_SIZE == 0 && dir / PAGE_SIZE in g.dirs
    ensures var d, i := dir / PAGE_SIZE, PdIndex(virt);
            && i < ENTRIES
            && (Succeeds(WorldOf(m, free, g), Map(dir, virt, phys, flags)) <==>
                 && Walk(m, d, i, PtIndex(virt)) == 0
                 && if Present(m[d][i]) then !(User(flags) && Present(m[g.kdir][i])) else free != [])
            && (Succeeds(WorldOf(m, free, g), Unmap(dir, virt)) <==> Walk(m, d, i, PtIndex(virt)) != 0)
  {
    hide PdIndex, PtIndex, SpaceOf, OwnSlots, Walk, Present, PagingOk;
    Reads(m, free, g, dir / PAGE_SIZE, virt);
  }

  method PerformMap(vmm: Vmm, live: set<nat>, dir: nat, virt: Word, phys: Word, flags: Word) returns (r: nat)
    requires vmm.Valid() && live == vmm.layout.dirs
    modifies vmm`layout, vmm.pmm, vmm.pmm.bitmap, vmm.pmm.mem
    ensures vmm.Valid() && live == vmm.layout.dirs && old(vmm.layout.kdir < vmm.pmm.mem.Length)
            && vmm.layout.kdir < vmm.pmm.mem.Length
    ensures Follows(old(vmm.pmm.mem[..]), old(vmm.pmm.list), old(vmm.layout), Map(dir, virt, phys, flags), r,
                    vmm.pmm.mem[..], vmm.pmm.list, vmm.layout)
  {
    hide Walk, Wrote, SameWalks, PdIndex, PtIndex, SetEntry, WorldOf, PagingOk, Present, Succeeds, Follows, Vmm.Valid;
    ghost var m: seq<Page>, l, g := vmm.pmm.mem[..], vmm.pmm.list, vmm.layout;
    ghost var c := Map(dir, virt, phys, flags);
    MachineFacts(vmm);
    if !(dir % PAGE_SIZE == 0 && dir / PAGE_SIZE in live) {
      SameWalksSelf(m, g);
      WhenNotLive(m, l, g, c);
      NothingHappened(m, l, g, m, l, c);
      return 0;
    }
    MapConditions(m, l, g, dir, virt, phys, flags);
    var ok := vmm.MapPage(dir, virt, phys, flags);
    MachineFacts(vmm);
    if ok {
      FollowsMap(m, l, g, vmm.pmm.mem[..], vmm.pmm.list, vmm.layout, dir, virt, phys, flags);
      r := 1;
    } else {
      NothingHappened(m, l, g, vmm.pmm.mem[..], vmm.pmm.list, c);
      r := 0;
    }
  }

  method PerformUnmap(vmm: Vmm, live: set<nat>, dir: nat, virt: Word) returns (r: nat)
    requires vmm.Valid() && live == vmm.layout.dirs
    modifies vmm.pmm.mem
    ensures vmm.Valid() && vmm.layout.kdir < vmm.pmm.mem.Length
    ensures Follows(old(vmm.pmm.mem[..]), vmm.pmm.list, vmm.layout, Unmap(dir, virt), r, vmm.pmm.mem[..], vmm.pmm.list,
            vmm.layout)
  {
    hide Walk, Wrote, SameWalks, PdIndex, PtIndex, WorldOf, PagingOk, Present, Succeeds, Follows, Vmm.Valid;
    ghost var m: seq<Page>, l, g := vmm.pmm.mem[..], vmm.pmm.list, vmm.layout;
    ghost var c := Unmap(dir, virt);
    MachineFacts(vmm);
    SameWalksSelf(m, g);
    if !(dir % PAGE_SIZE == 0 && dir / PAGE_SIZE in live) {
      WhenNotLive(m, l, g, c);
      NothingHappened(m, l, g, m, l, c);
      return 0;
    }
    MapConditions(m, l, g, dir, virt, 0, 0);
    var ok := vmm.UnmapPage(dir, virt);
    if ok {
      FollowsUnmap(m, l, g, vmm.pmm.mem[..], dir, virt);
      r := 1;
    } else {
      NothingHappened(m, l, g, vmm.pmm.mem[..], l, c);
      r := 0;
    }
  }

  /** One call does what the machine does. Calls on directories that are not live are not made, and fail. */
  method Perform(vmm: Vmm, live: set<nat>, c: Call) returns (r: nat, live': set<nat>)
    requires vmm.Valid() && live == vmm.layout.dirs
    modifies vmm`layout, vmm.pmm, vmm.pmm.bitmap, vmm.pmm.mem
    ensures vmm.Valid() && live' == vmm.layout.dirs && old(vmm.layout.kdir < vmm.pmm.mem.Length)
            && vmm.layout.kdir < vmm.pmm.mem.Length
    ensures Follows(old(vmm.pmm.mem[..]), old(vmm.pmm.list), old(vmm.layout), c, r, vmm.pmm.mem[..], vmm.pmm.list,
            vmm.layout)
  {
    hide Walk, Wrote, SameWalks, PdIndex, PtIndex, SetEntry, After, SpaceOf, WorldOf, PagingOk, Present, Succeeds;
    hide Vmm.Valid;
    r, live' := 0, live;
    ghost var m: seq<Page>, l, g := vmm.pmm.mem[..], vmm.pmm.list, vmm.layout;
    MachineFacts(vmm);
    SameWalksSelf(m, g);
    match c {
      case Create =>
        r := vmm.CreateDirectory();
        MachineFacts(vmm);
        if r == 0 {
          NoRoom(m, g);
          NothingHappened(m, l, g, vmm.pmm.mem[..], vmm.pmm.list, c);
        } else {
          FollowsCreate(m, l, g, vmm.pmm.mem[..], vmm.pmm.list, vmm.layout, r);
          live' := live + {r / PAGE_SIZE};
        }
      case Map(dir, virt, phys, flags) =>
        r := PerformMap(vmm, live, dir, virt, phys, flags);
      case Unmap(dir, virt) =>
        r := PerformUnmap(vmm, live, dir, virt);
      case Destroy(dir) =>
        if dir % PAGE_SIZE == 0 && dir / PAGE_SIZE in live {
          vmm.DestroyDirectory(dir);
          MachineFacts(vmm);
          r := 1;
          live' := live - {dir / PAGE_SIZE};
          FollowsDestroy(m, l, g, vmm.pmm.mem[..], vmm.pmm.list, vmm.layout, dir);
        } else {
          WhenNotLive(m, l, g, c);
          NothingHappened(m, l, g, m, l, c);
        }
    }
  }

  lemma {:induction false} NoRoom(m: seq<Page>, g: Layout)
    requires g.kdir < |m|
    ensures !Succeeds(WorldOf(m, [], g), Create)
  {}

  /** Over every run of calls the page tables, the layout and the free list do what the machine of finite maps
      does, results included: in particular no call on one directory is ever seen through another, except
      through the kernel's slots. */
  method PerformAll(vmm: Vmm, live: set<nat>, calls: seq<Call>) returns (rs: seq<nat>, live': set<nat>)
    requires vmm.Valid() && live == vmm.layout.dirs
    modifies vmm`layout, vmm.pmm, vmm.pmm.bitmap, vmm.pmm.mem
    ensures vmm.Valid() && live' == vmm.layout.dirs && |rs| == |calls|
    ensures old(vmm.layout.kdir < vmm.pmm.mem.Length) && vmm.layout.kdir < vmm.pmm.mem.Length
    ensures WorldOf(vmm.pmm.mem[..], vmm.pmm.list, vmm.layout) ==
            Run(WorldOf(old(vmm.pmm.mem[..]), old(vmm.pmm.list), old(vmm.layout)), calls, rs)
    ensures forall k :: 0 <= k < |calls| ==>
              LegitAt(WorldOf(old(vmm.pmm.mem[..]), old(vmm.pmm.list), old(vmm.layout)), calls, rs, k)
  {
    hide WorldOf, After, Legit, PagingOk, Vmm.Valid;
    rs, live' := [], live;
    MachineFacts(vmm);
    ghost var w := WorldOf(vmm.pmm.mem[..], vmm.pmm.list, vmm.layout);
    var k := 0;
    assert calls[..0] == [];
    while k < |calls|
      invariant 0 <= k <= |calls| && |rs| == k
      invariant vmm.Valid() && live' == vmm.layout.dirs && vmm.layout.kdir < vmm.pmm.mem.Length
      invariant WorldOf(vmm.pmm.mem[..], vmm.pmm.list, vmm.layout) == Run(w, calls[..k], rs)
      invariant forall i :: 0 <= i < k ==> LegitAt(w, calls, rs, i)
    {
      var r: nat;
      ghost var rs0 := rs;
      r, live' := Perform(vmm, live', calls[k]);
      rs := rs + [r];
      assert calls[..k + 1][..k] == calls[..k] && rs[..k] == rs0;
      forall i | 0 <= i <= k ensures LegitAt(w, calls, rs, i) {
        if i < k {
          assert LegitAt(w, calls, rs0, i) && rs[..i] == rs0[..i];
        }
      }
      k := k + 1;
    }
    assert calls[..|calls|] == calls;
  }

  /** An unmap through a kernel slot, made on a fresh user directory, takes the page from the kernel's map too. */
  method UnmapReachesKernel(vmm: Vmm) returns (before: Word, after: Word)
    requires vmm.pmm.Valid() && 0 !in vmm.pmm.list && 0 < vmm.kernelDir < vmm.pmm.totalPages
             && vmm.kernelDir !in vmm.pmm.list
    requires vmm.layout == Layout(vmm.kernelDir, {}, map[], KernelPdes(vmm.pmm.totalMemory))
    requires |vmm.pmm.list| > KernelTables(vmm.pmm.totalPages)
    modifies vmm, vmm.pmm, vmm.pmm.bitmap, vmm.pmm.mem
    ensures before == PAGE_SIZE && after == 0
  {
    hide PagingOk, Threaded, Bitmaps.Bit, Present, Frame, Walk, PdIndex, PtIndex, IdentityEntry, KernelTables;
    KernelMapsPageOne(vmm.pmm.totalMemory, vmm.pmm.totalPages);
    var kernel := vmm.kernelDir;
    var ok := vmm.Init();
    ghost var m0: seq<Page>, g0 := vmm.pmm.mem[..], vmm.layout;
    assert Walk(m0, kernel, 0, 1) == IdentityEntry(vmm.pmm.totalMemory, 0, 1);
    var dir := vmm.CreateDirectory();
    ghost var m1: seq<Page>, g1 := vmm.pmm.mem[..], vmm.layout;
    assert Walk(m1, kernel, 0, 1) == Walk(m0, kernel, 0, 1) == Walk(m1, dir / PAGE_SIZE, 0, 1);
    WalkPresent(m1, kernel, 0, 1);
    before := vmm.GetPhysAddr(kernel * PAGE_SIZE, PAGE_SIZE);
    ok := vmm.UnmapPage(dir, PAGE_SIZE);
    assert Walk(vmm.pmm.mem[..], kernel, 0, 1) == 0;
    after := vmm.GetPhysAddr(kernel * PAGE_SIZE, PAGE_SIZE);
  }

  lemma {:induction false} WalkPresent(m: seq<Page>, d: nat, i: nat, j: nat)
    requires i < ENTRIES && j < ENTRIES && d < |m| && Walk(m, d, i, j) != 0
    ensures Present(m[d][i])
  {}

  lemma {:induction false} KernelMapsPageOne(totalMemory: nat, totalPages: nat)
    requires totalPages == totalMemory / PAGE_SIZE > 1
    ensures PdIndex(PAGE_SIZE) == 0 && PtIndex(PAGE_SIZE) == 1 && KernelTables(totalPages) > 0
    ensures IdentityEntry(totalMemory, 0, 1) != 0 && Frame(IdentityEntry(totalMemory, 0, 1)) == 1
  {}
}
