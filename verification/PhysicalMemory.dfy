/** The page allocator of mm/pmm.c: a bitmap, a counter and a linked free list
    that must describe the same set of pages at all times. */
module FreeLists {
  import opened Lists

  ghost predicate InRange(l: seq<nat>, n: nat) {
    forall i :: 0 <= i < |l| ==> l[i] < n
  }

  ghost predicate Descending(l: seq<nat>) {
    forall i, j :: 0 <= i < j < |l| ==> l[i] > l[j]
  }

  lemma {:induction false} PushDescending(l: seq<nat>, p: nat)
    requires Descending(l) && forall x :: x in l ==> x < p
    ensures Descending([p] + l)
  {
    forall i, j | 0 <= i < j < |l| + 1
      ensures ([p] + l)[i] > ([p] + l)[j]
    {
      assert l[j - 1] in l;
    }
  }

  /** The list with the first occurrence of `p` taken out. */
  function Remove(l: seq<nat>, p: nat): seq<nat> {
    if l == [] then [] else if l[0] == p then l[1..] else [l[0]] + Remove(l[1..], p)
  }

  /** The list with the pages `start .. start + count` taken out in ascending order. */
  function RemoveRun(l: seq<nat>, start: nat, count: nat): seq<nat> {
    if count == 0 then l else Remove(RemoveRun(l, start, count - 1), start + count - 1)
  }

  lemma {:induction false} TailDistinct(l: seq<nat>)
    requires NoDup(l) && l != []
    ensures NoDup(l[1..])
  {}

  lemma {:induction false} Splice(l: seq<nat>, q: nat)
    requires 0 < q < |l|
    ensures l[1..][q - 1] == l[q]
    ensures [l[0]] + (l[1..][..q - 1] + l[1..][q..]) == l[..q] + l[q + 1..]
  {}

  lemma {:induction false} RemoveAt(l: seq<nat>, q: nat)
    requires NoDup(l) && q < |l|
    ensures Remove(l, l[q]) == l[..q] + l[q + 1..]
  {
    if q == 0 {
      assert l[..0] + l[1..] == l[1..];
    } else {
      assert l[0] != l[q];
      TailDistinct(l);
      hide NoDup;
      Splice(l, q);
      RemoveAt(l[1..], q - 1);
    }
  }

  lemma {:induction false} IndexOf(l: seq<nat>, p: nat) returns (q: nat)
    requires p in l
    ensures q < |l| && l[q] == p
  {
    q :| q < |l| && l[q] == p;
  }

  lemma {:induction false} RemoveFacts(l: seq<nat>, p: nat)
    requires NoDup(l) && p in l
    ensures NoDup(Remove(l, p))
    ensures |Remove(l, p)| == |l| - 1
    ensures forall x :: x in Remove(l, p) <==> x in l && x != p
    ensures forall n :: InRange(l, n) ==> InRange(Remove(l, p), n)
  {
    var q := IndexOf(l, p);
    RemoveAt(l, q);
    var r := l[..q] + l[q + 1..];
    assert forall i | 0 <= i < |r| :: r[i] == if i < q then l[i] else l[i + 1];
    forall x | x in l && x != p
      ensures x in r
    {
      var i := IndexOf(l, x);
      assert r[if i < q then i else i - 1] == x;
    }
  }

  lemma {:induction false} RemoveRunFacts(l: seq<nat>, start: nat, count: nat)
    requires NoDup(l) && forall k :: start <= k < start + count ==> k in l
    ensures NoDup(RemoveRun(l, start, count))
    ensures |RemoveRun(l, start, count)| == |l| - count
    ensures forall x :: x in RemoveRun(l, start, count) <==> x in l && !(start <= x < start + count)
    ensures forall n :: InRange(l, n) ==> InRange(RemoveRun(l, start, count), n)
  {
    if count == 0 {
    } else {
      RemoveRunFacts(l, start, count - 1);
      RemoveFacts(RemoveRun(l, start, count - 1), start + count - 1);
    }
  }

  /** All of `start .. start + count` are free. */
  predicate RunFree(l: seq<nat>, start: nat, count: nat) {
    forall k :: start <= k < start + count ==> k in l
  }

  /** `start` is the lowest page at which `count` consecutive pages are free. */
  ghost predicate FirstFit(l: seq<nat>, count: nat, start: nat) {
    && RunFree(l, start, count)
    && forall s: nat :: s < start ==> !RunFree(l, s, count)
  }

  lemma {:induction false} FirstFitUnique(l: seq<nat>, count: nat, a: nat, b: nat)
    requires FirstFit(l, count, a) && FirstFit(l, count, b)
    ensures a == b
  {}
}

/** The bit helpers of the allocator's bitmap (mm/pmm.c:40-49). */
module Bitmaps {

  /** Bit `i` of the bitmap, least significant bit first within a byte. */
  predicate Bit(b: seq<bv8>, i: nat)
    requires i / 8 < |b|
  {
    ByteBit(b[i / 8], i % 8)
  }

  predicate ByteBit(x: bv8, k: nat)
    requires k < 8
  {
    (x >> k) & 1 == 1
  }

  /** How many of the first `n` bits are set. */
  function CountBits(b: seq<bv8>, n: nat): nat
    requires n <= 8 * |b|
  {
    if n == 0 then 0 else CountBits(b, n - 1) + if Bit(b, n - 1) then 1 else 0
  }

  function WithBit(x: bv8, k: nat, on: bool): bv8
    requires k < 8
  {
    if on then x | (1 << k) else x & !(1 << k)
  }

  lemma {:induction false} ShiftCast(x: bv8, k: nat)
    requires k < 8
    ensures x << k == x << (k as bv8) && x >> k == x >> (k as bv8)
  {}

  lemma {:induction false} WithBitBv(x: bv8, k: bv8, j: bv8)
    requires k < 8 && j < 8
    ensures ((x | (1 << k)) >> j) & 1 == if j == k then 1 else (x >> j) & 1
    ensures ((x & !(1 << k)) >> j) & 1 == if j == k then 0 else (x >> j) & 1
  {}

  lemma {:induction false} SetBitByte(x: bv8, k: nat, j: nat)
    requires k < 8 && j < 8
    ensures ByteBit(x | (1 << k), j) <==> j == k || ByteBit(x, j)
  {
    WithBitBv(x, k as bv8, j as bv8);
    ShiftCast(1, k);
    ShiftCast(x | (1 << k), j);
    ShiftCast(x, j);
  }

  lemma {:induction false} ClearBitByte(x: bv8, k: nat, j: nat)
    requires k < 8 && j < 8
    ensures ByteBit(x & !(1 << k), j) <==> j != k && ByteBit(x, j)
  {
    WithBitBv(x, k as bv8, j as bv8);
    ShiftCast(1, k);
    ShiftCast(x & !(1 << k), j);
    ShiftCast(x, j);
  }

  /** Writing one bit changes that bit and no other bit of the bitmap. */
  lemma {:induction false} WithBitEffect(b: seq<bv8>, b': seq<bv8>, i: nat, on: bool)
    requires i / 8 < |b| && b' == b[i / 8 := WithBit(b[i / 8], i % 8, on)]
    ensures forall j: nat :: j < 8 * |b| ==> (Bit(b', j) <==> if j == i then on else Bit(b, j))
  {
    forall j: nat | j < 8 * |b|
      ensures Bit(b', j) <==> if j == i then on else Bit(b, j)
    {
      WithBitAt(b, b', i, on, j);
    }
  }

  lemma {:induction false} WithBitAt(b: seq<bv8>, b': seq<bv8>, i: nat, on: bool, j: nat)
    requires i / 8 < |b| && b' == b[i / 8 := WithBit(b[i / 8], i % 8, on)]
    requires j / 8 < |b|
    ensures Bit(b', j) <==> if j == i then on else Bit(b, j)
  {
    hide ByteBit, WithBit;
    if j / 8 == i / 8 {
      ByteWithBit(b[i / 8], i % 8, j % 8, on);
      assert j == i <==> j % 8 == i % 8;
    }
  }

  lemma {:induction false} ByteWithBit(v: bv8, i: nat, j: nat, on: bool)
    requires i < 8 && j < 8
    ensures ByteBit(WithBit(v, i, on), j) <==> if j == i then on else ByteBit(v, j)
  {
    SetBitByte(v, i, j);
    ClearBitByte(v, i, j);
  }

  lemma {:induction false} CountBitsSame(b: seq<bv8>, b': seq<bv8>, n: nat)
    requires |b'| == |b| && n <= 8 * |b|
    requires forall j: nat :: j < n ==> (Bit(b', j) <==> Bit(b, j))
    ensures CountBits(b', n) == CountBits(b, n)
  {
    if n > 0 {
      CountBitsSame(b, b', n - 1);
    }
  }

  lemma {:induction false} CountBitsCleared(b: seq<bv8>, b': seq<bv8>, i: nat, n: nat)
    requires |b'| == |b| && i < n <= 8 * |b| && Bit(b, i)
    requires forall j: nat :: j < n ==> (Bit(b', j) <==> j != i && Bit(b, j))
    ensures CountBits(b', n) == CountBits(b, n) - 1
  {
    if i == n - 1 {
      CountBitsSame(b, b', n - 1);
    } else {
      CountBitsCleared(b, b', i, n - 1);
    }
  }

  lemma {:induction false} CountPositive(b: seq<bv8>, n: nat)
    requires n <= 8 * |b|
    ensures CountBits(b, n) > 0 <==> exists p: nat :: p < n && Bit(b, p)
  {
    if n > 0 {
      CountPositive(b, n - 1);
    }
  }
}

/** Physical memory as 4 KiB pages of 1024 words, and the allocator over it. */
module PhysicalMemory {
  import opened Lists
  import opened FreeLists
  import opened Bitmaps

  type Word = x: int | 0 <= x < 0x1_0000_0000
  type Page = p: seq<Word> | |p| == 1024 witness seq(1024, _ => 0)

  const PAGE_SIZE := 4096
  const NIL: Word := 0xFFFF_FFFF
  const MAX_PAGES := 0x10_0000

  function ZeroPage(): Page {
    seq(1024, _ => 0)
  }

  /** The list `l` threaded through word 0 of its pages. */
  ghost predicate Threaded(m: seq<Page>, l: seq<nat>) {
    && |m| <= MAX_PAGES
    && NoDup(l)
    && InRange(l, |m|)
    && forall i: nat :: i < |l| ==> LinkOk(m, l, i)
  }

  ghost predicate LinkOk(m: seq<Page>, l: seq<nat>, i: nat)
    requires InRange(l, |m|) && i < |l|
  {
    m[l[i]][0] == LinkAt(l, i + 1)
  }

  lemma {:induction false} EmptyThread(m: seq<Page>)
    requires |m| <= MAX_PAGES
    ensures Threaded(m, []) && Descending([])
  {}

  /** Writes to pages that are not on the list do not disturb it. */
  lemma {:induction false} ThreadFrame(m: seq<Page>, m': seq<Page>, l: seq<nat>)
    requires Threaded(m, l) && |m'| == |m| && forall x: nat :: x < |m| && x in l ==> m'[x] == m[x]
    ensures Threaded(m', l)
  {
    forall i: nat | i < |l|
      ensures LinkOk(m', l, i)
    {
      assert LinkOk(m, l, i) && l[i] in l;
    }
  }

  /** The link that leads to position `i` of the list. */
  ghost function LinkAt(l: seq<nat>, i: nat): int {
    if i < |l| then l[i] else NIL
  }

  /** Memory after position `q` is unlinked: its predecessor takes over its link. */
  ghost function UnlinkMemAt(m: seq<Page>, l: seq<nat>, q: nat): (r: seq<Page>)
    requires InRange(l, |m|) && q < |l|
    ensures |r| == |m|
  {
    if q == 0 then m else m[l[q - 1] := m[l[q - 1]][0 := m[l[q]][0]]]
  }

  ghost function UnlinkMem(m: seq<Page>, l: seq<nat>, p: nat): (r: seq<Page>)
    ensures |r| == |m|
  {
    if InRange(l, |m|) && p in l then
      var q :| 0 <= q < |l| && l[q] == p;
      UnlinkMemAt(m, l, q)
    else m
  }

  /** Memory after the pages of a run are unlinked one by one, lowest first. */
  ghost function UnlinkRunMem(m: seq<Page>, l: seq<nat>, start: nat, count: nat): (r: seq<Page>)
    ensures |r| == |m|
  {
    if count == 0 then m else
      UnlinkMem(UnlinkRunMem(m, l, start, count - 1), RemoveRun(l, start, count - 1), start + count - 1)
  }

  lemma {:induction false} UnlinkMemIsAt(m: seq<Page>, l: seq<nat>, q: nat)
    requires NoDup(l) && InRange(l, |m|) && q < |l|
    ensures UnlinkMem(m, l, l[q]) == UnlinkMemAt(m, l, q)
  {}

  lemma {:induction false} UnlinkLinkOk(m: seq<Page>, l: seq<nat>, q: nat, r: seq<nat>, i: nat)
    requires NoDup(l) && InRange(l, |m|) && q < |l| && |r| == |l| - 1 && InRange(r, |m|) && i < |r|
    requires forall k :: 0 <= k < |r| ==> r[k] == if k < q then l[k] else l[k + 1]
    requires LinkOk(m, l, q) && LinkOk(m, l, if i < q then i else i + 1)
    ensures LinkOk(UnlinkMemAt(m, l, q), r, i)
  {
    var j := if i < q then i else i + 1;
    assert r[i] == l[j];
    var m' := UnlinkMemAt(m, l, q);
    if j + 1 == q {
      assert m'[l[j]][0] == m[l[q]][0];
    } else {
      assert q > 0 ==> l[j] != l[q - 1];
      assert m'[l[j]] == m[l[j]];
      if i + 1 < |r| {
        assert r[i + 1] == if i + 1 < q then l[i + 1] else l[i + 1 + 1];
      }
    }
  }

  lemma {:induction false} UnlinkKeepsThread(m: seq<Page>, l: seq<nat>, q: nat)
    requires Threaded(m, l) && q < |l|
    ensures Threaded(UnlinkMemAt(m, l, q), Remove(l, l[q]))
    ensures LinkAt(Remove(l, l[q]), 0) == if q == 0 then m[l[q]][0] else LinkAt(l, 0)
  {
    RemoveAt(l, q);
    RemoveFacts(l, l[q]);
    var r := Remove(l, l[q]);
    assert LinkOk(m, l, q);
    forall i: nat | i < |r|
      ensures LinkOk(UnlinkMemAt(m, l, q), r, i)
    {
      assert LinkOk(m, l, if i < q then i else i + 1);
      UnlinkLinkOk(m, l, q, r, i);
    }
  }

  /** What unlinking one page does to the link words. */
  lemma {:induction false} UnlinkWrites(m: seq<Page>, l: seq<nat>, p: nat, x: nat)
    requires Threaded(m, l) && p in l && x < |m|
    ensures Threaded(UnlinkMem(m, l, p), Remove(l, p))
    ensures x !in l || x == p || m[x][0] != p ==> UnlinkMem(m, l, p)[x] == m[x]
    ensures UnlinkMem(m, l, p)[x][1..] == m[x][1..]
  {
    var q := IndexOf(l, p);
    UnlinkMemIsAt(m, l, q);
    UnlinkKeepsThread(m, l, q);
    if q > 0 && x == l[q - 1] {
      assert LinkOk(m, l, q - 1);
    }
  }

  lemma {:induction false} UnlinkRunThread(m: seq<Page>, l: seq<nat>, start: nat, count: nat)
    requires Threaded(m, l) && RunFree(l, start, count)
    ensures Threaded(UnlinkRunMem(m, l, start, count), RemoveRun(l, start, count))
  {
    if count == 0 {
    } else {
      var m1, l1 := UnlinkRunMem(m, l, start, count - 1), RemoveRun(l, start, count - 1);
      var p := start + count - 1;
      assert Threaded(m1, l1) by {
        UnlinkRunThread(m, l, start, count - 1);
      }
      assert p in l1 by {
        RemoveRunFacts(l, start, count - 1);
      }
      assert 0 < |m1| by {
        var q := IndexOf(l1, p);
      }
      UnlinkWrites(m1, l1, p, 0);
    }
  }

  lemma {:induction false} UnlinkRunStart(m: seq<Page>, l: seq<nat>, start: nat)
    ensures RemoveRun(l, start, 0) == l && UnlinkRunMem(m, l, start, 0) == m
  {}

  lemma {:induction false} UnlinkRunNext(m: seq<Page>, l: seq<nat>, start: nat, k: nat, count: nat)
    requires NoDup(l) && RunFree(l, start, count) && k < count
    ensures start + k in RemoveRun(l, start, k)
    ensures RemoveRun(l, start, k + 1) == Remove(RemoveRun(l, start, k), start + k)
    ensures UnlinkRunMem(m, l, start, k + 1) ==
            UnlinkMem(UnlinkRunMem(m, l, start, k), RemoveRun(l, start, k), start + k)
  {
    RemoveRunFacts(l, start, k);
  }

  /** One step of the run, seen from page `x`. */
  lemma {:induction false} UnlinkRunStep(m: seq<Page>, l: seq<nat>, start: nat, count: nat, x: nat)
    requires Threaded(m, l) && RunFree(l, start, count + 1) && x < |m|
    ensures var m1, m2 := UnlinkRunMem(m, l, start, count), UnlinkRunMem(m, l, start, count + 1);
            && (x !in l || start <= x <= start + count || m1[x][0] != start + count ==> m2[x] == m1[x])
            && m2[x][1..] == m1[x][1..]
  {
    var m1, l1 := UnlinkRunMem(m, l, start, count), RemoveRun(l, start, count);
    assert Threaded(m1, l1) by {
      UnlinkRunThread(m, l, start, count);
    }
    assert start + count in l1 && (x in l1 <==> x in l && !(start <= x < start + count)) by {
      RemoveRunFacts(l, start, count);
    }
    hide Threaded, NoDup, Remove, RemoveRun, InRange;
    UnlinkWrites(m1, l1, start + count, x);
  }

  /** Pages that were not free keep their contents through a contiguous allocation. */
  lemma {:induction false} UnlinkRunFrame(m: seq<Page>, l: seq<nat>, start: nat, count: nat, x: nat)
    requires Threaded(m, l) && RunFree(l, start, count) && x < |m|
    ensures x !in l ==> UnlinkRunMem(m, l, start, count)[x] == m[x]
    ensures UnlinkRunMem(m, l, start, count)[x][1..] == m[x][1..]
  {
    hide Threaded, RemoveRun;
    if count == 0 {
    } else {
      UnlinkRunFrame(m, l, start, count - 1, x);
      UnlinkRunStep(m, l, start, count - 1, x);
    }
  }

  lemma {:induction false} LinkIsMember(m: seq<Page>, l: seq<nat>, p: nat)
    requires Threaded(m, l) && p in l
    ensures m[p][0] == NIL || m[p][0] in l
  {
    var q := IndexOf(l, p);
    assert LinkOk(m, l, q);
  }

  lemma {:induction false} ListBelow(m: seq<Page>, l: seq<nat>)
    requires Threaded(m, l)
    ensures forall x :: x in l ==> x < |m| <= NIL
    ensures NoDup(l)
  {}

  /** While it is still on the list, page `p` keeps its link exactly if the link's target does too. */
  lemma {:induction false} LinkUntouched(m: seq<Page>, l: seq<nat>, start: nat, count: nat, p: nat)
    requires Threaded(m, l) && RunFree(l, start, count)
    requires p in l && !(start <= p < start + count)
    ensures UnlinkRunMem(m, l, start, count)[p][0] == m[p][0] <==> !(start <= m[p][0] < start + count)
  {
    hide NoDup, InRange, Remove, RemoveRun, Threaded;
    ListBelow(m, l);
    if count > 0 {
      LinkUntouched(m, l, start, count - 1, p);
      UnlinkRunStep(m, l, start, count - 1, p);
      UnlinkRunThread(m, l, start, count);
      RemoveRunFacts(l, start, count);
      assert start <= m[p][0] < start + count ==> m[p][0] in l;
      LinkIsMember(UnlinkRunMem(m, l, start, count), RemoveRun(l, start, count), p);
    }
  }

  lemma {:induction false} RemovedPageFrozen(m: seq<Page>, l: seq<nat>, start: nat, c: nat, count: nat, p: nat)
    requires Threaded(m, l) && RunFree(l, start, count) && c <= count
    requires start <= p < start + c && p < |m|
    ensures UnlinkRunMem(m, l, start, count)[p] == UnlinkRunMem(m, l, start, c)[p]
    decreases count - c
  {
    if c < count {
      UnlinkRunStep(m, l, start, c, p);
      RemovedPageFrozen(m, l, start, c + 1, count, p);
    }
  }

  /** A page handed out by a contiguous allocation keeps its contents if and only if
      its link did not lead to a lower page of the same run. */
  lemma {:induction false} ContiguousKeepsPageIff(m: seq<Page>, l: seq<nat>, start: nat, count: nat, p: nat)
    requires Threaded(m, l) && RunFree(l, start, count)
    requires start <= p < start + count && p < |m|
    ensures UnlinkRunMem(m, l, start, count)[p] == m[p] <==> !(start <= m[p][0] < p)
  {
    hide Threaded, UnlinkRunMem, RemoveRun;
    var c := p - start;
    var m1 := UnlinkRunMem(m, l, start, c);
    assert m1[p][0] == m[p][0] <==> !(start <= m[p][0] < p) by {
      LinkUntouched(m, l, start, c, p);
    }
    assert m1[p][1..] == m[p][1..] by {
      UnlinkRunFrame(m, l, start, c, p);
    }
    assert UnlinkRunMem(m, l, start, count)[p] == m1[p] by {
      UnlinkRunStep(m, l, start, c, p);
      RemovedPageFrozen(m, l, start, c + 1, count, p);
    }
    assert m1[p] == [m1[p][0]] + m1[p][1..];
    assert m[p] == [m[p][0]] + m[p][1..];
  }

  /** The list pmm_init builds runs downwards, so its first contiguous pair is overwritten:
      allocating pages 1 and 2 out of the list 3, 2, 1 changes page 2, which is no longer free. */
  lemma {:induction false} ContiguousWritesHandedOutPage(m: seq<Page>)
    requires |m| == 4 && Threaded(m, [3, 2, 1])
    ensures RunFree([3, 2, 1], 1, 2) && 2 !in RemoveRun([3, 2, 1], 1, 2)
    ensures UnlinkRunMem(m, [3, 2, 1], 1, 2)[2] != m[2]
  {
    var l := [3, 2, 1];
    assert LinkOk(m, l, 1);
    RemoveRunFacts(l, 1, 2);
    ContiguousKeepsPageIff(m, l, 1, 2, 2);
  }

  /** The globals of mm/pmm.c and the memory whose free pages hold the links. */
  class Pmm {
    const totalMemory: nat
    const totalPages: nat
    const mem: array<Page>
    const bitmap: array<bv8>
    var freePages: nat
    var freeListHead: Word
    ghost var list: seq<nat>

    ghost predicate Sized()
      reads this
    {
      && mem as object != bitmap as object
      && totalMemory < 0x1_0000_0000
      && totalPages == totalMemory / PAGE_SIZE == mem.Length <= MAX_PAGES
      && bitmap.Length == (totalPages + 7) / 8
    }

    /** Bitmap, counter and list are three views of one set of pages. */
    ghost predicate Valid()
      reads this, mem, bitmap
    {
      && Sized()
      && Threaded(mem[..], list)
      && freeListHead == LinkAt(list, 0)
      && freePages == |list|
      && forall p: nat :: p < totalPages ==> (Bit(bitmap[..], p) <==> p in list)
    }

    method GetPageBit(idx: nat) returns (on: bool)
      requires idx / 8 < bitmap.Length
      ensures on == Bit(bitmap[..], idx)
    {
      on := (bitmap[idx / 8] >> (idx % 8)) & 1 == 1;
    }

    method SetPageBit(idx: nat, available: bool)
      requires idx / 8 < bitmap.Length
      modifies bitmap
      ensures forall j: nat :: j < 8 * bitmap.Length ==>
                (Bit(bitmap[..], j) <==> if j == idx then available else Bit(old(bitmap[..]), j))
    {
      ghost var b := bitmap[..];
      if available {
        bitmap[idx / 8] := bitmap[idx / 8] | (1 << (idx % 8));
      } else {
        bitmap[idx / 8] := bitmap[idx / 8] & !(1 << (idx % 8));
      }
      WithBitEffect(b, bitmap[..], idx, available);
    }

    /** mm/pmm.c:204-212. A failed allocation is address 0, and so is page 0. */
    method AllocPage() returns (addr: nat)
      requires Valid()
      modifies this, bitmap
      ensures Valid()
      ensures mem[..] == old(mem[..])
      ensures old(list) == [] ==> addr == 0 && list == old(list)
      ensures old(list) != [] ==> addr == old(list)[0] * PAGE_SIZE && list == old(list)[1..]
    {
      hide Bit;
      if freeListHead == NIL {
        return 0;
      }
      var idx := freeListHead;
      assert idx == list[0] && LinkOk(mem[..], list, 0);
      ghost var l0 := list;
      freeListHead := mem[idx][0];
      SetPageBit(idx, false);
      freePages := freePages - 1;
      list := list[1..];
      forall i: nat | i < |list|
        ensures LinkOk(mem[..], list, i)
      {
        assert LinkOk(mem[..], l0, i + 1);
      }
      addr := idx * PAGE_SIZE;
    }

    /** mm/pmm.c:249-263. Out-of-range and already free pages are ignored. */
    method FreePage(addr: nat)
      requires Valid()
      requires addr % PAGE_SIZE == 0
      modifies this, bitmap, mem
      ensures Valid()
      ensures list == if addr / PAGE_SIZE < totalPages && addr / PAGE_SIZE !in old(list)
                      then [addr / PAGE_SIZE] + old(list) else old(list)
      ensures mem[..] == if list == old(list) then old(mem[..])
                         else old(mem[..])[addr / PAGE_SIZE := old(mem[addr / PAGE_SIZE])[0 := old(freeListHead)]]
    {
      hide Bit;
      var idx := addr / PAGE_SIZE;
      if idx >= totalPages {
        return;
      }
      var on := GetPageBit(idx);
      if !on {
        SetPageBit(idx, true);
        Push(idx);
        freePages := freePages + 1;
      }
    }

    /** The unlink step of mm/pmm.c:227-238: walk to the page, splice it out, clear its bit. */
    method UnlinkPage(p: nat)
      requires Valid() && p in list
      modifies this, bitmap, mem
      ensures Valid()
      ensures list == Remove(old(list), p)
      ensures mem[..] == UnlinkMem(old(mem[..]), old(list), p)
    {
      hide Bit;
      var prev: Word := NIL;
      var cur: Word := freeListHead;
      ghost var q := 0;
      ghost var at := IndexOf(list, p);
      while cur != NIL && cur != p
        invariant 0 <= q <= at
        invariant cur == list[q]
        invariant prev == if q == 0 then NIL else list[q - 1]
        decreases |list| - q
      {
        assert LinkOk(mem[..], list, q);
        prev := cur;
        cur := mem[cur][0];
        q := q + 1;
      }
      assert q == at;
      UnlinkMemIsAt(mem[..], list, q);
      UnlinkKeepsThread(mem[..], list, q);
      RemoveFacts(list, p);
      if cur == p {
        if prev == NIL {
          freeListHead := mem[cur][0];
        } else {
          mem[prev] := mem[prev][0 := mem[cur][0]];
        }
      }
      SetPageBit(p, false);
      freePages := freePages - 1;
      list := Remove(list, p);
    }

    lemma {:induction false} ListDistinct()
      requires Valid()
      ensures NoDup(list)
    {}

    lemma {:induction false} ListInRange()
      requires Valid()
      ensures forall p: nat :: p in list ==> p < totalPages
    {}

    /**
     * mm/pmm.c:216-245. First fit over the bitmap; address 0 when no run of `count` pages is free, and for a
     * run at page 0.
     */
    method AllocContiguous(count: nat) returns (addr: nat)
      requires Valid()
      modifies this, bitmap, mem
      ensures Valid()
      ensures count == 0 || (forall s: nat :: !RunFree(old(list), s, count)) ==>
                addr == 0 && list == old(list) && mem[..] == old(mem[..])
      ensures count > 0 && (exists s: nat :: RunFree(old(list), s, count)) ==>
                && addr % PAGE_SIZE == 0
                && FirstFit(old(list), count, addr / PAGE_SIZE)
                && list == RemoveRun(old(list), addr / PAGE_SIZE, count)
                && mem[..] == UnlinkRunMem(old(mem[..]), old(list), addr / PAGE_SIZE, count)
      ensures forall x: nat :: x < totalPages && x !in old(list) ==> mem[x] == old(mem[x])
    {
      hide Bit, Threaded, RemoveRun, UnlinkRunMem;
      if count == 0 {
        return 0;
      }
      assert forall p: nat :: p in list ==> p < totalPages by {
        ListInRange();
      }
      var i := 0;
      while i < totalPages
        invariant forall s: nat :: s < i ==> !RunFree(list, s, count)
        invariant list == old(list) && mem[..] == old(mem[..]) && Valid()
      {
        var on := GetPageBit(i);
        if !on {
          assert !RunFree(list, i, count);
          i := i + 1;
          continue;
        }
        var j := RunLength(i, count);
        if j == count {
          forall x: nat | x < totalPages && x !in list
            ensures UnlinkRunMem(mem[..], list, i, count)[x] == mem[x]
          {
            UnlinkRunFrame(mem[..], list, i, count, x);
          }
          TakeRun(i, count);
          return i * PAGE_SIZE;
        }
        forall s: nat | i <= s <= i + j
          ensures !RunFree(list, s, count)
        {
          assert s <= i + j < s + count && i + j !in list;
        }
        i := i + j + 1;
      }
      forall s: nat
        ensures !RunFree(list, s, count)
      {
        assert s >= totalPages ==> s !in list && s <= s < s + count;
      }
      addr := 0;
    }

    /** mm/pmm.c:220-223: how far the free run starting at `i` reaches, at most `count`. */
    method RunLength(i: nat, count: nat) returns (j: nat)
      requires Valid() && i in list && count > 0
      ensures 1 <= j <= count && RunFree(list, i, j)
      ensures j < count ==> i + j !in list
    {
      j := 1;
      while j < count && i + j < totalPages
        invariant 1 <= j <= count && RunFree(list, i, j)
      {
        var on := GetPageBit(i + j);
        if !on {
          break;
        }
        j := j + 1;
      }
    }

    /** mm/pmm.c:226-239. */
    method TakeRun(start: nat, count: nat)
      requires Valid() && RunFree(list, start, count)
      modifies this, bitmap, mem
      ensures Valid()
      ensures list == RemoveRun(old(list), start, count)
      ensures mem[..] == UnlinkRunMem(old(mem[..]), old(list), start, count)
    {
      hide *;
      ghost var l0, m0 := list, mem[..];
      RunStarts(start);
      var k := 0;
      while k < count
        invariant 0 <= k <= count && Valid()
        invariant list == RemoveRun(l0, start, k)
        invariant mem[..] == UnlinkRunMem(m0, l0, start, k)
      {
        UnlinkRunNext(m0, l0, start, k, count);
        UnlinkPage(start + k);
        k := k + 1;
      }
    }

    lemma {:induction false} RunStarts(start: nat)
      requires Valid()
      ensures NoDup(list) && RemoveRun(list, start, 0) == list && UnlinkRunMem(mem[..], list, start, 0) == mem[..]
    {
      UnlinkRunStart(mem[..], list, start);
    }

    /** mm/pmm.c:164-185: take the pages `lo .. hi` out of the bitmap before the list exists. */
    method Reserve(lo: nat, hi: nat)
      requires Sized() && freePages == CountBits(bitmap[..], totalPages)
      modifies this`freePages, bitmap
      ensures freePages == CountBits(bitmap[..], totalPages)
      ensures forall p: nat :: p < totalPages ==>
                (Bit(bitmap[..], p) <==> Bit(old(bitmap[..]), p) && !(lo <= p <= hi))
    {
      hide Bit;
      var i := lo;
      while i <= hi && i < totalPages
        invariant lo <= i && (i <= hi + 1 || i == lo)
        invariant freePages == CountBits(bitmap[..], totalPages)
        invariant forall p: nat :: p < totalPages ==>
                    (Bit(bitmap[..], p) <==> Bit(old(bitmap[..]), p) && !(lo <= p < i))
      {
        var on := GetPageBit(i);
        if on {
          ghost var b := bitmap[..];
          SetPageBit(i, false);
          CountBitsCleared(b, bitmap[..], i, totalPages);
          freePages := freePages - 1;
        }
        i := i + 1;
      }
    }

    /** mm/pmm.c:159-162. */
    method CountFree()
      requires Sized()
      modifies this`freePages
      ensures freePages == CountBits(bitmap[..], totalPages)
    {
      hide Bit;
      freePages := 0;
      var i := 0;
      while i < totalPages
        invariant 0 <= i <= totalPages && freePages == CountBits(bitmap[..], i)
      {
        var on := GetPageBit(i);
        if on {
          freePages := freePages + 1;
        }
        i := i + 1;
      }
    }

    /** mm/pmm.c:194-200: thread the free pages onto the list, so that it runs downwards. */
    method BuildList()
      requires Sized() && freePages == CountBits(bitmap[..], totalPages)
      modifies this`freeListHead, this`list, mem
      ensures Valid()
      ensures Descending(list)
      ensures forall p: nat :: p < totalPages && p !in list ==> mem[p] == old(mem[p])
    {
      hide Threaded, Bit, Descending, NoDup, InRange;
      freeListHead := NIL;
      list := [];
      var i := 0;
      EmptyThread(mem[..]);
      ghost var b := bitmap[..];
      while i < totalPages
        invariant 0 <= i <= totalPages && bitmap[..] == b
        invariant Threaded(mem[..], list) && freeListHead == LinkAt(list, 0) && Descending(list)
        invariant |list| == CountBits(b, i)
        invariant forall p: nat :: p in list <==> p < i && Bit(b, p)
        invariant forall p: nat :: p < totalPages && p !in list ==> mem[p] == old(mem[p])
      {
        var on := GetPageBit(i);
        if on {
          ghost var l0, m0 := list, mem[..];
          PushDescending(list, i);
          Push(i);
          assert forall x: nat :: x in list <==> x == i || x in l0;
          assert forall p: nat :: p < totalPages && p != i ==> mem[p] == m0[p];
        }
        i := i + 1;
      }
    }

    /** mm/pmm.c:197-198 and 259-260: put a page at the head of the list. */
    method Push(p: nat)
      requires Sized() && Threaded(mem[..], list) && freeListHead == LinkAt(list, 0)
      requires p < totalPages && p !in list
      modifies this`freeListHead, this`list, mem
      ensures Threaded(mem[..], list) && freeListHead == LinkAt(list, 0)
      ensures list == [p] + old(list) && mem[..] == old(mem[..])[p := old(mem[p])[0 := old(freeListHead)]]
    {
      ghost var l0, m0 := list, mem[..];
      mem[p] := mem[p][0 := freeListHead];
      freeListHead := p;
      list := [p] + list;
      forall k: nat | k < |list|
        ensures LinkOk(mem[..], list, k)
      {
        assert k > 0 ==> LinkOk(m0, l0, k - 1);
      }
    }

    /** The end of pmm_init (mm/pmm.c:158-201): count the free bits, take out the kernel
        image and the bitmap itself, halt if nothing is left, else thread the list. */
    method Init(kernelLo: nat, kernelHi: nat, bitmapLo: nat, bitmapHi: nat) returns (ok: bool)
      requires Sized()
      modifies this, bitmap, mem
      ensures ok ==> Valid() && list != []
      ensures ok <==> exists p: nat :: p < totalPages && Bit(old(bitmap[..]), p)
                                       && !(kernelLo <= p <= kernelHi) && !(bitmapLo <= p <= bitmapHi)
      ensures ok ==> forall p: nat :: p < totalPages ==>
                (p in list <==> Bit(old(bitmap[..]), p) && !(kernelLo <= p <= kernelHi) && !(bitmapLo <= p <= bitmapHi))
      ensures ok ==> Descending(list)
      ensures ok ==> forall p: nat :: p < totalPages && p !in list ==> mem[p] == old(mem[p])
    {
      hide Bit, Threaded, CountBits;
      CountFree();
      Reserve(kernelLo, kernelHi);
      ghost var b1 := bitmap[..];
      Reserve(bitmapLo, bitmapHi);
      ghost var b2 := bitmap[..];
      CountPositive(b2, totalPages);
      forall p: nat | p < totalPages
        ensures Bit(old(bitmap[..]), p) && !(kernelLo <= p <= kernelHi) && !(bitmapLo <= p <= bitmapHi) <==> Bit(b2, p)
      {
        assert Bit(b2, p) <==> Bit(b1, p) && !(bitmapLo <= p <= bitmapHi);
      }
      if freePages == 0 {
        return false;
      }
      BuildList();
      ok := true;
    }
  }
}

/** Runs of allocator calls: the free list as a function of the calls made so far. */
module AllocatorRuns {
  import opened Lists
  import opened FreeLists
  import opened PhysicalMemory
  import Bitmaps

  datatype Call = Alloc | AllocRun(count: nat) | Free(addr: nat)

  /** The lowest page at or after `from` that starts a free run, or -1. */
  function FindRun(l: seq<nat>, total: nat, count: nat, from: nat): int
    decreases total - from
  {
    if from >= total then -1 else if RunFree(l, from, count) then from else FindRun(l, total, count, from + 1)
  }

  lemma {:induction false} FindRunIsFirstFit(l: seq<nat>, total: nat, count: nat, from: nat)
    requires InRange(l, total) && count > 0 && from <= total
    requires forall s: nat :: s < from ==> !RunFree(l, s, count)
    ensures FindRun(l, total, count, from) >= 0 ==> FirstFit(l, count, FindRun(l, total, count, from))
    ensures FindRun(l, total, count, from) < 0 ==> forall s: nat :: !RunFree(l, s, count)
    decreases total - from
  {
    if from >= total {
      forall s: nat
        ensures !RunFree(l, s, count)
      {
        assert s >= total ==> s !in l && s <= s < s + count;
      }
    } else if !RunFree(l, from, count) {
      FindRunIsFirstFit(l, total, count, from + 1);
    }
  }

  /** The address a call returns (0 for failure and for a free). */
  function Returned(l: seq<nat>, total: nat, c: Call): int {
    match c
    case Alloc => if l == [] then 0 else l[0] * PAGE_SIZE
    case AllocRun(n) => if n == 0 || FindRun(l, total, n, 0) < 0 then 0 else FindRun(l, total, n, 0) * PAGE_SIZE
    case Free(_) => 0
  }

  function ListAfter(l: seq<nat>, total: nat, c: Call): seq<nat> {
    match c
    case Alloc => if l == [] then l else l[1..]
    case AllocRun(n) => if n == 0 || FindRun(l, total, n, 0) < 0 then l else RemoveRun(l, FindRun(l, total, n, 0), n)
    case Free(a) => if a / PAGE_SIZE < total && a / PAGE_SIZE !in l then [a / PAGE_SIZE] + l else l
  }

  /** The pages a call hands out. */
  ghost predicate HandsOut(l: seq<nat>, total: nat, c: Call, p: nat) {
    match c
    case Alloc => l != [] && p == l[0]
    case AllocRun(n) => n > 0 && FindRun(l, total, n, 0) >= 0
      && FindRun(l, total, n, 0) <= p < FindRun(l, total, n, 0) + n
    case Free(_) => false
  }

  predicate LegalCall(c: Call) {
    c.Free? ==> c.addr % PAGE_SIZE == 0
  }

  /** The free list after the first `n` calls. */
  function After(l: seq<nat>, total: nat, calls: seq<Call>, n: nat): seq<nat>
    requires n <= |calls|
  {
    if n == 0 then l else ListAfter(After(l, total, calls, n - 1), total, calls[n - 1])
  }

  ghost predicate Good(l: seq<nat>, total: nat) {
    NoDup(l) && InRange(l, total)
  }

  /** One call hands out only free pages, and those are not free afterwards. */
  lemma {:induction false} CallFacts(l: seq<nat>, total: nat, c: Call, p: nat)
    requires Good(l, total) && LegalCall(c)
    ensures Good(ListAfter(l, total, c), total)
    ensures HandsOut(l, total, c, p) ==> p in l && p !in ListAfter(l, total, c)
    ensures p in ListAfter(l, total, c) && p !in l ==> c.Free? && c.addr / PAGE_SIZE == p
    ensures p in l && p !in ListAfter(l, total, c) ==> HandsOut(l, total, c, p)
  {
    match c
    case Alloc =>
      if p in l {
        var q := IndexOf(l, p);
        assert q > 0 ==> l[1..][q - 1] == p;
      }
    case AllocRun(n) =>
      if n > 0 {
        FindRunIsFirstFit(l, total, n, 0);
        if FindRun(l, total, n, 0) >= 0 {
          RemoveRunFacts(l, FindRun(l, total, n, 0), n);
        }
      }
    case Free(_) =>
  }

  lemma {:induction false} AfterGood(l: seq<nat>, total: nat, calls: seq<Call>, n: nat)
    requires Good(l, total) && n <= |calls| && forall k :: 0 <= k < |calls| ==> LegalCall(calls[k])
    ensures Good(After(l, total, calls, n), total)
  {
    if n > 0 {
      AfterGood(l, total, calls, n - 1);
      CallFacts(After(l, total, calls, n - 1), total, calls[n - 1], 0);
    }
  }

  /** If page `p` is in use after `i` calls and free after `j`, it was freed in between. */
  lemma {:induction false} FreedBetween(l: seq<nat>, total: nat, calls: seq<Call>, i: nat, j: nat, p: nat)
    requires Good(l, total) && i <= j <= |calls| && forall k :: 0 <= k < |calls| ==> LegalCall(calls[k])
    requires p !in After(l, total, calls, i) && p in After(l, total, calls, j)
    ensures exists k :: i <= k < j && calls[k] == Free(p * PAGE_SIZE)
  {
    if i < j {
      AfterGood(l, total, calls, j - 1);
      CallFacts(After(l, total, calls, j - 1), total, calls[j - 1], p);
      if p in After(l, total, calls, j - 1) {
        FreedBetween(l, total, calls, i, j - 1, p);
      } else {
        assert calls[j - 1] == Free(p * PAGE_SIZE);
      }
    }
  }

  /** Over every run of calls, no page is handed out twice without being freed in between. */
  lemma {:induction false} NoDoubleHandout(l: seq<nat>, total: nat, calls: seq<Call>, i: nat, j: nat, p: nat)
    requires Good(l, total) && i < j < |calls| && forall k :: 0 <= k < |calls| ==> LegalCall(calls[k])
    requires HandsOut(After(l, total, calls, i), total, calls[i], p)
    requires HandsOut(After(l, total, calls, j), total, calls[j], p)
    ensures exists k :: i < k < j && calls[k] == Free(p * PAGE_SIZE)
  {
    hide Good, HandsOut, ListAfter;
    AfterGood(l, total, calls, i);
    AfterGood(l, total, calls, j);
    CallFacts(After(l, total, calls, i), total, calls[i], p);
    CallFacts(After(l, total, calls, j), total, calls[j], p);
    assert After(l, total, calls, i + 1) == ListAfter(After(l, total, calls, i), total, calls[i]);
    FreedBetween(l, total, calls, i + 1, j, p);
  }

  /** Some call would hand out pages and return the address that means failure. */
  ghost predicate HiddenSuccess(l: seq<nat>, total: nat, c: Call) {
    Returned(l, total, c) == 0 && exists p :: HandsOut(l, total, c, p)
  }

  /** No successful call looks like a failure if and only if page 0 is not free. */
  lemma {:induction false} PageZeroIff(l: seq<nat>, total: nat)
    requires Good(l, total)
    ensures (forall c :: !HiddenSuccess(l, total, c)) <==> 0 !in l
  {
    if 0 in l {
      assert FindRun(l, total, 1, 0) == 0 && HandsOut(l, total, AllocRun(1), 0);
      assert HiddenSuccess(l, total, AllocRun(1));
    } else {
      forall c ensures !HiddenSuccess(l, total, c) {
        if c.AllocRun? && c.count > 0 {
          FindRunIsFirstFit(l, total, c.count, 0);
          assert !RunFree(l, 0, c.count);
        }
      }
    }
  }

  /** A free page 0 makes a run that starts there look like a failure and be lost. */
  lemma {:induction false} RunAtZeroIsLost(l: seq<nat>, total: nat, n: nat)
    requires Good(l, total) && n > 0 && total > 0 && RunFree(l, 0, n)
    ensures Returned(l, total, AllocRun(n)) == 0
    ensures forall p: nat :: p < n ==> p in l && p !in ListAfter(l, total, AllocRun(n))
  {
    assert FindRun(l, total, n, 0) == 0;
    RemoveRunFacts(l, 0, n);
  }

  /** Freeing page 0 puts it first, so that the next single allocation is the one that is lost. */
  lemma {:induction false} PageZeroLooksLikeFailure(l: seq<nat>, total: nat)
    requires total > 0 && 0 !in l
    ensures var l' := ListAfter(l, total, Free(0)); l' == [0] + l && HiddenSuccess(l', total, Alloc)
  {
    assert HandsOut([0] + l, total, Alloc, 0);
  }

  /** The concrete allocator follows the list model over every run of calls. */
  method Execute(pmm: Pmm, calls: seq<Call>) returns (results: seq<nat>)
    requires pmm.Valid() && forall k :: 0 <= k < |calls| ==> LegalCall(calls[k])
    modifies pmm, pmm.bitmap, pmm.mem
    ensures pmm.Valid()
    ensures pmm.list == After(old(pmm.list), pmm.totalPages, calls, |calls|)
    ensures pmm.freePages == |After(old(pmm.list), pmm.totalPages, calls, |calls|)|
    ensures |results| == |calls|
    ensures forall k :: 0 <= k < |calls| ==>
              results[k] == Returned(After(old(pmm.list), pmm.totalPages, calls, k), pmm.totalPages, calls[k])
  {
    hide Bitmaps.Bit, Threaded, Returned, ListAfter;
    results := [];
    var k := 0;
    while k < |calls|
      invariant 0 <= k <= |calls| && |results| == k && pmm.Valid()
      invariant pmm.list == After(old(pmm.list), pmm.totalPages, calls, k)
      invariant forall i :: 0 <= i < k ==>
                  results[i] == Returned(After(old(pmm.list), pmm.totalPages, calls, i), pmm.totalPages, calls[i])
    {
      var r := ExecuteOne(pmm, calls[k]);
      results := results + [r];
      k := k + 1;
    }
  }

  method ExecuteOne(pmm: Pmm, c: Call) returns (r: nat)
    requires pmm.Valid() && LegalCall(c)
    modifies pmm, pmm.bitmap, pmm.mem
    ensures pmm.Valid()
    ensures pmm.list == ListAfter(old(pmm.list), pmm.totalPages, c)
    ensures r == Returned(old(pmm.list), pmm.totalPages, c)
  {
    match c
    case Alloc =>
      r := pmm.AllocPage();
    case AllocRun(n) =>
      ghost var l := pmm.list;
      if n > 0 {
        FindRunIsFirstFit(l, pmm.totalPages, n, 0);
      }
      r := pmm.AllocContiguous(n);
      if n > 0 && FindRun(l, pmm.totalPages, n, 0) >= 0 {
        FirstFitUnique(l, n, r / PAGE_SIZE, FindRun(l, pmm.totalPages, n, 0));
      }
    case Free(a) =>
      pmm.FreePage(a);
      r := 0;
  }
}
