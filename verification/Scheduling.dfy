/** Round-robin scheduling as a function of the task list (proc/task.c, driver/pit.c). */
module RoundRobin {
  import opened Lists
  import opened PhysicalMemory

  datatype TaskState = Running | Ready | Blocked | Terminated

  /** The fields of a PCB that scheduling, creation and reclamation use. */
  datatype Pcb = Pcb(
    state: TaskState, ticksUsed: nat, kernelEsp0: nat, isUser: bool, pageDirectory: nat, userPages: seq<Word>)

  const MAX_TASKS := 32
  const TIME_SLICE_TICKS := 3

  /** What the scheduler sees: the task list in order, the zombies, and the PCBs of both. */
  datatype Sched = Sched(list: seq<nat>, current: nat, zombies: seq<nat>, pcbs: map<nat, Pcb>, esp0: nat, cr3: nat)

  function Index(l: seq<nat>, x: nat): (i: nat)
    requires x in l
    ensures i < |l| && l[i] == x
  {
    if l[0] == x then 0 else 1 + Index(l[1..], x)
  }

  /** The other tasks in cyclic list order, starting after `x`. */
  function Following(l: seq<nat>, x: nat): seq<nat>
    requires x in l
  {
    l[Index(l, x) + 1..] + l[..Index(l, x)]
  }

  predicate IsReady(pcbs: map<nat, Pcb>, p: nat) {
    p in pcbs && pcbs[p].state == Ready
  }

  /** Position of the first ready task, or -1. */
  function FirstReady(pcbs: map<nat, Pcb>, r: seq<nat>): (j: int)
    ensures -1 <= j < |r|
    ensures j >= 0 ==> IsReady(pcbs, r[j])
    ensures forall k :: 0 <= k < (if j >= 0 then j else |r|) ==> !IsReady(pcbs, r[k])
  {
    if r == [] then -1
    else if IsReady(pcbs, r[0]) then 0
    else var j := FirstReady(pcbs, r[1..]);
         if j < 0 then -1 else j + 1
  }

  /** Both scans look at no more than MAX_TASKS + 1 candidates. */
  function Candidates(l: seq<nat>, x: nat): (r: seq<nat>)
    requires x in l
  {
    var f := Following(l, x);
    if |f| > MAX_TASKS + 1 then f[..MAX_TASKS + 1] else f
  }

  function WithState(pcbs: map<nat, Pcb>, p: nat, st: TaskState): map<nat, Pcb>
    requires p in pcbs
  {
    pcbs[p := pcbs[p].(state := st)]
  }

  function Without(l: seq<nat>, x: nat): seq<nat>
    requires x in l
  {
    l[..Index(l, x)] + l[Index(l, x) + 1..]
  }

  function Active(cr3: nat, dir: nat): nat {
    if dir != 0 then dir else cr3
  }

  /** proc/task.c:419-445: switch to the first ready task after the current one, if any,
      and reap the zombies before leaving. */
  function Rotate(s: Sched): Sched
    requires s.current in s.list && forall p :: p in s.list ==> p in s.pcbs
  {
    var c := Candidates(s.list, s.current);
    var j := FirstReady(s.pcbs, c);
    if j < 0 then s else
      var pcbs := WithState(WithState(s.pcbs, s.current, Ready), c[j], Running) - (set z | z in s.zombies);
      s.(current := c[j], zombies := [], pcbs := pcbs,
         esp0 := if s.pcbs[c[j]].kernelEsp0 != 0 then s.pcbs[c[j]].kernelEsp0 else s.esp0,
         cr3 := Active(s.cr3, s.pcbs[c[j]].pageDirectory))
  }

  /** proc/task.c:364-407: the terminated current task leaves the list for the zombies, and the
      first ready task after it, or failing that the first task, takes over. */
  function Retire(s: Sched): (s': Sched)
    requires s.current in s.list && forall p :: p in s.list ==> p in s.pcbs
  {
    var f := Following(s.list, s.current);
    var rest := s.(list := Without(s.list, s.current), zombies := [s.current] + s.zombies);
    if f == [] then rest else
      var c := Candidates(s.list, s.current);
      var j := FirstReady(s.pcbs, c);
      var n := if j < 0 then f[0] else c[j];
      rest.(current := n, pcbs := WithState(s.pcbs, n, Running), cr3 := Active(s.cr3, s.pcbs[n].pageDirectory))
  }

  function Schedule(s: Sched): Sched
    requires s.current in s.list && forall p :: p in s.list ==> p in s.pcbs
  {
    if s.pcbs[s.current].state == Terminated then Retire(s) else Rotate(s)
  }

  /** A clock tick, a task giving way or ending, a task made, entered directly, or given a page. */
  datatype Event =
    | Tick
    | Yield
    | Exit
    | Create(pcb: nat, task: Pcb)
    | Entered(pcb: nat)
    | Extended(pcb: nat, virt: Word)

  /** driver/pit.c:46-52. */
  function AfterTick(s: Sched): Sched
    requires s.current in s.list && forall p :: p in s.list ==> p in s.pcbs
  {
    var t := s.pcbs[s.current];
    if !t.isUser then s
    else if t.ticksUsed + 1 < TIME_SLICE_TICKS then s.(pcbs := s.pcbs[s.current := t.(ticksUsed := t.ticksUsed + 1)])
    else Schedule(s.(pcbs := s.pcbs[s.current := t.(ticksUsed := 0)]))
  }

  function Step(s: Sched, e: Event): Sched
    requires s.current in s.list && forall p :: p in s.list ==> p in s.pcbs
  {
    match e
    case Tick => AfterTick(s)
    case Yield => Schedule(s)
    case Exit => Schedule(s.(pcbs := WithState(s.pcbs, s.current, Terminated)))
    case Create(p, t) => s.(list := [p] + s.list, pcbs := s.pcbs[p := t])
    case Entered(p) =>
      if p !in s.pcbs then s else
        s.(current := p, pcbs := WithState(s.pcbs, p, Running), esp0 := s.pcbs[p].kernelEsp0,
          cr3 := s.pcbs[p].pageDirectory)
    case Extended(p, virt) =>
      if p !in s.pcbs then s else s.(pcbs := s.pcbs[p := s.pcbs[p].(userPages := s.pcbs[p].userPages + [virt])])
  }

  /** List safety: no task twice, zombies apart from the list, the current task on the list and
      alive, and nobody else terminated but the zombies. */
  ghost predicate Safe(s: Sched) {
    && NoDup(s.list) && NoDup(s.zombies)
    && s.current in s.list
    && (forall p :: p in s.list ==> p !in s.zombies)
    && (forall p :: p in s.pcbs <==> p in s.list || p in s.zombies)
    && (forall p :: p in s.list ==> s.pcbs[p].state != Terminated && s.pcbs[p].ticksUsed < TIME_SLICE_TICKS)
    && (forall z :: z in s.zombies ==> s.pcbs[z].state == Terminated)
    && s.pcbs[s.current].state == Running
  }

  /** An event that can happen: new PCBs are fresh pages and start ready. */
  ghost predicate Possible(s: Sched, e: Event) {
    match e
    case Create(p, t) => p !in s.pcbs && t.state == Ready && t.ticksUsed == 0
    case Exit => |s.list| > 1
    case Entered(p) => p in s.list && IsReady(s.pcbs, p)
    case _ => true
  }

  lemma {:induction false} IndexUnique(l: seq<nat>, x: nat, i: nat)
    requires NoDup(l) && i < |l| && l[i] == x
    ensures Index(l, x) == i
  {}

  lemma {:induction false} FollowingMembers(l: seq<nat>, x: nat)
    requires NoDup(l) && x in l
    ensures NoDup(Following(l, x)) && NoDup(Without(l, x)) && |Following(l, x)| == |Without(l, x)| == |l| - 1
    ensures forall y :: (y in Following(l, x) <==> y in l && y != x) && (y in Without(l, x) <==> y in l && y != x)
  {
    var i := Index(l, x);
    forall y | y in l && y != x
      ensures y in Following(l, x) && y in Without(l, x)
    {
      var k := Index(l, y);
      if k < i {
        assert Following(l, x)[|l| - i - 1 + k] == y && Without(l, x)[k] == y;
      } else {
        assert Following(l, x)[k - i - 1] == y && Without(l, x)[k - 1] == y;
      }
    }
  }

  /** Two tasks split the list into three stretches. */
  lemma {:induction false} SplitAt(l: seq<nat>, i: nat, k: nat)
    requires i < k < |l|
    ensures l == l[..i] + [l[i]] + l[i + 1..k] + [l[k]] + l[k + 1..]
    ensures l[..k] == l[..i] + [l[i]] + l[i + 1..k] && l[i + 1..] == l[i + 1..k] + [l[k]] + l[k + 1..]
  {}

  lemma {:induction false} Pieces(p: seq<nat>, y: nat, q: seq<nat>, f: seq<nat>, k: nat)
    requires f == p + [y] + q && k == |p|
    ensures k < |f| && f[k] == y && f[..k] == p && f[k + 1..] == q
  {}

  lemma {:induction false} FollowingAt(p: seq<nat>, y: nat, q: seq<nat>, l: seq<nat>)
    requires l == p + [y] + q && NoDup(l)
    ensures y in l && Following(l, y) == q + p && Without(l, y) == p + q
  {
    Pieces(p, y, q, l, |p|);
    IndexUnique(l, y, |p|);
  }

  /** Cyclic order around `x` and around `y`, when `l` is `a x b y c`. */
  lemma {:induction false} ShiftForward(a: seq<nat>, x: nat, b: seq<nat>, y: nat, c: seq<nat>, l: seq<nat>)
    requires l == a + [x] + b + [y] + c && NoDup(l)
    ensures x in l && y in l
    ensures Following(l, x) == b + [y] + (c + a) && Following(l, y) == (c + a) + [x] + b
    ensures y in Without(l, x) && Following(Without(l, x), y) == (c + a) + b
    ensures x in Without(l, y) && Following(Without(l, y), x) == b + (c + a)
  {
    hide NoDup, Following, Without, Index;
    assert l == a + [x] + (b + [y] + c) && l == (a + [x] + b) + [y] + c;
    FollowingAt(a, x, b + [y] + c, l);
    FollowingAt(a + [x] + b, y, c, l);
    FollowingMembers(l, x);
    FollowingMembers(l, y);
    assert a + (b + [y] + c) == (a + b) + [y] + c && (a + [x] + b) + c == a + [x] + (b + c);
    FollowingAt(a + b, y, c, a + (b + [y] + c));
    FollowingAt(a, x, b + c, (a + [x] + b) + c);
    assert (b + [y] + c) + a == b + [y] + (c + a) && c + (a + [x] + b) == (c + a) + [x] + b;
    assert c + (a + b) == (c + a) + b && (b + c) + a == b + (c + a);
  }

  /** The cyclic order seen from a later task: what follows it, the old viewpoint, what it skipped. */
  lemma {:induction false} FollowingShift(l: seq<nat>, x: nat, j: nat)
    requires NoDup(l) && x in l && j < |Following(l, x)|
    ensures var f := Following(l, x);
            && f[j] in l && Following(l, f[j]) == f[j + 1..] + [x] + f[..j]
            && f[j] in Without(l, x) && Following(Without(l, x), f[j]) == f[j + 1..] + f[..j]
  {
    var f := Following(l, x);
    var i := Index(l, x);
    FollowingMembers(l, x);
    var k := if j < |l| - i - 1 then i + 1 + j else j - (|l| - i - 1);
    hide NoDup, Following, Without;
    if i < k {
      SplitAt(l, i, k);
      var a, b, c := l[..i], l[i + 1..k], l[k + 1..];
      ShiftForward(a, x, b, l[k], c, l);
      Pieces(b, l[k], c + a, f, j);
    } else {
      SplitAt(l, k, i);
      var a, b, c := l[..k], l[k + 1..i], l[i + 1..];
      ShiftForward(a, l[k], b, x, c, l);
      Pieces(c + a, l[k], b, f, j);
    }
  }
}

/** What holds over every run of the scheduler. */
module SchedulerProperties {
  import opened Lists
  import opened RoundRobin

  /** Safety of one switch or retirement, from a state that is safe but for the current task's state. */
  lemma {:induction false} RotateSafe(s: Sched)
    requires Safe(s)
    ensures Safe(Rotate(s)) && Rotate(s).list == s.list
    ensures Rotate(s) == s || (Rotate(s).zombies == [] && Rotate(s).current != s.current)
  {
    FollowingMembers(s.list, s.current);
    var c := Candidates(s.list, s.current);
    var j := FirstReady(s.pcbs, c);
    if j >= 0 {
      assert c[j] == Following(s.list, s.current)[j];
      assert c[j] in Following(s.list, s.current);
    }
  }

  lemma {:induction false} RetireSafe(s: Sched, t: Sched)
    requires Safe(s) && |s.list| > 1 && t == s.(pcbs := WithState(s.pcbs, s.current, Terminated))
    ensures Safe(Retire(t)) && Retire(t).list == Without(s.list, s.current)
    ensures Retire(t).zombies == [s.current] + s.zombies && Retire(t).current != s.current
  {
    hide Following, Without, FirstReady, Index;
    FollowingMembers(s.list, s.current);
    var f, c := Following(s.list, s.current), Candidates(s.list, s.current);
    var j := FirstReady(t.pcbs, c);
    var n := if j < 0 then f[0] else c[j];
    assert n in f by {
      if j >= 0 {
        assert c[j] == f[j];
      }
    }
    var t' := Retire(t);
    assert t'.zombies[0] == s.current && forall i :: 0 < i < |t'.zombies| ==> t'.zombies[i] == s.zombies[i - 1];
    assert forall z :: z in t'.zombies <==> z == s.current || z in s.zombies;
  }

  /** Every possible event keeps the scheduler's lists safe. */
  lemma {:induction false} StepSafe(s: Sched, e: Event)
    requires Safe(s) && Possible(s, e)
    ensures Safe(Step(s, e))
  {
    match e
    case Tick =>
      var t := s.pcbs[s.current];
      RotateSafe(s.(pcbs := s.pcbs[s.current := t.(ticksUsed := 0)]));
    case Yield => RotateSafe(s);
    case Exit => RetireSafe(s, s.(pcbs := WithState(s.pcbs, s.current, Terminated)));
    case Create(p, t) =>
      assert forall x :: x in [p] + s.list <==> x == p || x in s.list;
    case Entered(_) =>
    case Extended(_, _) =>
  }

  ghost predicate AllPossible(s: Sched, es: seq<Event>)
    decreases |es|
  {
    es == [] || (Safe(s) && Possible(s, es[0]) && AllPossible(Step(s, es[0]), es[1..]))
  }

  ghost function Run(s: Sched, es: seq<Event>): (s': Sched)
    requires Safe(s) && AllPossible(s, es)
    ensures Safe(s')
    decreases |es|
  {
    if es == [] then s else
      StepSafe(s, es[0]);
      Run(Step(s, es[0]), es[1..])
  }

  lemma {:induction false} RunOne(s: Sched, e: Event)
    requires Safe(s) && Possible(s, e)
    ensures AllPossible(s, [e]) && Run(s, [e]) == Step(s, e)
  {
    StepSafe(s, e);
    assert [e][1..] == [];
    assert AllPossible(Step(s, e), []);
  }

  lemma {:induction false} RunConcat(s: Sched, a: seq<Event>, b: seq<Event>)
    requires Safe(s) && AllPossible(s, a) && AllPossible(Run(s, a), b)
    ensures AllPossible(s, a + b) && Run(s, a + b) == Run(Run(s, a), b)
    decreases |a|
  {
    hide Step, Possible;
    if a == [] {
      assert a + b == b;
    } else {
      StepSafe(s, a[0]);
      RunConcat(Step(s, a[0]), a[1..], b);
      assert (a + b)[1..] == a[1..] + b;
    }
  }

  /** How often an event frees the PCB of task `p`. */
  ghost function Freed(s: Sched, e: Event, p: nat): nat
    requires Safe(s) && Possible(s, e)
  {
    if p in s.zombies && p !in Step(s, e).zombies then 1 else 0
  }

  ghost function Exited(s: Sched, e: Event, p: nat): nat {
    if e.Exit? && s.current == p then 1 else 0
  }

  ghost function FreedInRun(s: Sched, es: seq<Event>, p: nat): nat
    requires Safe(s) && AllPossible(s, es)
    decreases |es|
  {
    if es == [] then 0 else
      StepSafe(s, es[0]);
      Freed(s, es[0], p) + FreedInRun(Step(s, es[0]), es[1..], p)
  }

  ghost function ExitedInRun(s: Sched, es: seq<Event>, p: nat): nat
    requires Safe(s) && AllPossible(s, es)
    decreases |es|
  {
    if es == [] then 0 else
      StepSafe(s, es[0]);
      Exited(s, es[0], p) + ExitedInRun(Step(s, es[0]), es[1..], p)
  }

  ghost function Pending(s: Sched, p: nat): nat {
    if p in s.zombies then 1 else 0
  }

  lemma {:induction false} StepAccounts(s: Sched, e: Event, p: nat)
    requires Safe(s) && Possible(s, e)
    ensures Pending(s, p) + Exited(s, e, p) == Freed(s, e, p) + Pending(Step(s, e), p)
    ensures Freed(s, e, p) == 1 ==> p != s.current && p !in Step(s, e).list && p !in Step(s, e).pcbs
  {
    StepSafe(s, e);
    match e
    case Tick =>
      var t := s.pcbs[s.current];
      RotateSafe(s.(pcbs := s.pcbs[s.current := t.(ticksUsed := 0)]));
    case Yield => RotateSafe(s);
    case Exit =>
      var t := s.(pcbs := WithState(s.pcbs, s.current, Terminated));
      RetireSafe(s, t);
      assert forall z :: z in [s.current] + s.zombies <==> z == s.current || z in s.zombies;
    case _ =>
  }

  /** Over every run each exit of a task is followed by at most one release of its PCB: the
      exits not yet released are exactly the tasks waiting on the zombie list. */
  lemma {:induction false} FreedOncePerExit(s: Sched, es: seq<Event>, p: nat)
    requires Safe(s) && AllPossible(s, es)
    ensures Pending(s, p) + ExitedInRun(s, es, p) == FreedInRun(s, es, p) + Pending(Run(s, es), p)
    decreases |es|
  {
    if es == [] {
    } else {
      StepSafe(s, es[0]);
      StepAccounts(s, es[0], p);
      FreedOncePerExit(Step(s, es[0]), es[1..], p);
    }
  }

  /** Number of ready tasks in a stretch of the list. */
  function CountReady(pcbs: map<nat, Pcb>, r: seq<nat>): nat {
    if r == [] then 0 else (if IsReady(pcbs, r[0]) then 1 else 0) + CountReady(pcbs, r[1..])
  }

  lemma {:induction false} CountConcat(pcbs: map<nat, Pcb>, a: seq<nat>, b: seq<nat>)
    ensures CountReady(pcbs, a + b) == CountReady(pcbs, a) + CountReady(pcbs, b)
  {
    if a == [] {
      assert a + b == b;
    } else {
      assert (a + b)[1..] == a[1..] + b;
      CountConcat(pcbs, a[1..], b);
    }
  }

  lemma {:induction false} CountSame(p: map<nat, Pcb>, q: map<nat, Pcb>, r: seq<nat>)
    requires forall k :: 0 <= k < |r| ==> (IsReady(p, r[k]) <==> IsReady(q, r[k]))
    ensures CountReady(p, r) == CountReady(q, r)
  {
    if r != [] {
      CountSame(p, q, r[1..]);
    }
  }

  lemma {:induction false} CountNone(p: map<nat, Pcb>, r: seq<nat>)
    requires forall k :: 0 <= k < |r| ==> !IsReady(p, r[k])
    ensures CountReady(p, r) == 0
  {
    if r != [] {
      CountNone(p, r[1..]);
    }
  }

  /** Ready tasks between the current one and `w` in cyclic order. */
  ghost function Ahead(s: Sched, w: nat): nat
    requires s.current in s.list && w in Following(s.list, s.current)
  {
    var f := Following(s.list, s.current);
    CountReady(s.pcbs, f[..Index(f, w)])
  }

  const REACH := MAX_TASKS + 2

  /** Every task but the current one and the idle task is ready: nothing in the kernel blocks a task. */
  ghost predicate Lively(s: Sched, idle: nat) {
    forall p :: p in s.list && p != s.current && p != idle ==> IsReady(s.pcbs, p)
  }

  /** `w` is ready and waiting, every runnable task is a user task, and no task is blocked or the list is short. */
  ghost predicate Waiting(s: Sched, w: nat, idle: nat) {
    && Safe(s) && (Lively(s, idle) || |s.list| <= REACH)
    && w in Following(s.list, s.current) && w in s.list && IsReady(s.pcbs, w)
    && s.pcbs[s.current].isUser
    && forall p :: p in s.list && IsReady(s.pcbs, p) ==> s.pcbs[p].isUser
  }

  /** A ready task is found by the bounded scan: at once, or past the idle task, or because the list is short. */
  lemma {:induction false} FoundInReach(s: Sched, w: nat, idle: nat) returns (j: nat)
    requires Safe(s) && (Lively(s, idle) || |s.list| <= REACH)
    requires w in s.list && IsReady(s.pcbs, w)
    ensures j < |Following(s.list, s.current)| && j == FirstReady(s.pcbs, Following(s.list, s.current))
    ensures j == FirstReady(s.pcbs, Candidates(s.list, s.current))
  {
    hide FirstReady, NoDup;
    FollowingMembers(s.list, s.current);
    var f, c := Following(s.list, s.current), Candidates(s.list, s.current);
    assert w in f && f[Index(f, w)] == w;
    assert FirstReady(s.pcbs, f) >= 0;
    j := FirstReady(s.pcbs, f);
    if |s.list| > REACH {
      hide Following;
      SoonReady(s, f, idle);
      assert c == f[..MAX_TASKS + 1];
      FirstReadyInPrefix(s.pcbs, f, MAX_TASKS + 1);
    } else {
      assert c == f;
    }
  }

  /** In a lively list the first or the second of the others is ready. */
  lemma {:induction false} SoonReady(s: Sched, f: seq<nat>, idle: nat)
    requires Lively(s, idle) && NoDup(f) && |f| >= 2 && forall y :: y in f ==> y in s.list && y != s.current
    ensures 0 <= FirstReady(s.pcbs, f) < 2
  {
    assert f[0] in f && f[1] in f && f[0] != f[1];
  }

  lemma {:induction false} FirstReadyInPrefix(pcbs: map<nat, Pcb>, f: seq<nat>, n: nat)
    requires n <= |f| && 0 <= FirstReady(pcbs, f) < n
    ensures FirstReady(pcbs, f[..n]) == FirstReady(pcbs, f)
  {
    var j, k := FirstReady(pcbs, f), FirstReady(pcbs, f[..n]);
    assert f[..n][j] == f[j];
  }

  /** A bound on the events still to come before `w` runs. */
  ghost function Patience(s: Sched, w: nat, idle: nat): nat
    requires Waiting(s, w, idle)
  {
    TIME_SLICE_TICKS * Ahead(s, w) + TIME_SLICE_TICKS - s.pcbs[s.current].ticksUsed
  }

  lemma {:induction false} PatiencePositive(s: Sched, w: nat, idle: nat)
    requires Waiting(s, w, idle)
    ensures Safe(s) && s.current in s.list && (forall p :: p in s.list ==> p in s.pcbs) && Patience(s, w, idle) > 0
  {}

  /** Whoever is switched to is `w` itself or one of the ready tasks ahead of it. */
  lemma {:induction false} SwitchAdvances(
      f: seq<nat>, f': seq<nat>, pcbs: map<nat, Pcb>, pcbs': map<nat, Pcb>, w: nat, j: nat)
    requires NoDup(f) && w in f && IsReady(pcbs, w) && j == FirstReady(pcbs, f) && f[j] != w
    requires NoDup(f') && f[j + 1..] <= f'
    requires forall k :: j < k < |f| ==> (IsReady(pcbs', f[k]) <==> IsReady(pcbs, f[k]))
    ensures w in f' && CountReady(pcbs', f'[..Index(f', w)]) == CountReady(pcbs, f[..Index(f, w)]) - 1
  {
    var k := Index(f, w);
    assert j < k;
    var mid := f[j + 1..k];
    assert f'[k - j - 1] == f[j + 1..][k - j - 1] == w;
    IndexUnique(f', w, k - j - 1);
    assert f'[..k - j - 1] == f[j + 1..][..k - j - 1] == mid;
    assert f[..k] == f[..j] + ([f[j]] + mid);
    CountConcat(pcbs, f[..j], [f[j]] + mid);
    CountConcat(pcbs, [f[j]], mid);
    CountNone(pcbs, f[..j]);
    CountSame(pcbs, pcbs', mid);
  }

  /** What a switch to the `j`-th following task does to the tasks on the list. */
  ghost predicate Switched(s: Sched, s': Sched, j: nat, left: bool)
    requires s.current in s.list && j < |Following(s.list, s.current)|
  {
    var n := Following(s.list, s.current)[j];
    && s'.current == n
    && s'.list == (if left then Without(s.list, s.current) else s.list)
    && forall p :: p in s'.list && p in s.pcbs ==>
         && p in s'.pcbs && s'.pcbs[p].isUser == s.pcbs[p].isUser && s'.pcbs[p].ticksUsed == s.pcbs[p].ticksUsed
         && (IsReady(s'.pcbs, p) <==> p == s.current || (p != n && IsReady(s.pcbs, p)))
  }

  lemma {:induction false} RotateSwitches(s: Sched, j: int)
    requires Safe(s) && j == FirstReady(s.pcbs, Candidates(s.list, s.current)) && j >= 0
    ensures j < |Following(s.list, s.current)| && Switched(s, Rotate(s), j, false)
  {
    hide NoDup, Index, FirstReady;
    FollowingMembers(s.list, s.current);
    var f := Following(s.list, s.current);
    assert Candidates(s.list, s.current)[j] == f[j];
    hide Following;
    assert f[j] in f;
  }

  lemma {:induction false} RetireSwitches(s: Sched, t: Sched, j: int)
    requires Safe(s) && j == FirstReady(s.pcbs, Candidates(s.list, s.current)) && j >= 0
    requires t == s.(pcbs := WithState(s.pcbs, s.current, Terminated))
    ensures j < |Following(s.list, s.current)| && Switched(s, Retire(t), j, true)
  {
    FollowingMembers(s.list, s.current);
    var f, c := Following(s.list, s.current), Candidates(s.list, s.current);
    forall k | 0 <= k < |c|
      ensures c[k] == f[k] && (IsReady(t.pcbs, c[k]) <==> IsReady(s.pcbs, c[k]))
    {
      assert f[k] in f;
    }
    assert FirstReady(t.pcbs, c) == j;
  }

  lemma {:induction false} StillWaiting(s: Sched, s': Sched, w: nat, idle: nat, j: nat, left: bool)
    requires Waiting(s, w, idle) && j == FirstReady(s.pcbs, Following(s.list, s.current))
    requires Safe(s') && Switched(s, s', j, left) && s'.current != w
    ensures Waiting(s', w, idle)
  {
    hide Index, FirstReady, Following, Without;
    FollowingMembers(s.list, s.current);
    FollowingMembers(s'.list, s'.current);
    hide NoDup;
    assert Following(s.list, s.current)[j] in Following(s.list, s.current);
  }

  lemma {:induction false} OneLessAhead(s: Sched, s': Sched, w: nat, idle: nat, j: nat, left: bool)
    requires Waiting(s, w, idle) && j == FirstReady(s.pcbs, Following(s.list, s.current))
    requires Waiting(s', w, idle) && Switched(s, s', j, left)
    ensures Ahead(s', w) == Ahead(s, w) - 1
  {
    var f, f' := Following(s.list, s.current), Following(s'.list, s'.current);
    CyclicOrderAfterSwitch(s, s', j, left);
    LaterUntouched(s, s', j, left);
    assert IsReady(s.pcbs, w) && f[j] == s'.current != w && w in f by {
      FollowingMembers(s'.list, s'.current);
    }
    hide Waiting, Safe, Switched, NoDup, Following, Without, Index, CountReady, FirstReady, IsReady;
    SwitchAdvances(f, f', s.pcbs, s'.pcbs, w, j);
  }

  lemma {:induction false} CyclicOrderAfterSwitch(s: Sched, s': Sched, j: nat, left: bool)
    requires Safe(s) && j < |Following(s.list, s.current)| && Safe(s') && Switched(s, s', j, left)
    ensures var f, f' := Following(s.list, s.current), Following(s'.list, s'.current);
            f[j + 1..] <= f' && NoDup(f) && NoDup(f')
  {
    var f, n := Following(s.list, s.current), Following(s.list, s.current)[j];
    assert s'.current == n && s'.list == if left then Without(s.list, s.current) else s.list;
    assert NoDup(s.list) && NoDup(s'.list) && n in s'.list;
    hide *;
    FollowingMembers(s.list, s.current);
    FollowingMembers(s'.list, n);
    FollowingShift(s.list, s.current, j);
    PrefixOfConcat(f[j + 1..], [s.current], f[..j]);
    PrefixOfConcat(f[j + 1..], f[..j], []);
    assert f[j + 1..] + f[..j] + [] == f[j + 1..] + f[..j];
  }

  lemma {:induction false} PrefixOfConcat(a: seq<nat>, b: seq<nat>, c: seq<nat>)
    ensures a <= a + b + c
  {
    assert a + b + c == a + (b + c);
  }

  lemma {:induction false} LaterUntouched(s: Sched, s': Sched, j: nat, left: bool)
    requires Safe(s) && j < |Following(s.list, s.current)| && Switched(s, s', j, left)
    ensures var f := Following(s.list, s.current);
            forall k :: j < k < |f| ==> (IsReady(s'.pcbs, f[k]) <==> IsReady(s.pcbs, f[k]))
  {
    hide Index, Following, Without;
    FollowingMembers(s.list, s.current);
    var f := Following(s.list, s.current);
    forall k | j < k < |f|
      ensures IsReady(s'.pcbs, f[k]) <==> IsReady(s.pcbs, f[k])
    {
      assert f[k] in f && f[k] != f[j];
    }
  }

  /** After a switch `w` is running, or still waits with one ready task less ahead of it. */
  lemma {:induction false} SwitchServes(s: Sched, s': Sched, w: nat, idle: nat, j: nat, left: bool)
    requires Waiting(s, w, idle) && j == FirstReady(s.pcbs, Following(s.list, s.current))
    requires Safe(s') && Switched(s, s', j, left)
    ensures s'.current == w || (Waiting(s', w, idle) && Ahead(s', w) == Ahead(s, w) - 1)
  {
    if s'.current != w {
      StillWaiting(s, s', w, idle, j, left);
      OneLessAhead(s, s', w, idle, j, left);
    }
  }

  lemma {:induction false} SomeoneReady(s: Sched, w: nat, idle: nat) returns (j: nat)
    requires Waiting(s, w, idle)
    ensures j < |Following(s.list, s.current)| && j == FirstReady(s.pcbs, Following(s.list, s.current))
    ensures j == FirstReady(s.pcbs, Candidates(s.list, s.current))
  {
    j := FoundInReach(s, w, idle);
  }

  lemma {:induction false} RotateAdvances(s: Sched, w: nat, idle: nat)
    requires Waiting(s, w, idle)
    ensures var s' := Rotate(s);
            s'.current == w || (Waiting(s', w, idle) && Ahead(s', w) == Ahead(s, w) - 1)
  {
    var j := SomeoneReady(s, w, idle);
    RotateSafe(s);
    RotateSwitches(s, j);
    SwitchServes(s, Rotate(s), w, idle, j, false);
  }

  lemma {:induction false} RetireAdvances(s: Sched, t: Sched, w: nat, idle: nat)
    requires Waiting(s, w, idle) && t == s.(pcbs := WithState(s.pcbs, s.current, Terminated))
    ensures var s' := Retire(t);
            s'.current == w || (Waiting(s', w, idle) && Ahead(s', w) == Ahead(s, w) - 1)
  {
    var j := SomeoneReady(s, w, idle);
    FollowingMembers(s.list, s.current);
    RetireSafe(s, t);
    RetireSwitches(s, t, j);
    SwitchServes(s, Retire(t), w, idle, j, true);
  }

  /** Every tick, yield or exit brings a waiting task closer to running. */
  lemma {:induction false} EventAdvances(s: Sched, e: Event, w: nat, idle: nat)
    requires Waiting(s, w, idle) && Turn(e)
    ensures Possible(s, e)
    ensures Step(s, e).current == w
            || (Waiting(Step(s, e), w, idle) && Patience(Step(s, e), w, idle) < Patience(s, w, idle))
  {
    match e
    case Tick => TickAdvances(s, w, idle);
    case Yield =>
      RotateAdvances(s, w, idle);
      hide Rotate, Following, NoDup, CountReady;
    case Exit =>
      FollowingMembers(s.list, s.current);
      RetireAdvances(s, s.(pcbs := WithState(s.pcbs, s.current, Terminated)), w, idle);
      hide Retire, Following, NoDup, CountReady;
  }

  lemma {:induction false} TickAdvances(s: Sched, w: nat, idle: nat)
    requires Waiting(s, w, idle)
    ensures var s' := AfterTick(s);
            s'.current == w || (Waiting(s', w, idle) && Patience(s', w, idle) < Patience(s, w, idle))
  {
    hide Rotate, NoDup, CountReady, Following, Index, FirstReady;
    var t := s.pcbs[s.current];
    var ticks := if t.ticksUsed + 1 < TIME_SLICE_TICKS then t.ticksUsed + 1 else 0;
    var s0 := s.(pcbs := s.pcbs[s.current := t.(ticksUsed := ticks)]);
    TickKeepsOrder(s, w, idle, ticks);
    hide Waiting, Ahead;
    RotateAdvances(s0, w, idle);
  }

  lemma {:induction false} TickKeepsOrder(s: Sched, w: nat, idle: nat, ticks: nat)
    requires Waiting(s, w, idle) && ticks < TIME_SLICE_TICKS
    ensures var s0 := s.(pcbs := s.pcbs[s.current := s.pcbs[s.current].(ticksUsed := ticks)]);
            Waiting(s0, w, idle) && Ahead(s0, w) == Ahead(s, w)
  {
    hide NoDup, CountReady, Following, Index;
    var s0 := s.(pcbs := s.pcbs[s.current := s.pcbs[s.current].(ticksUsed := ticks)]);
    var f := Following(s.list, s.current);
    CountSame(s.pcbs, s0.pcbs, f[..Index(f, w)]);
  }

  /** The events by which the processor may change hands. */
  predicate Turn(e: Event) {
    e.Tick? || e.Yield? || e.Exit?
  }

  /** Bounded waiting: a ready task with `d - 1` ready tasks ahead of it runs within `3 * d` ticks,
      yields and exits, in whatever mix they come. With no task blocked this holds for any number of tasks. */
  lemma {:induction false} BoundedWaiting(s: Sched, es: seq<Event>, w: nat, idle: nat, d: nat)
    requires Waiting(s, w, idle) && Ahead(s, w) == d - 1
    requires |es| == TIME_SLICE_TICKS * d && forall k :: 0 <= k < |es| ==> Turn(es[k])
    ensures exists n: nat :: n <= |es| && AllPossible(s, es[..n]) && Run(s, es[..n]).current == w
  {
    var n := WaitEnds(s, es, w, idle);
  }

  lemma {:induction false} WaitEnds(s: Sched, es: seq<Event>, w: nat, idle: nat) returns (n: nat)
    requires Waiting(s, w, idle) && |es| >= Patience(s, w, idle)
    requires forall k :: 0 <= k < |es| ==> Turn(es[k])
    ensures n <= Patience(s, w, idle) && AllPossible(s, es[..n]) && Run(s, es[..n]).current == w
    decreases Patience(s, w, idle)
  {
    hide Step, Safe, Possible, Patience, NoDup, Following;
    PatiencePositive(s, w, idle);
    EventAdvances(s, es[0], w, idle);
    StepSafe(s, es[0]);
    var s1 := Step(s, es[0]);
    if s1.current == w {
      n := 1;
      assert es[..1][1..] == [];
      assert Run(s1, []) == s1;
    } else {
      var k := WaitEnds(s1, es[1..], w, idle);
      n := k + 1;
      assert es[..n][1..] == es[1..][..k];
    }
  }

  /** Whatever happens, no task is blocked, as long as tasks are entered directly from the idle task only. */
  lemma {:induction false} LivelyStep(s: Sched, e: Event, idle: nat)
    requires Safe(s) && Possible(s, e) && Lively(s, idle) && (e.Entered? ==> s.current == idle)
    ensures Lively(Step(s, e), idle)
  {
    hide Following, FirstReady, NoDup, Index;
    StepSafe(s, e);
    match e
    case Tick =>
      var t := s.pcbs[s.current];
      LivelyRotate(s.(pcbs := s.pcbs[s.current := t.(ticksUsed := 0)]), idle);
    case Yield => LivelyRotate(s, idle);
    case Exit => LivelyRetire(s, s.(pcbs := WithState(s.pcbs, s.current, Terminated)), idle);
    case _ =>
  }

  lemma {:induction false} LivelyRotate(s: Sched, idle: nat)
    requires Safe(s) && Lively(s, idle)
    ensures Lively(Rotate(s), idle)
  {
    hide FirstReady;
    FollowingMembers(s.list, s.current);
    RotateSafe(s);
  }

  lemma {:induction false} LivelyRetire(s: Sched, t: Sched, idle: nat)
    requires Safe(s) && Lively(s, idle) && |s.list| > 1 && t == s.(pcbs := WithState(s.pcbs, s.current, Terminated))
    ensures Lively(Retire(t), idle)
  {
    hide FirstReady;
    FollowingMembers(s.list, s.current);
    RetireSafe(s, t);
  }

  /** Tasks are entered directly only while the idle task is the current one (kmain.c:255-263). */
  ghost predicate EntersFromIdle(s: Sched, es: seq<Event>, idle: nat)
    requires Safe(s) && AllPossible(s, es)
    decreases |es|
  {
    es == [] ||
    (StepSafe(s, es[0]); (es[0].Entered? ==> s.current == idle) && EntersFromIdle(Step(s, es[0]), es[1..], idle))
  }

  /** Over every run nothing blocks a task. */
  lemma {:induction false} LivelyRun(s: Sched, es: seq<Event>, idle: nat)
    requires Safe(s) && AllPossible(s, es) && Lively(s, idle) && EntersFromIdle(s, es, idle)
    ensures Lively(Run(s, es), idle)
    decreases |es|
  {
    hide Step, Possible;
    if es != [] {
      StepSafe(s, es[0]);
      LivelyStep(s, es[0], idle);
      LivelyRun(Step(s, es[0]), es[1..], idle);
    }
  }

  /** With no task blocked and more than two tasks, both scans find a ready task, however long the list. */
  lemma {:induction false} LivelyReach(s: Sched, t: Sched, idle: nat)
    requires Safe(s) && Lively(s, idle) && |s.list| > 2 && t == s.(pcbs := WithState(s.pcbs, s.current, Terminated))
    ensures Rotate(s).current != s.current && IsReady(s.pcbs, Rotate(s).current)
    ensures IsReady(s.pcbs, Retire(t).current)
  {
    hide FirstReady, Index;
    FollowingMembers(s.list, s.current);
    var f := Following(s.list, s.current);
    SoonReady(s, f, idle);
    var w := f[FirstReady(s.pcbs, f)];
    assert w in f;
    hide NoDup;
    var j := FoundInReach(s, w, idle);
    RotateSwitches(s, j);
    RetireSwitches(s, t, j);
  }

  /** In every safe state with `n` tasks of which one is ready, and any of which may be blocked, giving way
      switches tasks, and an exit hands over to a ready task. */
  ghost predicate AlwaysReaches(n: nat) {
    forall s: Sched, w: nat :: Safe(s) && |s.list| == n && w in s.list && IsReady(s.pcbs, w) ==> Reaches(s)
  }

  ghost predicate Reaches(s: Sched)
    requires Safe(s)
  {
    && Rotate(s).current != s.current
    && IsReady(s.pcbs, Retire(s.(pcbs := WithState(s.pcbs, s.current, Terminated))).current)
  }

  /** `n` tasks, the first running, the last ready, all between blocked. */
  function LastReady(n: nat): Sched {
    var list := seq(n, i requires 0 <= i < n => i + 1);
    var pcbs := map p | p in list ::
      Pcb(if p == 1 then Running else if p == n then Ready else Blocked, 0, 0, true, 0, []);
    Sched(list, 1, [], pcbs, 0, 0)
  }

  lemma {:induction false} LastReadySafe(n: nat)
    requires n > 1
    ensures Safe(LastReady(n)) && IsReady(LastReady(n).pcbs, n) && n in LastReady(n).list
    ensures Following(LastReady(n).list, 1) == seq(n - 1, i requires 0 <= i < n - 1 => i + 2)
  {
    var l := LastReady(n).list;
    assert l[n - 1] == n && l[0] == 1;
    IndexUnique(l, 1, 0);
    assert Following(l, 1) == l[1..] + l[..0] == l[1..];
  }

  lemma {:induction false} ShortReach(s: Sched, w: nat)
    requires Safe(s) && 1 < |s.list| <= REACH && w in s.list && IsReady(s.pcbs, w)
    ensures Reaches(s)
  {
    hide FirstReady, Index, NoDup;
    FollowingMembers(s.list, s.current);
    var j := FoundInReach(s, w, w);
    RotateSwitches(s, j);
    RetireSwitches(s, s.(pcbs := WithState(s.pcbs, s.current, Terminated)), j);
    assert Following(s.list, s.current)[j] in Following(s.list, s.current);
  }

  /** If tasks could be blocked, as the state type allows but no code does, the bounded scans would find
      a ready task whenever there is one if and only if there are at most MAX_TASKS + 2 tasks. */
  lemma {:induction false} ReachIff(n: nat)
    requires n > 1
    ensures AlwaysReaches(n) <==> n <= REACH
  {
    if n <= REACH {
      forall s: Sched, w: nat | Safe(s) && |s.list| == n && w in s.list && IsReady(s.pcbs, w)
        ensures Reaches(s)
      {
        ShortReach(s, w);
      }
    } else {
      var s := LastReady(n);
      LastReadySafe(n);
      var c := Candidates(s.list, 1);
      assert forall k :: 0 <= k < |c| ==> c[k] == k + 2 < n && !IsReady(s.pcbs, c[k]);
      assert Rotate(s).current == s.current;
    }
  }
}

/** What the events of the scheduler do, said of positions in the list and of PCB fields. */
module SchedulerLaws {
  import opened Lists
  import opened RoundRobin
  import opened SchedulerProperties

  /** The task `k` places after position `i`, where the head comes after the last. */
  function After(l: seq<nat>, i: nat, k: nat): nat
    requires i < |l|
  {
    l[(i + k) % |l|]
  }

  /** The cyclic order is the order of the list, wrapping at its end. */
  lemma {:induction false} FollowingAtIndex(l: seq<nat>, i: nat, k: nat)
    requires NoDup(l) && i < |l| && 0 < k < |l|
    ensures l[i] in l && k - 1 < |Following(l, l[i])| && Following(l, l[i])[k - 1] == After(l, i, k)
  {
    IndexUnique(l, l[i], i);
    Around(i + k, |l|);
  }

  lemma {:induction false} Around(x: nat, n: nat)
    requires x < 2 * n
    ensures x % n == if x < n then x else x - n
  {
    if x >= n {
      assert x == n + (x - n);
    }
  }

  /** The current task is at position `i`; the first ready task after it, `k` places on, is within the scan. */
  ghost predicate NextInLine(s: Sched, i: nat, k: nat) {
    && i < |s.list| && s.list[i] == s.current && 0 < k < |s.list| && k <= 33
    && IsReady(s.pcbs, After(s.list, i, k))
    && forall j :: 0 < j < k ==> !IsReady(s.pcbs, After(s.list, i, j))
  }

  /** No task within the scan is ready. */
  ghost predicate NoneInLine(s: Sched, i: nat) {
    && i < |s.list| && s.list[i] == s.current
    && forall j :: 0 < j < |s.list| && j <= 33 ==> !IsReady(s.pcbs, After(s.list, i, j))
  }

  /** Task `n` has taken over from one that stays on the list: the zombies are gone, everybody else is as before. */
  ghost predicate HandedOver(s: Sched, s': Sched, n: nat)
    requires s.current in s.pcbs && n in s.pcbs
  {
    && s'.list == s.list && s'.current == n && s'.zombies == []
    && s'.pcbs.Keys == s.pcbs.Keys - (set z | z in s.zombies)
    && (forall p :: p in s'.pcbs && p != n && p != s.current ==> s'.pcbs[p] == s.pcbs[p])
    && (n in s'.pcbs ==> s'.pcbs[n] == s.pcbs[n].(state := Running))
    && (s.current in s'.pcbs && s.current != n ==> s'.pcbs[s.current] == s.pcbs[s.current].(state := Ready))
    && s'.esp0 == (if s.pcbs[n].kernelEsp0 == 0 then s.esp0 else s.pcbs[n].kernelEsp0)
    && s'.cr3 == (if s.pcbs[n].pageDirectory == 0 then s.cr3 else s.pcbs[n].pageDirectory)
  }

  lemma {:induction false} NextIsFirstReady(s: Sched, i: nat, k: nat)
    requires Safe(s) && NextInLine(s, i, k)
    ensures k - 1 < |Candidates(s.list, s.current)| && FirstReady(s.pcbs, Candidates(s.list, s.current)) == k - 1
    ensures Candidates(s.list, s.current)[k - 1] == After(s.list, i, k)
    ensures After(s.list, i, k) in s.list && After(s.list, i, k) != s.current
  {
    hide FirstReady, Index, Following, After;
    FollowingMembers(s.list, s.current);
    var f, c := Following(s.list, s.current), Candidates(s.list, s.current);
    FollowingAtIndex(s.list, i, k);
    assert f[k - 1] in f && c[k - 1] == f[k - 1];
    var j := FirstReady(s.pcbs, c);
    assert IsReady(s.pcbs, c[k - 1]);
    if 0 <= j < k - 1 {
      FollowingAtIndex(s.list, i, j + 1);
    }
  }

  lemma {:induction false} NoneIsReady(s: Sched, i: nat)
    requires Safe(s) && NoneInLine(s, i)
    ensures FirstReady(s.pcbs, Candidates(s.list, s.current)) == -1
  {
    hide FirstReady, Index, Following, After;
    FollowingMembers(s.list, s.current);
    var j := FirstReady(s.pcbs, Candidates(s.list, s.current));
    if j >= 0 {
      FollowingAtIndex(s.list, i, j + 1);
    }
  }

  lemma {:induction false} RotateHandsOver(s: Sched, i: nat, k: nat)
    requires Safe(s) && NextInLine(s, i, k)
    ensures After(s.list, i, k) in s.pcbs && HandedOver(s, Rotate(s), After(s.list, i, k))
  {
    hide FirstReady, Candidates, NoDup;
    NextIsFirstReady(s, i, k);
  }

  lemma {:induction false} RotateStays(s: Sched, i: nat)
    requires Safe(s) && NoneInLine(s, i)
    ensures Rotate(s) == s
  {
    hide FirstReady, Candidates, NoDup;
    NoneIsReady(s, i);
  }

  /** Giving way: the first ready task after the current one takes over; with none in reach nothing happens. */
  lemma {:induction false} YieldLaw(s: Sched, i: nat, k: nat)
    requires Safe(s) && i < |s.list| && s.list[i] == s.current
    ensures AllPossible(s, [Yield])
    ensures NextInLine(s, i, k) ==>
              After(s.list, i, k) in s.pcbs && HandedOver(s, Run(s, [Yield]), After(s.list, i, k))
    ensures NoneInLine(s, i) ==> Run(s, [Yield]) == s
  {
    hide FirstReady, Candidates, NoDup, Run, AllPossible, HandedOver;
    RunOne(s, Yield);
    if NextInLine(s, i, k) {
      RotateHandsOver(s, i, k);
    }
    if NoneInLine(s, i) {
      RotateStays(s, i);
    }
  }

  /** `s` with another tick count for its current task. */
  ghost function WithTicks(s: Sched, n: nat): Sched
    requires s.current in s.pcbs
  {
    s.(pcbs := s.pcbs[s.current := s.pcbs[s.current].(ticksUsed := n)])
  }

  /** A kernel task does not notice a tick; before the third one a user task's count grows by one, and that is all. */
  lemma {:induction false} EarlyTickLaw(s: Sched)
    requires Safe(s)
    ensures AllPossible(s, [Tick]) && s.current in s.pcbs
    ensures !s.pcbs[s.current].isUser ==> Run(s, [Tick]) == s
    ensures s.pcbs[s.current].isUser && s.pcbs[s.current].ticksUsed + 1 < 3 ==>
              Run(s, [Tick]) == WithTicks(s, s.pcbs[s.current].ticksUsed + 1)
  {
    hide Rotate, NoDup, Run, AllPossible;
    RunOne(s, Tick);
  }

  /** The fields a tick changes, whoever is in line. */
  lemma {:induction false} TickFields(s: Sched)
    requires Safe(s)
    ensures s.current in s.list && (forall p :: p in s.list ==> p in s.pcbs)
    ensures var t, s' := s.pcbs[s.current], AfterTick(s);
            && (!t.isUser ==> s' == s)
            && (t.isUser && t.ticksUsed + 1 < 3 ==> s' == WithTicks(s, t.ticksUsed + 1))
            && (t.isUser && t.ticksUsed + 1 >= 3 ==>
                  s'.list == s.list && s.current in s'.pcbs && s'.pcbs[s.current].ticksUsed == 0)
  {
    hide NoDup, Candidates, FirstReady;
    RotateSafe(WithTicks(s, 0));
  }

  /** At the third tick the count starts again, and the first ready task in reach takes over. */
  lemma {:induction false} ThirdTickLaw(s: Sched, i: nat, k: nat)
    requires Safe(s) && i < |s.list| && s.list[i] == s.current
    requires s.pcbs[s.current].isUser && s.pcbs[s.current].ticksUsed + 1 >= 3
    ensures AllPossible(s, [Tick])
    ensures NextInLine(s, i, k) ==>
              && After(s.list, i, k) in s.pcbs
              && HandedOver(WithTicks(s, 0), Run(s, [Tick]), After(s.list, i, k))
    ensures NoneInLine(s, i) ==> Run(s, [Tick]) == WithTicks(s, 0)
  {
    hide FirstReady, Candidates, NoDup, Run, AllPossible, HandedOver, After, Rotate;
    RunOne(s, Tick);
    var s0 := WithTicks(s, 0);
    if NextInLine(s, i, k) {
      RotateHandsOver(s0, i, k);
    }
    if NoneInLine(s, i) {
      RotateStays(s0, i);
    }
  }

  /** A user task that has used none of its slice keeps the processor through two ticks, with everything else as
      it was, and at the third the first ready task in reach takes over. */
  lemma {:induction false} FullSlice(s: Sched, i: nat, k: nat)
    requires Safe(s) && i < |s.list| && s.list[i] == s.current
    requires s.pcbs[s.current].isUser && s.pcbs[s.current].ticksUsed == 0
    ensures AllPossible(s, [Tick]) && Run(s, [Tick]) == WithTicks(s, 1)
    ensures AllPossible(s, [Tick, Tick]) && Run(s, [Tick, Tick]) == WithTicks(s, 2)
    ensures AllPossible(s, [Tick, Tick, Tick])
    ensures NextInLine(s, i, k) ==>
              && After(s.list, i, k) in s.pcbs
              && HandedOver(s, Run(s, [Tick, Tick, Tick]), After(s.list, i, k))
    ensures NoneInLine(s, i) ==> Run(s, [Tick, Tick, Tick]) == s
  {
    hide Run, AllPossible, HandedOver, Step, NoDup, After, NextInLine, NoneInLine;
    var s1, s2 := WithTicks(s, 1), WithTicks(s, 2);
    EarlyTickLaw(s);
    EarlyTickLaw(s1);
    assert s2 == WithTicks(s1, 2) && s == WithTicks(s2, 0);
    RunConcat(s, [Tick], [Tick]);
    assert [Tick] + [Tick] == [Tick, Tick];
    SameLine(s, s2, i, k);
    ThirdTickLaw(s2, i, k);
    RunConcat(s, [Tick, Tick], [Tick]);
    assert [Tick, Tick] + [Tick] == [Tick, Tick, Tick];
  }

  lemma {:induction false} SameLine(s: Sched, s2: Sched, i: nat, k: nat)
    requires Safe(s) && s2 == WithTicks(s, 2)
    ensures (NextInLine(s2, i, k) <==> NextInLine(s, i, k)) && (NoneInLine(s2, i) <==> NoneInLine(s, i))
  {
    hide NoDup, After;
  }

  /** Exit: the current task leaves the list for the zombies; the first ready task within the scan, or else its
      successor on the list, runs in its directory. The TSS stack stays. */
  lemma {:induction false} ExitLaw(s: Sched, i: nat, k: nat)
    requires Safe(s) && i < |s.list| && s.list[i] == s.current && |s.list| > 1
    requires NextInLine(s, i, k) || (NoneInLine(s, i) && k == 1)
    ensures AllPossible(s, [Exit]) && After(s.list, i, k) in s.pcbs
    ensures var s', n := Run(s, [Exit]), After(s.list, i, k);
            && s'.list == s.list[..i] + s.list[i + 1..] && s'.zombies == [s.current] + s.zombies
            && s'.current == n && s'.esp0 == s.esp0
            && s'.cr3 == (if s.pcbs[n].pageDirectory == 0 then s.cr3 else s.pcbs[n].pageDirectory)
            && s'.pcbs == s.pcbs[s.current := s.pcbs[s.current].(state := Terminated)][
                            n := s.pcbs[n].(state := Running)]
  {
    hide FirstReady, Following, Index, After, Without, Run, AllPossible;
    RunOne(s, Exit);
    FollowingMembers(s.list, s.current);
    FollowingAtIndex(s.list, i, 1);
    var t := s.(pcbs := WithState(s.pcbs, s.current, Terminated));
    ReadyElsewhere(s, t);
    var f := Following(s.list, s.current);
    assert f[0] in f;
    if NextInLine(s, i, k) {
      NextIsFirstReady(s, i, k);
    } else {
      NoneIsReady(s, i);
    }
    assert Without(s.list, s.current) == s.list[..i] + s.list[i + 1..] by {
      WithoutAt(s.list, i);
    }
  }

  lemma {:induction false} WithoutAt(l: seq<nat>, i: nat)
    requires NoDup(l) && i < |l|
    ensures l[i] in l && Without(l, l[i]) == l[..i] + l[i + 1..]
  {
    IndexUnique(l, l[i], i);
  }

  lemma {:induction false} ReadyElsewhere(s: Sched, t: Sched)
    requires Safe(s) && t == s.(pcbs := WithState(s.pcbs, s.current, Terminated))
    ensures FirstReady(t.pcbs, Candidates(s.list, s.current)) == FirstReady(s.pcbs, Candidates(s.list, s.current))
  {
    hide FirstReady;
    FollowingMembers(s.list, s.current);
    var f, c := Following(s.list, s.current), Candidates(s.list, s.current);
    forall k | 0 <= k < |c|
      ensures c[k] == f[k] && (IsReady(t.pcbs, c[k]) <==> IsReady(s.pcbs, c[k]))
    {
      assert f[k] in f;
    }
    var a, b := FirstReady(s.pcbs, c), FirstReady(t.pcbs, c);
  }
}
