/**
  Whole runs of the scheduler: threads are created, compute, yield and exit in any order, and the linked
  queue, the saved stack pointers and memory follow the two abstract runs of RunQueue and Context.
*/
module SchedulerRuns {
  import opened RunQueue
  import opened Scheduler
  import opened Links
  import Context

  const WORDS: int := Context.STACK_WORDS

  /** A thread has a stack exactly when its slot is taken, and it is the one recorded there. */
  ghost predicate Stacked(pool: seq<Thread>, stacks: map<int, int>)
    requires |pool| == MAX_THREADS
  {
    && (forall t :: t in stacks ==> 0 <= t < MAX_THREADS && pool[t].state != Unused && stacks[t] == pool[t].stack)
    && forall t :: 0 <= t < MAX_THREADS && pool[t].state != Unused ==> t in stacks
  }

  /** The waiting threads are suspended, with their stack pointers in the pool. */
  ghost predicate Waiting(q: seq<int>, rsps: seq<int>, saved: map<int, int>)
    requires |rsps| == MAX_THREADS
  {
    forall i :: 0 <= i < |q| ==> 0 <= q[i] < MAX_THREADS && q[i] in saved && saved[q[i]] == rsps[q[i]]
  }

  ghost predicate Mirrors(pool: seq<Thread>, q: seq<int>, current: int, rsps: seq<int>, s: Context.System) {
    && |pool| == |rsps| == MAX_THREADS && 0 <= current <= IDLE
    && (current < MAX_THREADS ==> pool[current].state != Unused)
    && s.current == current && Stacked(pool, s.stacks) && Waiting(q, rsps, s.saved) && Context.Good(s)
  }

  /** The kernel is in state `s`. */
  ghost predicate Tracks(k: Kernel, s: Context.System)
    reads k, k.cpu, k.cpu.mem
  {
    k.Valid() && s.mem == k.cpu.mem[..] && s.now == k.cpu.Now() && Mirrors(k.pool, k.queue, k.current, k.rsps, s)
  }

  lemma TracksSwitchable(k: Kernel, s: Context.System)
    requires Tracks(k, s)
    ensures k.Switchable()
  {
    hide Orderly, Chain, Context.Restored;
    forall i | 0 <= i < |k.queue| ensures 0 <= k.rsps[k.queue[i]] && k.rsps[k.queue[i]] + 7 <= |s.mem| {
      assert Context.Kept(s, k.queue[i]);
    }
  }

  // ---- one event -------------------------------------------------------------------------------------------

  lemma SwitchMirrors(pool: seq<Thread>, pool': seq<Thread>, q: seq<int>, q': seq<int>, current: int, rsps: seq<int>,
                      s: Context.System, ret: int)
    requires Mirrors(pool, q, current, rsps, s) && q != [] && SameThreads(pool, pool')
    requires Distinct(q) && current !in q && (q' == q[1..] || (q' == q[1..] + [current] && current != IDLE))
    ensures var e := Context.SwitchTo(q[0], ret);
            Context.Allowed(s, e)
            && Mirrors(pool', q', q[0], if current == IDLE then rsps else rsps[current := s.now.rsp - 7],
                       Context.After(s, e))
  {
    var e := Context.SwitchTo(q[0], ret);
    assert Context.Kept(s, q[0]);
    Context.SwitchGood(s, e);
    hide Context.Good, Context.Saved, Context.Restored, Distinct;
    StackedSame(pool, pool', s.stacks);
    var rsps' := if current == IDLE then rsps else rsps[current := s.now.rsp - 7];
    var s' := Context.After(s, e);
    forall i | 0 <= i < |q'| ensures 0 <= q'[i] < MAX_THREADS && q'[i] in s'.saved && s'.saved[q'[i]] == rsps'[q'[i]] {
      if i < |q| - 1 {
        assert q'[i] == q[i + 1];
        OnlyOnce(q, i + 1, current);
      }
    }
  }

  lemma OnlyOnce(q: seq<int>, i: int, c: int)
    requires Distinct(q) && 0 < i < |q| && c !in q
    ensures q[i] != q[0] && q[i] != c
  {
    assert q[i] in q;
  }

  lemma StackedSame(pool: seq<Thread>, pool': seq<Thread>, stacks: map<int, int>)
    requires |pool| == MAX_THREADS && Stacked(pool, stacks) && SameThreads(pool, pool')
    ensures Stacked(pool', stacks)
    ensures forall t :: 0 <= t < MAX_THREADS ==> (pool'[t].state != Unused <==> pool[t].state != Unused)
  {
    forall t | 0 <= t < MAX_THREADS ensures pool'[t].stack == pool[t].stack {
      assert pool'[t].(next := 0, state := Unused) == pool[t].(next := 0, state := Unused);
    }
  }

  /** The kmalloc'ed words are nobody's stack, and not where the running thread would save its registers. */
  predicate FreshStack(pool: seq<Thread>, rsp: int, stack: int, words: int)
    requires |pool| == MAX_THREADS
  {
    && 0 < stack && stack + WORDS <= words && (stack + WORDS <= rsp - 7 || rsp <= stack)
    && forall t :: 0 <= t < MAX_THREADS && pool[t].state != Unused ==>
         stack + WORDS <= pool[t].stack || pool[t].stack + WORDS <= stack
  }

  lemma SpawnMirrors(pool: seq<Thread>, pool': seq<Thread>, q: seq<int>, current: int, rsps: seq<int>,
                     s: Context.System,
                     t: int, stack: int, entry: int, arg: int)
    requires Mirrors(pool, q, current, rsps, s) && FreshStack(pool, s.now.rsp, stack, |s.mem|)
    requires 0 <= t < MAX_THREADS && pool[t].state == Unused && |pool'| == MAX_THREADS && t !in q
    requires forall i :: 0 <= i < MAX_THREADS ==>
               && (pool'[i].state == Unused <==> i != t && pool[i].state == Unused)
               && pool'[i].stack == if i == t then stack else pool[i].stack
    ensures var e := Context.Create(t, stack, entry, arg);
            Context.Allowed(s, e)
            && Mirrors(pool', q + [t], current, rsps[t := Context.FrameTop(stack) - 9], Context.After(s, e))
  {
    var e := Context.Create(t, stack, entry, arg);
    assert t in s.saved ==> Context.Kept(s, t);
    assert Context.Allowed(s, e);
    Context.CreateGood(s, e);
    hide Context.Good, Context.NewFrame;
  }

  /** Where the running thread may put its stack pointer, and where it may write. */
  predicate MayCompute(pool: seq<Thread>, current: int, rsp: int, at: int, words: int)
    requires |pool| == MAX_THREADS && 0 <= current <= IDLE
  {
    && 7 <= rsp <= words && 0 <= at < words
    && (current < MAX_THREADS ==> pool[current].stack + 7 <= rsp <= pool[current].stack + WORDS)
    && forall t :: 0 <= t < MAX_THREADS && pool[t].state != Unused && t != current ==>
         !(pool[t].stack <= at < pool[t].stack + WORDS) && (rsp <= pool[t].stack || pool[t].stack + WORDS <= rsp - 7)
  }

  lemma ComputeMirrors(pool: seq<Thread>, q: seq<int>, current: int, rsps: seq<int>, s: Context.System,
                       now: Context.Ctx, at: int, v: int)
    requires Mirrors(pool, q, current, rsps, s) && MayCompute(pool, current, now.rsp, at, |s.mem|)
    ensures var e := Context.Work(now, s.mem[at := v]);
            Context.Allowed(s, e) && Mirrors(pool, q, current, rsps, Context.After(s, e))
  {
    var e := Context.Work(now, s.mem[at := v]);
    forall x, t | now.rsp - 7 <= x < now.rsp && Context.Inside(s, t, x) ensures t == current { assert t in s.stacks; }
    forall x, t | 0 <= x < |s.mem| && Context.Inside(s, t, x) && t != current ensures e.mem[x] == s.mem[x] {
      assert t in s.stacks;
    }
    assert Context.Allowed(s, e);
    Context.WorkGood(s, e);
  }

  lemma IdleMirrors(pool: seq<Thread>, q: seq<int>, current: int, rsps: seq<int>, s: Context.System)
    requires Mirrors(pool, q, current, rsps, s)
    ensures var e := Context.Work(s.now, s.mem); Context.Allowed(s, e) && Context.After(s, e) == s
  {
  }

  // ---- runs ------------------------------------------------------------------------------------------------

  /** What the running thread, or the timer on its behalf, can do.  The stack of a new thread is what kmalloc
      returned, 0 for nothing. */
  datatype Move =
    | Spawn(entry: int, arg: int, stack: nat)
    | Begin(ret: int)
    | Tick(ret: int)
    | Leave(ret: int)
    | Compute(now: Context.Ctx, at: int, value: int)

  predicate Possible(k: Kernel, m: Move)
    reads k, k.cpu
    requires |k.pool| == MAX_THREADS && 0 <= k.current <= IDLE
  {
    match m
    case Spawn(_, _, stack) => stack == 0 || FreshStack(k.pool, k.cpu.rsp, stack, k.cpu.mem.Length)
    case Begin(_) => k.current == IDLE
    case Tick(_) => true
    case Leave(_) => k.started && k.current != IDLE
    case Compute(now, at, _) => MayCompute(k.pool, k.current, now.rsp, at, k.cpu.mem.Length)
  }

  /** One move: at most one event of the queue, and one of the context run. */
  datatype Trace = Trace(queued: seq<Event>, c: Context.Event)

  ghost predicate Follows(v: Sched, v': Sched, s: Context.System, s': Context.System, tr: Trace) {
    && |tr.queued| <= 1 && v' == AfterAll(v, tr.queued) && Legal(v, tr.queued)
    && Context.Good(s) && Context.Allowed(s, tr.c) && s' == Context.After(s, tr.c)
    && (tr.c.SwitchTo? ==> v.q != [] && tr.c.t == v.q[0])
  }

  /** What the moves act on: whether scheduling has started, the queue, and the machine. */
  datatype Moment = Moment(started: bool, v: Sched, s: Context.System)

  /** The first slot from `t` on that no thread has, NIL if there is none. */
  function SlotFrom(stacks: map<int, int>, t: nat): (r: int)
    requires t <= MAX_THREADS
    ensures r == NIL || (t <= r < MAX_THREADS && r !in stacks)
    ensures forall i :: t <= i < (if r == NIL then MAX_THREADS else r) ==> i in stacks
    decreases MAX_THREADS - t
  {
    if t == MAX_THREADS then NIL else if t !in stacks then t else SlotFrom(stacks, t + 1)
  }

  lemma SlotIs(stacks: map<int, int>, r: int)
    requires r == NIL || (0 <= r < MAX_THREADS && r !in stacks)
    requires forall i :: 0 <= i < (if r == NIL then MAX_THREADS else r) ==> i in stacks
    ensures SlotFrom(stacks, 0) == r
  {
  }

  /** What a move does, decided by the move and the moment: a thread is created in the first free slot; a tick, once
      scheduling has started, the start and an exit hand over to the head of the queue; computing changes the
      running thread's registers and one word. */
  ghost function TraceOf(m: Move, x: Moment): Trace {
    var idle := Context.Work(x.s.now, x.s.mem);
    match m
    case Spawn(entry, arg, stack) =>
      var t := SlotFrom(x.s.stacks, 0);
      if stack == 0 || t == NIL then Trace([], idle) else Trace([Create(t)], Context.Create(t, stack, entry, arg))
    case Begin(ret) => if x.v.q == [] then Trace([], idle) else Trace([Yield], Context.SwitchTo(x.v.q[0], ret))
    case Tick(ret) =>
      if x.v.q == [] || !x.started then Trace([], idle) else Trace([Yield], Context.SwitchTo(x.v.q[0], ret))
    case Leave(ret) => Trace([Exit], if x.v.q == [] then idle else Context.SwitchTo(x.v.q[0], ret))
    case Compute(now, at, value) =>
      Trace([], if 0 <= at < |x.s.mem| then Context.Work(now, x.s.mem[at := value]) else idle)
  }

  ghost predicate Moves(x: Moment, m: Move, x': Moment) {
    && Follows(x.v, x'.v, x.s, x'.s, TraceOf(m, x)) && x'.started == (x.started || m.Begin?)
    && x'.v.current == x'.s.current
  }

  ghost function Here(k: Kernel, s: Context.System): Moment
    requires |k.pool| == MAX_THREADS && 0 <= k.current <= IDLE
    reads k
  {
    Moment(k.started, k.View(), s)
  }

  lemma OneEvent(v: Sched, e: Event)
    requires e.Create? ==> e.t !in v.q && e.t != v.current && e.t != IDLE
    ensures AfterAll(v, [e]) == After(v, e) && Legal(v, [e])
  {
    assert [e][..0] == [];
  }

  lemma IdleFollows(k: Kernel, s: Context.System, v: Sched) returns (tr: Trace)
    requires Tracks(k, s) && v == k.View()
    ensures Follows(v, v, s, s, tr) && tr == Trace([], Context.Work(s.now, s.mem))
  {
    hide Orderly, Chain, Context.Good;
    IdleMirrors(k.pool, k.queue, k.current, k.rsps, s);
    tr := Trace([], Context.Work(s.now, s.mem));
  }

  method SpawnMove(k: Kernel, entry: int, arg: int, stack: nat, ghost s: Context.System)
    returns (ghost tr: Trace, ghost s': Context.System)
    requires Tracks(k, s) && (stack == 0 || FreshStack(k.pool, k.cpu.rsp, stack, k.cpu.mem.Length))
    modifies k, k.cpu.mem
    ensures Tracks(k, s') && Follows(old(k.View()), k.View(), s, s', tr)
    ensures tr == TraceOf(Spawn(entry, arg, stack), old(Here(k, s))) && k.started == old(k.started)
  {
    hide Orderly, Chain, Mirrors, Context.Good, Context.NewFrame, After, Follows, TraceOf;
    ghost var pool, rsps, x := k.pool, k.rsps, Here(k, s);
    ghost var t;
    var id;
    id, t := k.Create(entry, arg, stack);
    tr, s' := SpawnFollows(pool, k.pool, x, rsps, t, stack, entry, arg);
  }

  /** What thread_create does to the mirror image. */
  lemma SpawnFollows(pool: seq<Thread>, pool': seq<Thread>, x: Moment, rsps: seq<int>, t: int, stack: nat, entry: int,
                     arg: int) returns (tr: Trace, s': Context.System)
    requires Mirrors(pool, x.v.q, x.v.current, rsps, x.s) && Orderly(pool, x.v.q, x.v.current) && |pool'| == MAX_THREADS
    requires stack == 0 || FreshStack(pool, x.s.now.rsp, stack, |x.s.mem|)
    requires t == NIL <==> stack == 0 || forall i :: 0 <= i < MAX_THREADS ==> pool[i].state != Unused
    requires t == NIL ==> pool' == pool
    requires t != NIL ==>
               && 0 <= t < MAX_THREADS && pool[t].state == Unused
               && (forall i :: 0 <= i < t ==> pool[i].state != Unused)
               && forall i :: 0 <= i < MAX_THREADS ==>
                    && (pool'[i].state == Unused <==> i != t && pool[i].state == Unused)
                    && pool'[i].stack == if i == t then stack else pool[i].stack
    ensures tr == TraceOf(Spawn(entry, arg, stack), x) && s'.now == x.s.now
    ensures if t == NIL then s' == x.s && Follows(x.v, x.v, x.s, s', tr)
            else && stack + WORDS <= |x.s.mem| && s'.mem == Context.NewFrame(x.s.mem, stack, entry, arg)
                 && Follows(x.v, After(x.v, Create(t)), x.s, s', tr)
                 && Mirrors(pool', x.v.q + [t], x.v.current, rsps[t := Context.FrameTop(stack) - 9], s')
  {
    hide Context.Good, Context.Allowed, Context.After, Context.NewFrame, After, AfterAll, Legal, TraceOf, SlotFrom,
      Stacked, Waiting;
    if stack != 0 { FirstUnused(pool, x.v.q, x.v.current, rsps, x.s, t); }
    SpawnTrace(entry, arg, stack, x, t);
    tr, s' := TraceOf(Spawn(entry, arg, stack), x), x.s;
    if t == NIL {
      IdleMirrors(pool, x.v.q, x.v.current, rsps, x.s);
      NoEvent(x.v);
    } else {
      NotQueued(pool, x.v.q, x.v.current, t);
      SpawnMirrors(pool, pool', x.v.q, x.v.current, rsps, x.s, t, stack, entry, arg);
      OneEvent(x.v, Create(t));
      CreateState(x.s, t, stack, entry, arg);
      s' := Context.After(x.s, tr.c);
    }
  }

  lemma SpawnTrace(entry: int, arg: int, stack: nat, x: Moment, t: int)
    requires if stack == 0 then t == NIL else SlotFrom(x.s.stacks, 0) == t
    ensures TraceOf(Spawn(entry, arg, stack), x) ==
            if t == NIL then Trace([], Context.Work(x.s.now, x.s.mem))
            else Trace([Create(t)], Context.Create(t, stack, entry, arg))
  {
  }

  lemma FirstUnused(pool: seq<Thread>, q: seq<int>, current: int, rsps: seq<int>, s: Context.System, t: int)
    requires Mirrors(pool, q, current, rsps, s) && (t == NIL || (0 <= t < MAX_THREADS && pool[t].state == Unused))
    requires forall i :: 0 <= i < (if t == NIL then MAX_THREADS else t) ==> pool[i].state != Unused
    ensures SlotFrom(s.stacks, 0) == t
  {
    hide Context.Good, SlotFrom;
    SlotIs(s.stacks, t);
  }

  lemma CreateState(s: Context.System, t: int, stack: int, entry: int, arg: int)
    requires Context.Good(s) && Context.Allowed(s, Context.Create(t, stack, entry, arg))
    ensures var s' := Context.After(s, Context.Create(t, stack, entry, arg));
            && 0 <= stack && stack + WORDS <= |s.mem| && s'.mem == Context.NewFrame(s.mem, stack, entry, arg)
            && s'.now == s.now
  {
  }

  lemma NotQueued(pool: seq<Thread>, q: seq<int>, current: int, t: int)
    requires Orderly(pool, q, current) && 0 <= t < MAX_THREADS && pool[t].state == Unused
    ensures t !in q && t != current && t != IDLE
  {
  }

  /** What a scheduling step with a waiting thread does to the mirror image. */
  lemma SwitchFollows(pool: seq<Thread>, pool': seq<Thread>, v: Sched, e: Event, rsps: seq<int>, s: Context.System,
                      ret: int) returns (tr: Trace)
    requires Mirrors(pool, v.q, v.current, rsps, s) && v.q != [] && SameThreads(pool, pool') && Proper(v)
    requires e == Yield || (e == Exit && v.current != IDLE)
    ensures tr == Trace([e], Context.SwitchTo(v.q[0], ret))
    ensures Context.Good(s) && Context.Allowed(s, tr.c) && Follows(v, After(v, e), s, Context.After(s, tr.c), tr)
    ensures var v' := After(v, e);
            Mirrors(pool', v'.q, v'.current, if v.current == IDLE then rsps else rsps[v.current := s.now.rsp - 7],
                    Context.After(s, tr.c))
    ensures 0 <= v.q[0] < MAX_THREADS && Switched(s, rsps[v.q[0]], ret, Context.After(s, tr.c))
  {
    SwitchState(v.q, rsps, s, ret);
    hide Context.Good, Context.Allowed, Context.After, AfterAll, Legal, SameThreads, Stacked, Waiting, Switched;
    tr := Trace([e], Context.SwitchTo(v.q[0], ret));
    SwitchMirrors(pool, pool', v.q, After(v, e).q, v.current, rsps, s, ret);
    OneEvent(v, e);
  }

  /** Registers and return address are saved below the stack pointer, and those of the frame at `a` are back. */
  ghost predicate Switched(s: Context.System, a: int, ret: int, s': Context.System) {
    && 7 <= s.now.rsp <= |s.mem| && 0 <= a && a + 7 <= |s.mem|
    && s'.mem == Context.Saved(s.mem, s.now.rsp, s.now.regs, ret) && s'.now == Context.Restored(s'.mem, a)
  }

  lemma SwitchedIs(s: Context.System, a: int, ret: int, s': Context.System)
    requires Switched(s, a, ret, s')
    ensures 7 <= s.now.rsp <= |s.mem| && 0 <= a && a + 7 <= |s.mem| && |s'.mem| == |s.mem|
    ensures s'.mem == Context.Saved(s.mem, s.now.rsp, s.now.regs, ret) && s'.now == Context.Restored(s'.mem, a)
  {
  }

  lemma SwitchState(q: seq<int>, rsps: seq<int>, s: Context.System, ret: int)
    requires |rsps| == MAX_THREADS && q != [] && Waiting(q, rsps, s.saved) && Context.Good(s)
    ensures var e := Context.SwitchTo(q[0], ret);
            0 <= q[0] < MAX_THREADS && Context.Allowed(s, e) && Switched(s, rsps[q[0]], ret, Context.After(s, e))
  {
    assert Context.Kept(s, q[0]);
  }

  lemma TurnTrace(ret: int, x: Moment)
    ensures var idle, turn := Context.Work(x.s.now, x.s.mem), if x.v.q == [] then NIL else x.v.q[0];
            && TraceOf(Begin(ret), x) ==
               (if x.v.q == [] then Trace([], idle) else Trace([Yield], Context.SwitchTo(turn, ret)))
            && TraceOf(Tick(ret), x) == (if x.started then TraceOf(Begin(ret), x) else Trace([], idle))
            && TraceOf(Leave(ret), x) == Trace([Exit], if x.v.q == [] then idle else Context.SwitchTo(turn, ret))
  {
  }

  method TickMove(k: Kernel, ret: int, ghost s: Context.System) returns (ghost tr: Trace, ghost s': Context.System)
    requires Tracks(k, s)
    modifies k, k.cpu, k.cpu.mem
    ensures Tracks(k, s') && Follows(old(k.View()), k.View(), s, s', tr)
    ensures tr == TraceOf(Tick(ret), old(Here(k, s))) && k.started == old(k.started)
  {
    TracksSwitchable(k, s);
    OrderlyProper(k.pool, k.queue, k.current, k.View().dead);
    hide Orderly, Chain, Mirrors, Context.After, Context.Good, Context.Allowed, Context.Saved, Context.Restored,
      AfterAll, Legal, SameThreads, Proper, Follows, TraceOf;
    TurnTrace(ret, Here(k, s));
    ghost var pool, rsps, v := k.pool, k.rsps, k.View();
    k.OnTimer(ret);
    s' := s;
    if k.started && v.q != [] {
      tr := SwitchFollows(pool, k.pool, v, Yield, rsps, s, ret);
      s' := Context.After(s, tr.c);
    } else {
      MirrorsSame(pool, k.pool, v.q, v.current, rsps, s);
      tr := IdleFollows(k, s, v);
    }
  }

  lemma MirrorsSame(pool: seq<Thread>, pool': seq<Thread>, q: seq<int>, current: int, rsps: seq<int>, s: Context.System)
    requires Mirrors(pool, q, current, rsps, s) && SameThreads(pool, pool')
    ensures Mirrors(pool', q, current, rsps, s)
  {
    hide Context.Good;
    StackedSame(pool, pool', s.stacks);
  }

  method BeginMove(k: Kernel, ret: int, ghost s: Context.System) returns (ghost tr: Trace, ghost s': Context.System)
    requires Tracks(k, s) && k.current == IDLE
    modifies k, k.cpu, k.cpu.mem
    ensures Tracks(k, s') && Follows(old(k.View()), k.View(), s, s', tr)
    ensures tr == TraceOf(Begin(ret), old(Here(k, s))) && k.started
  {
    TracksSwitchable(k, s);
    OrderlyProper(k.pool, k.queue, k.current, k.View().dead);
    hide Orderly, Chain, Mirrors, Context.After, Context.Good, Context.Allowed, Context.Saved, Context.Restored,
      AfterAll, Legal, SameThreads, Proper, Follows, TraceOf;
    TurnTrace(ret, Here(k, s));
    ghost var pool, rsps, v := k.pool, k.rsps, k.View();
    var any := k.Start(ret);
    s' := s;
    if any {
      tr := SwitchFollows(pool, k.pool, v, Yield, rsps, s, ret);
      s' := Context.After(s, tr.c);
    } else {
      MirrorsSame(pool, k.pool, v.q, v.current, rsps, s);
      tr := IdleFollows(k, s, v);
    }
  }

  method LeaveMove(k: Kernel, ret: int, ghost s: Context.System) returns (ghost tr: Trace, ghost s': Context.System)
    requires Tracks(k, s) && k.started && k.current != IDLE
    modifies k, k.cpu, k.cpu.mem
    ensures Tracks(k, s') && Follows(old(k.View()), k.View(), s, s', tr)
    ensures tr == TraceOf(Leave(ret), old(Here(k, s))) && k.started == old(k.started)
  {
    QueueStart(k.pool, k.runQueue, k.queue);
    hide Orderly, Chain, Mirrors, Context.Good, Follows, TraceOf, Context.Machine.Now;
    if k.runQueue == NIL { tr, s' := LeaveAlone(k, ret, s); } else { tr, s' := LeaveBehind(k, ret, s); }
  }

  /** With nobody waiting the dead thread stays where it is. */
  method LeaveAlone(k: Kernel, ret: int, ghost s: Context.System) returns (ghost tr: Trace, ghost s': Context.System)
    requires Tracks(k, s) && k.started && k.current != IDLE && k.queue == []
    modifies k, k.cpu, k.cpu.mem
    ensures Tracks(k, s') && Follows(old(k.View()), k.View(), s, s', tr)
    ensures tr == TraceOf(Leave(ret), old(Here(k, s))) && k.started == old(k.started)
  {
    TracksSwitchable(k, s);
    TracksFacts(k, s);
    hide Orderly, Chain, Mirrors, Context.Good, SameThreads, Proper, Follows, TraceOf, Context.Machine.Now;
    ghost var pool, rsps, x := k.pool, k.rsps, Here(k, s);
    k.Exit(ret);
    tr, s' := LeaveFollows(pool, k.pool, x, rsps, ret);
  }

  /** The head of the queue takes over from the dead thread. */
  method LeaveBehind(k: Kernel, ret: int, ghost s: Context.System) returns (ghost tr: Trace, ghost s': Context.System)
    requires Tracks(k, s) && k.started && k.current != IDLE && k.queue != []
    modifies k, k.cpu, k.cpu.mem
    ensures Tracks(k, s') && Follows(old(k.View()), k.View(), s, s', tr)
    ensures tr == TraceOf(Leave(ret), old(Here(k, s))) && k.started == old(k.started)
  {
    TracksSwitchable(k, s);
    TracksFacts(k, s);
    ghost var m, rsp, regs := k.cpu.mem[..], k.cpu.rsp, k.cpu.Now().regs;
    assert s.mem == m && s.now.rsp == rsp && s.now.regs == regs;
    hide Orderly, Chain, Mirrors, Context.Good, Context.Saved, Context.Restored, SameThreads, Proper, Follows, TraceOf,
      Context.Machine.Now, Switched, Kernel.Switchable;
    ghost var pool, rsps, x := k.pool, k.rsps, Here(k, s);
    k.Exit(ret);
    assert k.queue == x.v.q[1..] && k.current == x.v.q[0] && k.rsps == rsps[x.v.current := rsp - 7];
    assert k.cpu.mem[..] == Context.Saved(m, rsp, regs, ret);
    assert k.cpu.Now() == Context.Restored(k.cpu.mem[..], rsps[k.current]);
    tr, s' := LeaveFollows(pool, k.pool, x, rsps, ret);
    SwitchedIs(x.s, rsps[x.v.q[0]], ret, s');
  }

  /** What thread_exit does to the mirror image. */
  lemma LeaveFollows(pool: seq<Thread>, pool': seq<Thread>, x: Moment, rsps: seq<int>, ret: int)
    returns (tr: Trace, s': Context.System)
    requires Mirrors(pool, x.v.q, x.v.current, rsps, x.s) && SameThreads(pool, pool')
    requires Proper(x.v) && x.v.current != IDLE
    ensures tr == TraceOf(Leave(ret), x) && Follows(x.v, After(x.v, Exit), x.s, s', tr)
    ensures x.v.q == [] ==> s' == x.s && Mirrors(pool', x.v.q, x.v.current, rsps, s')
    ensures x.v.q != [] ==>
              && 0 <= x.v.q[0] < MAX_THREADS && Switched(x.s, rsps[x.v.q[0]], ret, s')
              && Mirrors(pool', x.v.q[1..], x.v.q[0], rsps[x.v.current := x.s.now.rsp - 7], s')
  {
    hide Context.Good, Context.Allowed, Context.After, SameThreads, Proper, Follows, TraceOf, Stacked, Waiting,
      Switched;
    TurnTrace(ret, x);
    s' := x.s;
    if x.v.q != [] {
      tr := SwitchFollows(pool, pool', x.v, Exit, rsps, x.s, ret);
      s' := Context.After(x.s, tr.c);
    } else {
      MirrorsSame(pool, pool', x.v.q, x.v.current, rsps, x.s);
      tr := DiesFollows(pool, x.v, rsps, x.s);
    }
  }

  lemma DiesFollows(pool: seq<Thread>, v: Sched, rsps: seq<int>, s: Context.System) returns (tr: Trace)
    requires Mirrors(pool, v.q, v.current, rsps, s)
    ensures Follows(v, After(v, Exit), s, s, tr) && tr == Trace([Exit], Context.Work(s.now, s.mem))
  {
    hide Context.Good, Context.Allowed, Context.After, AfterAll, Legal, Stacked, Waiting;
    IdleMirrors(pool, v.q, v.current, rsps, s);
    OneEvent(v, Exit);
    tr := Trace([Exit], Context.Work(s.now, s.mem));
  }

  method ComputeMove(k: Kernel, now: Context.Ctx, at: int, value: int, ghost s: Context.System)
    returns (ghost tr: Trace, ghost s': Context.System)
    requires Tracks(k, s) && MayCompute(k.pool, k.current, now.rsp, at, k.cpu.mem.Length)
    modifies k.cpu, k.cpu.mem
    ensures Tracks(k, s') && Follows(old(k.View()), k.View(), s, s', tr)
    ensures tr == TraceOf(Compute(now, at, value), old(Here(k, s))) && k.started == old(k.started)
  {
    hide Orderly, Chain, Context.Good, Context.Allowed, AfterAll, Legal, Stacked, Waiting;
    ComputeMirrors(k.pool, k.queue, k.current, k.rsps, s, now, at, value);
    tr := Trace([], Context.Work(now, s.mem[at := value]));
    s' := Context.After(s, tr.c);
    k.cpu.Work(now, at, value);
    NoEvent(k.View());
  }

  lemma NoEvent(v: Sched)
    ensures AfterAll(v, []) == v && Legal(v, []) && Steps([]) == 0
  {
  }

  method Step(k: Kernel, m: Move, ghost s: Context.System) returns (ghost tr: Trace, ghost s': Context.System)
    requires Tracks(k, s) && Possible(k, m)
    modifies k, k.cpu, k.cpu.mem
    ensures Tracks(k, s') && Follows(old(k.View()), k.View(), s, s', tr)
    ensures k.Valid() && Moves(old(Here(k, s)), m, Here(k, s'))
  {
    TracksFacts(k, s);
    hide Tracks, Follows, FreshStack, MayCompute, TraceOf, Orderly, Chain, Proper, Context.Good;
    match m {
      case Spawn(entry, arg, stack) => tr, s' := SpawnMove(k, entry, arg, stack, s);
      case Begin(ret) => tr, s' := BeginMove(k, ret, s);
      case Tick(ret) => tr, s' := TickMove(k, ret, s);
      case Leave(ret) => tr, s' := LeaveMove(k, ret, s);
      case Compute(now, at, value) => tr, s' := ComputeMove(k, now, at, value, s);
    }
    TracksFacts(k, s');
  }

  lemma {:induction false} RunOn(v: Sched, es: seq<Event>, more: seq<Event>)
    requires |more| <= 1 && Legal(v, es) && Legal(AfterAll(v, es), more)
    ensures AfterAll(v, es + more) == AfterAll(AfterAll(v, es), more) && Legal(v, es + more)
  {
    if more == [] {
      assert es + more == es;
    } else {
      assert more[..0] == [] && (es + more)[..|es|] == es && (es + more)[|es|] == more[0];
    }
  }

  /** A kernel that has just been set up, with room on the boot stack. */
  lemma Booted(k: Kernel) returns (s: Context.System)
    requires k.Valid() && k.queue == [] && k.current == IDLE && 7 <= k.cpu.rsp <= k.cpu.mem.Length
    requires forall t :: 0 <= t < MAX_THREADS ==> k.pool[t].state == Unused
    ensures Tracks(k, s)
  {
    s := Context.System(k.cpu.mem[..], k.cpu.Now(), IDLE, map[], map[], map[]);
  }

  lemma TracksFacts(k: Kernel, s: Context.System)
    requires Tracks(k, s)
    ensures k.Valid() && s.current == k.current && Context.Good(s) && Proper(k.View())
  {
    OrderlyProper(k.pool, k.queue, k.current, k.View().dead);
  }

  /** The moments between the moves `moves[..|log| - 1]`: each move does what it is decided to do. */
  ghost predicate Logged(moves: seq<Move>, log: seq<Moment>) {
    && 0 < |log| <= |moves| + 1 && Context.Good(log[0].s) && Proper(log[0].v)
    && forall i :: 0 <= i < |log| - 1 ==> Moves(log[i], moves[i], log[i + 1])
  }

  lemma LogStarts(moves: seq<Move>, x: Moment)
    requires Context.Good(x.s) && Proper(x.v)
    ensures Logged(moves, [x])
  {
  }

  lemma LogGrows(moves: seq<Move>, log: seq<Moment>, x: Moment)
    requires Logged(moves, log) && |log| <= |moves| && Moves(log[|log| - 1], moves[|log| - 1], x)
    ensures Logged(moves, log + [x])
  {
    hide Moves, Context.Good, Proper;
  }

  /** The events of the queue in the first `n` moves. */
  ghost function Queued(moves: seq<Move>, log: seq<Moment>, n: nat): seq<Event>
    requires n <= |moves| && n <= |log|
  {
    if n == 0 then [] else Queued(moves, log, n - 1) + TraceOf(moves[n - 1], log[n - 1]).queued
  }

  /** The move is a turn of the round robin. */
  predicate IsTurn(m: Move, x: Moment) { m.Leave? || (x.v.q != [] && (m.Begin? || (m.Tick? && x.started))) }

  /** The turns among the first `n` moves. */
  function Turns(moves: seq<Move>, log: seq<Moment>, n: nat): nat
    requires n <= |moves| && n <= |log|
  {
    if n == 0 then 0 else Turns(moves, log, n - 1) + if IsTurn(moves[n - 1], log[n - 1]) then 1 else 0
  }

  /** The moves of a session are a legal run of the round robin, with one scheduling step per turn. */
  lemma {:induction false} SessionQueues(moves: seq<Move>, log: seq<Moment>, n: nat)
    requires Logged(moves, log) && n < |log|
    ensures Legal(log[0].v, Queued(moves, log, n)) && log[n].v == AfterAll(log[0].v, Queued(moves, log, n))
    ensures Steps(Queued(moves, log, n)) == Turns(moves, log, n)
  {
    hide Moves, TraceOf, Legal, AfterAll, Steps, Proper, IsTurn;
    if n == 0 {
      NoEvent(log[0].v);
    } else {
      SessionQueues(moves, log, n - 1);
      var es, more := Queued(moves, log, n - 1), TraceOf(moves[n - 1], log[n - 1]).queued;
      MoveQueues(log[n - 1], moves[n - 1], log[n]);
      RunOn(log[0].v, es, more);
      StepsOn(es, more);
    }
  }

  lemma MoveQueues(x: Moment, m: Move, x': Moment)
    requires Moves(x, m, x')
    ensures var more := TraceOf(m, x).queued;
            && |more| <= 1 && x'.v == AfterAll(x.v, more) && Legal(x.v, more)
            && (IsTurn(m, x) <==> more != [] && !more[0].Create?)
  {
    hide Context.Good, Context.Allowed, Context.After, Legal, AfterAll, SlotFrom;
  }

  lemma MoveSwitches(x: Moment, m: Move, x': Moment)
    requires Moves(x, m, x')
    ensures var c := TraceOf(m, x).c;
            && Context.Good(x.s) && Context.Allowed(x.s, c) && x'.s == Context.After(x.s, c)
            && (c.SwitchTo? ==> x.v.q != [] && c.t == x.v.q[0])
  {
    hide Context.Good, Context.Allowed, Context.After, Legal, AfterAll, TraceOf;
  }

  lemma StepsOn(es: seq<Event>, more: seq<Event>)
    requires |more| <= 1
    ensures Steps(es + more) == Steps(es) + if more == [] || more[0].Create? then 0 else 1
  {
    if more == [] { assert es + more == es; } else { assert (es + more)[..|es|] == es; }
  }

  /** A thread that waits at position `j` of the queue runs once `j + 1` turns have been made, and not before. */
  lemma WaitsItsTurn(moves: seq<Move>, log: seq<Moment>, n: nat, j: nat)
    requires Logged(moves, log) && n < |log| && j < |log[0].v.q| && Turns(moves, log, n) <= j + 1
    ensures log[n].v.current == log[0].v.q[j] <==> Turns(moves, log, n) == j + 1
  {
    hide Moves, Legal, AfterAll, Steps, Queued, Turns;
    SessionQueues(moves, log, n);
    BoundedWait(log[0].v, Queued(moves, log, n), j, log[0].v.q[j]);
  }

  /** The machine's states and events in a session. */
  function Machines(log: seq<Moment>): (ss: seq<Context.System>)
    ensures |ss| == |log| && forall i :: 0 <= i < |log| ==> ss[i] == log[i].s
  {
    seq(|log|, i requires 0 <= i < |log| => log[i].s)
  }

  ghost function Switches(moves: seq<Move>, log: seq<Moment>): (cs: seq<Context.Event>)
    requires 0 < |log| <= |moves| + 1
    ensures |cs| == |log| - 1 && forall i :: 0 <= i < |cs| ==> cs[i] == TraceOf(moves[i], log[i]).c
  {
    seq(|log| - 1, i requires 0 <= i < |log| - 1 => TraceOf(moves[i], log[i]).c)
  }

  /** The moves of a session are a run of switches, each to the head of the queue. */
  lemma SessionSwitches(moves: seq<Move>, log: seq<Moment>)
    requires Logged(moves, log)
    ensures Context.IsRun(Machines(log), Switches(moves, log))
    ensures forall i :: 0 <= i < |log| - 1 && Switches(moves, log)[i].SwitchTo? ==>
              log[i].v.q != [] && Switches(moves, log)[i].t == log[i].v.q[0]
  {
    hide Context.Good, Context.Allowed, Context.After, Moves, Proper, TraceOf, Machines, Switches;
    var ss, cs := Machines(log), Switches(moves, log);
    forall i | 0 <= i < |cs| && Context.Good(ss[i])
      ensures Context.Allowed(ss[i], cs[i]) && ss[i + 1] == Context.After(ss[i], cs[i])
    {
      MoveSwitches(log[i], moves[i], log[i + 1]);
    }
    forall i | 0 <= i < |cs| && cs[i].SwitchTo? ensures log[i].v.q != [] && cs[i].t == log[i].v.q[0] {
      MoveSwitches(log[i], moves[i], log[i + 1]);
    }
  }

  /** A thread that hands over in move `i` and is next handed the processor in move `j` continues with the
      registers, at the instruction and with the stack pointer it had. */
  lemma ResumedInSession(moves: seq<Move>, log: seq<Moment>, i: nat, j: nat)
    requires Logged(moves, log) && i < j < |log| - 1
    requires var cs, t := Switches(moves, log), log[i].s.current;
             && cs[i].SwitchTo? && t in log[i].s.stacks && cs[j].SwitchTo? && cs[j].t == t
             && forall k :: i < k < j && cs[k].SwitchTo? ==> cs[k].t != t
    ensures log[j + 1].s.now == Context.Ctx(log[i].s.now.regs, Switches(moves, log)[i].ret, log[i].s.now.rsp)
  {
    hide Moves, TraceOf, Context.IsRun, Machines, Switches;
    SessionSwitches(moves, log);
    Context.Resumed(Machines(log), Switches(moves, log), i, j);
  }

  /** Every sequence of moves, up to one that no thread can make: each is made in turn and does to the linked
      queue, the saved stack pointers and memory what it is decided to do, and a thread that waits at position `j` of
      the linked queue runs once `j + 1` turns have been made, and not before. */
  method Session(k: Kernel, moves: seq<Move>, ghost s: Context.System)
    returns (done: nat, ghost log: seq<Moment>, ghost s': Context.System)
    requires Tracks(k, s)
    modifies k, k.cpu, k.cpu.mem
    ensures Tracks(k, s') && done <= |moves| && (done < |moves| ==> !Possible(k, moves[done]))
    ensures Logged(moves, log) && |log| == done + 1 && log[0] == old(Here(k, s)) && log[done] == Here(k, s')
    ensures forall j :: 0 <= j < |old(k.queue)| && Turns(moves, log, done) <= j + 1 ==>
              (k.current == old(k.queue)[j] <==> Turns(moves, log, done) == j + 1)
  {
    TracksFacts(k, s);
    LogStarts(moves, Here(k, s));
    HereIs(k, s);
    hide *;
    done, log, s' := 0, [Here(k, s)], s;
    while done < |moves| && Possible(k, moves[done])
      invariant 0 <= done <= |moves| && k.Valid() && Tracks(k, s') && Logged(moves, log) && |log| == done + 1
      invariant log[0] == old(Here(k, s)) && log[done] == Here(k, s')
    {
      ghost var s1, tr := s', Trace([], Context.Work(s.now, s.mem));
      tr, s' := Step(k, moves[done], s1);
      LogGrows(moves, log, Here(k, s'));
      log := log + [Here(k, s')];
      done := done + 1;
    }
    AllWait(moves, log, done);
    TracksFacts(k, s');
    HereIs(k, s');
  }

  lemma HereIs(k: Kernel, s: Context.System)
    requires |k.pool| == MAX_THREADS && 0 <= k.current <= IDLE
    ensures Here(k, s).v.current == k.current && Here(k, s).v.q == k.queue
  {
  }

  lemma AllWait(moves: seq<Move>, log: seq<Moment>, n: nat)
    requires Logged(moves, log) && n < |log|
    ensures forall j :: 0 <= j < |log[0].v.q| && Turns(moves, log, n) <= j + 1 ==>
              (log[n].v.current == log[0].v.q[j] <==> Turns(moves, log, n) == j + 1)
  {
    hide Moves, Turns, Context.Good, Proper;
    forall j | 0 <= j < |log[0].v.q| && Turns(moves, log, n) <= j + 1
      ensures log[n].v.current == log[0].v.q[j] <==> Turns(moves, log, n) == j + 1
    {
      WaitsItsTurn(moves, log, n, j);
    }
  }
}
