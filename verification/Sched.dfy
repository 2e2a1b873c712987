/**
  kernel/sched/sched.c and thread.c: the pool of threads, the run queue linked through it, and the switch
  from one thread to the next.
*/
module Scheduler {
  import opened Links
  import opened RunQueue
  import Context

  // ---- the linked queue ---------------------------------------------------------------------------------

  function SetNext(pool: seq<Thread>, t: int, n: int): (p: seq<Thread>)
    requires 0 <= t < |pool|
    ensures |p| == |pool| && p[t].next == n && p[t].state == pool[t].state
    ensures forall i :: 0 <= i < |p| && i != t ==> p[i] == pool[i]
  {
    pool[t := pool[t].(next := n)]
  }

  function SetState(pool: seq<Thread>, t: int, s: State): (p: seq<Thread>)
    requires 0 <= t < |pool|
    ensures |p| == |pool| && p[t].next == pool[t].next && p[t].state == s
    ensures forall i :: 0 <= i < |p| && i != t ==> p[i] == pool[i]
  {
    pool[t := pool[t].(state := s)]
  }

  lemma ChainAppend(pool: seq<Thread>, head: int, q: seq<int>, t: int)
    requires Chain(pool, head, q) && q != [] && 0 <= t < MAX_THREADS && t !in q && pool[t].next == NIL
    ensures Chain(SetNext(pool, q[|q| - 1], t), head, q + [t])
  {
    var p, r := SetNext(pool, q[|q| - 1], t), q + [t];
    forall i | 0 <= i < |r| ensures p[r[i]].next == At(r, i + 1) {
      if i < |q| - 1 { assert q[i] != q[|q| - 1]; }
    }
  }

  lemma ChainFirst(pool: seq<Thread>, t: int)
    requires |pool| == MAX_THREADS && 0 <= t < MAX_THREADS && pool[t].next == NIL
    ensures Chain(pool, t, [t])
  {
  }

  lemma ChainOther(pool: seq<Thread>, pool': seq<Thread>, head: int, q: seq<int>)
    requires Chain(pool, head, q) && |pool'| == |pool|
    requires forall i :: 0 <= i < |pool| && i in q ==> pool'[i].next == pool[i].next
    ensures Chain(pool', head, q)
  {
    forall i | 0 <= i < |q| ensures pool'[q[i]].next == At(q, i + 1) { assert q[i] in q; }
  }

  lemma ChainState(pool: seq<Thread>, head: int, q: seq<int>, t: int, s: State)
    requires Chain(pool, head, q) && 0 <= t < MAX_THREADS
    ensures |pool| == MAX_THREADS && Chain(SetState(pool, t, s), head, q)
  {
    ChainOther(pool, SetState(pool, t, s), head, q);
  }

  lemma ChainTail(pool: seq<Thread>, head: int, q: seq<int>)
    requires Chain(pool, head, q) && q != []
    ensures Chain(SetNext(pool, q[0], NIL), pool[q[0]].next, q[1..])
  {
    var p, r := SetNext(pool, q[0], NIL), q[1..];
    forall i | 0 <= i < |r| ensures p[r[i]].next == At(r, i + 1) { assert r[i] == q[i + 1] && q[0] != q[i + 1]; }
  }

  class Kernel {
    const cpu: Context.Machine
    var pool: seq<Thread>
    var rsps: seq<int>
    var runQueue: int
    var current: int
    var started: bool
    var nextId: int
    ghost var queue: seq<int>

    /** sched.c:56-59 and thread.c:132-142. */
    constructor (machine: Context.Machine)
      ensures Valid() && cpu == machine && !started && queue == [] && current == IDLE
      ensures forall t :: 0 <= t < MAX_THREADS ==> pool[t].state == Unused
    {
      cpu, runQueue, started, current, nextId, queue := machine, NIL, false, IDLE, 1, [];
      pool, rsps := seq(MAX_THREADS, _ => Thread(0, Unused, NIL, 0, 0, 0)), seq(MAX_THREADS, _ => 0);
    }

    ghost predicate Linked()
      reads this
    {
      Chain(pool, runQueue, queue) && |rsps| == MAX_THREADS
    }

    /** Queue, states and current thread agree. */
    ghost predicate Valid()
      reads this
    {
      Linked() && Orderly(pool, queue, current)
    }

    /** What the queue looks like to its waiters. */
    ghost function View(): Sched
      requires |pool| == MAX_THREADS && 0 <= current <= IDLE
      reads this
    {
      Sched(queue, current, current < MAX_THREADS && pool[current].state == Dead)
    }

    /** sched.c:20-29. */
    method Add(t: int)
      requires Linked() && 0 <= t < MAX_THREADS && t !in queue
      modifies this`pool, this`runQueue, this`queue
      ensures Linked() && queue == old(queue) + [t] && SameButNext(old(pool), pool)
    {
      hide Distinct;
      ghost var q := queue;
      pool := SetNext(pool, t, NIL);
      ChainOther(old(pool), pool, runQueue, q);
      if runQueue == NIL {
        runQueue := t;
        queue := [t];
        ChainFirst(pool, t);
        return;
      }
      var p := runQueue;
      ghost var i := 0;
      while pool[p].next != NIL
        invariant 0 <= i < |q| && p == q[i]
        decreases |q| - i
      {
        p := pool[p].next;
        i := i + 1;
      }
      assert i == |q| - 1;
      ChainAppend(pool, runQueue, q, t);
      pool := SetNext(pool, p, t);
      queue := q + [t];
    }

    /** sched.c:31-38. */
    method Dequeue() returns (t: int)
      requires Linked()
      modifies this`pool, this`runQueue, this`queue
      ensures Linked() && SameButNext(old(pool), pool)
      ensures if old(queue) == [] then t == NIL && queue == [] else t == old(queue)[0] && queue == old(queue)[1..]
    {
      t := runQueue;
      if t != NIL {
        ChainTail(pool, runQueue, queue);
        runQueue := pool[t].next;
        pool := SetNext(pool, t, NIL);
        queue := queue[1..];
      }
    }

    /** sched.c:40-54: the first ready thread among the first sixteen; what precedes it is dropped. */
    method PickNext() returns (t: int)
      requires Linked()
      modifies this`pool, this`runQueue, this`queue
      ensures Linked() && SameButNext(old(pool), pool)
      ensures var k := Skipped(old(pool), old(queue), MAX_THREADS);
              if k < |old(queue)| && k < MAX_THREADS then t == old(queue)[k] && queue == old(queue)[k + 1..]
              else t == NIL && queue == old(queue)[k..]
    {
      hide Distinct, Skipped;
      ghost var q := queue;
      var scanned := 0;
      while scanned < MAX_THREADS
        invariant 0 <= scanned <= MAX_THREADS && scanned <= |q| && queue == q[scanned..] && Linked()
        invariant SameButNext(old(pool), pool)
        invariant Skipped(old(pool), q, MAX_THREADS)
                  == scanned + Skipped(old(pool), q[scanned..], MAX_THREADS - scanned)
      {
        t := Dequeue();
        if t == NIL { return; }
        SkippedNext(old(pool), q, scanned);
        scanned := scanned + 1;
        if pool[t].state == Ready { return; }
      }
      t := NIL;
    }

    /** sched.c:80-86 on the queue: the current thread, if it still runs, goes to the end, and the next one
        takes over.  Nothing happens to an empty queue. */
    method Rotate() returns (next: int)
      requires Valid()
      modifies this`pool, this`runQueue, this`queue, this`current
      ensures Valid() && View() == After(old(View()), Yield) && SameThreads(old(pool), pool)
      ensures next == if old(queue) == [] then NIL else old(queue)[0]
    {
      hide Distinct, Orderly, Skipped, Chain, SameButNext, SameThreads, SetState, SetNext, NextPool;
      ghost var p0, q, c := pool, queue, current;
      SameThreadsRefl(p0);
      OrderlyPicksFirst(p0, q, c);
      OrderlyFacts(p0, q, c);
      next := PickNext();
      ghost var p1 := pool;
      SameStates(p0, p1, c);
      SameButNextThreads(p0, p0, p1);
      if next == NIL {
        SameOrderly(p0, pool, q, c);
        return;
      }
      assert current != next;
      if current != IDLE && pool[current].state == Running { Requeue(current); }
      ghost var p2 := pool;
      ChainState(p2, runQueue, queue, next, Running);
      pool := SetState(pool, next, Running);
      Rotated(p0, p1, p2, q, c);
      RotatedThreads(p0, p1, p2, q, c);
      assert queue == q[1..] + (if c != IDLE && p0[c].state == Running then [c] else []);
      current := next;
    }

    /** sched.c:81-82. */
    method Requeue(t: int)
      requires Linked() && 0 <= t < MAX_THREADS && t !in queue
      modifies this`pool, this`runQueue, this`queue
      ensures Linked() && queue == old(queue) + [t] && SameButNext(SetState(old(pool), t, Ready), pool)
    {
      hide Chain, SameButNext;
      ChainState(pool, runQueue, queue, t, Ready);
      pool := SetState(pool, t, Ready);
      Add(t);
    }

    /** The processor has room for a frame, and so has memory at the stack pointers of the waiting threads. */
    ghost predicate Switchable()
      reads this, cpu
    {
      && 7 <= cpu.rsp <= cpu.mem.Length && |rsps| == MAX_THREADS
      && forall i :: 0 <= i < |queue| ==>
           0 <= queue[i] < MAX_THREADS && 0 <= rsps[queue[i]] && rsps[queue[i]] + 7 <= cpu.mem.Length
    }

    /** sched.c:63-94: sched_on_timer, called where execution continues at `ret`. */
    method OnTimer(ret: int)
      requires Valid() && Switchable()
      modifies this`pool, this`runQueue, this`queue, this`current, this`rsps, cpu, cpu.mem
      ensures Valid() && View() == (if started then After(old(View()), Yield) else old(View()))
      ensures SameThreads(old(pool), pool)
      ensures !started || old(queue) == [] ==> unchanged(cpu) && unchanged(cpu.mem) && rsps == old(rsps)
      ensures started && old(queue) != [] ==>
              && cpu.mem[..] == Context.Saved(old(cpu.mem[..]), old(cpu.rsp), old(cpu.Now()).regs, ret)
              && cpu.Now() == Context.Restored(cpu.mem[..], old(rsps)[current])
              && rsps == if old(current) == IDLE then old(rsps) else old(rsps)[old(current) := old(cpu.rsp) - 7]
    {
      hide Orderly, Chain, Context.Saved, Context.Restored, Context.Machine.Now, SameThreads;
      SameThreadsRefl(pool);
      if !started { return; }
      var cur := current;
      var next := Rotate();
      if next == NIL { return; }
      var saved := cpu.ContextSwitch(ret, rsps[next]);
      if cur != IDLE { rsps := rsps[cur := saved]; }
    }

    /** thread.c:117-128, the first turn of its loop: the thread is dead and gives up the processor. */
    method Exit(ret: int)
      requires Valid() && Switchable() && started && current != IDLE
      modifies this`pool, this`runQueue, this`queue, this`current, this`rsps, cpu, cpu.mem
      ensures Valid() && View() == After(old(View()), Event.Exit) && SameThreads(old(pool), pool)
      ensures old(queue) == [] ==> unchanged(cpu) && unchanged(cpu.mem) && rsps == old(rsps)
      ensures old(queue) != [] ==>
              && cpu.mem[..] == Context.Saved(old(cpu.mem[..]), old(cpu.rsp), old(cpu.Now()).regs, ret)
              && cpu.Now() == Context.Restored(cpu.mem[..], old(rsps)[current])
              && rsps == old(rsps)[old(current) := old(cpu.rsp) - 7]
    {
      hide Orderly, Chain, Context.Saved, Context.Restored, Context.Machine.Now, SameThreads, SetState, Distinct;
      ghost var p0 := pool;
      ExitReady(pool, runQueue, queue, current);
      pool := SetState(pool, current, Dead);
      ghost var p1 := pool;
      OnTimer(ret);
      SameThreadsTrans(p0, p1, pool);
    }

    /** sched.c:96-109: the boot thread hands over for good. */
    method Start(ret: int) returns (any: bool)
      requires Valid() && Switchable() && current == IDLE
      modifies this`pool, this`runQueue, this`queue, this`current, this`rsps, this`started, cpu, cpu.mem
      ensures Valid() && started && View() == After(old(View()), Yield) && any == (old(queue) != [])
      ensures SameThreads(old(pool), pool) && rsps == old(rsps)
      ensures !any ==> unchanged(cpu) && unchanged(cpu.mem)
      ensures any ==> cpu.mem[..] == Context.Saved(old(cpu.mem[..]), old(cpu.rsp), old(cpu.Now()).regs, ret)
      ensures any ==> cpu.Now() == Context.Restored(cpu.mem[..], old(rsps)[current])
    {
      hide Orderly, Chain, Context.Saved, Context.Restored, Context.Machine.Now;
      any := runQueue != NIL;
      QueueStart(pool, runQueue, queue);
      started := true;
      OnTimer(ret);
    }

    /** thread.c:39-45: the first unused slot. */
    method FindSlot() returns (t: int)
      requires |pool| == MAX_THREADS
      ensures t == NIL <==> forall i :: 0 <= i < MAX_THREADS ==> pool[i].state != Unused
      ensures t != NIL ==>
                0 <= t < MAX_THREADS && pool[t].state == Unused && forall i :: 0 <= i < t ==> pool[i].state != Unused
    {
      var i := 0;
      while i < MAX_THREADS
        invariant 0 <= i <= MAX_THREADS && forall j :: 0 <= j < i ==> pool[j].state != Unused
      {
        if pool[i].state == Unused { return i; }
        i := i + 1;
      }
      t := NIL;
    }

    /** thread.c:38-102: thread_create with the stack that kmalloc gave, 0 for none. */
    method Create(entry: int, arg: int, stack: int) returns (id: int, ghost t: int)
      requires Valid() && 0 <= stack && (stack != 0 ==> stack + Context.STACK_WORDS <= cpu.mem.Length)
      modifies this`pool, this`runQueue, this`queue, this`rsps, this`nextId, cpu.mem
      ensures Valid() && (t == NIL <==> stack == 0 || forall i :: 0 <= i < MAX_THREADS ==> old(pool)[i].state != Unused)
      ensures t == NIL ==>
                id == -1 && View() == old(View()) && unchanged(cpu.mem) && pool == old(pool) && rsps == old(rsps)
      ensures t != NIL ==>
              && 0 <= t < MAX_THREADS && old(pool)[t].state == Unused && id == old(nextId) && nextId == id + 1
              && (forall i :: 0 <= i < t ==> old(pool)[i].state != Unused)
              && View() == After(old(View()), Event.Create(t))
              && pool[t].entry == entry && pool[t].arg == arg && pool[t].stack == stack
              && (forall i :: 0 <= i < MAX_THREADS ==>
                    (pool[i].state == Unused <==> i != t && old(pool)[i].state == Unused)
                    && (i != t ==> pool[i].stack == old(pool)[i].stack))
              && cpu.mem[..] == Context.NewFrame(old(cpu.mem[..]), stack, entry, arg)
              && queue == old(queue) + [t] && rsps == old(rsps)[t := Context.FrameTop(stack) - 9]
    {
      hide Orderly, Chain, Context.NewFrame;
      var slot := FindSlot();
      t := slot;
      if slot == NIL || stack == 0 { return -1, NIL; }
      id := nextId;
      nextId := nextId + 1;
      ghost var p0 := pool;
      var th := Thread(id, Ready, NIL, entry, arg, stack);
      UnusedApart(pool, runQueue, queue, current, slot, th);
      pool := pool[slot := th];
      var sp := cpu.BuildFrame(stack, entry, arg);
      rsps := rsps[slot := sp];
      ghost var p1 := pool;
      Add(slot);
      SameStates(p1, pool, current);
      SameThread(p1, pool, slot);
      AddedThread(p0, p1, pool, slot);
      SameOrderly(p1, pool, queue, current);
    }
  }

  ghost predicate SameButNext(p: seq<Thread>, p': seq<Thread>) {
    |p| == |p'| && forall i :: 0 <= i < |p| ==> p'[i].(next := 0) == p[i].(next := 0)
  }

  /** Scheduling changes links and states only, and neither takes nor frees a slot. */
  ghost predicate SameThreads(p: seq<Thread>, p': seq<Thread>) {
    && |p| == |p'| && (forall i :: 0 <= i < |p| ==> (p'[i].state == Unused <==> p[i].state == Unused))
    && forall i :: 0 <= i < |p| ==> p'[i].(next := 0, state := Unused) == p[i].(next := 0, state := Unused)
  }

  lemma SameButNextThreads(p: seq<Thread>, p1: seq<Thread>, p2: seq<Thread>)
    requires SameThreads(p, p1) && SameButNext(p1, p2)
    ensures SameThreads(p, p2)
  {
    forall i | 0 <= i < |p|
      ensures (p2[i].state == Unused <==> p[i].state == Unused)
      ensures p2[i].(next := 0, state := Unused) == p[i].(next := 0, state := Unused)
    {
      assert p2[i].(next := 0) == p1[i].(next := 0);
      assert p2[i].(next := 0, state := Unused) == p1[i].(next := 0, state := Unused);
    }
  }

  lemma SetStateThreads(p: seq<Thread>, p1: seq<Thread>, t: int, s: State)
    requires SameThreads(p, p1) && 0 <= t < |p1| && s != Unused && p1[t].state != Unused
    ensures SameThreads(p, SetState(p1, t, s))
  {
  }

  lemma SameThreadsTrans(p: seq<Thread>, p1: seq<Thread>, p2: seq<Thread>)
    requires SameThreads(p, p1) && SameThreads(p1, p2)
    ensures SameThreads(p, p2)
  {
    forall i | 0 <= i < |p| ensures p2[i].(next := 0, state := Unused) == p[i].(next := 0, state := Unused) {
      assert p1[i].(next := 0, state := Unused) == p[i].(next := 0, state := Unused);
    }
  }

  lemma SameThreadsRefl(p: seq<Thread>)
    ensures SameThreads(p, p)
  {
  }

  lemma QueueStart(pool: seq<Thread>, head: int, q: seq<int>)
    requires Chain(pool, head, q)
    ensures head != NIL <==> q != []
  {
  }

  lemma SameThread(p: seq<Thread>, p': seq<Thread>, t: int)
    requires SameButNext(p, p') && 0 <= t < |p|
    ensures p'[t].entry == p[t].entry && p'[t].arg == p[t].arg && p'[t].id == p[t].id && p'[t].stack == p[t].stack
  {
    assert p'[t].(next := 0) == p[t].(next := 0);
  }

  lemma AddedThread(p0: seq<Thread>, p1: seq<Thread>, p2: seq<Thread>, t: int)
    requires |p1| == |p0| && 0 <= t < |p0| && p1 == p0[t := p1[t]] && p1[t].state == Ready && SameButNext(p1, p2)
    ensures |p2| == |p0| && forall i :: 0 <= i < |p0| ==>
              (p2[i].state == Unused <==> i != t && p0[i].state == Unused) && (i != t ==> p2[i].stack == p0[i].stack)
  {
    forall i | 0 <= i < |p0|
      ensures (p2[i].state == Unused <==> i != t && p0[i].state == Unused) && (i != t ==> p2[i].stack == p0[i].stack)
    {
      SameStates(p1, p2, i);
      SameThread(p1, p2, i);
    }
  }

  lemma UnusedApart(pool: seq<Thread>, head: int, q: seq<int>, current: int, t: int, th: Thread)
    requires Chain(pool, head, q) && Orderly(pool, q, current) && 0 <= t < MAX_THREADS && pool[t].state == Unused
    requires th.state == Ready
    ensures t !in q && Chain(pool[t := th], head, q) && Orderly(pool[t := th], q + [t], current) && t != current
  {
    CreateOrderly(pool, q, current, t, th);
    ChainOther(pool, pool[t := th], head, q);
  }

  lemma OrderlyFacts(pool: seq<Thread>, q: seq<int>, current: int)
    requires Orderly(pool, q, current)
    ensures |pool| == MAX_THREADS && 0 <= current <= IDLE && current !in q
    ensures q != [] ==> q[0] != current && 0 <= q[0] < MAX_THREADS && current !in q[1..] && q[0] !in q[1..]
    ensures forall i :: 0 <= i < |q| ==> 0 <= q[i] < MAX_THREADS
    ensures current < MAX_THREADS ==> pool[current].state == Running || pool[current].state == Dead
  {
    if q != [] {
      InTail(q, current);
      InTail(q, q[0]);
      assert q[0] in q;
    }
  }

  lemma ExitReady(pool: seq<Thread>, head: int, q: seq<int>, current: int)
    requires Chain(pool, head, q) && Orderly(pool, q, current) && current < MAX_THREADS
    ensures var p := SetState(pool, current, Dead); Chain(p, head, q) && Orderly(p, q, current) && SameThreads(pool, p)
  {
    ExitOrderly(pool, q, current);
    ChainState(pool, head, q, current, Dead);
    SameThreadsRefl(pool);
    SetStateThreads(pool, pool, current, Dead);
  }

  lemma SameStates(p: seq<Thread>, p': seq<Thread>, t: int)
    requires SameButNext(p, p')
    ensures |p'| == |p| && (0 <= t < |p| ==> p'[t].state == p[t].state)
  {
    assert 0 <= t < |p| ==> p'[t].(next := 0) == p[t].(next := 0);
  }

  lemma SameOrderly(p: seq<Thread>, p': seq<Thread>, q: seq<int>, current: int)
    requires Orderly(p, q, current)
    requires SameButNext(p, p') || (|p'| == |p| && forall t :: 0 <= t < |p| ==> p'[t].state == p[t].state)
    ensures Orderly(p', q, current)
  {
    forall t | 0 <= t < |p| ensures p'[t].state == p[t].state { if SameButNext(p, p') { SameStates(p, p', t); } }
  }

  lemma Rotated(p0: seq<Thread>, p1: seq<Thread>, p2: seq<Thread>, q: seq<int>, c: int)
    requires Orderly(p0, q, c) && q != [] && SameButNext(p0, p1) && 0 <= q[0] < MAX_THREADS
    requires if c != IDLE && p0[c].state == Running then SameButNext(SetState(p1, c, Ready), p2) else p2 == p1
    ensures |p2| == MAX_THREADS && SetState(p2, q[0], Running)[q[0]].state == Running
    ensures Orderly(SetState(p2, q[0], Running),
                    q[1..] + (if c != IDLE && p0[c].state == Running then [c] else []), q[0])
  {
    OrderlyFacts(p0, q, c);
    TimerOrderly(p0, q, c);
    RotatedPool(p0, p1, p2, q, c);
    hide Orderly, SameButNext, Distinct, SetState;
    SameOrderly(NextPool(p0, q, c), SetState(p2, q[0], Running), NextQueue(p0, q, c), q[0]);
  }

  lemma RotatedThreads(p0: seq<Thread>, p1: seq<Thread>, p2: seq<Thread>, q: seq<int>, c: int)
    requires Orderly(p0, q, c) && q != [] && SameButNext(p0, p1) && 0 <= q[0] < MAX_THREADS
    requires if c != IDLE && p0[c].state == Running then SameButNext(SetState(p1, c, Ready), p2) else p2 == p1
    ensures |p2| == MAX_THREADS && SameThreads(p0, SetState(p2, q[0], Running))
  {
    assert q[0] in q;
    SameThreadsRefl(p0);
    SameButNextThreads(p0, p0, p1);
    SameStates(p0, p1, c);
    SameStates(p0, p1, q[0]);
    hide Orderly, SameButNext, SameThreads, SetState, Distinct;
    if c != IDLE && p0[c].state == Running {
      SetStateThreads(p0, p1, c, Ready);
      SameButNextThreads(p0, SetState(p1, c, Ready), p2);
      SameStates(SetState(p1, c, Ready), p2, q[0]);
    }
    SetStateThreads(p0, p2, q[0], Running);
  }

  lemma RotatedPool(p0: seq<Thread>, p1: seq<Thread>, p2: seq<Thread>, q: seq<int>, c: int)
    requires |p0| == MAX_THREADS && 0 <= c <= IDLE && q != [] && (forall i :: 0 <= i < |q| ==> 0 <= q[i] < MAX_THREADS)
    requires SameButNext(p0, p1)
    requires if c != IDLE && p0[c].state == Running then SameButNext(SetState(p1, c, Ready), p2) else p2 == p1
    ensures forall t :: 0 <= t < MAX_THREADS ==> SetState(p2, q[0], Running)[t].state == NextPool(p0, q, c)[t].state
  {
    forall t | 0 <= t < MAX_THREADS ensures SetState(p2, q[0], Running)[t].state == NextPool(p0, q, c)[t].state {
      SameStates(p0, p1, t);
      if c != IDLE && p0[c].state == Running { SameStates(SetState(p1, c, Ready), p2, t); }
    }
  }

  lemma SkippedNext(pool: seq<Thread>, q: seq<int>, k: nat)
    requires |pool| == MAX_THREADS && (forall i :: 0 <= i < |q| ==> 0 <= q[i] < MAX_THREADS) && k < |q|
    requires k < MAX_THREADS
    ensures Skipped(pool, q[k..], MAX_THREADS - k) ==
            if pool[q[k]].state == Ready then 0 else 1 + Skipped(pool, q[k + 1..], MAX_THREADS - k - 1)
  {
    assert q[k..][1..] == q[k + 1..];
  }
}
