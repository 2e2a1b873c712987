/**
  The scheduler of kernel/sched as a value: thread states, the run queue as a list, and how long a
  thread waits in it.
*/
module RunQueue {
  import opened Links

  const MAX_THREADS: int := 16
  /** The idle thread is not part of the pool; it stands behind it. */
  const IDLE: int := 16

  datatype State = Unused | Ready | Running | Blocked | Dead

  datatype Thread = Thread(id: int, state: State, next: int, entry: int, arg: int, stack: int)

  /** `head` starts a list through the `next` fields that visits the threads of `q`. */
  ghost predicate Chain(pool: seq<Thread>, head: int, q: seq<int>)
    ensures Chain(pool, head, q) ==> |pool| == MAX_THREADS
  {
    && |pool| == MAX_THREADS && head == At(q, 0) && Distinct(q)
    && (forall i :: 0 <= i < |q| ==> 0 <= q[i] < MAX_THREADS)
    && forall i :: 0 <= i < |q| ==> pool[q[i]].next == At(q, i + 1)
  }

  /** sched_pick_next on the list: what precedes the first ready thread among the first `left` is lost. */
  function Skipped(pool: seq<Thread>, q: seq<int>, left: nat): (k: nat)
    requires |pool| == MAX_THREADS && forall i :: 0 <= i < |q| ==> 0 <= q[i] < MAX_THREADS
    ensures k <= |q| && k <= left && (k < left && k < |q| ==> pool[q[k]].state == Ready)
    ensures forall i :: 0 <= i < k ==> pool[q[i]].state != Ready
    decreases left
  {
    if left == 0 || q == [] || pool[q[0]].state == Ready then 0 else
    var k := Skipped(pool, q[1..], left - 1);
    assert forall i :: 1 <= i < 1 + k ==> q[i] == q[1..][i - 1];
    1 + k
  }

  // ---- the invariant ----------------------------------------------------------------------------------

  /** The queue holds exactly the ready threads; only the current thread runs; the idle thread, the current
      one and the dead ones are not queued. */
  ghost predicate Orderly(pool: seq<Thread>, q: seq<int>, current: int)
    ensures Orderly(pool, q, current) ==> |pool| == MAX_THREADS && 0 <= current <= IDLE
  {
    && |pool| == MAX_THREADS && Distinct(q) && 0 <= current <= IDLE
    && (forall i :: 0 <= i < |q| ==> 0 <= q[i] < MAX_THREADS)
    && (forall t :: 0 <= t < MAX_THREADS ==> (pool[t].state == Ready <==> t in q))
    && (forall t :: 0 <= t < MAX_THREADS && pool[t].state == Running ==> t == current)
    && (current < MAX_THREADS ==> pool[current].state == Running || pool[current].state == Dead)
  }

  lemma OrderlyPicksFirst(pool: seq<Thread>, q: seq<int>, current: int)
    requires Orderly(pool, q, current)
    ensures Skipped(pool, q, MAX_THREADS) == 0
  {
    if q != [] { assert q[0] in q; }
  }

  /** What sched_on_timer makes of queue and current thread. */
  function NextQueue(pool: seq<Thread>, q: seq<int>, current: int): seq<int>
    requires |pool| == MAX_THREADS && 0 <= current <= IDLE
  {
    if q == [] then q
    else if current != IDLE && pool[current].state == Running then q[1..] + [current]
    else q[1..]
  }

  function NextPool(pool: seq<Thread>, q: seq<int>, current: int): seq<Thread>
    requires |pool| == MAX_THREADS && 0 <= current <= IDLE && forall i :: 0 <= i < |q| ==> 0 <= q[i] < MAX_THREADS
  {
    if q == [] then pool
    else
      var p := if current != IDLE && pool[current].state == Running
               then pool[current := pool[current].(state := Ready)] else pool;
      p[q[0] := p[q[0]].(state := Running)]
  }

  lemma InTail(q: seq<int>, t: int)
    requires Distinct(q) && q != []
    ensures t in q[1..] <==> t in q && t != q[0]
  {
    if t in q { var i :| 0 <= i < |q| && q[i] == t; assert i > 0 ==> q[1..][i - 1] == t; }
  }

  lemma TimerOrderly(pool: seq<Thread>, q: seq<int>, current: int)
    requires Orderly(pool, q, current) && q != []
    ensures Orderly(NextPool(pool, q, current), NextQueue(pool, q, current), q[0])
    ensures q[0] != current
  {
    var pool', q' := NextPool(pool, q, current), NextQueue(pool, q, current);
    assert q[0] in q;
    TimerDistinct(pool, q, current);
    hide NextPool, NextQueue, Distinct;
    forall t | 0 <= t < MAX_THREADS
      ensures pool'[t].state == Ready <==> t in q'
      ensures pool'[t].state == Running <==> t == q[0]
    {
      InTail(q, t);
      TimerQueue(pool, q, current, t);
      TimerState(pool, q, current, t);
    }
  }

  lemma TimerDistinct(pool: seq<Thread>, q: seq<int>, current: int)
    requires Orderly(pool, q, current) && q != []
    ensures var q' := NextQueue(pool, q, current);
            Distinct(q') && forall i :: 0 <= i < |q'| ==> 0 <= q'[i] < MAX_THREADS
  {
    assert current < MAX_THREADS ==> current !in q;
  }

  lemma TimerState(pool: seq<Thread>, q: seq<int>, current: int, t: int)
    requires |pool| == MAX_THREADS && 0 <= current <= IDLE && q != []
    requires (forall i :: 0 <= i < |q| ==> 0 <= q[i] < MAX_THREADS) && 0 <= t < MAX_THREADS
    ensures |NextPool(pool, q, current)| == MAX_THREADS
    ensures NextPool(pool, q, current)[t].state ==
            if t == q[0] then Running else if t == current && pool[t].state == Running then Ready else pool[t].state
  {
  }

  lemma TimerQueue(pool: seq<Thread>, q: seq<int>, current: int, t: int)
    requires |pool| == MAX_THREADS && 0 <= current <= IDLE && q != []
    ensures t in NextQueue(pool, q, current) <==>
              t in q[1..] || (t == current && current != IDLE && pool[current].state == Running)
  {
  }

  lemma CreateOrderly(pool: seq<Thread>, q: seq<int>, current: int, t: int, th: Thread)
    requires Orderly(pool, q, current) && 0 <= t < MAX_THREADS && pool[t].state == Unused && th.state == Ready
    ensures Orderly(pool[t := th], q + [t], current)
  {
  }

  lemma ExitOrderly(pool: seq<Thread>, q: seq<int>, current: int)
    requires Orderly(pool, q, current) && current < MAX_THREADS
    ensures Orderly(pool[current := pool[current].(state := Dead)], q, current)
  {
  }

  // ---- waiting -------------------------------------------------------------------------------------------

  /** What can happen: a thread is created in slot `t`, the current thread yields, or it exits and calls the
      scheduler. */
  datatype Event = Create(t: int) | Yield | Exit

  datatype Sched = Sched(q: seq<int>, current: int, dead: bool)

  /** One event on queue and current thread; `dead` says that the current thread has exited. */
  function After(s: Sched, e: Event): Sched {
    match e
    case Create(t) => s.(q := s.q + [t])
    case Yield =>
      if s.q == [] then s
      else Sched(s.q[1..] + (if s.current != IDLE && !s.dead then [s.current] else []), s.q[0], false)
    case Exit =>
      if s.q == [] then s.(dead := true) else Sched(s.q[1..], s.q[0], false)
  }

  function AfterAll(s: Sched, es: seq<Event>): Sched {
    if es == [] then s else After(AfterAll(s, es[..|es| - 1]), es[|es| - 1])
  }

  /** The scheduling steps of a run. */
  function Steps(es: seq<Event>): nat {
    if es == [] then 0 else Steps(es[..|es| - 1]) + if es[|es| - 1].Create? then 0 else 1
  }

  lemma PositionStep(s: Sched, e: Event, k: nat, t: int)
    requires k < |s.q| && s.q[k] == t
    ensures e.Create? ==> k < |After(s, e).q| && After(s, e).q[k] == t
    ensures !e.Create? && k > 0 ==> k - 1 < |After(s, e).q| && After(s, e).q[k - 1] == t
    ensures !e.Create? && k == 0 ==> After(s, e).current == t
  {
  }

  /** Until its turn, a thread moves up by one place with every scheduling step, whatever is created. */
  lemma {:induction false} MovesUp(s: Sched, es: seq<Event>, k: nat, t: int)
    requires k < |s.q| && s.q[k] == t && Steps(es) <= k
    ensures var s' := AfterAll(s, es); k - Steps(es) < |s'.q| && s'.q[k - Steps(es)] == t
  {
    if es != [] {
      var n := |es| - 1;
      MovesUp(s, es[..n], k, t);
      PositionStep(AfterAll(s, es[..n]), es[n], k - Steps(es[..n]), t);
    }
  }

  /** A created thread is neither queued nor current. */
  ghost predicate Legal(s: Sched, es: seq<Event>) {
    es == [] || (var n := |es| - 1; var w := AfterAll(s, es[..n]);
      Legal(s, es[..n]) && (es[n].Create? ==> es[n].t !in w.q && es[n].t != w.current && es[n].t != IDLE))
  }

  ghost predicate Proper(s: Sched) { Distinct(s.q) && s.current !in s.q && IDLE !in s.q }

  /** A kernel in good order is a proper start for a run. */
  lemma OrderlyProper(pool: seq<Thread>, q: seq<int>, current: int, dead: bool)
    requires Orderly(pool, q, current)
    ensures Proper(Sched(q, current, dead))
  {
    forall i | 0 <= i < |q| ensures q[i] != current { assert q[i] in q; }
  }

  lemma ProperStep(s: Sched, e: Event)
    requires Proper(s) && (e.Create? ==> e.t !in s.q && e.t != s.current && e.t != IDLE)
    ensures Proper(After(s, e))
  {
    if s.q != [] {
      InTail(s.q, s.current);
      InTail(s.q, s.q[0]);
      InTail(s.q, IDLE);
    }
  }

  lemma {:induction false} ProperRun(s: Sched, es: seq<Event>)
    requires Proper(s) && Legal(s, es)
    ensures Proper(AfterAll(s, es))
  {
    if es != [] {
      ProperRun(s, es[..|es| - 1]);
      ProperStep(AfterAll(s, es[..|es| - 1]), es[|es| - 1]);
    }
  }

  /** A thread at position k of the queue runs after k + 1 scheduling steps and not before, whatever is
      created meanwhile. */
  lemma {:induction false} BoundedWait(s: Sched, es: seq<Event>, k: nat, t: int)
    requires Proper(s) && Legal(s, es) && k < |s.q| && s.q[k] == t && Steps(es) <= k + 1
    ensures AfterAll(s, es).current == t <==> Steps(es) == k + 1
  {
    var n := |es| - 1;
    if Steps(es) <= k {
      MovesUp(s, es, k, t);
      ProperRun(s, es);
    } else if es[n].Create? {
      BoundedWait(s, es[..n], k, t);
    } else {
      MovesUp(s, es[..n], k, t);
      PositionStep(AfterAll(s, es[..n]), es[n], 0, t);
    }
  }
}
