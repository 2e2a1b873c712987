/**
  kernel/arch/x86_64/cpu/switch.S and the stack frame that kernel/sched/thread.c builds for it.  Memory is
  a row of 64-bit words; stack pointers are word indices.
*/
module Context {

  const STACK_WORDS: int := 1024
  /** The address of thread_trampoline. */
  const TRAMPOLINE: int := 0x10_0000

  /** The registers a callee must preserve. */
  datatype Regs = Regs(rbp: int, rbx: int, r12: int, r13: int, r14: int, r15: int)

  /** Where a thread is: its registers, the instruction it continues at and its stack pointer there. */
  datatype Ctx = Ctx(regs: Regs, rip: int, rsp: int)

  /** The seven words that context_switch leaves on a stack, lowest address first. */
  function Frame(r: Regs, ret: int): (f: seq<int>)
    ensures |f| == 7
  {
    [r.r15, r.r14, r.r13, r.r12, r.rbx, r.rbp, ret]
  }

  /** Memory after a thread with stack pointer `rsp` has called context_switch and its registers are saved. */
  function Saved(m: seq<int>, rsp: int, r: Regs, ret: int): (m': seq<int>)
    requires 7 <= rsp <= |m|
    ensures |m'| == |m| && m'[rsp - 7..rsp] == Frame(r, ret)
    ensures forall x :: 0 <= x < |m| && !(rsp - 7 <= x < rsp) ==> m'[x] == m[x]
  {
    m[..rsp - 7] + Frame(r, ret) + m[rsp..]
  }

  /** The context that a frame at `a` leads back to. */
  function Restored(m: seq<int>, a: int): Ctx
    requires 0 <= a && a + 7 <= |m|
  {
    Ctx(Regs(m[a + 5], m[a + 4], m[a + 3], m[a + 2], m[a + 1], m[a]), m[a + 6], a + 7)
  }

  class Machine {
    const mem: array<int>
    var rbp: int
    var rbx: int
    var r12: int
    var r13: int
    var r14: int
    var r15: int
    var rsp: int
    var rip: int
    var rdi: int
    var rax: int

    constructor (words: nat)
      ensures fresh(mem) && mem.Length == words && rsp == words
    {
      mem := new int[words](_ => 0);
      rsp := words;
    }

    ghost function Now(): Ctx
      reads this
    {
      Ctx(Regs(rbp, rbx, r12, r13, r14, r15), rip, rsp)
    }

    method Push(v: int)
      requires 0 < rsp <= mem.Length
      modifies this`rsp, mem
      ensures rsp == old(rsp) - 1 && mem[rsp] == v && forall x :: 0 <= x < mem.Length && x != rsp ==>
                mem[x] == old(mem[x])
    {
      rsp := rsp - 1;
      mem[rsp] := v;
    }

    method Pop() returns (v: int)
      requires 0 <= rsp < mem.Length
      modifies this`rsp
      ensures rsp == old(rsp) + 1 && v == mem[old(rsp)]
    {
      v := mem[rsp];
      rsp := rsp + 1;
    }

    /** The call and switch.S:17-18. */
    method SaveFirst(ret: int)
      requires 3 <= rsp <= mem.Length
      modifies this`rsp, mem
      ensures rsp == old(rsp) - 3 && mem[rsp] == rbx && mem[rsp + 1] == rbp && mem[rsp + 2] == ret
      ensures forall x :: 0 <= x < mem.Length && !(rsp <= x < rsp + 3) ==> mem[x] == old(mem[x])
    {
      Push(ret);
      Push(rbp);
      Push(rbx);
    }

    /** switch.S:19-22. */
    method SaveRest()
      requires 4 <= rsp <= mem.Length
      modifies this`rsp, mem
      ensures rsp == old(rsp) - 4 && mem[rsp] == r15 && mem[rsp + 1] == r14 && mem[rsp + 2] == r13
      ensures mem[rsp + 3] == r12
      ensures forall x :: 0 <= x < mem.Length && !(rsp <= x < rsp + 4) ==> mem[x] == old(mem[x])
    {
      Push(r12);
      Push(r13);
      Push(r14);
      Push(r15);
    }

    /** switch.S:16-25, behind the call that pushed `ret`. */
    method Save(ret: int) returns (saved: int)
      requires 7 <= rsp <= mem.Length
      modifies this`rsp, mem
      ensures saved == rsp == old(rsp) - 7 && mem[..] == Saved(old(mem[..]), old(rsp), Now().regs, ret)
    {
      SaveFirst(ret);
      SaveRest();
      saved := rsp;
      assert mem[rsp..rsp + 7] == Frame(Now().regs, ret);
      assert mem[..] == Saved(old(mem[..]), old(rsp), Now().regs, ret);
    }

    /** switch.S:27-38. */
    method Restore(newRsp: int)
      requires 0 <= newRsp && newRsp + 7 <= mem.Length
      modifies this`rsp, this`rip, this`rbp, this`rbx, this`r12, this`r13, this`r14, this`r15
      ensures Now() == Restored(mem[..], newRsp)
    {
      rsp := newRsp;
      r15 := Pop();
      r14 := Pop();
      r13 := Pop();
      r12 := Pop();
      rbx := Pop();
      rbp := Pop();
      rip := Pop();
    }

    /** switch.S:15-38: context_switch, called from an instruction that continues at `ret`. */
    method ContextSwitch(ret: int, newRsp: int) returns (saved: int)
      requires 7 <= rsp <= mem.Length && 0 <= newRsp && newRsp + 7 <= mem.Length
      modifies this`rsp, this`rip, this`rbp, this`rbx, this`r12, this`r13, this`r14, this`r15, mem
      ensures saved == old(rsp) - 7 && mem[..] == Saved(old(mem[..]), old(rsp), old(Now()).regs, ret)
      ensures Now() == Restored(mem[..], newRsp)
    {
      hide Saved, Restored;
      saved := Save(ret);
      Restore(newRsp);
    }

    /** thread.c:71-86: the frame of a thread that has never run, pushed below the aligned top of its stack. */
    method BuildFrame(base: int, entry: int, arg: int) returns (sp: int)
      requires 0 <= base && base + STACK_WORDS <= mem.Length
      modifies mem
      ensures mem[..] == NewFrame(old(mem[..]), base, entry, arg) && sp == FrameTop(base) - 9
      ensures base <= sp < base + STACK_WORDS
    {
      sp := base + STACK_WORDS;
      sp := sp - sp % 2;
      ghost var top := sp;
      sp := PushAt(sp, entry);
      sp := PushAt(sp, arg);
      sp := PushAt(sp, TRAMPOLINE);
      sp := BlankRegisters(sp);
      NewFrameIs(old(mem[..]), mem[..], base, entry, arg);
    }

    /** What a thread does between two switches, one word at a time. */
    method Work(now: Ctx, at: int, value: int)
      requires 0 <= at < mem.Length
      modifies this, mem
      ensures Now() == now && mem[..] == old(mem[..])[at := value]
    {
      rbp, rbx, r12 := now.regs.rbp, now.regs.rbx, now.regs.r12;
      r13, r14, r15 := now.regs.r13, now.regs.r14, now.regs.r15;
      rip, rsp := now.rip, now.rsp;
      mem[at] := value;
    }

    method PushAt(sp: int, v: int) returns (sp': int)
      requires 0 < sp <= mem.Length
      modifies mem
      ensures sp' == sp - 1 && mem[sp'] == v && forall x :: 0 <= x < mem.Length && x != sp' ==> mem[x] == old(mem[x])
    {
      sp' := sp - 1;
      mem[sp'] := v;
    }

    /** thread.c:78-83. */
    method BlankRegisters(top: int) returns (sp: int)
      requires 6 <= top <= mem.Length
      modifies mem
      ensures sp == top - 6 && mem[sp] == mem[sp + 1] == mem[sp + 2] == mem[sp + 3] == mem[sp + 4] == mem[sp + 5] == 0
      ensures forall x :: 0 <= x < mem.Length && !(sp <= x < top) ==> mem[x] == old(mem[x])
    {
      sp := PushAt(top, 0);
      sp := PushAt(sp, 0);
      sp := PushAt(sp, 0);
      sp := PushAt(sp, 0);
      sp := PushAt(sp, 0);
      sp := PushAt(sp, 0);
    }

    /** switch.S:44-49: the first instructions of a new thread. */
    method Trampoline(ret: int)
      requires 0 <= rsp && rsp + 2 <= mem.Length
      modifies this`rsp, this`rip, this`rdi, this`rax, mem
      ensures rdi == old(mem[rsp]) && rip == old(mem[rsp + 1]) && rsp == old(rsp) + 1 && mem[rsp] == ret
      ensures forall x :: 0 <= x < mem.Length && x != rsp ==> mem[x] == old(mem[x])
    {
      rdi := Pop();
      rax := Pop();
      Push(ret);
      rip := rax;
    }
  }

  /** The top of a stack, on a boundary of sixteen bytes. */
  function FrameTop(base: int): (top: int)
    ensures top % 2 == 0 && base + STACK_WORDS - 2 < top <= base + STACK_WORDS
  {
    base + STACK_WORDS - (base + STACK_WORDS) % 2
  }

  lemma NewFrameIs(m: seq<int>, m': seq<int>, base: int, entry: int, arg: int)
    requires 0 <= base && base + STACK_WORDS <= |m| == |m'|
    requires var top := FrameTop(base);
             && (forall x :: 0 <= x < |m| && !(top - 9 <= x < top) ==> m'[x] == m[x])
             && m'[top - 9] == m'[top - 8] == m'[top - 7] == m'[top - 6] == m'[top - 5] == m'[top - 4] == 0
             && m'[top - 3] == TRAMPOLINE && m'[top - 2] == arg && m'[top - 1] == entry
    ensures m' == NewFrame(m, base, entry, arg)
  {
    var top := FrameTop(base);
    assert m'[..top - 9] == m[..top - 9] && m'[top..] == m[top..];
    assert m'[top - 9..top] == [0, 0, 0, 0, 0, 0, TRAMPOLINE, arg, entry];
    assert m' == m'[..top - 9] + m'[top - 9..top] + m'[top..];
  }

  function NewFrame(m: seq<int>, base: int, entry: int, arg: int): (m': seq<int>)
    requires 0 <= base && base + STACK_WORDS <= |m|
    ensures |m'| == |m| && forall x :: 0 <= x < |m| && !(base <= x < base + STACK_WORDS) ==> m'[x] == m[x]
    ensures Restored(m', FrameTop(base) - 9) == Ctx(Regs(0, 0, 0, 0, 0, 0), TRAMPOLINE, FrameTop(base) - 2)
    ensures m'[FrameTop(base) - 2] == arg && m'[FrameTop(base) - 1] == entry
  {
    var top := FrameTop(base);
    m[..top - 9] + [0, 0, 0, 0, 0, 0, TRAMPOLINE, arg, entry] + m[top..]
  }

  // ---- runs of switches -------------------------------------------------------------------------------------

  /** Threads and their stacks.  `saved` holds the stack pointer of every suspended thread, `promise` the
      context it was in when it gave up the processor. */
  datatype System = System(mem: seq<int>, now: Ctx, current: int,
                           stacks: map<int, int>, saved: map<int, int>, promise: map<int, Ctx>)

  predicate Inside(s: System, t: int, x: int) { t in s.stacks && s.stacks[t] <= x < s.stacks[t] + STACK_WORDS }

  /** Stacks lie in memory and apart from each other. */
  ghost predicate Apart(s: System) {
    && (forall t :: t in s.stacks ==> 0 <= s.stacks[t] && s.stacks[t] + STACK_WORDS <= |s.mem|)
    && forall t, u, x :: t != u && Inside(s, t, x) ==> !Inside(s, u, x)
  }

  /** The frame of a suspended thread lies in its own stack and leads back to where it was. */
  ghost predicate Kept(s: System, t: int) {
    && t in s.saved && t in s.stacks && t in s.promise && t != s.current
    && s.stacks[t] <= s.saved[t] && s.saved[t] + 7 <= s.stacks[t] + STACK_WORDS <= |s.mem| && 0 <= s.stacks[t]
    && Restored(s.mem, s.saved[t]) == s.promise[t]
  }

  /** The running thread has room for a frame: on its own stack, or, for the boot thread, outside of all. */
  ghost predicate Room(s: System, rsp: int) {
    && 7 <= rsp <= |s.mem|
    && forall x, t :: rsp - 7 <= x < rsp && Inside(s, t, x) ==> t == s.current
  }

  ghost predicate Good(s: System) {
    && Apart(s) && (forall t :: t in s.saved ==> Kept(s, t))
    && (s.current in s.stacks ==> s.stacks[s.current] + 7 <= s.now.rsp <= s.stacks[s.current] + STACK_WORDS)
    && Room(s, s.now.rsp)
  }

  /** What a run consists of: the current thread computes, a thread is created, or the processor changes hands. */
  datatype Event =
    | Work(now: Ctx, mem: seq<int>)
    | Create(t: int, base: int, entry: int, arg: int)
    | SwitchTo(t: int, ret: int)

  /** The current thread may change its registers and its own stack; new stacks lie apart from all others;
      only suspended threads are switched to. */
  ghost predicate Allowed(s: System, e: Event) {
    match e
    case Work(now, mem) =>
      && |mem| == |s.mem| && Room(s, now.rsp)
      && (s.current in s.stacks ==> s.stacks[s.current] + 7 <= now.rsp <= s.stacks[s.current] + STACK_WORDS)
      && forall x, t :: 0 <= x < |mem| && Inside(s, t, x) && t != s.current ==> mem[x] == s.mem[x]
    case Create(t, base, entry, arg) =>
      && t !in s.stacks && t != s.current && t !in s.saved && 0 <= base && base + STACK_WORDS <= |s.mem|
      && (forall x, u :: base <= x < base + STACK_WORDS ==> !Inside(s, u, x))
      && (base + STACK_WORDS <= s.now.rsp - 7 || s.now.rsp <= base)
    case SwitchTo(t, ret) => t in s.saved
  }

  /** A thread without a stack of its own, the boot thread, is not remembered. */
  ghost function After(s: System, e: Event): System
    requires Good(s) && Allowed(s, e)
  {
    match e
    case Work(now, mem) => s.(now := now, mem := mem)
    case Create(t, base, entry, arg) =>
      var m := NewFrame(s.mem, base, entry, arg);
      s.(mem := m, stacks := s.stacks[t := base], saved := s.saved[t := FrameTop(base) - 9],
         promise := s.promise[t := Ctx(Regs(0, 0, 0, 0, 0, 0), TRAMPOLINE, FrameTop(base) - 2)])
    case SwitchTo(t, ret) =>
      assert Kept(s, t);
      var m := Saved(s.mem, s.now.rsp, s.now.regs, ret);
      var here := Ctx(s.now.regs, ret, s.now.rsp);
      var others := s.saved - {t};
      if s.current in s.stacks then
        s.(mem := m, now := Restored(m, s.saved[t]), current := t,
           saved := others[s.current := s.now.rsp - 7], promise := s.promise[s.current := here])
      else
        s.(mem := m, now := Restored(m, s.saved[t]), current := t, saved := others)
  }

  lemma FramesSame(m: seq<int>, m': seq<int>, a: int)
    requires 0 <= a && a + 7 <= |m| == |m'| && forall x :: a <= x < a + 7 ==> m'[x] == m[x]
    ensures Restored(m', a) == Restored(m, a)
  {
  }

  /** A suspended thread that no step touches stays as promised. */
  lemma StaysKept(s: System, s': System, t: int)
    requires Kept(s, t) && t in s'.saved && s'.saved[t] == s.saved[t] && t in s'.stacks && s'.stacks[t] == s.stacks[t]
    requires t in s'.promise && s'.promise[t] == s.promise[t] && |s'.mem| == |s.mem| && t != s'.current
    requires forall x :: 0 <= x < |s.mem| && Inside(s, t, x) ==> s'.mem[x] == s.mem[x]
    ensures Kept(s', t)
  {
    FramesSame(s.mem, s'.mem, s.saved[t]);
  }

  lemma WorkGood(s: System, e: Event)
    requires Good(s) && Allowed(s, e) && e.Work?
    ensures Good(After(s, e))
  {
    hide Restored;
    var s' := After(s, e);
    forall t | t in s'.saved ensures Kept(s', t) { assert Kept(s, t); StaysKept(s, s', t); }
    assert forall t, x :: Inside(s', t, x) == Inside(s, t, x);
  }

  lemma CreateGood(s: System, e: Event)
    requires Good(s) && Allowed(s, e) && e.Create?
    ensures Good(After(s, e))
  {
    hide Restored;
    var s' := After(s, e);
    forall t | t in s'.saved ensures Kept(s', t) {
      if t != e.t { assert Kept(s, t); StaysKept(s, s', t); }
    }
    assert forall t, x :: t != e.t ==> Inside(s', t, x) == Inside(s, t, x);
    assert forall x :: Inside(s', e.t, x) <==> e.base <= x < e.base + STACK_WORDS;
  }

  lemma CurrentNotSaved(s: System)
    requires Good(s)
    ensures s.current !in s.saved
  {
    assert s.current in s.saved ==> Kept(s, s.current);
  }

  lemma ApartSame(s: System, s': System)
    requires Apart(s) && s'.stacks == s.stacks && |s'.mem| == |s.mem|
    ensures Apart(s')
  {
    assert forall t, x :: Inside(s', t, x) == Inside(s, t, x);
  }

  /** A frame inside the current thread's own stack is room enough. */
  lemma RoomOwn(s: System, rsp: int)
    requires Apart(s) && s.current in s.stacks && s.stacks[s.current] + 7 <= rsp <= s.stacks[s.current] + STACK_WORDS
    ensures Room(s, rsp)
  {
    forall x, t | rsp - 7 <= x < rsp && Inside(s, t, x) ensures t == s.current { assert Inside(s, s.current, x); }
  }

  /** Saving the current thread's registers leaves every suspended frame as it is. */
  lemma FramesUntouched(s: System, ret: int, t: int)
    requires Good(s) && t in s.saved
    ensures Kept(s, t) && Restored(Saved(s.mem, s.now.rsp, s.now.regs, ret), s.saved[t]) == s.promise[t]
  {
    assert Kept(s, t);
    hide Restored;
    var m := Saved(s.mem, s.now.rsp, s.now.regs, ret);
    forall x | s.saved[t] <= x < s.saved[t] + 7 ensures m[x] == s.mem[x] { assert Inside(s, t, x); }
    FramesSame(s.mem, m, s.saved[t]);
  }

  lemma SwitchGood(s: System, e: Event)
    requires Good(s) && Allowed(s, e) && e.SwitchTo?
    ensures e.t in s.promise && Good(After(s, e)) && After(s, e).now == s.promise[e.t] && After(s, e).current == e.t
  {
    SavedFrame(s.mem, s.now.rsp, s.now.regs, e.ret);
    CurrentNotSaved(s);
    FramesUntouched(s, e.ret, e.t);
    RestoredRsp(s.mem, s.saved[e.t]);
    hide Restored, Saved, Apart, Room;
    var s' := After(s, e);
    ApartSame(s, s');
    forall t | t in s'.saved ensures Kept(s', t) {
      if t != s.current { FramesUntouched(s, e.ret, t); }
    }
    RoomOwn(s', s'.now.rsp);
  }

  lemma RestoredRsp(m: seq<int>, a: int)
    requires 0 <= a && a + 7 <= |m|
    ensures Restored(m, a).rsp == a + 7
  {
  }

  lemma SavedFrame(m: seq<int>, rsp: int, r: Regs, ret: int)
    requires 7 <= rsp <= |m|
    ensures Restored(Saved(m, rsp, r, ret), rsp - 7) == Ctx(r, ret, rsp)
  {
    var m' := Saved(m, rsp, r, ret);
    var f := m'[rsp - 7..rsp];
    assert f[0] == m'[rsp - 7] && f[1] == m'[rsp - 6] && f[2] == m'[rsp - 5] && f[3] == m'[rsp - 4]
        && f[4] == m'[rsp - 3] && f[5] == m'[rsp - 2] && f[6] == m'[rsp - 1];
  }

  lemma StepGood(s: System, e: Event)
    requires Good(s) && Allowed(s, e)
    ensures Good(After(s, e))
  {
    match e {
      case Work(_, _) => WorkGood(s, e);
      case Create(_, _, _, _) => CreateGood(s, e);
      case SwitchTo(_, _) => SwitchGood(s, e);
    }
  }

  /** The states a run goes through, from a good one on. */
  ghost predicate IsRun(ss: seq<System>, es: seq<Event>) {
    && |ss| == |es| + 1 && Good(ss[0])
    && forall i :: 0 <= i < |es| && Good(ss[i]) ==> Allowed(ss[i], es[i]) && ss[i + 1] == After(ss[i], es[i])
  }

  lemma {:induction false} RunGood(ss: seq<System>, es: seq<Event>, n: nat)
    requires IsRun(ss, es) && n <= |es|
    ensures Good(ss[n])
  {
    if n > 0 {
      RunGood(ss, es, n - 1);
      StepGood(ss[n - 1], es[n - 1]);
    }
  }

  /** While a thread is not switched to, it stays suspended, its promise stands and its stack is untouched. */
  lemma {:induction false} PromiseStands(ss: seq<System>, es: seq<Event>, i: nat, j: nat, t: int)
    requires IsRun(ss, es) && i <= j <= |es| && t in ss[i].saved && t in ss[i].promise
    requires forall k :: i <= k < j && es[k].SwitchTo? ==> es[k].t != t
    ensures t in ss[j].saved && t in ss[j].promise && ss[j].promise[t] == ss[i].promise[t] && t != ss[j].current
    decreases j
  {
    RunGood(ss, es, j);
    CurrentNotSaved(ss[j]);
    hide Good, After, Allowed;
    if i < j {
      PromiseStands(ss, es, i, j - 1, t);
      RunGood(ss, es, j - 1);
      PromiseStep(ss[j - 1], es[j - 1], t);
    }
  }

  lemma PromiseStep(s: System, e: Event, t: int)
    requires Good(s) && Allowed(s, e) && t in s.saved && t in s.promise && (e.SwitchTo? ==> e.t != t)
    ensures var s' := After(s, e); t in s'.saved && t in s'.promise && s'.promise[t] == s.promise[t]
  {
    CurrentNotSaved(s);
  }

  lemma StackStep(s: System, e: Event, t: int, x: int)
    requires Good(s) && Allowed(s, e) && t in s.saved && Inside(s, t, x) && (e.SwitchTo? ==> e.t != t)
    ensures var s' := After(s, e); Inside(s', t, x) && 0 <= x < |s.mem| == |s'.mem| && s'.mem[x] == s.mem[x]
  {
    CurrentNotSaved(s);
    hide Restored;
    if e.SwitchTo? { SwitchKeepsOthers(s, e, t, x); }
  }

  /** A thread that switched away at step `i` and is next switched to at step `j` continues with the
      registers, at the instruction and with the stack pointer it had, whatever ran in between. */
  lemma Resumed(ss: seq<System>, es: seq<Event>, i: nat, j: nat)
    requires IsRun(ss, es) && i < j < |es| && es[i].SwitchTo? && es[j].SwitchTo?
    requires var t := ss[i].current;
             t in ss[i].stacks && es[j].t == t && forall k :: i < k < j && es[k].SwitchTo? ==> es[k].t != t
    ensures ss[j + 1].now == Ctx(ss[i].now.regs, es[i].ret, ss[i].now.rsp) && ss[j + 1].current == ss[i].current
  {
    var t := ss[i].current;
    RunGood(ss, es, i);
    assert ss[i + 1] == After(ss[i], es[i]);
    CurrentNotSaved(ss[i]);
    PromiseStands(ss, es, i + 1, j, t);
    RunGood(ss, es, j);
    assert ss[j + 1] == After(ss[j], es[j]);
    SwitchGood(ss[j], es[j]);
  }

  /** A new thread, when it is first switched to, finds itself in the trampoline with nothing but its
      argument and its entry point above the stack pointer. */
  lemma FirstRun(ss: seq<System>, es: seq<Event>, i: nat, j: nat)
    requires IsRun(ss, es) && i < j < |es| && es[i].Create? && es[j].SwitchTo? && es[j].t == es[i].t
    requires forall k :: i < k < j && es[k].SwitchTo? ==> es[k].t != es[i].t
    ensures var s, base := ss[j + 1], es[i].base;
            && s.now == Ctx(Regs(0, 0, 0, 0, 0, 0), TRAMPOLINE, FrameTop(base) - 2) && s.current == es[i].t
            && 0 <= s.now.rsp && s.now.rsp + 2 <= |s.mem| && s.mem[s.now.rsp] == es[i].arg
            && s.mem[s.now.rsp + 1] == es[i].entry
  {
    var t, base := es[i].t, es[i].base;
    RunGood(ss, es, i);
    RunGood(ss, es, i + 1);
    RunGood(ss, es, j);
    Created(ss[i], es[i]);
    hide Good, After, Allowed, Inside, Restored;
    PromiseStands(ss, es, i + 1, j, t);
    SwitchGood(ss[j], es[j]);
    WordStands(ss, es, i, j, FrameTop(base) - 2);
    WordStands(ss, es, i, j, FrameTop(base) - 1);
  }

  /** A word of a new thread's stack is still there when the thread is first switched to. */
  lemma WordStands(ss: seq<System>, es: seq<Event>, i: nat, j: nat, x: int)
    requires IsRun(ss, es) && i < j < |es| && es[i].Create? && es[j].SwitchTo? && es[j].t == es[i].t
    requires forall k :: i < k < j && es[k].SwitchTo? ==> es[k].t != es[i].t
    requires Good(ss[i + 1]) && es[i].t in ss[i + 1].saved && Inside(ss[i + 1], es[i].t, x)
    ensures 0 <= x < |ss[i + 1].mem| == |ss[j + 1].mem| && ss[j + 1].mem[x] == ss[i + 1].mem[x]
  {
    RunGood(ss, es, j);
    hide Good, After, Allowed, Inside, Restored;
    StackStands(ss, es, i + 1, j, es[i].t, x);
    SwitchKeepsOthers(ss[j], es[j], es[i].t, x);
  }

  lemma Created(s: System, e: Event)
    requires Good(s) && Allowed(s, e) && e.Create?
    ensures var s', top := After(s, e), FrameTop(e.base);
            && e.t in s'.saved && e.t in s'.promise
            && s'.promise[e.t] == Ctx(Regs(0, 0, 0, 0, 0, 0), TRAMPOLINE, top - 2)
            && Inside(s', e.t, top - 2) && Inside(s', e.t, top - 1) && 0 <= top - 2 && top <= |s'.mem|
            && s'.mem[top - 2] == e.arg && s'.mem[top - 1] == e.entry
  {
  }

  lemma InMemory(s: System, t: int, x: int)
    requires Good(s) && Inside(s, t, x)
    ensures 0 <= x < |s.mem|
  {
  }

  lemma SwitchKeepsOthers(s: System, e: Event, t: int, x: int)
    requires Good(s) && Allowed(s, e) && e.SwitchTo? && t in s.saved && Inside(s, t, x)
    ensures 0 <= x < |s.mem| == |After(s, e).mem| && After(s, e).mem[x] == s.mem[x]
  {
    assert Kept(s, t);
  }

  /** The stack of a thread that is not switched to is untouched. */
  lemma {:induction false} StackStands(ss: seq<System>, es: seq<Event>, i: nat, j: nat, t: int, x: int)
    requires IsRun(ss, es) && i <= j <= |es| && t in ss[i].saved && t in ss[i].promise && Inside(ss[i], t, x)
    requires forall k :: i <= k < j && es[k].SwitchTo? ==> es[k].t != t
    ensures Inside(ss[j], t, x) && 0 <= x < |ss[i].mem| == |ss[j].mem| && ss[j].mem[x] == ss[i].mem[x]
    decreases j
  {
    RunGood(ss, es, i);
    InMemory(ss[i], t, x);
    hide Good, After, Allowed, Inside;
    if i < j {
      StackStands(ss, es, i, j - 1, t, x);
      PromiseStands(ss, es, i, j - 1, t);
      RunGood(ss, es, j - 1);
      StackStep(ss[j - 1], es[j - 1], t, x);
    }
  }

  /** The trampoline then calls the thread's entry point with its argument in RDI. */
  method FirstCall(cpu: Machine, ret: int, ghost ss: seq<System>, ghost es: seq<Event>, ghost i: nat, ghost j: nat)
    requires IsRun(ss, es) && i < j < |es| && es[i].Create? && es[j].SwitchTo? && es[j].t == es[i].t
    requires forall k :: i < k < j && es[k].SwitchTo? ==> es[k].t != es[i].t
    requires cpu.mem[..] == ss[j + 1].mem && cpu.Now() == ss[j + 1].now
    modifies cpu, cpu.mem
    ensures cpu.rip == es[i].entry && cpu.rdi == es[i].arg && cpu.rsp == FrameTop(es[i].base) - 1
  {
    FirstRun(ss, es, i, j);
    hide IsRun, Good;
    assert cpu.mem[cpu.rsp] == ss[j + 1].mem[cpu.rsp] && cpu.mem[cpu.rsp + 1] == ss[j + 1].mem[cpu.rsp + 1];
    cpu.Trampoline(ret);
  }
}
