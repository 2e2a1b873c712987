/**
  Whole runs of the kernel heap: what every client keeps, and runs that reach the calls for which
  heap.h's promises fail.
*/
module HeapRuns {
  import opened Bytes
  import opened HeapTiles
  import opened HeapMemory
  import opened HeapState
  import opened Heap
  import Pmm

  /** A call of a client that touches only what it holds: Free(i) releases its i-th pointer, Fill(i, at, bytes)
      writes into that pointer's bytes. */
  datatype Call = Malloc(size: nat, align: nat) | Free(i: nat) | Fill(i: nat, at: nat, bytes: seq<Byte>)

  /** A pointer as its holder knows it: the address, whether the request was over-aligned, and the bytes that
      the holder left there. */
  datatype Handle = Handle(ptr: int, over: bool, bytes: seq<Byte>)

  /** No size computation wraps. */
  predicate Bounded(c: Call) { c.Malloc? ==> c.size + c.align + HDR + MIN_BLOCK + PAGE + 16 <= Pmm.TWO64 }

  /** Over-aligned requests ask for multiples of eight bytes. */
  predicate InEights(c: Call) { c.Malloc? && AlignOf(c.align) > 16 ==> c.size % 8 == 0 }

  function Patch(m: seq<Byte>, at: int, bytes: seq<Byte>): (r: seq<Byte>)
    requires 0 <= at && at + |bytes| <= |m|
    ensures Outside(m, r, at, at + |bytes|) && r[at..at + |bytes|] == bytes
  {
    m[..at] + bytes + m[at + |bytes|..]
  }

  /** The write stays inside the bytes that were asked for. */
  predicate Fits(held: seq<Handle>, c: Call) {
    c.Fill? && c.i < |held| && c.at + |c.bytes| <= |held[c.i].bytes|
  }

  /** What the client holds after a call that returned `ptr`. */
  function After(held: seq<Handle>, c: Call, ptr: int): seq<Handle> {
    match c
    case Malloc(size, align) =>
      if ptr == 0 then held else held + [Handle(ptr, AlignOf(align) > 16, seq(size, _ => POISON_ALLOC))]
    case Free(i) => if i < |held| then held[..i] + held[i + 1..] else held
    case Fill(i, at, bytes) =>
      if Fits(held, c) then held[i := held[i].(bytes := Patch(held[i].bytes, at, bytes))] else held
  }

  /** The same after a sequence of calls, from nothing. */
  function Replay(calls: seq<Call>, ptrs: seq<int>): seq<Handle>
    requires |calls| == |ptrs|
  {
    if calls == [] then []
    else After(Replay(calls[..|calls| - 1], ptrs[..|ptrs| - 1]), calls[|calls| - 1], ptrs[|ptrs| - 1])
  }

  lemma ReplayMore(calls: seq<Call>, ptrs: seq<int>, c: Call, ptr: int)
    requires |calls| == |ptrs|
    ensures Replay(calls + [c], ptrs + [ptr]) == After(Replay(calls, ptrs), c, ptr)
  {
    hide After;
    assert (calls + [c])[..|calls|] == calls && (ptrs + [ptr])[..|ptrs|] == ptrs;
  }

  /** The handles are exactly the outstanding allocations, each once and with its size. */
  ghost predicate Holds(held: seq<Handle>, live: map<int, Grant>) {
    && (forall i :: 0 <= i < |held| ==> Known(held[i], live))
    && (forall p :: p in live ==> exists i :: 0 <= i < |held| && held[i].ptr == p)
    && forall i, j :: 0 <= i < j < |held| ==> held[i].ptr != held[j].ptr
  }

  predicate Known(h: Handle, live: map<int, Grant>) {
    h.ptr in live && live[h.ptr].over == h.over && live[h.ptr].size == |h.bytes|
  }

  /** Every holder finds in memory the bytes it left there. */
  ghost predicate Reads(m: seq<Byte>, held: seq<Handle>) { forall i :: 0 <= i < |held| ==> Finds(m, held[i]) }

  predicate Finds(m: seq<Byte>, h: Handle) {
    0 <= h.ptr && h.ptr + |h.bytes| <= |m| && m[h.ptr..h.ptr + |h.bytes|] == h.bytes
  }

  lemma HoldsMore(held: seq<Handle>, live: map<int, Grant>, p: int, g: Grant, bytes: seq<Byte>)
    requires Holds(held, live) && p !in live && |bytes| == g.size
    ensures Holds(held + [Handle(p, g.over, bytes)], live[p := g])
  {
    var r, more := held + [Handle(p, g.over, bytes)], live[p := g];
    forall q | q in more ensures exists i :: 0 <= i < |r| && r[i].ptr == q {
      if q == p {
        assert r[|held|].ptr == p;
      } else {
        var i :| 0 <= i < |held| && held[i].ptr == q;
        assert r[i].ptr == q;
      }
    }
  }

  lemma HoldsLess(held: seq<Handle>, live: map<int, Grant>, i: int)
    requires Holds(held, live) && 0 <= i < |held|
    ensures Holds(held[..i] + held[i + 1..], live - {held[i].ptr})
  {
    var r := held[..i] + held[i + 1..];
    forall p | p in live - {held[i].ptr} ensures exists j :: 0 <= j < |r| && r[j].ptr == p {
      var j :| 0 <= j < |held| && held[j].ptr == p;
      assert r[if j < i then j else j - 1].ptr == p;
    }
  }

  lemma HoldsSame(held: seq<Handle>, live: map<int, Grant>, i: int, bytes: seq<Byte>)
    requires Holds(held, live) && 0 <= i < |held| && |bytes| == |held[i].bytes|
    ensures Holds(held[i := held[i].(bytes := bytes)], live)
  {
    var r := held[i := held[i].(bytes := bytes)];
    assert forall j :: 0 <= j < |held| ==> r[j].ptr == held[j].ptr;
    forall p | p in live ensures exists j :: 0 <= j < |r| && r[j].ptr == p {
      var j :| 0 <= j < |held| && held[j].ptr == p;
      assert r[j].ptr == p;
    }
  }

  /** What stays the same on the blocks handed out stays the same for their holders. */
  lemma FindsKept(m: seq<Byte>, m': seq<Byte>, h: Handle, live: map<int, Grant>)
    requires Known(h, live) && Held(m, h.ptr, live[h.ptr]) && Finds(m, h)
    requires SameOn(m, m', live[h.ptr].blk.addr, live[h.ptr].blk.End())
    ensures Finds(m', h)
  {
    hide HeadAt, Le64;
    var lo, hi := h.ptr, h.ptr + |h.bytes|;
    assert forall x :: lo <= x < hi ==> m'[x] == m[x];
    assert m'[lo..hi] == m[lo..hi];
  }

  lemma ReadsKept(m: seq<Byte>, m': seq<Byte>, held: seq<Handle>, live: map<int, Grant>)
    requires Reads(m, held) && AllHeld(m, live) && SameOnLive(m, m', live)
    requires forall i :: 0 <= i < |held| ==> Known(held[i], live)
    ensures Reads(m', held)
  {
    hide Held, SameOn, Finds;
    forall i | 0 <= i < |held| ensures Finds(m', held[i]) { FindsKept(m, m', held[i], live); }
  }

  lemma ReadsMore(m: seq<Byte>, held: seq<Handle>, p: int, over: bool, size: nat)
    requires Reads(m, held) && Filled(m, p, size, POISON_ALLOC)
    ensures Reads(m, held + [Handle(p, over, seq(size, _ => POISON_ALLOC))])
  {
    assert m[p..p + size] == seq(size, _ => POISON_ALLOC);
  }

  /** The blocks of two outstanding allocations lie apart. */
  lemma GrantsApart(m: seq<Byte>, head: int, fs: seq<Blk>, live: map<int, Grant>, pages: set<int>, total: int,
                    used: int, p: int, q: int)
    requires Sane(m, head, fs, live, pages, total, used) && p in live && q in live && p != q
    ensures Apart(live[p].blk, live[q].blk)
  {
    hide Linked, Held, SumSet, Sum, Tiled;
    assert live[p].blk in LiveBlocks(live) && live[q].blk in LiveBlocks(live);
    LiveApart(fs, LiveBlocks(live), pages, live[p].blk);
  }

  /** A write inside the bytes of one holder is read back by that holder, and changes nothing for the others. */
  lemma ReadsFill(m: seq<Byte>, head: int, fs: seq<Blk>, live: map<int, Grant>, pages: set<int>, total: int,
                  used: int, held: seq<Handle>, c: Call, m': seq<Byte>)
    requires Sane(m, head, fs, live, pages, total, used) && Holds(held, live) && Reads(m, held) && Fits(held, c)
    requires var p := held[c.i].ptr; 0 <= p + c.at && p + c.at + |c.bytes| <= |m| && m' == Patch(m, p + c.at, c.bytes)
    ensures Reads(m', After(held, c, 0))
  {
    var held' := After(held, c, 0);
    hide Sane, Patch, Held;
    SaneHeld(m, head, fs, live, pages, total, used);
    forall j | 0 <= j < |held| ensures Finds(m', held'[j]) {
      if j == c.i {
        FindsFill(m, held[j], c.at, c.bytes, m');
      } else {
        var p, q := held[c.i].ptr, held[j].ptr;
        assert Known(held[j], live) && Known(held[c.i], live);
        GrantsApart(m, head, fs, live, pages, total, used, p, q);
        HeldInside(m, p, live[p]);
        FindsKept(m, m', held[j], live);
      }
    }
  }

  lemma HeldInside(m: seq<Byte>, p: int, g: Grant)
    requires Held(m, p, g)
    ensures g.blk.addr + HDR <= p && p + g.size <= g.blk.End() <= TWO32 == |m|
  {
  }

  lemma FindsFill(m: seq<Byte>, h: Handle, at: nat, bytes: seq<Byte>, m': seq<Byte>)
    requires Finds(m, h) && at + |bytes| <= |h.bytes| && m' == Patch(m, h.ptr + at, bytes)
    ensures Finds(m', h.(bytes := Patch(h.bytes, at, bytes)))
  {
    var now := Patch(h.bytes, at, bytes);
    forall x | 0 <= x < |now| ensures m'[h.ptr + x] == now[x] {
      assert h.bytes[x] == m[h.ptr + x];
    }
    assert m'[h.ptr..h.ptr + |now|] == now;
  }

  lemma SearchedEights(fs: seq<Blk>, need: int, start: int)
    requires Eights(fs) && 0 <= need
    ensures Eights(Searched(fs, need, start))
  {
    hide Insert, FirstFit, PagesFor, Eight;
    NewBlockEight(start, PagesFor(need));
    InsertEights(fs, NewBlock(start, PagesFor(need)));
  }

  lemma GrantEights(fs: seq<Blk>, live: map<int, Grant>, size: int, align: int, start: int, k: int, p: int, g: Grant)
    requires AllEight(fs, live) && 0 < size && (AlignOf(align) > 16 ==> size % 8 == 0)
    requires var need := NeedOf(size, AlignOf(align)); var src := Searched(fs, need, start);
             0 <= k < |src| && g.blk == Taken(src[k], need)
    ensures var need := NeedOf(size, AlignOf(align));
            AllEight(Remaining(Searched(fs, need, start), k, need), live[p := g])
  {
    hide Insert, FirstFit, PagesFor, Eight, Searched, Remaining, Taken, NeedOf, AlignOf;
    var need := NeedOf(size, AlignOf(align));
    NeedEight(size, align);
    SearchedEights(fs, need, start);
    RemainingEights(Searched(fs, need, start), k, need);
  }

  lemma FreeEights(fs: seq<Blk>, live: map<int, Grant>, p: int)
    requires AllEight(fs, live) && p in live
    ensures AllEight(Insert(fs, live[p].blk), live - {p})
  {
    hide Insert, Eight;
    InsertEights(fs, live[p].blk);
  }

  lemma SaneHeld(m: seq<Byte>, head: int, fs: seq<Blk>, live: map<int, Grant>, pages: set<int>, total: int, used: int)
    requires Sane(m, head, fs, live, pages, total, used)
    ensures |m| == TWO32 && AllHeld(m, live)
    ensures forall p :: p in live ==> HDR <= p <= TWO32 && live[p].blk.addr > 0 && 0 < live[p].blk.Weight()
  {
    forall p | p in live ensures HDR <= p <= TWO32 && live[p].blk.addr > 0 && 0 < live[p].blk.Weight() {
      assert Held(m, p, live[p]);
    }
  }

  /** The holder of an over-aligned pointer can see the misreading coming: its block's address is in
      the eight bytes in front of it. */
  predicate Foretold(m: seq<Byte>, h: Handle)
    requires |m| == TWO32 && HDR <= h.ptr <= TWO32
  {
    h.over && Le64(m, h.ptr - 8) == CANARY_ALLOC && Le32(m, h.ptr - HDR) == MAGIC_ALLOC
  }

  lemma ForetoldIsMisread(m: seq<Byte>, h: Handle, g: Grant)
    requires Held(m, h.ptr, g) && h.over == g.over
    ensures |m| == TWO32 && HDR <= h.ptr <= TWO32 && (Foretold(m, h) <==> Misread(m, h.ptr, g))
    ensures Foretold(m, h) <==> FreeTarget(m, h.ptr) != g.blk.addr
    ensures Eight(g.blk) ==> !Foretold(m, h)
  {
    hide Le32, Le64, HeadAt, FreeTarget;
    ReleasesOwnBlock(m, h.ptr, g);
  }

  // ---- what a call does ---------------------------------------------------------------------------------

  /** The heap and the page bitmap it draws on. */
  datatype Snap = Snap(mem: seq<Byte>, free: seq<Blk>, live: map<int, Grant>, bits: seq<bool>, highest: int, up: bool)

  ghost function SnapOf(h: KernelHeap): Snap
    requires h.pmm.Shape()
    reads h, h.pmm, h.pmm.bitmap
  {
    Snap(h.mem, h.free, h.live, h.pmm.Bits(), h.pmm.highest, h.pmm.ready)
  }

  /** kmalloc_aligned on a heap that is ready: a null pointer, and no change, if nothing was asked for or if no
      free block fits and there is no run of free pages; otherwise poisoned bytes in the lowest block that fits,
      the list having grown by the lowest run (`start`) if none did. */
  ghost predicate Gives(s: Snap, size: nat, align: nat, ptr: int, start: int, s': Snap)
    requires 0 <= s.highest <= |s.bits|
  {
    var need := NeedOf(size, AlignOf(align));
    var full := FirstFit(s.free, need, 0) < 0;
    && (size != 0 && full && (s.up || 0 <= start) ==> Pmm.Lowest(s.bits, s.highest, PagesFor(need), start))
    && if size == 0 || (full && start < 0) then ptr == 0 && s' == s
       else
         var src := Searched(s.free, need, start);
         var k := FirstFit(src, need, 0);
         && ptr != 0 && 0 <= k && ptr !in s.live && Placed(ptr, src[k].addr, AlignOf(align))
         && s'.free == Remaining(src, k, need)
         && s'.live == s.live[ptr := Grant(Taken(src[k], need), size, AlignOf(align) > 16)]
         && Filled(s'.mem, ptr, size, POISON_ALLOC) && SameOnLive(s.mem, s'.mem, s.live)
         && (if !full then s'.bits == s.bits
             else 0 <= start && s'.bits == Pmm.Filled(s.bits, start, start + PagesFor(need), true))
         && s'.highest == s.highest && s'.up == s.up
  }

  /** kfree of a pointer that is held: its block goes back into the list. */
  ghost predicate TakesBack(s: Snap, p: int, s': Snap) {
    && p in s.live && s'.live == s.live - {p} && s'.free == Insert(s.free, s.live[p].blk)
    && SameOnLive(s.mem, s'.mem, s'.live) && s' == s.(mem := s'.mem, free := s'.free, live := s'.live)
  }

  ghost predicate Does(s: Snap, held: seq<Handle>, c: Call, ptr: int, start: int, s': Snap) {
    match c
    case Malloc(size, align) => 0 <= s.highest <= |s.bits| && Gives(s, size, align, ptr, start, s')
    case Free(i) => if i < |held| then TakesBack(s, held[i].ptr, s') else s' == s
    case Fill(i, at, bytes) =>
      if Fits(held, c) then
        && 0 <= held[i].ptr && held[i].ptr + at + |bytes| <= |s.mem|
        && s' == s.(mem := Patch(s.mem, held[i].ptr + at, bytes))
      else s' == s
  }

  /** One call.  A free that the heap would misread is not made. */
  method Step(h: KernelHeap, c: Call, held: seq<Handle>) returns (ptr: int, held': seq<Handle>, stop: bool,
                                                                  ghost start: int)
    requires h.Valid() && h.ready && Holds(held, h.live) && Reads(h.mem, held) && Bounded(c)
    modifies h, h.pmm.bitmap, h.pmm`used
    ensures h.Valid() && h.ready && Holds(held', h.live) && Reads(h.mem, held')
    ensures stop <==> c.Free? && c.i < |held| && Doomed(old(h.mem), old(h.live), held[c.i].ptr)
    ensures stop ==> held' == held && SnapOf(h) == old(SnapOf(h))
    ensures !stop ==> held' == After(held, c, ptr) && Does(old(SnapOf(h)), held, c, ptr, start, SnapOf(h))
    ensures AllEight(old(h.free), old(h.live)) && InEights(c) ==> !stop && AllEight(h.free, h.live)
  {
    hide Sane, AllEight, Owned, Holds, Reads, Doomed, Gives, TakesBack, Insert, SameOnLive, Pmm.BitsOf, After;
    ptr, held', stop, start := 0, held, false, -1;
    match c {
      case Malloc(size, align) =>
        ptr, held', start := StepMalloc(h, size, align, held);
      case Free(i) =>
        AfterNone(held, c);
        if i < |held| { held', stop := StepFree(h, i, held); }
      case Fill(i, at, bytes) =>
        AfterNone(held, c);
        if Fits(held, c) { held' := StepFill(h, c, held); }
    }
  }

  lemma AfterNone(held: seq<Handle>, c: Call)
    requires !c.Malloc?
    ensures (c.Free? && c.i >= |held|) || (c.Fill? && !Fits(held, c)) ==> After(held, c, 0) == held
    ensures c.Free? && c.i < |held| ==> After(held, c, 0) == held[..c.i] + held[c.i + 1..]
  {
  }

  /** kfree of `p` would not release the block of `p`. */
  ghost predicate Doomed(m: seq<Byte>, live: map<int, Grant>, p: int) {
    && p in live && |m| == TWO32 && HDR <= p <= TWO32
    && Misread(m, p, live[p]) && FreeTarget(m, p) != live[p].blk.addr
  }

  method StepMalloc(h: KernelHeap, size: nat, align: nat, held: seq<Handle>)
    returns (ptr: int, held': seq<Handle>, ghost start: int)
    requires h.Valid() && h.ready && Holds(held, h.live) && Reads(h.mem, held) && Bounded(Malloc(size, align))
    modifies h, h.pmm.bitmap, h.pmm`used
    ensures h.Valid() && h.ready && Holds(held', h.live) && Reads(h.mem, held')
    ensures held' == After(held, Malloc(size, align), ptr)
    ensures Gives(old(SnapOf(h)), size, align, ptr, start, SnapOf(h))
    ensures AllEight(old(h.free), old(h.live)) && InEights(Malloc(size, align)) ==> AllEight(h.free, h.live)
  {
    hide Sane, Linked, Insert, FirstFit, Remaining, Taken, Searched, AllEight, Owned, NeedOf, AlignOf, Filled,
      SameOnLive, Held, FreeTarget, HeadAt, Holds, Placed, SameOn, Pmm.Filled, Pmm.Lowest, PagesFor, Reads, AllHeld;
    ghost var m, fs, live := h.mem, h.free, h.live;
    ghost var g;
    SaneHeld(m, h.freeList, fs, live, h.pages, h.total, h.used);
    ptr, g, start := h.KmallocAligned(size, align);
    held' := After(held, Malloc(size, align), ptr);
    if ptr == 0 { return; }
    ghost var need := NeedOf(size, AlignOf(align));
    if AllEight(fs, live) && InEights(Malloc(size, align)) {
      GrantEights(fs, live, size, align, start, FirstFit(Searched(fs, need, start), need, 0), ptr, g);
    }
    MallocHeld(m, h.mem, held, live, ptr, g);
  }

  lemma MallocHeld(m: seq<Byte>, m': seq<Byte>, held: seq<Handle>, live: map<int, Grant>, p: int, g: Grant)
    requires Holds(held, live) && Reads(m, held) && AllHeld(m, live) && SameOnLive(m, m', live) && p !in live
    requires 0 <= g.size && Filled(m', p, g.size, POISON_ALLOC)
    ensures var held' := held + [Handle(p, g.over, seq(g.size, _ => POISON_ALLOC))];
            Holds(held', live[p := g]) && Reads(m', held')
  {
    assert forall i :: 0 <= i < |held| ==> Known(held[i], live);
    HoldsMore(held, live, p, g, seq(g.size, _ => POISON_ALLOC));
    hide Holds, Filled, Reads, AllHeld, SameOnLive;
    ReadsKept(m, m', held, live);
    ReadsMore(m', held, p, g.over, g.size);
  }

  method StepFree(h: KernelHeap, i: nat, held: seq<Handle>) returns (held': seq<Handle>, stop: bool)
    requires h.Valid() && h.ready && Holds(held, h.live) && Reads(h.mem, held) && i < |held|
    modifies h, h.pmm.bitmap, h.pmm`used
    ensures h.Valid() && h.ready && Holds(held', h.live) && Reads(h.mem, held')
    ensures stop <==> Doomed(old(h.mem), old(h.live), held[i].ptr)
    ensures if stop then held' == held && SnapOf(h) == old(SnapOf(h))
            else held' == held[..i] + held[i + 1..] && TakesBack(old(SnapOf(h)), held[i].ptr, SnapOf(h))
    ensures AllEight(old(h.free), old(h.live)) ==> !stop && AllEight(h.free, h.live)
  {
    hide Sane, Linked, Insert, Owned, SameOnLive, Held, FreeTarget, HeadAt, Tight, Eight, Foretold, Misread, Pos,
      Pmm.BitsOf, Reads, AllHeld;
    ghost var m, fs, live, p := h.mem, h.free, h.live, held[i].ptr;
    SaneHeld(h.mem, h.freeList, fs, live, h.pages, h.total, h.used);
    assert Known(held[i], live) && Held(m, p, live[p]);
    ForetoldIsMisread(h.mem, held[i], live[p]);
    stop := Foretold(h.mem, held[i]);
    if stop { return held, true; }
    if AllEight(fs, live) { FreeEights(fs, live, p); }
    hide AllEight, Holds;
    assert BlockAt(live, live[p].blk.addr);
    ghost var q := h.Kfree(held[i].ptr);
    held' := held[..i] + held[i + 1..];
    FreeHeld(m, h.mem, held, live, i);
  }

  lemma FreeHeld(m: seq<Byte>, m': seq<Byte>, held: seq<Handle>, live: map<int, Grant>, i: nat)
    requires i < |held| && Holds(held, live) && Reads(m, held) && AllHeld(m, live)
    requires SameOnLive(m, m', live - {held[i].ptr})
    ensures var held' := held[..i] + held[i + 1..]; Holds(held', live - {held[i].ptr}) && Reads(m', held')
  {
    var held', rest := held[..i] + held[i + 1..], live - {held[i].ptr};
    HoldsLess(held, live, i);
    KnownLess(held, live, i);
    hide Holds, Reads, AllHeld, SameOnLive, Known;
    ReadsLess(m, held, i);
    HeldLess(m, live, held[i].ptr);
    ReadsKept(m, m', held', rest);
  }

  lemma KnownLess(held: seq<Handle>, live: map<int, Grant>, i: nat)
    requires Holds(held, live) && i < |held|
    ensures var held' := held[..i] + held[i + 1..];
            forall j :: 0 <= j < |held'| ==> Known(held'[j], live - {held[i].ptr})
  {
    var held' := held[..i] + held[i + 1..];
    forall j | 0 <= j < |held'| ensures Known(held'[j], live - {held[i].ptr}) {
      var k := if j < i then j else j + 1;
      assert held'[j] == held[k] && Known(held[k], live);
    }
  }

  lemma ReadsLess(m: seq<Byte>, held: seq<Handle>, i: nat)
    requires Reads(m, held) && i < |held|
    ensures Reads(m, held[..i] + held[i + 1..])
  {
    hide Finds;
  }

  lemma HeldLess(m: seq<Byte>, live: map<int, Grant>, p: int)
    requires AllHeld(m, live)
    ensures AllHeld(m, live - {p})
  {
    hide Held;
  }

  /** The client's own write. */
  method StepFill(h: KernelHeap, c: Call, held: seq<Handle>) returns (held': seq<Handle>)
    requires h.Valid() && h.ready && Holds(held, h.live) && Reads(h.mem, held) && Fits(held, c)
    modifies h`mem
    ensures h.Valid() && Holds(held', h.live) && Reads(h.mem, held') && held' == After(held, c, 0)
    ensures Does(old(SnapOf(h)), held, c, 0, -1, SnapOf(h))
  {
    hide Sane, Owned, AllHeld, Patch, Pmm.BitsOf;
    ghost var m, p := h.mem, held[c.i].ptr;
    held' := After(held, c, 0);
    assert Known(held[c.i], h.live) && Finds(m, held[c.i]);
    HoldsSame(held, h.live, c.i, held'[c.i].bytes);
    hide Holds, Reads, Known, Finds;
    h.mem := Patch(h.mem, held[c.i].ptr + c.at, c.bytes);
    PatchOutside(m, h.mem, p, c.at, c.bytes, h.live[p].size);
    UserWrite(m, h.freeList, h.free, h.live, h.pages, h.total, h.used, p, h.mem);
    ReadsFill(m, h.freeList, h.free, h.live, h.pages, h.total, h.used, held, c, h.mem);
  }

  lemma PatchOutside(m: seq<Byte>, m': seq<Byte>, p: int, at: nat, bytes: seq<Byte>, size: int)
    requires 0 <= p && p + at + |bytes| <= |m| && m' == Patch(m, p + at, bytes) && at + |bytes| <= size
    ensures Outside(m, m', p, p + size)
  {
  }

  /** A run from a heap with nothing handed out: each call finds the state that the one before left and the
      pointers that the calls before gave the client. */
  ghost predicate Traced(calls: seq<Call>, ptrs: seq<int>, starts: seq<int>, states: seq<Snap>) {
    && |calls| == |ptrs| == |starts| == |states| - 1
    && forall i :: 0 <= i < |calls| ==>
         Does(states[i], Replay(calls[..i], ptrs[..i]), calls[i], ptrs[i], starts[i], states[i + 1])
  }

  lemma TraceGrows(calls: seq<Call>, ptrs: seq<int>, starts: seq<int>, states: seq<Snap>, c: Call, ptr: int,
                   start: int, s: Snap)
    requires Traced(calls, ptrs, starts, states)
    requires Does(states[|calls|], Replay(calls, ptrs), c, ptr, start, s)
    ensures Traced(calls + [c], ptrs + [ptr], starts + [start], states + [s])
    ensures Replay(calls + [c], ptrs + [ptr]) == After(Replay(calls, ptrs), c, ptr)
  {
    ReplayMore(calls, ptrs, c, ptr);
    hide Does, After, Replay;
    var calls', ptrs', states' := calls + [c], ptrs + [ptr], states + [s];
    forall i | 0 <= i < |calls'|
      ensures Does(states'[i], Replay(calls'[..i], ptrs'[..i]), calls'[i], ptrs'[i], (starts + [start])[i],
                   states'[i + 1])
    {
      assert calls'[..i] == if i == |calls| then calls else calls[..i];
      assert ptrs'[..i] == if i == |calls| then ptrs else ptrs[..i];
    }
  }

  /** Every run of bounded calls: the heap stays sane, the client's pointers are exactly the live ones, each
      holder reads back what it wrote last and the counters add up, up to the first free that the heap would
      misread.  A run whose over-aligned requests are multiples of eight, on a heap of such blocks, never gets
      there. */
  method Run(h: KernelHeap, calls: seq<Call>)
    returns (held: seq<Handle>, ptrs: seq<int>, free: int, ghost starts: seq<int>, ghost states: seq<Snap>)
    requires h.Valid() && h.ready && h.live == map[]
    requires forall i :: 0 <= i < |calls| ==> Bounded(calls[i])
    modifies h, h.pmm.bitmap, h.pmm`used
    ensures h.Valid() && h.ready && Holds(held, h.live) && Reads(h.mem, held) && |ptrs| <= |calls|
    ensures Traced(calls[..|ptrs|], ptrs, starts, states) && held == Replay(calls[..|ptrs|], ptrs)
    ensures states[0] == old(SnapOf(h)) && states[|ptrs|] == SnapOf(h)
    ensures |ptrs| < |calls| ==> var c := calls[|ptrs|];
              c.Free? && c.i < |held| && Doomed(h.mem, h.live, held[c.i].ptr)
    ensures AllEight(old(h.free), old(h.live)) && (forall i :: 0 <= i < |calls| ==> InEights(calls[i])) ==>
              |ptrs| == |calls| && AllEight(h.free, h.live)
    ensures free == Sum(h.free) && h.used == SumSet(LiveBlocks(h.live)) && free + h.used == h.total
  {
    hide Sane, AllEight, Owned, Bounded, InEights, Sum, SumSet, Holds, Doomed, Reads, Does, After, Replay, Traced,
      Pmm.BitsOf;
    held, ptrs, starts, states := [], [], [], [SnapOf(h)];
    NoneHeld(h.mem, SnapOf(h));
    assert calls[..0] == [];
    ghost var eights := AllEight(h.free, h.live) && (forall i :: 0 <= i < |calls| ==> InEights(calls[i]));
    var stop := false;
    while |ptrs| < |calls| && !stop
      invariant |ptrs| <= |calls| && h.Valid() && h.ready && Holds(held, h.live) && Reads(h.mem, held)
      invariant Traced(calls[..|ptrs|], ptrs, starts, states) && held == Replay(calls[..|ptrs|], ptrs)
      invariant |states| == |ptrs| + 1 && states[0] == old(SnapOf(h)) && states[|ptrs|] == SnapOf(h)
      invariant stop ==> |ptrs| < |calls| && calls[|ptrs|].Free? && calls[|ptrs|].i < |held|
      invariant stop ==> Doomed(h.mem, h.live, held[calls[|ptrs|].i].ptr)
      invariant eights ==> !stop && AllEight(h.free, h.live)
      decreases |calls| - |ptrs|, !stop
    {
      var c, ptr := calls[|ptrs|], 0;
      ghost var start;
      ghost var was := held;
      ptr, held, stop, start := Step(h, c, held);
      if !stop {
        TraceGrows(calls[..|ptrs|], ptrs, starts, states, c, ptr, start, SnapOf(h));
        assert calls[..|ptrs| + 1] == calls[..|ptrs|] + [c];
        ptrs, starts, states := ptrs + [ptr], starts + [start], states + [SnapOf(h)];
      }
    }
    free := h.HeapFreeBytes();
    Balance(h.mem, h.freeList, h.free, h.live, h.pages, h.total, h.used);
    TraceSizes(calls[..|ptrs|], ptrs, starts, states);
  }

  lemma TraceSizes(calls: seq<Call>, ptrs: seq<int>, starts: seq<int>, states: seq<Snap>)
    requires Traced(calls, ptrs, starts, states)
    ensures |calls| == |ptrs| == |starts| == |states| - 1
  {
  }

  lemma NoneHeld(m: seq<Byte>, s: Snap)
    ensures Holds([], map[]) && Reads(m, []) && Traced([], [], [], [s]) && Replay([], []) == []
  {
  }

  /** From heap_init on, a run whose over-aligned requests are multiples of eight is carried out to its end. */
  method Boot(h: KernelHeap, calls: seq<Call>)
    returns (r: int, held: seq<Handle>, ptrs: seq<int>, ghost starts: seq<int>, ghost states: seq<Snap>)
    requires h.Valid()
    requires forall i :: 0 <= i < |calls| ==> Bounded(calls[i])
    modifies h, h.pmm.bitmap, h.pmm`used
    ensures h.Valid() && |ptrs| <= |calls|
    ensures h.pmm.ready ==> (r == -1 <==> Pmm.Lowest(old(h.pmm.Bits()), h.pmm.highest, 16, -1))
    ensures r == 0 ==>
              && Holds(held, h.live) && Reads(h.mem, held) && held == Replay(calls[..|ptrs|], ptrs)
              && Traced(calls[..|ptrs|], ptrs, starts, states) && states[|ptrs|] == SnapOf(h)
              && exists start :: Booted(old(h.pmm.Bits()), h.pmm.highest, start, states[0])
    ensures r == 0 && |ptrs| < |calls| ==> var c := calls[|ptrs|];
              c.Free? && c.i < |held| && Doomed(h.mem, h.live, held[c.i].ptr)
    ensures r == 0 && (forall i :: 0 <= i < |calls| ==> InEights(calls[i])) ==> |ptrs| == |calls|
  {
    hide Sane, Owned, Bounded, InEights, Sum, SumSet, Holds, Doomed, Pmm.Lowest, Pmm.Filled, Eight, NewBlock, Reads,
      Does, Replay, Traced, Pmm.BitsOf;
    ghost var start;
    ghost var bits := h.pmm.Bits();
    r, start := h.HeapInit();
    held, ptrs, starts, states := [], [], [], [];
    if h.pmm.ready { RunOrNone(bits, h.pmm.highest, 16, start); }
    if r != 0 { return; }
    NewBlockIsEight(start, 16);
    ghost var s := SnapOf(h);
    assert Booted(bits, h.pmm.highest, start, s);
    var free;
    held, ptrs, free, starts, states := Run(h, calls);
  }

  lemma RunOrNone(bits: seq<bool>, hi: int, n: int, start: int)
    requires 0 <= hi <= |bits| && Pmm.Lowest(bits, hi, n, start)
    ensures start < 0 <==> Pmm.Lowest(bits, hi, n, -1)
  {
    if Pmm.Lowest(bits, hi, n, -1) { Pmm.LowestUnique(bits, hi, n, start, -1); }
  }

  /** heap_init's state: the lowest run of sixteen free pages is the one free block, and nothing is handed out. */
  ghost predicate Booted(bits: seq<bool>, highest: int, start: int, s: Snap) {
    && 0 <= highest <= |bits| && 0 <= start && Pmm.Lowest(bits, highest, 16, start)
    && s.free == [NewBlock(start, 16)] && s.live == map[] && s.bits == Pmm.Filled(bits, start, start + 16, true)
  }

  lemma NewBlockIsEight(start: int, n: int)
    ensures Eight(NewBlock(start, n))
  {
    NewBlockEight(start, n);
  }

  // ---- 16-byte alignment ------------------------------------------------------------------------------

  lemma SearchedPaged(fs: seq<Blk>, need: int, start: int)
    requires Paged(fs) && 0 <= need
    ensures Paged(Searched(fs, need, start))
  {
    hide Insert, FirstFit, PagesFor;
    InsertPaged(fs, NewBlock(start, PagesFor(need)));
  }

  /** heap.h:10 promises 16-byte alignment.  While every free block starts on a page, no plain pointer has it. */
  method KmallocOffEight(h: KernelHeap, size: int) returns (ptr: int)
    requires h.Valid() && Paged(h.free) && 0 <= size && size + 16 + HDR + MIN_BLOCK + PAGE + 16 <= Pmm.TWO64
    modifies h, h.pmm.bitmap, h.pmm`used
    ensures h.Valid() && (ptr != 0 ==> ptr % 16 == 8)
  {
    hide Sane, Insert, FirstFit, Remaining, Taken, Searched, Owned, NeedOf, Filled, SameOnLive, Held, SameOn,
      Pmm.Filled, Pmm.Lowest, PagesFor, Paged;
    ghost var fs := h.free;
    ghost var g, start;
    ptr, g, start := h.KmallocAligned(size, 16);
    ghost var need := NeedOf(size, 16);
    SearchedPaged(fs, need, start);
    if ptr != 0 { OnPage(Searched(fs, need, start), FirstFit(Searched(fs, need, start), need, 0), ptr); }
  }

  lemma OnPage(fs: seq<Blk>, k: int, p: int)
    requires Paged(fs) && 0 <= k < |fs| && p == fs[k].addr + HDR
    ensures p % 16 == 8
  {
  }

  /** The first kmalloc after heap_init breaks the promise. */
  method FirstKmalloc(h: KernelHeap, size: int) returns (r: int, ptr: int)
    requires h.Valid() && 0 <= size && size + 16 + HDR + MIN_BLOCK + PAGE + 16 <= Pmm.TWO64
    modifies h, h.pmm.bitmap, h.pmm`used
    ensures h.Valid() && (r == 0 && ptr != 0 ==> ptr % 16 == 8)
  {
    hide Sane, Owned, Pmm.Filled, Pmm.Lowest;
    ghost var start;
    r, start := h.HeapInit();
    ptr := 0;
    if r == 0 { ptr := KmallocOffEight(h, size); }
  }

  // ---- freeing twice ------------------------------------------------------------------------------------

  lemma PlainReleases(m: seq<Byte>, p: int, g: Grant)
    requires Held(m, p, g) && !g.over
    ensures |m| == TWO32 && HDR <= p <= TWO32 && p == g.blk.addr + HDR && FreeTarget(m, p) == g.blk.addr
  {
    hide HeadAt, Le32, Le64;
    ReleasesOwnBlock(m, p, g);
  }

  /** A plain request served from the list, and given back at once. */
  method TakeAndGive(h: KernelHeap, size: int, ghost k: int) returns (p: int)
    requires h.Valid() && h.ready && 0 < size && size + 16 + HDR + MIN_BLOCK + PAGE + 16 <= Pmm.TWO64
    requires k == FirstFit(h.free, NeedOf(size, 16), 0) && 0 <= k
    modifies h, h.pmm.bitmap, h.pmm`used
    ensures h.Valid() && h.ready && p != 0 && h.live == old(h.live) && p == old(h.free)[k].addr + HDR && p !in h.live
    ensures var need := NeedOf(size, 16); h.free == Insert(Remaining(old(h.free), k, need), Taken(old(h.free)[k], need))
  {
    hide Sane, Insert, FirstFit, Remaining, Taken, Owned, NeedOf, Filled, SameOnLive, Held, SameOn, Pmm.Filled,
      Pmm.Lowest, PagesFor, FreeTarget, HeadAt, Tight, Pos;
    ghost var live := h.live;
    ghost var g, start, q;
    p, g, start := h.KmallocAligned(size, 16);
    PlainReleases(h.mem, p, g);
    assert BlockAt(h.live, h.live[p].blk.addr);
    q := h.Kfree(p);
    assert h.live == live;
  }

  /** kmalloc, kfree, kmalloc of the same size, and the first pointer freed again: the second kmalloc
      returns the first pointer, and the second kfree takes its block away from the new holder. */
  method FreeTwice(h: KernelHeap, size: int) returns (p: int, q: int, ghost between: map<int, Grant>)
    requires h.Valid() && h.ready && 0 < size && size + 16 + HDR + MIN_BLOCK + PAGE + 16 <= Pmm.TWO64
    requires var need := NeedOf(size, 16); var k := FirstFit(h.free, need, 0); 0 <= k && Splits(h.free[k], need)
    modifies h, h.pmm.bitmap, h.pmm`used
    ensures h.Valid() && p == q != 0 && q in between && between == old(h.live)[q := between[q]] && q !in h.live
    ensures h.live == old(h.live)
  {
    hide Sane, Insert, FirstFit, Remaining, Taken, Owned, NeedOf, Splits, Filled, SameOnLive, Held, SameOn, Pmm.Filled,
      Pmm.Lowest, PagesFor, FreeTarget, HeadAt, Tight, Pos;
    ghost var fs, need := h.free, NeedOf(size, 16);
    ghost var k := FirstFit(fs, need, 0);
    SaneList(h.mem, h.freeList, fs, h.live, h.pages, h.total, h.used);
    SameAgain(fs, need);
    TakenRoom(fs[k], need);
    p := TakeAndGive(h, size, k);
    ghost var g, start, x;
    q, g, start := h.KmallocAligned(size, 16);
    PlainReleases(h.mem, q, g);
    between := h.live;
    assert BlockAt(h.live, h.live[q].blk.addr);
    x := h.Kfree(p);
    assert h.live == old(h.live);
  }

  // ---- neighbours that stay apart -------------------------------------------------------------------------

  /** A plain request that cuts its block off the front of the only free block. */
  method CutOff(h: KernelHeap, size: int, ghost b: Blk) returns (p: int)
    requires h.Valid() && h.ready && 0 < size && size + 16 + HDR + MIN_BLOCK + PAGE + 16 <= Pmm.TWO64
    requires h.free == [b] && Splits(b, NeedOf(size, 16))
    modifies h, h.pmm.bitmap, h.pmm`used
    ensures h.Valid() && h.ready && h.free == [Rest(b, NeedOf(size, 16))] && p !in old(h.live)
    ensures h.live == old(h.live)[p := Grant(Blk(b.addr, NeedOf(size, 16)), size, false)]
  {
    hide Sane, Insert, FirstFit, Remaining, Taken, Owned, NeedOf, Filled, SameOnLive, Held, SameOn, Splits,
      Pmm.Filled, Pmm.Lowest, PagesFor, HeadAt;
    CutFirst(b, NeedOf(size, 16));
    ghost var g, start;
    p, g, start := h.KmallocAligned(size, 16);
  }

  /** A plain pointer given back. */
  method GiveBack(h: KernelHeap, p: int)
    requires h.Valid() && h.ready && p in h.live && !h.live[p].over
    modifies h, h.pmm.bitmap, h.pmm`used
    ensures h.Valid() && h.ready && h.live == old(h.live) - {p} && h.free == Insert(old(h.free), old(h.live)[p].blk)
  {
    hide Sane, Insert, Owned, SameOnLive, Held, FreeTarget, HeadAt, Tight, Pos;
    SaneHeld(h.mem, h.freeList, h.free, h.live, h.pages, h.total, h.used);
    assert Held(h.mem, p, h.live[p]);
    PlainReleases(h.mem, p, h.live[p]);
    assert BlockAt(h.live, h.live[p].blk.addr);
    ghost var q := h.Kfree(p);
  }

  method TakeThree(h: KernelHeap, size: int, ghost b: Blk) returns (one: int, two: int, three: int)
    requires h.Valid() && h.ready && 0 < size && size + 16 + HDR + MIN_BLOCK + PAGE + 16 <= Pmm.TWO64
    requires h.free == [b] && b.size - 3 * NeedOf(size, 16) - 2 * HDR >= HDR + MIN_BLOCK
    modifies h, h.pmm.bitmap, h.pmm`used
    ensures var need := NeedOf(size, 16); var r1 := Rest(b, need); var r2 := Rest(r1, need);
            h.Valid() && h.ready && h.free == [Rest(r2, need)] && Adds(old(h.live), h.live, one, two, three)
            && h.live[one].blk == Blk(b.addr, need) && h.live[two].blk == Blk(r1.addr, need)
            && h.live[three].blk == Blk(r2.addr, need)
  {
    hide Sane, Owned, NeedOf;
    ghost var r1 := Rest(b, NeedOf(size, 16));
    one := CutOff(h, size, b);
    two := CutOff(h, size, r1);
    three := CutOff(h, size, Rest(r1, NeedOf(size, 16)));
  }

  /** `l'` is `l` with three plain pointers more. */
  ghost predicate Adds(l: map<int, Grant>, l': map<int, Grant>, one: int, two: int, three: int) {
    && one in l' && two in l' && three in l' && one != two && two != three && one != three
    && !l'[one].over && !l'[two].over && !l'[three].over && l' - {one, three, two} == l
  }

  /** heap.c:66-92 leaves touching free blocks: after three kmallocs freed in the order first, third, second, all
      that was taken is free again, but in two blocks that touch. */
  method LeavesTouching(h: KernelHeap, size: int, ghost b: Blk)
    requires h.Valid() && h.ready && 0 < size && size + 16 + HDR + MIN_BLOCK + PAGE + 16 <= Pmm.TWO64
    requires h.free == [b] && b.size - 3 * NeedOf(size, 16) - 2 * HDR >= HDR + MIN_BLOCK
    modifies h, h.pmm.bitmap, h.pmm`used
    ensures h.Valid() && h.live == old(h.live) && |h.free| == 2 && h.free[0].End() == h.free[1].addr && !Loose(h.free)
  {
    hide Sane, Owned, NeedOf, Insert, Loose;
    FirstThirdSecond(b, NeedOf(size, 16));
    var one, two, three := TakeThree(h, size, b);
    ghost var l := h.live;
    GiveBack(h, one);
    GiveBack(h, three);
    GiveBack(h, two);
    assert l - {one} - {three} - {two} == l - {one, three, two};
  }

  // ---- a pointer that releases the wrong block ------------------------------------------------------

  /** Whether an over-aligned pointer will be misread is settled by its block's address and by the four
      bytes that already lie 24 bytes in front of it: kmalloc_aligned writes nothing between the header
      and the back pointer. */
  lemma MisreadForeseen(m: seq<Byte>, m': seq<Byte>, p: int, g: Grant, a: int)
    requires Held(m', p, g) && g.over && 16 < a && IsPowerOfTwo(a) && Placed(p, g.blk.addr, a)
    requires SameOn(m, m', g.blk.addr + HDR, p - 8)
    ensures Misread(m', p, g) <==> g.blk.addr == CANARY_ALLOC && 64 <= a && Le32(m, p - HDR) == MAGIC_ALLOC
  {
    hide AlignUp, IsPowerOfTwo;
    if g.blk.addr == CANARY_ALLOC {
      PowerAbove16(a);
      if a == 32 {
        assert p == CANARY_ALLOC + 33;
        NextZero(m', CANARY_ALLOC);
      } else {
        MultipleOf64(p, a);
        assert CANARY_ALLOC + HDR <= p - HDR;
        WordSame(m, m', p - HDR);
      }
    }
  }

  lemma PowerAbove16(a: int)
    requires IsPowerOfTwo(a) && 16 < a
    ensures a == 32 || (64 <= a && a % 64 == 0)
  {
    var b := a / 2;
    var c := b / 2;
    var d := c / 2;
    var e := d / 2;
    assert IsPowerOfTwo(b) && IsPowerOfTwo(c) && IsPowerOfTwo(d) && IsPowerOfTwo(e);
    assert a == 2 * b && b == 2 * c && c == 2 * d && d == 2 * e;
    if a != 32 {
      assert e % 2 == 0 && IsPowerOfTwo(e / 2);
      assert e / 2 != 1 ==> e / 2 % 2 == 0;
    }
  }

  lemma MultipleOf64(p: int, a: int)
    requires 0 < a && a % 64 == 0 && p % a == 0
    ensures p % 64 == 0
  {
    var q, r := p / a, a / 64;
    assert p == q * (64 * r) == 64 * (q * r);
  }

  lemma NextZero(m: seq<Byte>, b: int)
    requires 0 <= b && b + HDR <= |m| && HeadAt(m, b).next == 0
    ensures Le32(m, b + 9) == 0
  {
  }

  /** Two runs of sixteen pages: the second starts at 0xA110C000, which is MAGIC_ALLOC, and the first leaves a
      block at 0x5EEF3FFF, which is CANARY_ALLOC, when 61439 bytes are taken off its front. */
  const LOW_PAGE: int := 0x5_EEE5
  const HIGH_PAGE: int := 0xA_110C
  const FIRST := Blk(LOW_PAGE * PAGE, 16 * PAGE - HDR)
  const TAIL := Blk(CANARY_ALLOC, 4073)
  const PART := Blk(CANARY_ALLOC, 73)
  const SECOND := Blk(CANARY_ALLOC + HDR + 73, 3976)
  const NEW := Blk(MAGIC_ALLOC, 16 * PAGE - HDR)

  /** A machine with two usable regions of sixteen pages. */
  method Machine(memory: seq<Byte>) returns (h: KernelHeap)
    requires |memory| == TWO32
    ensures fresh(h) && fresh(h.pmm) && fresh(h.pmm.bitmap) && h.Valid() && h.ready && h.pmm.ready
    ensures h.pmm.highest == HIGH_PAGE + 16
    ensures h.free == [FIRST] && h.live == map[]
    ensures Pmm.Lowest(h.pmm.Bits(), h.pmm.highest, 16, HIGH_PAGE)
  {
    hide Sane, Owned, Pmm.BitsOf, Pmm.Tally;
    var pmm := new Pmm.Allocator();
    var ds := [Pmm.Descriptor(7, LOW_PAGE * PAGE, 16), Pmm.Descriptor(7, HIGH_PAGE * PAGE, 16)];
    var r := pmm.Init(true, ds, 0, 0x8000, 0x9000, 96);
    TwoRegions(ds);
    forall p | 0 <= p < Pmm.MAX_PAGES
      ensures pmm.Bits()[p] == !(LOW_PAGE <= p < LOW_PAGE + 16 || HIGH_PAGE <= p < HIGH_PAGE + 16)
    {
      TwoOffers(ds, p);
    }
    ghost var bits := pmm.Bits();
    h := new KernelHeap(pmm, memory);
    TwoRuns(bits, pmm.highest);
    ghost var start;
    r, start := h.HeapInit();
    Pmm.LowestUnique(bits, pmm.highest, 16, start, LOW_PAGE);
  }

  lemma TwoRegions(ds: seq<Pmm.Descriptor>)
    requires ds == [Pmm.Descriptor(7, LOW_PAGE * PAGE, 16), Pmm.Descriptor(7, HIGH_PAGE * PAGE, 16)]
    ensures Pmm.MaxEnd(ds) == HIGH_PAGE + 16
  {
    assert ds[..1] == [ds[0]] && ds[..1][..0] == [];
    assert Pmm.MaxEnd(ds[..1]) == LOW_PAGE + 16;
  }

  lemma TwoOffers(ds: seq<Pmm.Descriptor>, p: int)
    requires ds == [Pmm.Descriptor(7, LOW_PAGE * PAGE, 16), Pmm.Descriptor(7, HIGH_PAGE * PAGE, 16)]
    ensures (forall i :: 0 <= i < |ds| ==> !Pmm.Offers(ds[i], p)) <==>
            !(LOW_PAGE <= p < LOW_PAGE + 16 || HIGH_PAGE <= p < HIGH_PAGE + 16)
    ensures LOW_PAGE <= p ==> !Pmm.Covered(Pmm.Protected(0, 0x8000, 0x9000, 96), p)
  {
    assert Pmm.Offers(ds[0], p) <==> LOW_PAGE <= p < LOW_PAGE + 16;
    assert Pmm.Offers(ds[1], p) <==> HIGH_PAGE <= p < HIGH_PAGE + 16;
  }

  lemma TwoRuns(bits: seq<bool>, hi: int)
    requires |bits| == Pmm.MAX_PAGES && hi == HIGH_PAGE + 16
    requires forall p :: 0 <= p < |bits| ==>
               bits[p] == !(LOW_PAGE <= p < LOW_PAGE + 16 || HIGH_PAGE <= p < HIGH_PAGE + 16)
    ensures Pmm.Lowest(bits, hi, 16, LOW_PAGE)
    ensures Pmm.Lowest(Pmm.Filled(bits, LOW_PAGE, LOW_PAGE + 16, true), hi, 16, HIGH_PAGE)
  {
    forall s | 0 <= s < LOW_PAGE ensures !Pmm.FreeRun(bits, s, 16) { assert bits[s]; }
    var b2 := Pmm.Filled(bits, LOW_PAGE, LOW_PAGE + 16, true);
    forall s | 0 <= s < HIGH_PAGE ensures !Pmm.FreeRun(b2, s, 16) { assert b2[s]; }
  }

  /** The list operations of the run, one after the other. */
  lemma ListAfterFiller()
    ensures FirstFit([FIRST], 61415, 0) == 0 && Remaining([FIRST], 0, 61415) == [TAIL]
  {
    assert Drop([FIRST], 0) == [];
  }

  lemma ListAfterPart()
    ensures FirstFit([TAIL], 73, 0) == 0 && Remaining([TAIL], 0, 73) == [SECOND] && Taken(TAIL, 73) == PART
  {
    assert Drop([TAIL], 0) == [];
  }

  lemma ListAfterGrowth()
    ensures FirstFit([SECOND], 5008, 0) == -1 && Insert([SECOND], NEW) == [SECOND, NEW]
    ensures FirstFit([SECOND, NEW], 5008, 0) == 1
    ensures Insert(Remaining([SECOND, NEW], 1, 5008), Taken(NEW, 5008)) == [SECOND, NEW]
  {
    PosBetween([SECOND], NEW.addr, 1);
    FitIs([SECOND, NEW], 5008, 1);
    var got, rest := Taken(NEW, 5008), Rest(NEW, 5008);
    assert Drop([SECOND, NEW], 1) == [SECOND];
    PosBetween([SECOND], rest.addr, 1);
    assert Remaining([SECOND, NEW], 1, 5008) == [SECOND, rest];
    InsertInFront([SECOND, rest], got, 1);
    assert Join(got, rest) == NEW;
  }

  lemma ListAfterJoin()
    ensures Insert([SECOND, NEW], PART) == [TAIL, NEW] && Pos([SECOND, NEW], PART.addr) == 0
    ensures FirstFit([TAIL, NEW], 4036, 0) == 0 && Taken(TAIL, 4036) == TAIL
  {
    InsertInFront([SECOND, NEW], PART, 0);
  }

  lemma Powers()
    ensures AlignOf(16) == 16 && AlignOf(32) == 32 && AlignOf(128) == 128
    ensures NeedOf(61375, 32) == 61415 && NeedOf(33, 32) == 73 && NeedOf(5000, 16) == 5008 && NeedOf(3900, 128) == 4036
    ensures PagesFor(5008) == 16
  {
    assert IsPowerOfTwo(2) && IsPowerOfTwo(4) && IsPowerOfTwo(8);
    assert IsPowerOfTwo(16) && IsPowerOfTwo(32) && IsPowerOfTwo(64);
  }

  /** kmalloc_aligned(61375, 32) moves the free block to 0x5EEF3FFF, kmalloc_aligned(33, 32) takes its front. */
  method TakePart(h: KernelHeap) returns (x: int)
    requires h.Valid() && h.ready && h.free == [FIRST] && h.live == map[]
    modifies h, h.pmm.bitmap, h.pmm`used
    ensures h.Valid() && h.ready && h.free == [SECOND] && h.pmm.Bits() == old(h.pmm.Bits())
    ensures x in h.live && h.live[x].blk == PART && h.live[x].over && Placed(x, PART.addr, 32)
  {
    hide Sane, Insert, FirstFit, Remaining, Taken, Owned, NeedOf, Filled, SameOnLive, Held, SameOn, Placed, Pmm.Filled,
      Pmm.Lowest, PagesFor, HeadAt, AlignOf;
    Powers();
    ListAfterFiller();
    ListAfterPart();
    var a;
    ghost var g, start;
    a, g, start := h.KmallocAligned(61375, 32);
    assert h.free == [TAIL];
    x, g, start := h.KmallocAligned(33, 32);
  }

  /** A request that needs new pages, and its release, leave 0xA110C000 in the link of the block behind. */
  method PlantLink(h: KernelHeap, x: int)
    requires h.Valid() && h.ready && h.pmm.ready && h.free == [SECOND] && x in h.live
    requires Pmm.Lowest(h.pmm.Bits(), h.pmm.highest, 16, HIGH_PAGE)
    modifies h, h.pmm.bitmap, h.pmm`used
    ensures h.Valid() && h.ready && h.free == [SECOND, NEW] && x in h.live && h.live[x] == old(h.live)[x]
  {
    hide Sane, Insert, FirstFit, Remaining, Taken, Owned, NeedOf, Filled, SameOnLive, Held, SameOn, Placed, Pmm.Filled,
      Pmm.Lowest, PagesFor, FreeTarget, HeadAt, Tight, Pos, AlignOf;
    Powers();
    ListAfterGrowth();
    ghost var bits := h.pmm.Bits();
    ghost var g, start, q;
    var t;
    t, g, start := h.KmallocAligned(5000, 16);
    Pmm.LowestUnique(bits, h.pmm.highest, 16, start, HIGH_PAGE);
    PlainReleases(h.mem, t, g);
    assert BlockAt(h.live, h.live[t].blk.addr);
    q := h.Kfree(t);
  }

  /** The front is given back and joins the block behind it, whose header stays in the middle. */
  method JoinOver(h: KernelHeap, x: int)
    requires h.Valid() && h.ready && h.free == [SECOND, NEW]
    requires x in h.live && h.live[x].blk == PART && h.live[x].over && Placed(x, PART.addr, 32)
    modifies h, h.pmm.bitmap, h.pmm`used
    ensures h.Valid() && h.ready && h.free == [TAIL, NEW] && |h.mem| == TWO32
    ensures Le32(h.mem, SECOND.addr + 8) == MAGIC_ALLOC
  {
    hide Sane, Insert, Owned, SameOnLive, FreeTarget, Pos, Placed;
    ListAfterJoin();
    ghost var m := h.mem;
    SaneList(m, h.freeList, h.free, h.live, h.pages, h.total, h.used);
    StaleLink(m, h.freeList);
    SaneHeld(m, h.freeList, h.free, h.live, h.pages, h.total, h.used);
    PartReleases(m, x, h.live[x]);
    assert BlockAt(h.live, h.live[x].blk.addr);
    ghost var q := h.Kfree(x);
    StaleKept(m, h.mem);
  }

  lemma StaleLink(m: seq<Byte>, head: int)
    requires Linked(m, head, [SECOND, NEW])
    ensures |m| == TWO32 && Le32(m, SECOND.addr + 8) == MAGIC_ALLOC
  {
    hide Le32;
    LinkedHead(m, head, [SECOND, NEW], 0);
    assert Le64(m, SECOND.addr + 8) == NEW.addr;
  }

  lemma StaleKept(m: seq<Byte>, m': seq<Byte>)
    requires |m| == TWO32 && Tight(m, m', PART, [SECOND, NEW], 0)
    ensures |m'| == TWO32 && Le32(m', SECOND.addr + 8) == Le32(m, SECOND.addr + 8)
  {
    WordSame(m, m', SECOND.addr + 8);
  }

  lemma PartReleases(m: seq<Byte>, x: int, g: Grant)
    requires Held(m, x, g) && g.blk == PART && g.over && Placed(x, PART.addr, 32)
    ensures |m| == TWO32 && HDR <= x <= TWO32 && FreeTarget(m, x) == PART.addr
  {
    hide Le32, Le64, HeadAt, FreeTarget, AlignUp;
    assert x == CANARY_ALLOC + 33;
    NextZero(m, CANARY_ALLOC);
    ReleasesOwnBlock(m, x, g);
  }

  /** A run from pmm_init on at whose end kfree of the last pointer would release a block that nobody
      holds: kmalloc_aligned(3900, 128) is served at 0x5EEF3FFF, and the stale link lies 24 bytes in
      front of the pointer 0x5EEF4080. */
  method MisreadRun(memory: seq<Byte>) returns (h: KernelHeap, y: int)
    requires |memory| == TWO32
    ensures h.Valid() && h.ready && y in h.live && y == 0x5EEF_4080 && Placed(y, h.live[y].blk.addr, 128)
    ensures Doomed(h.mem, h.live, y) && FreeTarget(h.mem, y) == y - HDR && !BlockAt(h.live, y - HDR)
  {
    hide Sane, Insert, FirstFit, Remaining, Taken, Owned, NeedOf, Filled, SameOnLive, SameOn, Placed, Pmm.Filled,
      Pmm.Lowest, PagesFor, HeadAt, AlignOf, FreeTarget, Le32;
    h := Machine(memory);
    var x := TakePart(h);
    PlantLink(h, x);
    JoinOver(h, x);
    Powers();
    ListAfterJoin();
    ghost var m := h.mem;
    ghost var g, start;
    y, g, start := h.KmallocAligned(3900, 128);
    WrongBlock(m, h.mem, h.freeList, h.free, h.live, h.pages, h.total, h.used, y);
  }

  lemma WrongBlock(m: seq<Byte>, m': seq<Byte>, head: int, fs: seq<Blk>, live: map<int, Grant>, pages: set<int>,
                   total: int, used: int, y: int)
    requires Sane(m', head, fs, live, pages, total, used) && y in live && live[y].blk == TAIL && live[y].over
    requires Placed(y, TAIL.addr, 128) && SameOn(m, m', TAIL.addr + HDR, y - 8)
    requires |m| == TWO32 && Le32(m, SECOND.addr + 8) == MAGIC_ALLOC
    ensures y == 0x5EEF_4080 && Doomed(m', live, y) && FreeTarget(m', y) == y - HDR && !BlockAt(live, y - HDR)
  {
    hide Linked, Tiled, SumSet, Sum, Le32, HeadAt;
    assert y == 0x5EEF_4080 && y - HDR == SECOND.addr + 8;
    assert Held(m', y, live[y]);
    WordSame(m, m', y - HDR);
    ReleasesOwnBlock(m', y, live[y]);
    TargetMisread(m', y, live[y]);
    forall q | q in live ensures live[q].blk.addr != y - HDR {
      assert live[q].blk in LiveBlocks(live) && live[y].blk in LiveBlocks(live);
      LiveApart(fs, LiveBlocks(live), pages, live[y].blk);
      assert Held(m', q, live[q]);
    }
  }

  lemma TargetMisread(m: seq<Byte>, p: int, g: Grant)
    requires Held(m, p, g) && Misread(m, p, g)
    ensures FreeTarget(m, p) == p - HDR
  {
    hide Le32;
    assert Le64(m, p - 8) == Le32(m, p - 8) + TWO32 * Le32(m, p - 4);
    assert HeadAt(m, p - HDR).canary == Le32(m, p - 8) && HeadAt(m, p - HDR).magic == Le32(m, p - HDR);
  }
}
