/**
  The kernel heap of kernel/mm/heap.c over the page allocator: headers and links in physical
  memory, updated through the same pointer walks, and tied to the tiling of HeapTiles.
*/
module Heap {
  import opened Bytes
  import opened HeapTiles
  import opened HeapMemory
  import opened HeapState
  import Pmm

  /** Inserting `b` at position `k` writes to its own bytes and to the header in front of it, nowhere else. */
  ghost predicate Tight(m: seq<Byte>, m': seq<Byte>, b: Blk, fs: seq<Blk>, k: int) {
    |m'| == |m| && forall x :: 0 <= x < |m| && !Within(b, x) && !InHeader(fs, k - 1, x) ==> m'[x] == m[x]
  }

  predicate InHeader(fs: seq<Blk>, i: int, x: int) { 0 <= i < |fs| && fs[i].addr <= x < fs[i].addr + HDR }

  lemma TightPrev(m: seq<Byte>, m1: seq<Byte>, m2: seq<Byte>, b: Blk, fs: seq<Blk>, k: int)
    requires Tight(m, m1, b, fs, k) && 0 < k <= |fs| && Outside(m1, m2, fs[k - 1].addr, fs[k - 1].addr + HDR)
    ensures Tight(m, m2, b, fs, k)
  {
    forall x | 0 <= x < |m| && !Within(b, x) && !InHeader(fs, k - 1, x) ensures m2[x] == m[x] { }
  }

  lemma TightRefl(m: seq<Byte>, b: Blk, fs: seq<Blk>, k: int)
    ensures Tight(m, m, b, fs, k)
  {
  }

  lemma TightTrans(m: seq<Byte>, m1: seq<Byte>, m2: seq<Byte>, b: Blk, fs: seq<Blk>, k: int)
    requires Tight(m, m1, b, fs, k) && Tight(m1, m2, b, fs, k)
    ensures Tight(m, m2, b, fs, k)
  {
  }

  lemma TightRedirect(m: seq<Byte>, m1: seq<Byte>, head: int, fs: seq<Blk>, k: int, to: int, m2: seq<Byte>, head2: int,
                      b: Blk)
    requires Tight(m, m1, b, fs, k) && Linked(m1, head, fs) && 0 <= k <= |fs|
    requires Redirected(m1, head, fs, k, to, m2, head2)
    ensures Tight(m, m2, b, fs, k)
  {
    if 0 < k {
      LinkedHead(m1, head, fs, k - 1);
      TightPrev(m, m1, m2, b, fs, k);
    }
  }

  lemma TightConfined(m: seq<Byte>, m': seq<Byte>, b: Blk, fs: seq<Blk>, k: int)
    requires Tight(m, m', b, fs, k) && Sorted(fs)
    ensures Confined(m, m', b, fs)
  {
    forall x | 0 <= x < |m| && !Within(b, x) && (forall i :: 0 <= i < |fs| ==> !Within(fs[i], x))
      ensures m'[x] == m[x]
    {
      assert InHeader(fs, k - 1, x) ==> Within(fs[k - 1], x);
    }
  }

  lemma ConfinedRefl(m: seq<Byte>, b: Blk, fs: seq<Blk>)
    ensures Confined(m, m, b, fs)
  {
  }

  lemma ConfinedRedirect(m: seq<Byte>, head: int, fs: seq<Blk>, k: int, to: int, m': seq<Byte>, head': int, b: Blk)
    requires Linked(m, head, fs) && Sorted(fs) && 0 <= k <= |fs| && Redirected(m, head, fs, k, to, m', head')
    ensures Confined(m, m', b, fs)
  {
    TightRefl(m, b, fs, k);
    TightRedirect(m, m, head, fs, k, to, m', head', b);
    TightConfined(m, m', b, fs, k);
  }

  lemma DropPut(fs: seq<Blk>, k: int, b: Blk)
    requires 0 <= k <= |fs|
    ensures Drop(Put(fs, k, b), k) == fs
  {
  }

  lemma PutSorted(fs: seq<Blk>, b: Blk)
    requires Sorted(fs) && 0 <= b.size && ApartFrom(b, fs)
    ensures Sorted(Put(fs, Pos(fs, b.addr), b))
  {
    Around(fs, b);
    PutAtSorted(fs, Pos(fs, b.addr), b);
  }

  class KernelHeap {
    const pmm: Pmm.Allocator
    var mem: seq<Byte>
    var freeList: int
    var total: int
    var used: int
    var ready: bool
    ghost var free: seq<Blk>
    ghost var live: map<int, Grant>
    ghost var pages: set<int>

    /** Before heap_init: some page allocator and the machine's memory. */
    constructor (allocator: Pmm.Allocator, memory: seq<Byte>)
      requires allocator.Valid() && allocator.Bits()[0] && |memory| == TWO32
      ensures Valid() && pmm == allocator && mem == memory && !ready && free == [] && live == map[] && pages == {}
    {
      pmm, mem, freeList, total, used, ready := allocator, memory, 0, 0, 0, false;
      free, live, pages := [], map[], {};
      new;
      EmptySane(mem);
    }

    /** The heap and the page allocator agree: all the heap's pages are marked used, and so is page 0. */
    ghost predicate Valid()
      reads this, pmm, pmm.bitmap
    {
      && pmm.Valid() && pmm.Bits()[0] && Owned(pages, pmm.Bits())
      && Sane(mem, freeList, free, live, pages, total, used)
    }

    ghost predicate ListOk()
      reads this
    {
      Linked(mem, freeList, free) && Sorted(free)
    }

    /** heap.c:38-42. */
    method Memset(a: int, c: Byte, n: int)
      requires 0 <= a && 0 <= n && a + n <= |mem|
      modifies this`mem
      ensures Outside(old(mem), mem, a, a + n) && forall x :: a <= x < a + n ==> mem[x] == c
    {
      var i := 0;
      while i < n
        invariant 0 <= i <= n && |mem| == |old(mem)|
        invariant forall x :: 0 <= x < |mem| ==> mem[x] == if a <= x < a + i then c else old(mem)[x]
      {
        mem := mem[a + i := c];
        i := i + 1;
      }
    }

    /** heap.c:53-59: the block's header says free and its payload is poisoned. */
    method MarkFree(b: int)
      requires |mem| == TWO32 && 0 < b && b + HDR <= TWO32 && b + HDR + HeadAt(mem, b).size <= TWO32
      modifies this`mem
      ensures var blk := Blk(b, HeadAt(old(mem), b).size);
              Outside(old(mem), mem, b, blk.End()) && HeadAt(mem, b) == Header(MAGIC_FREE, blk.size, 0, CANARY_FREE)
    {
      ghost var size := HeadAt(mem, b).size;
      mem := SetMagic(mem, b, MAGIC_FREE);
      mem := SetCanary(mem, b, CANARY_FREE);
      mem := SetNext(mem, b, 0);
      ghost var m := mem;
      hide HeadAt;
      Memset(b + HDR, POISON_FREE, HeadAt(mem, b).size);
      HeadSame(m, mem, b);
    }

    /** heap.c:62-64: `pp` is the block whose link leads to the first block at or above `b`, 0 for the
        list head; `cur` is that block, 0 for none. */
    method Locate(b: int) returns (pp: int, cur: int, ghost k: int)
      requires ListOk() && 0 < b
      ensures k == Pos(free, b) && cur == AddrAt(free, Pos(free, b))
      ensures pp == (if Pos(free, b) == 0 then 0 else free[Pos(free, b) - 1].addr)
    {
      hide HeadAt, Sorted, Linked, Pos;
      LinkedStart(mem, freeList, free);
      pp, cur, k := 0, freeList, 0;
      while cur != 0 && cur < b
        invariant 0 <= k <= Pos(free, b) && cur == AddrAt(free, k) && pp == (if k == 0 then 0 else free[k - 1].addr)
        decreases |free| - k
      {
        LinkedHead(mem, freeList, free, k);
        PosIs(free, b, k);
        pp := cur;
        cur := HeadAt(mem, cur).next;
        k := k + 1;
      }
      if k < |free| {
        LinkedHead(mem, freeList, free, k);
        PosIs(free, b, k);
      }
    }

    /** `*pp = to`. */
    method Redirect(pp: int, to: int, ghost k: int)
      requires ListOk() && 0 <= k <= |free| && pp == (if k == 0 then 0 else free[k - 1].addr) && 0 <= to < TWO32
      modifies this`mem, this`freeList
      ensures Redirected(old(mem), old(freeList), free, k, to, mem, freeList)
    {
      if pp == 0 { freeList := to; } else { mem := SetNext(mem, pp, to); }
    }

    /** heap.c:82-84: the block in front of `b`, found by walking from the head. */
    method FindPrev(b: int, ghost k: int) returns (prev: int)
      requires ListOk() && 0 < k < |free| && free[k].addr == b
      ensures prev == free[k - 1].addr
    {
      hide HeadAt, Sorted, Linked, AddrAt;
      prev := freeList;
      LinkedStart(mem, freeList, free);
      ghost var i := 0;
      FirstAddr(free);
      LinkedHead(mem, freeList, free, 0);
      while prev != 0 && HeadAt(mem, prev).next != b
        invariant 0 <= i < k && prev == free[i].addr && HeadOk(mem, free[i], AddrAt(free, i + 1))
        decreases k - i
      {
        NextAddr(free, i, k);
        prev := HeadAt(mem, prev).next;
        i := i + 1;
        LinkedHead(mem, freeList, free, i);
      }
      NextAddr(free, i, k);
    }

    lemma FirstAddr(fs: seq<Blk>)
      requires fs != []
      ensures AddrAt(fs, 0) == fs[0].addr
    {
    }

    lemma NextAddr(fs: seq<Blk>, i: int, k: int)
      requires Sorted(fs) && 0 <= i < k < |fs|
      ensures AddrAt(fs, i + 1) == fs[i + 1].addr && (fs[i + 1].addr == fs[k].addr <==> i + 1 == k)
    {
    }

    /** The size and the link of the block at `a`, whose right neighbour it swallows. */
    method Widen(a: int, size: int, next: int)
      requires |mem| == TWO32 && 0 < a && a + HDR <= TWO32 && 0 <= size < TWO32 && 0 <= next < TWO32
      modifies this`mem
      ensures Outside(old(mem), mem, a, a + HDR) && HeadAt(mem, a) == HeadAt(old(mem), a).(size := size, next := next)
    {
      hide HeadAt;
      mem := SetSize(mem, a, size);
      mem := SetNext(mem, a, next);
    }

    /** heap.c:67-75: `b` swallows its successor `cur` and takes its place. */
    method Absorb(b: int, pp: int, cur: int, ghost blk: Blk, ghost k: int)
      requires ListOk() && InMemory(blk) && blk.addr == b && ApartFrom(blk, free) && HeadOk(mem, blk, 0)
      requires k == Pos(free, b) && k < |free| && cur == free[k].addr == blk.End()
      requires pp == (if k == 0 then 0 else free[k - 1].addr)
      modifies this`mem, this`freeList, this`free
      ensures ListOk() && free == Insert(old(free), blk) && Tight(old(mem), mem, blk, old(free), Pos(old(free), b))
      ensures |mem| == TWO32 && SaysFree(mem, b)
    {
      hide HeadAt, Sorted, Linked, Pos, Redirected, Tight, Insert, ApartFrom, Swap, AddrAt;
      ghost var m0, fs := mem, free;
      AbsorbReady(m0, freeList, fs, blk, k);
      Widen(b, HeadAt(mem, b).size + HDR + HeadAt(mem, cur).size, HeadAt(mem, cur).next);
      ghost var m2, head := mem, freeList;
      BlockOnly(m0, m2, head, fs, blk, k);
      Redirect(pp, b, k);
      TightRedirect(m0, m2, head, fs, k, b, mem, freeList, blk);
      LinkedAbsorb(m2, head, fs, k, blk, mem, freeList);
      free := Swap(fs, k, Join(blk, fs[k]));
      ListedFree(mem, freeList, free, k);
    }

    /** heap.c:82-90: the freshly linked block at position `k` is swallowed by its left neighbour. */
    method JoinPrev(b: int, ghost k: int)
      requires ListOk() && 0 < k < |free| && free[k].addr == b
      modifies this`mem, this`free
      ensures Linked(mem, freeList, free)
      ensures var fs := old(free);
              free == if fs[k - 1].End() == b then Swap(Drop(fs, k), k - 1, Join(fs[k - 1], fs[k])) else fs
      ensures Outside(old(mem), mem, old(free)[k - 1].addr, old(free)[k - 1].addr + HDR)
    {
      hide HeadAt, Sorted, Linked, Swap, Drop, AddrAt;
      var prev := FindPrev(b, k);
      ghost var m, fs := mem, free;
      LinkedHead(m, freeList, fs, k - 1);
      LinkedHead(m, freeList, fs, k);
      if prev + HDR + HeadAt(mem, prev).size == b {
        JoinPrevReady(m, freeList, fs, k);
        Widen(prev, HeadAt(mem, prev).size + HDR + HeadAt(mem, b).size, HeadAt(mem, b).next);
        LinkedJoin(m, freeList, fs, k - 1, mem);
        free := Swap(Drop(fs, k), k - 1, Join(fs[k - 1], fs[k]));
      }
    }

    /** heap.c:77-91: `b` enters the list in front of `cur`, then its left neighbour may swallow it. */
    method Enlist(b: int, pp: int, cur: int, ghost blk: Blk, ghost k: int)
      requires ListOk() && InMemory(blk) && blk.addr == b && ApartFrom(blk, free) && HeadOk(mem, blk, 0)
      requires k == Pos(free, b) && cur == AddrAt(free, k) && (k < |free| ==> blk.End() != free[k].addr)
      requires pp == (if k == 0 then 0 else free[k - 1].addr)
      modifies this`mem, this`freeList, this`free
      ensures ListOk() && free == Insert(old(free), blk) && Tight(old(mem), mem, blk, old(free), Pos(old(free), b))
      ensures |mem| == TWO32 && SaysFree(mem, b)
    {
      hide HeadAt, Sorted, Linked, Pos, Redirected, Tight, Insert, ApartFrom, Put, Swap, Drop, AddrAt;
      ghost var m0, fs := mem, free;
      EnlistReady(m0, freeList, fs, blk, k);
      mem := SetNext(mem, b, cur);
      ghost var m1, head := mem, freeList;
      BlockOnly(m0, m1, head, fs, blk, k);
      Redirect(pp, b, k);
      TightRedirect(m0, m1, head, fs, k, b, mem, freeList, blk);
      LinkedPut(m1, head, fs, k, blk, mem, freeList);
      free := Put(fs, k, blk);
      ListedFree(mem, freeList, free, k);
      FrontIsFirst(mem, freeList, free, k);
      if freeList != b {
        ghost var m2 := mem;
        JoinPrev(b, k);
        TightPrev(m0, m2, mem, blk, fs, k);
        BehindApart(blk, fs, k);
        HeaderOnly(m2, mem, fs[k - 1]);
        HeadApart(m2, mem, fs[k - 1], blk);
        DropPut(fs, k, blk);
      }
      InsertIs(fs, blk, free);
    }

    /** heap.c:52-93: insert_free. */
    method InsertFree(b: int, ghost blk: Blk)
      requires ListOk() && InMemory(blk) && blk.addr == b && HeadAt(mem, b).size == blk.size && ApartFrom(blk, free)
      modifies this`mem, this`freeList, this`free
      ensures ListOk() && free == Insert(old(free), blk) && Tight(old(mem), mem, blk, old(free), Pos(old(free), b))
      ensures |mem| == TWO32 && SaysFree(mem, b)
    {
      hide HeadAt, Sorted, Linked, Pos, Tight, Insert, ApartFrom;
      ghost var m0, fs := mem, free;
      LinkedStart(mem, freeList, free);
      MarkFree(b);
      ghost var m1, head := mem, freeList;
      BlockBytes(m0, m1, head, fs, blk, Pos(fs, b));
      var pp, cur, k := Locate(b);
      if cur != 0 && b + HDR + HeadAt(mem, b).size == cur {
        Absorb(b, pp, cur, blk, k);
      } else {
        Enlist(b, pp, cur, blk, k);
      }
      TightTrans(m0, m1, mem, blk, fs, k);
    }

    /** heap.c:95-112: expand_heap. */
    method ExpandHeap(need: int) returns (ok: bool, ghost start: int)
      requires Valid() && 0 <= need && need + HDR + MIN_BLOCK + PAGE <= Pmm.TWO64
      modifies this`mem, this`freeList, this`free, this`total, this`pages, pmm.bitmap, pmm`used
      ensures Valid() && ok == (0 <= start) && -1 <= start
      ensures var n := PagesFor(need);
              if ok then
                && Pmm.Lowest(old(pmm.Bits()), pmm.highest, n, start)
                && free == Insert(old(free), NewBlock(start, n)) && total == old(total) + n * PAGE
                && pmm.Bits() == Pmm.Filled(old(pmm.Bits()), start, start + n, true) && SameOnLive(old(mem), mem, live)
              else
                && (pmm.ready ==> Pmm.Lowest(old(pmm.Bits()), pmm.highest, n, -1)) && pmm.Bits() == old(pmm.Bits())
                && mem == old(mem) && free == old(free) && freeList == old(freeList) && total == old(total)
                && pages == old(pages)
    {
      hide Sane, Pmm.Lowest, Pmm.Filled, Insert, NewBlock, Owned, SameOnLive, HeadAt, Confined, Tight, Pos, Linked,
        Sorted, ApartFrom, Pmm.Pages, Pmm.Allocator.Bits;
      var count := (HDR + need + MIN_BLOCK + PAGE - 1) / PAGE;
      if count < 16 { count := 16; }
      ghost var bits := pmm.Bits();
      var phys;
      phys, start := pmm.AllocPages(count);
      if pmm.ready { Pmm.NullMeansNone(bits, pmm.highest, count, start); }
      if phys == 0 { return false, -1; }
      ghost var m0, head, fs, b, more := mem, freeList, free, NewBlock(start, count), Pmm.Pages(start, count);
      ExpandReady(m0, head, fs, live, pages, total, used, bits, pmm.highest, start, count);
      mem := SetSize(mem, phys, count * PAGE - HDR);
      BlockOnly(m0, mem, head, fs, b, 0);
      ghost var m1 := mem;
      total := total + count * PAGE;
      InsertFree(phys, b);
      TightConfined(m1, mem, b, fs, Pos(fs, phys));
      ConfinedTrans(m0, m1, mem, b, fs);
      ExpandDone(m0, head, fs, live, pages, old(total), used, bits, start, count, mem, freeList);
      pages := pages + more;
      ok := true;
    }

    /** heap.c:114-129: heap_init.  It succeeds exactly when there is a run of sixteen free pages, and
        the lowest such run becomes the one free block. */
    method HeapInit() returns (r: int, ghost start: int)
      requires Valid()
      modifies this, pmm.bitmap, pmm`used
      ensures Valid() && live == map[] && used == 0
      ensures r == if start < 0 then -1 else 0
      ensures pmm.ready || 0 <= start ==> Pmm.Lowest(old(pmm.Bits()), pmm.highest, 16, start)
      ensures r == 0 ==> ready && free == [NewBlock(start, 16)] && total == 16 * PAGE
      ensures r == 0 ==> pmm.Bits() == Pmm.Filled(old(pmm.Bits()), start, start + 16, true)
      ensures r == -1 ==> ready == old(ready) && free == [] && total == 0 && pmm.Bits() == old(pmm.Bits())
    {
      hide Sane, Owned, Pmm.Lowest, Pmm.Filled, SameOnLive, NewBlock;
      SaneLength(mem, freeList, free, live, pages, total, used);
      freeList, total, used := 0, 0, 0;
      free, live, pages := [], map[], {};
      EmptySane(mem);
      EmptyOwned(pmm.Bits());
      var ok;
      ok, start := ExpandHeap(PAGE);
      if !ok { return -1, start; }
      InsertEmpty(NewBlock(start, 16));
      ready := true;
      r := 0;
    }

    /** heap.c:156-165 and 198: the first free block with `need` bytes of payload,
        with the link that leads to it.  The corruption report cannot be reached. */
    method SearchFit(need: int) returns (pp: int, b: int, ghost k: int)
      requires ListOk()
      ensures k == FirstFit(free, need, 0)
      ensures b == (if FirstFit(free, need, 0) < 0 then 0 else free[FirstFit(free, need, 0)].addr)
      ensures 0 <= k ==> pp == (if k == 0 then 0 else free[k - 1].addr)
    {
      hide HeadAt, Sorted, Linked;
      LinkedStart(mem, freeList, free);
      pp, b, k := 0, freeList, 0;
      while b != 0
        invariant 0 <= k <= |free| && b == AddrAt(free, k) && pp == (if k == 0 then 0 else free[k - 1].addr)
        invariant FirstFit(free, need, 0) == FirstFit(free, need, k)
        decreases |free| - k
      {
        LinkedHead(mem, freeList, free, k);
        assert HeadAt(mem, b).magic == MAGIC_FREE && HeadAt(mem, b).canary == CANARY_FREE;
        if HeadAt(mem, b).size >= need { return; }
        pp := b;
        b := HeadAt(mem, b).next;
        k := k + 1;
      }
      if k < |free| { LinkedHead(mem, freeList, free, k); }
      k := -1;
    }

    /** heap.c:169-175: the tail of `blk` becomes a free block of its own. */
    method SplitOff(b: int, need: int, ghost blk: Blk)
      requires ListOk() && InMemory(blk) && blk.addr == b && HeadAt(mem, b).size == blk.size
      requires ApartFrom(blk, free) && 0 <= need && Splits(blk, need)
      modifies this`mem, this`freeList, this`free
      ensures ListOk() && free == Insert(old(free), Rest(blk, need)) && |mem| == TWO32
      ensures HeadAt(mem, b) == HeadAt(old(mem), b).(size := need) && ApartFrom(Blk(b, need), free)
      ensures Confined(old(mem), mem, blk, old(free)) && SameOn(old(mem), mem, b + HDR, b + HDR + need)
    {
      hide HeadAt, Sorted, Linked, Confined, Tight, Pos, Insert, ApartFrom;
      ghost var m0, fs, r := mem, free, Rest(blk, need);
      LinkedStart(mem, freeList, free);
      SplitApart(blk, need, fs);
      var rest := b + HDR + need;
      mem := SetSize(mem, rest, HeadAt(mem, b).size - need - HDR);
      ghost var m1 := mem;
      BlockOnly(m0, m1, freeList, fs, r, 0);
      InsertFree(rest, r);
      TightConfined(m1, mem, r, fs, Pos(fs, rest));
      ConfinedTrans(m0, m1, mem, r, fs);
      ghost var m2 := mem;
      PartUntouched(m0, m2, blk, need, fs);
      mem := SetSize(mem, b, need);
      LinkedStart(m2, freeList, free);
      HeaderOnly(m2, mem, Blk(b, need));
      LinkedOutside(m2, freeList, free, Blk(b, need), mem);
      ConfinedFirst(m0, m2, mem, blk, need, fs);
    }

    /** heap.c:177-179. */
    method MarkTaken(b: int, ghost got: Blk)
      requires ListOk() && InMemory(got) && got.addr == b && HeadAt(mem, b).size == got.size && ApartFrom(got, free)
      modifies this`mem
      ensures ListOk() && |mem| == TWO32 && HeadAt(mem, b) == AllocHead(got) && Outside(old(mem), mem, b, b + HDR)
    {
      hide HeadAt, Sorted, Linked, ApartFrom;
      ghost var m := mem;
      LinkedStart(mem, freeList, free);
      mem := SetMagic(mem, b, MAGIC_ALLOC);
      mem := SetCanary(mem, b, CANARY_ALLOC);
      mem := SetNext(mem, b, 0);
      HeaderOnly(m, mem, got);
      LinkedOutside(m, freeList, free, got, mem);
    }

    /** heap.c:166-179: block `b` leaves the list, its unneeded tail goes back, its header says so. */
    method TakeBlock(pp: int, b: int, need: int, ghost k: int)
      requires ListOk() && 0 <= k < |free| && b == free[k].addr && pp == (if k == 0 then 0 else free[k - 1].addr)
      requires 0 <= need <= free[k].size
      modifies this`mem, this`freeList, this`free
      ensures ListOk() && free == Remaining(old(free), k, need) && |mem| == TWO32
      ensures InMemory(Taken(old(free)[k], need)) && HeadAt(mem, b) == AllocHead(Taken(old(free)[k], need))
      ensures Confined(old(mem), mem, old(free)[k], old(free))
      ensures SameOn(old(mem), mem, b + HDR, Taken(old(free)[k], need).End())
    {
      hide HeadAt, Sorted, Linked, Confined, Insert, Drop, Redirected, AddrAt, ApartFrom, Rest;
      ghost var m0, head, fs := mem, freeList, free;
      LinkedHead(m0, head, fs, k);
      LinkInRange(m0, head, fs, k);
      Redirect(pp, HeadAt(mem, b).next, k);
      LinkedDrop(m0, head, fs, k, mem, freeList);
      SortedWithout(fs, k);
      ConfinedRedirect(m0, head, fs, k, AddrAt(fs, k + 1), mem, freeList, fs[k]);
      RedirectedPayload(m0, head, fs, k, AddrAt(fs, k + 1), mem, freeList);
      free := Drop(fs, k);
      LinkedStart(mem, freeList, free);
      DropApart(fs, k);
      ghost var m1, got := mem, Taken(fs[k], need);
      var remain := HeadAt(mem, b).size - need;
      if remain >= HDR + MIN_BLOCK {
        SplitOff(b, need, fs[k]);
      } else {
        ConfinedRefl(m1, fs[k], Drop(fs, k));
      }
      ghost var m2 := mem;
      MarkTaken(b, got);
      ConfinedTaken(m0, m1, m2, mem, fs, k, need);
    }

    /** heap.c:181-194: the address for the caller, its back pointer if over-aligned, and the poison. */
    method Deliver(b: int, size: int, a: int, ghost got: Blk) returns (ptr: int)
      requires |mem| == TWO32 && InMemory(got) && got.addr == b && HeadAt(mem, b) == AllocHead(got)
      requires 0 < size && 16 <= a && NeedOf(size, a) <= got.size
      modifies this`mem
      ensures Held(mem, ptr, Grant(got, size, a > 16)) && Outside(old(mem), mem, b, got.End())
      ensures Filled(mem, ptr, size, POISON_ALLOC) && Placed(ptr, b, a) && SameOn(old(mem), mem, b + HDR, ptr - 8)
    {
      hide HeadAt, NeedOf, AlignUp;
      ghost var m0 := mem;
      if a > 16 {
        ptr := AlignUp(b + HDR + 8, a);
        mem := Put64(mem, ptr - 8, b);
      } else {
        ptr := b + HDR;
      }
      ghost var m1 := mem;
      Memset(ptr, POISON_ALLOC, size);
      HeldDelivered(m0, m1, mem, ptr, size, a > 16, got);
    }

    /** heap.c:166-196: the block is cut to size, marked and handed over. */
    method Serve(pp: int, b: int, size: int, a: int, ghost k: int) returns (ptr: int, ghost g: Grant)
      requires Valid() && 0 <= k < |free| && b == free[k].addr && pp == (if k == 0 then 0 else free[k - 1].addr)
      requires 0 < size && 16 <= a && NeedOf(size, a) <= free[k].size
      modifies this`mem, this`freeList, this`free, this`used, this`live
      ensures Valid() && 0 < ptr
      ensures g == Grant(Taken(old(free)[k], NeedOf(size, a)), size, a > 16)
      ensures free == Remaining(old(free), k, NeedOf(size, a))
      ensures ptr !in old(live) && live == old(live)[ptr := g] && used == old(used) + g.blk.Weight()
      ensures Filled(mem, ptr, size, POISON_ALLOC) && Placed(ptr, b, a) && Held(mem, ptr, g)
      ensures SameOnLive(old(mem), mem, old(live)) && SameOn(old(mem), mem, g.blk.addr + HDR, ptr - 8)
    {
      hide Sane, HeadAt, Sorted, Linked, Confined, Insert, Owned, Taken, Remaining, Held, NeedOf, SameOnLive, Filled,
        Placed, SameOn, Outside;
      ghost var m0, head, fs := mem, freeList, free;
      SaneList(m0, head, fs, live, pages, total, used);
      var need := NeedOf(size, a);
      TakeBlock(pp, b, need, k);
      ghost var m1, got := mem, Taken(fs[k], need);
      TakenRoom(fs[k], need);
      ptr := Deliver(b, size, a, got);
      g := Grant(got, size, a > 16);
      PaddingKept(m0, m1, mem, got, ptr, size, a > 16);
      ServeList(m0, head, fs, live, pages, total, used, k, need, m1, mem, freeList, ptr, g);
      used := used + HeadAt(mem, b).size + HDR;
      live := live[ptr := g];
    }

    /** heap.c:135-204: kmalloc_aligned.  At most one expansion, then the lowest-addressed block that
        fits; a null pointer leaves everything as it was. */
    method KmallocAligned(size: int, align: int) returns (ptr: int, ghost g: Grant, ghost start: int)
      requires Valid() && 0 <= size && 0 <= align && size + align + HDR + MIN_BLOCK + PAGE + 16 <= Pmm.TWO64
      modifies this`mem, this`freeList, this`free, this`total, this`used, this`live, this`pages, pmm.bitmap, pmm`used
      ensures Valid()
      ensures ptr == 0 <==>
                !ready || size == 0 || (FirstFit(old(free), NeedOf(size, AlignOf(align)), 0) < 0 && start < 0)
      ensures var need := NeedOf(size, AlignOf(align));
              ready && size != 0 && FirstFit(old(free), need, 0) < 0 && (pmm.ready || 0 <= start) ==>
                Pmm.Lowest(old(pmm.Bits()), pmm.highest, PagesFor(need), start)
      ensures ptr == 0 ==> mem == old(mem) && freeList == old(freeList) && free == old(free) && live == old(live)
      ensures ptr == 0 ==>
                total == old(total) && used == old(used) && pages == old(pages) && pmm.Bits() == old(pmm.Bits())
      ensures ptr != 0 ==> var a, need := AlignOf(align), NeedOf(size, AlignOf(align));
              var src := Searched(old(free), need, start);
              var k := FirstFit(src, need, 0);
              && 0 <= k && g == Grant(Taken(src[k], need), size, a > 16) && free == Remaining(src, k, need)
              && ptr !in old(live) && live == old(live)[ptr := g] && used == old(used) + g.blk.Weight()
              && Filled(mem, ptr, size, POISON_ALLOC) && Held(mem, ptr, g) && SameOnLive(old(mem), mem, old(live))
              && Placed(ptr, src[k].addr, a)
              && (if a > 16 then ptr % a == 0 else ptr % 16 == 0 <==> src[k].addr % 16 == 8)
              && (start < 0 ==> pmm.Bits() == old(pmm.Bits()))
              && (0 <= start ==> pmm.Bits() == Pmm.Filled(old(pmm.Bits()), start, start + PagesFor(need), true))
              && (0 <= start <==> FirstFit(old(free), need, 0) < 0)
              && (start < 0 ==> SameOn(old(mem), mem, g.blk.addr + HDR, ptr - 8))
    {
      hide Sane, HeadAt, Sorted, Linked, Confined, Insert, Owned, Taken, Remaining, Held, NeedOf, SameOnLive, Filled,
        FirstFit, Pmm.Lowest, Pmm.Filled, NewBlock, Placed, SameOn, PagesFor, AlignOf;
      start := -1;
      g := Grant(Blk(0, 0), 0, false);
      if !ready || size == 0 { return 0, g, start; }
      var a := AlignOf(align);
      var need := NeedOf(size, a);
      NeedBound(size, align);
      SaneList(mem, freeList, free, live, pages, total, used);
      var pp, b, k := SearchFit(need);
      ghost var grew := false;
      ghost var m0 := mem;
      SameRefl(m0, live);
      while b == 0
        invariant Valid() && ready && live == old(live) && used == old(used) && SameOnLive(m0, mem, live)
        invariant k == FirstFit(free, need, 0)
        invariant if k < 0 then b == 0 else b == free[k].addr && 0 < b && pp == (if k == 0 then 0 else free[k - 1].addr)
        invariant !grew ==> start == -1 && mem == m0 && free == old(free) && freeList == old(freeList)
        invariant !grew ==> total == old(total) && pages == old(pages) && pmm.Bits() == old(pmm.Bits())
        invariant grew ==> FirstFit(old(free), need, 0) < 0 && 0 <= start && 0 <= k
        invariant grew ==> free == Insert(old(free), NewBlock(start, PagesFor(need)))
        invariant grew ==> Pmm.Lowest(old(pmm.Bits()), pmm.highest, PagesFor(need), start)
        invariant grew ==> pmm.Bits() == Pmm.Filled(old(pmm.Bits()), start, start + PagesFor(need), true)
        decreases !grew
      {
        var ok;
        ok, start := ExpandHeap(need);
        if !ok { return 0, g, start; }
        grew := true;
        SaneList(mem, freeList, free, live, pages, total, used);
        ExpandFits(old(free), start, need);
        pp, b, k := SearchFit(need);
      }
      ghost var m1 := mem;
      ptr, g := Serve(pp, b, size, a, k);
      PlacedAligned(ptr, b, a);
      SameTrans(m0, m1, mem, old(live));
    }

    /** heap.c:206-247: kfree.  A pointer that leads to no taken header changes nothing; one that leads to
        a block releases that block, whoever holds it. */
    method Kfree(ptr: int) returns (ghost q: int)
      requires Valid() && (ptr == 0 || HDR <= ptr <= TWO32)
      requires ready && ptr != 0 && FreeTarget(mem, ptr) != -1 ==> BlockAt(live, FreeTarget(mem, ptr))
      modifies this`mem, this`freeList, this`free, this`used, this`live
      ensures Valid()
      ensures !ready || ptr == 0 || FreeTarget(old(mem), ptr) == -1 ==>
              && mem == old(mem) && freeList == old(freeList) && free == old(free) && used == old(used)
              && live == old(live)
      ensures ready && ptr != 0 && FreeTarget(old(mem), ptr) != -1 ==>
              && q in old(live) && var b := old(live)[q].blk;
              && b.addr == FreeTarget(old(mem), ptr)
              && (ptr in old(live) && old(live)[ptr].blk.addr == b.addr ==> q == ptr)
              && live == old(live) - {q} && free == Insert(old(free), b) && used == old(used) - b.Weight()
              && SameOnLive(old(mem), mem, live) && |mem| == TWO32 && b.addr + HDR <= TWO32 && SaysFree(mem, b.addr)
              && Tight(old(mem), mem, b, old(free), Pos(old(free), b.addr))
    {
      hide Sane, HeadAt, Sorted, Linked, Confined, Tight, Pos, Insert, Owned, SameOnLive, Le64, Le32, ApartFrom,
        BlockAt;
      q := 0;
      SaneLength(mem, freeList, free, live, pages, total, used);
      if ptr == 0 || !ready { return; }
      var b := ptr - HDR;
      if HeadAt(mem, b).magic != MAGIC_ALLOC || HeadAt(mem, b).canary != CANARY_ALLOC {
        var candidate := Le64(mem, ptr - 8);
        if candidate != 0 && candidate + HDR <= TWO32
           && HeadAt(mem, candidate).magic == MAGIC_ALLOC && HeadAt(mem, candidate).canary == CANARY_ALLOC {
          b := candidate;
        } else {
          return;
        }
      }
      assert HeadAt(mem, b).magic != MAGIC_FREE && b == FreeTarget(mem, ptr);
      ghost var m0, head, fs, blk := mem, freeList, free, Blk(0, 0);
      q := HolderOf(m0, head, fs, live, pages, total, used, b);
      if ptr in live && live[ptr].blk.addr == b { OneHolder(m0, head, fs, live, pages, total, used, ptr, q); }
      blk := live[q].blk;
      FreeReady(m0, head, fs, live, pages, total, used, q);
      HeldBlock(m0, q, live[q]);
      var whole := HeadAt(mem, b).size + HDR;
      assert used >= whole;
      used := used - whole;
      InsertFree(b, blk);
      TightConfined(m0, mem, blk, fs, Pos(fs, b));
      FreeSane(m0, head, fs, live, pages, total, old(used), q, mem, freeList);
      FreedOthers(m0, head, fs, live, pages, total, old(used), q, mem);
      live := live - {q};
    }

    /** heap.c:250-255: the sum over the free list; with heap_used it makes up heap_total. */
    method HeapFreeBytes() returns (bytes: int)
      requires Valid()
      ensures bytes == Sum(free) && bytes + used == total
    {
      hide HeadAt, Linked, Sorted, Owned;
      SaneList(mem, freeList, free, live, pages, total, used);
      Balance(mem, freeList, free, live, pages, total, used);
      LinkedStart(mem, freeList, free);
      hide Sane;
      bytes := 0;
      var b := freeList;
      ghost var k := 0;
      while b != 0
        invariant 0 <= k <= |free| && b == AddrAt(free, k) && bytes + Sum(free[k..]) == Sum(free)
        decreases |free| - k
      {
        LinkedHead(mem, freeList, free, k);
        assert free[k..][1..] == free[k + 1..];
        bytes := bytes + HeadAt(mem, b).size + HDR;
        b := HeadAt(mem, b).next;
        k := k + 1;
      }
      if k < |free| { LinkedHead(mem, freeList, free, k); }
    }
  }

  lemma BlockBytes(m: seq<Byte>, m': seq<Byte>, head: int, fs: seq<Blk>, b: Blk, k: int)
    requires Linked(m, head, fs) && ApartFrom(b, fs) && 0 <= b.size && Outside(m, m', b.addr, b.End())
    ensures Linked(m', head, fs) && Tight(m, m', b, fs, k) && Confined(m, m', b, fs)
  {
    LinkedOutside(m, head, fs, b, m');
  }

  lemma ConfinedTrans(m: seq<Byte>, m1: seq<Byte>, m2: seq<Byte>, b: Blk, fs: seq<Blk>)
    requires Confined(m, m1, b, fs) && Confined(m1, m2, b, fs)
    ensures Confined(m, m2, b, fs)
  {
  }

  ghost predicate Owned(pages: set<int>, bits: seq<bool>) {
    forall p :: p in pages ==> 0 < p < |bits| && bits[p]
  }

  function NewBlock(start: int, n: int): Blk { Blk(start * PAGE, n * PAGE - HDR) }

  /** No byte of a block that is handed out differs. */
  ghost predicate SameOnLive(m: seq<Byte>, m': seq<Byte>, live: map<int, Grant>) {
    forall p :: p in live ==> SameOn(m, m', live[p].blk.addr, live[p].blk.End())
  }

  lemma EmptySane(m: seq<Byte>)
    requires |m| == TWO32
    ensures Sane(m, 0, [], map[], {}, 0, 0)
  {
  }

  lemma ExpandReady(m: seq<Byte>, head: int, fs: seq<Blk>, live: map<int, Grant>, pages: set<int>, total: int,
                    used: int,
                    bits: seq<bool>, hi: int, start: int, n: int)
    requires Sane(m, head, fs, live, pages, total, used) && |bits| == Pmm.MAX_PAGES && 0 <= hi <= |bits| && 16 <= n
    requires bits[0] && Owned(pages, bits) && 0 <= start && Pmm.Lowest(bits, hi, n, start)
    ensures var b := NewBlock(start, n);
            && b.addr == start * PAGE && b.size == n * PAGE - HDR && InMemory(b)
            && ApartFrom(b, fs) && Linked(m, head, fs) && Sorted(fs) && |m| == TWO32
            && pages !! Pmm.Pages(start, n) && 0 < start && start + n <= |bits|
  {
    LinkedStart(m, head, fs);
    hide Linked, Held, Sum, SumSet, Insert;
    assert !bits[start];
    forall p | p in pages ensures p !in Pmm.Pages(start, n) { assert bits[p]; }
    GrowTiled(fs, LiveBlocks(live), pages, start, n, Pmm.Pages(start, n));
  }

  lemma ExpandDone(m: seq<Byte>, head: int, fs: seq<Blk>, live: map<int, Grant>, pages: set<int>, total: int, used: int,
                   bits: seq<bool>, start: int, n: int, m': seq<Byte>, head': int)
    requires Sane(m, head, fs, live, pages, total, used) && pages !! Pmm.Pages(start, n) && 16 <= n
    requires 0 < start && start + n <= |bits| && Owned(pages, bits)
    requires var b := NewBlock(start, n); Confined(m, m', b, fs) && Linked(m', head', Insert(fs, b))
    ensures Sane(m', head', Insert(fs, NewBlock(start, n)), live, pages + Pmm.Pages(start, n), total + n * PAGE, used)
    ensures Owned(pages + Pmm.Pages(start, n), Pmm.Filled(bits, start, start + n, true))
    ensures SameOnLive(m, m', live)
  {
    hide Linked, Held, Sum, SumSet, Insert, Confined;
    GrowSane(m, head, fs, live, pages, total, used, start, n, Pmm.Pages(start, n), m', head');
    forall p | p in live ensures SameOn(m, m', live[p].blk.addr, live[p].blk.End()) {
      var c := live[p].blk;
      assert c in LiveBlocks(live);
      GrowApart(fs, LiveBlocks(live), pages, start, n, Pmm.Pages(start, n), c);
      ConfinedSame(m, m', NewBlock(start, n), fs, c);
    }
  }

  lemma SplitApart(b: Blk, need: int, fs: seq<Blk>)
    requires InMemory(b) && ApartFrom(b, fs) && 0 <= need && Splits(b, need)
    ensures InMemory(Rest(b, need)) && ApartFrom(Rest(b, need), fs) && Rest(b, need).addr == b.addr + HDR + need
  {
  }

  lemma PartUntouched(m: seq<Byte>, m': seq<Byte>, b: Blk, need: int, fs: seq<Blk>)
    requires InMemory(b) && ApartFrom(b, fs) && 0 <= need && Splits(b, need) && |m| == TWO32
    requires Confined(m, m', Rest(b, need), fs)
    ensures |m'| == TWO32 && HeadAt(m', b.addr) == HeadAt(m, b.addr) && SameOn(m, m', b.addr, b.addr + HDR + need)
    ensures ApartFrom(Blk(b.addr, need), Insert(fs, Rest(b, need)))
  {
    hide HeadAt;
    var c := Blk(b.addr, need);
    ConfinedSame(m, m', Rest(b, need), fs, c);
    HeadSame(m, m', b.addr);
    ApartInsert(c, fs, Rest(b, need));
  }

  lemma ApartInsert(c: Blk, fs: seq<Blk>, b: Blk)
    requires 0 <= c.size && ApartFrom(c, fs) && Apart(c, b)
    ensures ApartFrom(c, Insert(fs, b))
  {
    hide Pos;
  }

  lemma ConfinedFirst(m: seq<Byte>, m1: seq<Byte>, m2: seq<Byte>, b: Blk, need: int, fs: seq<Blk>)
    requires 0 <= need && Splits(b, need) && Confined(m, m1, Rest(b, need), fs)
    requires Outside(m1, m2, b.addr, Blk(b.addr, need).End())
    ensures Confined(m, m2, b, fs)
  {
  }

  lemma LinkInRange(m: seq<Byte>, head: int, fs: seq<Blk>, k: int)
    requires Linked(m, head, fs) && 0 <= k < |fs|
    ensures 0 <= AddrAt(fs, k + 1) < TWO32 && |m| == TWO32
  {
  }

  lemma DropApart(fs: seq<Blk>, k: int)
    requires Sorted(fs) && 0 <= k < |fs|
    ensures ApartFrom(fs[k], Drop(fs, k))
  {
    var d := Drop(fs, k);
    forall i | 0 <= i < |d| ensures Apart(fs[k], d[i]) { PairApart(fs, k, if i < k then i else i + 1); }
  }

  lemma ConfinedTaken(m0: seq<Byte>, m1: seq<Byte>, m2: seq<Byte>, m3: seq<Byte>, fs: seq<Blk>, k: int, need: int)
    requires 0 <= k < |fs| && 0 <= need <= fs[k].size && Confined(m0, m1, fs[k], fs)
    requires Confined(m1, m2, fs[k], Drop(fs, k))
    requires Outside(m2, m3, fs[k].addr, fs[k].addr + HDR)
    ensures Confined(m0, m3, fs[k], fs)
  {
    var d := Drop(fs, k);
    forall x | 0 <= x < |m0| && !Within(fs[k], x) && (forall i :: 0 <= i < |fs| ==> !Within(fs[i], x))
      ensures m3[x] == m0[x]
    {
      assert forall i :: 0 <= i < |d| ==> d[i] == fs[if i < k then i else i + 1];
    }
  }

  lemma RedirectedPayload(m: seq<Byte>, head: int, fs: seq<Blk>, k: int, to: int, m': seq<Byte>, head': int)
    requires Linked(m, head, fs) && Sorted(fs) && 0 <= k < |fs| && Redirected(m, head, fs, k, to, m', head')
    ensures SameOn(m, m', fs[k].addr, fs[k].End())
  {
    if 0 < k {
      PairApart(fs, k - 1, k);
      HeaderOnly(m, m', fs[k - 1]);
    }
  }

  lemma SaneLength(m: seq<Byte>, head: int, fs: seq<Blk>, live: map<int, Grant>, pages: set<int>, total: int, used: int)
    requires Sane(m, head, fs, live, pages, total, used)
    ensures |m| == TWO32
  {
  }

  lemma InsertEmpty(b: Blk)
    ensures Insert([], b) == [b]
  {
  }

  lemma EmptyOwned(bits: seq<bool>)
    ensures Owned({}, bits)
  {
  }

  predicate Filled(m: seq<Byte>, a: int, n: int, c: Byte) {
    0 <= a && a + n <= |m| && forall x :: a <= x < a + n ==> m[x] == c
  }

  /** The list an allocation searches in the end: grown by the new pages if there were any. */
  function Searched(fs: seq<Blk>, need: int, start: int): seq<Blk>
    requires 0 <= need
  {
    if FirstFit(fs, need, 0) < 0 then Insert(fs, NewBlock(start, PagesFor(need))) else fs
  }

  /** heap.c:181-192: where the caller's bytes begin in a block at `b`. */
  predicate Placed(p: int, b: int, a: int)
    requires 16 <= a
  {
    if a > 16 then 0 <= b && p == AlignUp(b + HDR + 8, a) else p == b + HDR
  }

  /** A plain pointer is 16-aligned exactly when its block's header sits 8 past a multiple of 16. */
  lemma PlacedAligned(p: int, b: int, a: int)
    requires 16 <= a && Placed(p, b, a)
    ensures if a > 16 then p % a == 0 && b + HDR + 8 <= p < b + HDR + 8 + a else p % 16 == 0 <==> b % 16 == 8
  {
  }

  lemma HeldDelivered(m0: seq<Byte>, m1: seq<Byte>, m2: seq<Byte>, p: int, size: int, over: bool, b: Blk)
    requires |m0| == TWO32 && InMemory(b) && HeadAt(m0, b.addr) == AllocHead(b) && 0 < size && p + size <= b.End()
    requires if over then b.addr + HDR + 8 <= p && m1 == Put64(m0, p - 8, b.addr) else p == b.addr + HDR && m1 == m0
    requires Outside(m1, m2, p, p + size)
    ensures Held(m2, p, Grant(b, size, over)) && Outside(m0, m2, b.addr, b.End())
  {
    hide HeadAt, Put64;
    assert Outside(m0, m2, b.addr + HDR, b.End());
    HeadSame(m0, m2, b.addr);
    if over { Le64Same(m1, m2, p - 8); }
  }

  lemma PaddingKept(m0: seq<Byte>, m1: seq<Byte>, m2: seq<Byte>, b: Blk, p: int, size: int, over: bool)
    requires SameOn(m0, m1, b.addr + HDR, b.End()) && SameOn(m1, m2, b.addr + HDR, p - 8)
    requires Held(m2, p, Grant(b, size, over))
    ensures SameOn(m0, m2, b.addr + HDR, p - 8)
  {
    hide HeadAt;
  }

  lemma Le64Same(m: seq<Byte>, m': seq<Byte>, a: int)
    requires 0 <= a && a + 8 <= |m| && SameOn(m, m', a, a + 8)
    ensures Le64(m', a) == Le64(m, a)
  {
  }

  lemma SaneList(m: seq<Byte>, head: int, fs: seq<Blk>, live: map<int, Grant>, pages: set<int>, total: int, used: int)
    requires Sane(m, head, fs, live, pages, total, used)
    ensures Linked(m, head, fs) && Sorted(fs) && |m| == TWO32
    ensures forall i :: 0 <= i < |fs| ==> InMemory(fs[i])
  {
  }

  lemma TakenRoom(b: Blk, need: int)
    requires 0 <= need <= b.size
    ensures need <= Taken(b, need).size && Taken(b, need).addr == b.addr
  {
  }

  lemma ServeList(m: seq<Byte>, head: int, fs: seq<Blk>, live: map<int, Grant>, pages: set<int>, total: int, used: int,
                  k: int, need: int, m1: seq<Byte>, m2: seq<Byte>, head': int, p: int, g: Grant)
    requires Sane(m, head, fs, live, pages, total, used) && 0 <= k < |fs| && 0 <= need <= fs[k].size
    requires g.blk == Taken(fs[k], need) && Held(m2, p, g) && Confined(m, m1, fs[k], fs)
    requires Linked(m1, head', Remaining(fs, k, need)) && Outside(m1, m2, g.blk.addr, g.blk.End())
    ensures p !in live && 0 < p && |m2| == TWO32 && HeadAt(m2, g.blk.addr) == AllocHead(g.blk)
    ensures Sane(m2, head', Remaining(fs, k, need), live[p := g], pages, total, used + g.blk.Weight())
    ensures SameOnLive(m, m2, live)
  {
    hide HeadAt, Sum, SumSet, Insert, Confined, Linked, Remaining, Taken;
    AllocTiled(fs, LiveBlocks(live), pages, k, need);
    BlocksApart(Remaining(fs, k, need), LiveBlocks(live) + {g.blk}, pages, g.blk);
    LinkedOutside(m1, head', Remaining(fs, k, need), g.blk, m2);
    ConfinedServe(m, m1, m2, fs, k, need);
    AllocSane(m, head, fs, live, pages, total, used, k, need, m2, head', p, g);
    forall q | q in live ensures SameOn(m, m2, live[q].blk.addr, live[q].blk.End()) {
      assert live[q].blk in LiveBlocks(live) && fs[k] in SetOf(fs);
      OtherSame(m, m2, fs, LiveBlocks(live), pages, fs[k], live[q].blk);
    }
  }

  lemma BlocksApart(fs: seq<Blk>, live: set<Blk>, pages: set<int>, b: Blk)
    requires Tiled(fs, live, pages) && b in live
    ensures ApartFrom(b, fs)
  {
    LiveApart(fs, live, pages, b);
  }

  lemma ConfinedServe(m: seq<Byte>, m1: seq<Byte>, m2: seq<Byte>, fs: seq<Blk>, k: int, need: int)
    requires 0 <= k < |fs| && 0 <= need <= fs[k].size && Confined(m, m1, fs[k], fs)
    requires var got := Taken(fs[k], need); Outside(m1, m2, got.addr, got.End())
    ensures Confined(m, m2, fs[k], fs)
  {
  }

  lemma NeedBound(size: int, align: int)
    requires 0 < size && 0 <= align
    ensures NeedOf(size, AlignOf(align)) <= size + align + 16
  {
  }

  lemma SameRefl(m: seq<Byte>, live: map<int, Grant>)
    ensures SameOnLive(m, m, live)
  {
  }

  lemma SameTrans(m: seq<Byte>, m1: seq<Byte>, m2: seq<Byte>, live: map<int, Grant>)
    requires SameOnLive(m, m1, live) && SameOnLive(m1, m2, live)
    ensures SameOnLive(m, m2, live)
  {
    forall p | p in live ensures SameOn(m, m2, live[p].blk.addr, live[p].blk.End()) {
      assert SameOn(m, m1, live[p].blk.addr, live[p].blk.End()) && SameOn(m1, m2, live[p].blk.addr, live[p].blk.End());
    }
  }

  /** One expansion is always enough. */
  lemma ExpandFits(fs: seq<Blk>, start: int, need: int)
    requires 0 <= need && Sorted(fs)
    ensures FirstFit(Insert(fs, NewBlock(start, PagesFor(need))), need, 0) >= 0
  {
    InsertFits(fs, NewBlock(start, PagesFor(need)), need);
  }

  predicate SaysFree(m: seq<Byte>, a: int)
    requires 0 <= a && a + HDR <= |m|
  {
    HeadAt(m, a).magic == MAGIC_FREE && HeadAt(m, a).canary == CANARY_FREE
  }

  lemma ListedFree(m: seq<Byte>, head: int, fs: seq<Blk>, k: int)
    requires Linked(m, head, fs) && 0 <= k < |fs|
    ensures |m| == TWO32 && InMemory(fs[k]) && SaysFree(m, fs[k].addr)
  {
  }

  lemma HeldBlock(m: seq<Byte>, p: int, g: Grant)
    requires Held(m, p, g)
    ensures InMemory(g.blk) && HeadAt(m, g.blk.addr).size == g.blk.size
  {
  }

  lemma HolderOf(m: seq<Byte>, head: int, fs: seq<Blk>, live: map<int, Grant>, pages: set<int>, total: int, used: int,
                 b: int)
    returns (q: int)
    requires Sane(m, head, fs, live, pages, total, used) && BlockAt(live, b)
    ensures q in live && live[q].blk.addr == b
  {
    q :| q in live && live[q].blk.addr == b;
  }

  lemma FreedOthers(m: seq<Byte>, head: int, fs: seq<Blk>, live: map<int, Grant>, pages: set<int>, total: int,
                    used: int,
                    p: int, m': seq<Byte>)
    requires Sane(m, head, fs, live, pages, total, used) && p in live && Confined(m, m', live[p].blk, fs)
    ensures SameOnLive(m, m', live - {p})
  {
    hide Linked, Held, Sum, SumSet, Confined;
    forall q | q in live - {p} ensures SameOn(m, m', live[q].blk.addr, live[q].blk.End()) {
      assert live[q].blk in LiveBlocks(live) && live[p].blk in LiveBlocks(live);
      OtherSame(m, m', fs, LiveBlocks(live), pages, live[p].blk, live[q].blk);
    }
  }

  lemma JoinPrevReady(m: seq<Byte>, head: int, fs: seq<Blk>, k: int)
    requires Linked(m, head, fs) && Sorted(fs) && 0 < k < |fs| && fs[k - 1].End() == fs[k].addr
    ensures InMemory(Join(fs[k - 1], fs[k])) && 0 <= AddrAt(fs, k + 1) < TWO32
  {
    JoinInMemory(fs[k - 1], fs[k]);
  }

  lemma EnlistReady(m: seq<Byte>, head: int, fs: seq<Blk>, b: Blk, k: int)
    requires Linked(m, head, fs) && Sorted(fs) && InMemory(b) && ApartFrom(b, fs) && k == Pos(fs, b.addr)
    ensures 0 <= AddrAt(fs, k) < TWO32 && Sorted(Put(fs, k, b)) && Sorted(Insert(fs, b))
  {
    PutSorted(fs, b);
    InsertSorted(fs, b);
  }

  lemma FrontIsFirst(m: seq<Byte>, head: int, fs: seq<Blk>, k: int)
    requires Linked(m, head, fs) && Sorted(fs) && 0 <= k < |fs|
    ensures head != fs[k].addr <==> 0 < k
  {
  }

  lemma InsertIs(fs: seq<Blk>, b: Blk, r: seq<Blk>)
    requires var k := Pos(fs, b.addr); k < |fs| ==> b.End() != fs[k].addr
    requires var k := Pos(fs, b.addr);
             r == if 0 < k && fs[k - 1].End() == b.addr then Swap(fs, k - 1, Join(fs[k - 1], b)) else Put(fs, k, b)
    ensures r == Insert(fs, b)
  {
    hide Pos, Swap, Put;
  }

  /** What the code reads from the two headers is the header of the joined block. */
  lemma AbsorbReady(m: seq<Byte>, head: int, fs: seq<Blk>, b: Blk, k: int)
    requires Linked(m, head, fs) && Sorted(fs) && InMemory(b) && ApartFrom(b, fs) && HeadOk(m, b, 0)
    requires k == Pos(fs, b.addr) && k < |fs| && b.End() == fs[k].addr
    ensures HeadOk(m, fs[k], AddrAt(fs, k + 1)) && InMemory(Join(b, fs[k])) && 0 <= AddrAt(fs, k + 1) < TWO32
    ensures Insert(fs, b) == Swap(fs, k, Join(b, fs[k])) && Sorted(Insert(fs, b))
  {
    InsertSorted(fs, b);
    hide HeadAt, Sorted, Swap;
    LinkedHead(m, head, fs, k);
  }

  lemma BlockOnly(m: seq<Byte>, m': seq<Byte>, head: int, fs: seq<Blk>, b: Blk, k: int)
    requires Linked(m, head, fs) && ApartFrom(b, fs) && 0 <= b.size && Outside(m, m', b.addr, b.addr + HDR)
    ensures Linked(m', head, fs) && Tight(m, m', b, fs, k) && Confined(m, m', b, fs)
  {
    HeaderOnly(m, m', b);
    LinkedOutside(m, head, fs, b, m');
  }
}
