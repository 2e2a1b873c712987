/**
  The kernel heap as one value: memory, free list, outstanding allocations and pages, and what each
  heap operation keeps true of them.
*/
module HeapState {
  import opened Bytes
  import opened HeapTiles
  import opened HeapMemory

  /** An outstanding allocation: its block, the bytes asked for, and whether it is over-aligned. */
  datatype Grant = Grant(blk: Blk, size: int, over: bool)

  function AllocHead(b: Blk): Header { Header(MAGIC_ALLOC, b.size, 0, CANARY_ALLOC) }

  /** `p` is a pointer into block `g.blk` with room for `g.size` bytes; an over-aligned one has the
      address of its block in the eight bytes in front of it. */
  ghost predicate Held(m: seq<Byte>, p: int, g: Grant) {
    && |m| == TWO32 && InMemory(g.blk) && 0 < g.size && p + g.size <= g.blk.End()
    && HeadAt(m, g.blk.addr) == AllocHead(g.blk)
    && (if g.over then g.blk.addr + HDR + 8 <= p && Le64(m, p - 8) == g.blk.addr else p == g.blk.addr + HDR)
  }

  function LiveBlocks(live: map<int, Grant>): set<Blk> { set p | p in live :: live[p].blk }

  ghost function SumSet(bs: set<Blk>): int {
    if bs == {} then 0 else var b :| b in bs; b.Weight() + SumSet(bs - {b})
  }

  lemma {:induction false} SumSetAdd(bs: set<Blk>, b: Blk)
    requires b !in bs
    ensures SumSet(bs + {b}) == SumSet(bs) + b.Weight()
    decreases |bs|
  {
    var s := bs + {b};
    var c :| c in s && SumSet(s) == c.Weight() + SumSet(s - {c});
    if c == b {
      assert s - {c} == bs;
    } else {
      var rest := bs - {c};
      assert s - {c} == rest + {b};
      SumSetAdd(rest, b);
      SumSetAdd(rest, c);
      assert rest + {c} == bs;
    }
  }

  ghost predicate OneEach(live: map<int, Grant>) {
    forall p, q :: p in live && q in live && live[p].blk == live[q].blk ==> p == q
  }

  ghost predicate AllHeld(m: seq<Byte>, live: map<int, Grant>) { forall p :: p in live ==> Held(m, p, live[p]) }

  /** The whole heap: a linked, address-sorted free list whose blocks, together with the blocks handed
      out, tile the pages taken from the page allocator, and counters that agree with both. */
  ghost predicate Sane(m: seq<Byte>, head: int, fs: seq<Blk>, live: map<int, Grant>, pages: set<int>, total: int,
                       used: int) {
    && Linked(m, head, fs) && Tiled(fs, LiveBlocks(live), pages)
    && AllHeld(m, live) && OneEach(live)
    && used == SumSet(LiveBlocks(live)) && total == Sum(fs) + used
  }

  /** Only bytes of `b` and of the blocks of `fs` may differ. */
  ghost predicate Confined(m: seq<Byte>, m': seq<Byte>, b: Blk, fs: seq<Blk>) {
    && |m'| == |m|
    && forall x :: 0 <= x < |m| && !Within(b, x) && (forall i :: 0 <= i < |fs| ==> !Within(fs[i], x)) ==> m'[x] == m[x]
  }

  lemma ConfinedSame(m: seq<Byte>, m': seq<Byte>, b: Blk, fs: seq<Blk>, c: Blk)
    requires Confined(m, m', b, fs) && Apart(b, c) && ApartFrom(c, fs)
    ensures SameOn(m, m', c.addr, c.End())
  {
  }

  lemma HeldSame(m: seq<Byte>, m': seq<Byte>, p: int, g: Grant)
    requires Held(m, p, g) && SameOn(m, m', g.blk.addr, g.blk.End())
    ensures Held(m', p, g)
  {
  }

  /** Live blocks lie apart from the free ones and from each other. */
  lemma LiveApart(fs: seq<Blk>, live: set<Blk>, pages: set<int>, b: Blk)
    requires Tiled(fs, live, pages) && b in live
    ensures ApartFrom(b, fs) && forall c :: c in live && c != b ==> Apart(b, c)
  {
    forall i | 0 <= i < |fs| ensures Apart(b, fs[i]) { assert fs[i] in SetOf(fs); }
  }

  lemma BlocksAdd(live: map<int, Grant>, p: int, g: Grant)
    requires p !in live
    ensures LiveBlocks(live[p := g]) == LiveBlocks(live) + {g.blk}
  {
    var l := live[p := g];
    forall b | b in LiveBlocks(live) + {g.blk} ensures b in LiveBlocks(l) {
      if b in LiveBlocks(live) {
        var q :| q in live && live[q].blk == b;
        assert l[q].blk == b;
      } else {
        assert l[p].blk == b;
      }
    }
  }

  lemma BlocksDrop(live: map<int, Grant>, p: int)
    requires p in live && OneEach(live)
    ensures LiveBlocks(live - {p}) == LiveBlocks(live) - {live[p].blk}
  {
    var l := live - {p};
    forall b | b in LiveBlocks(live) - {live[p].blk} ensures b in LiveBlocks(l) {
      var q :| q in live && live[q].blk == b;
      assert q in l;
    }
  }

  lemma HeldInside(m: seq<Byte>, p: int, g: Grant)
    requires Held(m, p, g)
    ensures Within(g.blk, p) && 0 <= g.blk.size
  {
  }

  lemma PointerIsNew(m: seq<Byte>, m': seq<Byte>, live: map<int, Grant>, p: int, g: Grant)
    requires AllHeld(m, live) && Held(m', p, g) && forall b :: b in LiveBlocks(live) ==> Apart(g.blk, b)
    ensures p !in live
  {
    hide Held;
    HeldInside(m', p, g);
    forall q | q in live ensures q != p {
      HeldInside(m, q, live[q]);
      assert live[q].blk in LiveBlocks(live);
    }
  }

  lemma OthersHeld(m: seq<Byte>, m': seq<Byte>, fs: seq<Blk>, live: map<int, Grant>, pages: set<int>, b: Blk,
                   except: int)
    requires Tiled(fs, LiveBlocks(live), pages) && AllHeld(m, live) && Confined(m, m', b, fs)
    requires (b in fs || b in LiveBlocks(live)) && forall p :: p in live && p != except ==> live[p].blk != b
    ensures forall p :: p in live && p != except ==> Held(m', p, live[p])
  {
    forall p | p in live && p != except ensures Held(m', p, live[p]) {
      var c := live[p].blk;
      OtherSame(m, m', fs, LiveBlocks(live), pages, b, c);
      HeldSame(m, m', p, live[p]);
    }
  }

  lemma OtherSame(m: seq<Byte>, m': seq<Byte>, fs: seq<Blk>, live: set<Blk>, pages: set<int>, b: Blk, c: Blk)
    requires Tiled(fs, live, pages) && Confined(m, m', b, fs) && c in live && c != b && (b in fs || b in live)
    ensures SameOn(m, m', c.addr, c.End())
  {
    LiveApart(fs, live, pages, c);
    hide Tiled;
    if b in fs { var i :| 0 <= i < |fs| && fs[i] == b; }
    ConfinedSame(m, m', b, fs, c);
  }

  /** Handing out block `i`. */
  lemma AllocSane(m: seq<Byte>, head: int, fs: seq<Blk>, live: map<int, Grant>, pages: set<int>, total: int, used: int,
                  i: int, need: int, m': seq<Byte>, head': int, p: int, g: Grant)
    requires Sane(m, head, fs, live, pages, total, used) && 0 <= i < |fs| && 0 <= need <= fs[i].size
    requires g.blk == Taken(fs[i], need) && Held(m', p, g) && Confined(m, m', fs[i], fs)
    requires Linked(m', head', Remaining(fs, i, need))
    ensures p !in live
    ensures Sane(m', head', Remaining(fs, i, need), live[p := g], pages, total, used + g.blk.Weight())
  {
    hide Linked, Tiled, Held, Confined, Remaining, Taken, LiveBlocks, SumSet, Sum, OneEach, AllHeld;
    AllocTiled(fs, LiveBlocks(live), pages, i, need);
    NewPart(m, m', fs, live, pages, i, need, p, g);
    BlocksAdd(live, p, g);
    SumSetAdd(LiveBlocks(live), g.blk);
    AllocHeld(m, m', fs, live, pages, i, p, g);
  }

  lemma NewPart(m: seq<Byte>, m': seq<Byte>, fs: seq<Blk>, live: map<int, Grant>, pages: set<int>, i: int, need: int,
                p: int, g: Grant)
    requires Tiled(fs, LiveBlocks(live), pages) && 0 <= i < |fs| && 0 <= need <= fs[i].size && AllHeld(m, live)
    requires g.blk == Taken(fs[i], need) && Held(m', p, g)
    ensures p !in live
  {
    hide Held, AllHeld, LiveBlocks;
    forall b | b in LiveBlocks(live) ensures Apart(g.blk, b) {
      LiveApart(fs, LiveBlocks(live), pages, b);
      assert Apart(b, fs[i]);
    }
    PointerIsNew(m, m', live, p, g);
  }

  lemma AllocHeld(m: seq<Byte>, m': seq<Byte>, fs: seq<Blk>, live: map<int, Grant>, pages: set<int>, i: int, p: int,
                  g: Grant)
    requires Tiled(fs, LiveBlocks(live), pages) && AllHeld(m, live) && OneEach(live) && 0 <= i < |fs|
    requires Confined(m, m', fs[i], fs) && Held(m', p, g) && p !in live && g.blk !in LiveBlocks(live)
    ensures AllHeld(m', live[p := g]) && OneEach(live[p := g])
  {
    hide Held, Confined;
    forall q | q in live ensures live[q].blk != fs[i] && live[q].blk != g.blk {
      assert live[q].blk in LiveBlocks(live) && fs[i] in SetOf(fs);
    }
    OthersHeld(m, m', fs, live, pages, fs[i], p);
  }

  /** Giving the block of pointer `p` back. */
  lemma FreeSane(m: seq<Byte>, head: int, fs: seq<Blk>, live: map<int, Grant>, pages: set<int>, total: int, used: int,
                 p: int, m': seq<Byte>, head': int)
    requires Sane(m, head, fs, live, pages, total, used) && p in live && Confined(m, m', live[p].blk, fs)
    requires Linked(m', head', Insert(fs, live[p].blk))
    ensures Sane(m', head', Insert(fs, live[p].blk), live - {p}, pages, total, used - live[p].blk.Weight())
  {
    hide Linked, Tiled, Held, Confined, Insert, SumSet, Sum;
    var b := live[p].blk;
    assert b in LiveBlocks(live);
    FreeTiled(fs, LiveBlocks(live), pages, b);
    BlocksDrop(live, p);
    SumSetAdd(LiveBlocks(live) - {b}, b);
    assert LiveBlocks(live) - {b} + {b} == LiveBlocks(live);
    OthersHeld(m, m', fs, live, pages, b, p);
  }

  lemma FreeReady(m: seq<Byte>, head: int, fs: seq<Blk>, live: map<int, Grant>, pages: set<int>, total: int, used: int,
                  p: int)
    requires Sane(m, head, fs, live, pages, total, used) && p in live
    ensures Held(m, p, live[p]) && ApartFrom(live[p].blk, fs) && Linked(m, head, fs) && Sorted(fs)
    ensures live[p].blk.Weight() <= used
  {
    hide Linked, Held, SumSet, Sum;
    var b := live[p].blk;
    assert b in LiveBlocks(live);
    FreeTiled(fs, LiveBlocks(live), pages, b);
    SumSetAdd(LiveBlocks(live) - {b}, b);
    assert LiveBlocks(live) - {b} + {b} == LiveBlocks(live);
    SumSetPositive(LiveBlocks(live) - {b});
  }

  lemma {:induction false} SumSetPositive(bs: set<Blk>)
    requires forall b :: b in bs ==> 0 <= b.size
    ensures 0 <= SumSet(bs)
  {
    if bs != {} {
      var b :| b in bs && SumSet(bs) == b.Weight() + SumSet(bs - {b});
      assert 0 <= b.Weight();
      SumSetPositive(bs - {b});
    }
  }

  /** New pages become one free block. */
  lemma GrowSane(m: seq<Byte>, head: int, fs: seq<Blk>, live: map<int, Grant>, pages: set<int>, total: int, used: int,
                 start: int, n: int, more: set<int>, m': seq<Byte>, head': int)
    requires Sane(m, head, fs, live, pages, total, used) && 0 < n && pages !! more
    requires forall p :: p in more <==> start <= p < start + n
    requires var b := Blk(start * PAGE, n * PAGE - HDR); Confined(m, m', b, fs) && Linked(m', head', Insert(fs, b))
    ensures var b := Blk(start * PAGE, n * PAGE - HDR);
            Sane(m', head', Insert(fs, b), live, pages + more, total + n * PAGE, used)
  {
    hide Linked, Tiled, Held, Confined, Insert, SumSet, Sum;
    var b := Blk(start * PAGE, n * PAGE - HDR);
    GrowTiled(fs, LiveBlocks(live), pages, start, n, more);
    forall p | p in live ensures Held(m', p, live[p]) {
      var c := live[p].blk;
      assert c in LiveBlocks(live);
      GrowApart(fs, LiveBlocks(live), pages, start, n, more, c);
      ConfinedSame(m, m', b, fs, c);
      HeldSame(m, m', p, live[p]);
    }
  }

  lemma GrowApart(fs: seq<Blk>, live: set<Blk>, pages: set<int>, start: int, n: int, more: set<int>, c: Blk)
    requires Tiled(fs, live, pages) && 0 < n && pages !! more && c in live
    requires forall p :: p in more <==> start <= p < start + n
    ensures ApartFrom(c, fs) && Apart(Blk(start * PAGE, n * PAGE - HDR), c)
  {
    LiveApart(fs, live, pages, c);
    TilesAdd(SetOf(fs) + live, pages, Blk(start * PAGE, n * PAGE - HDR), start, n, more);
  }

  /** A holder that stays inside the bytes it asked for cannot hurt the heap. */
  lemma UserWrite(m: seq<Byte>, head: int, fs: seq<Blk>, live: map<int, Grant>, pages: set<int>, total: int, used: int,
                  p: int, m': seq<Byte>)
    requires Sane(m, head, fs, live, pages, total, used) && p in live && Outside(m, m', p, p + live[p].size)
    ensures Sane(m', head, fs, live, pages, total, used)
  {
    hide Linked, Tiled, Held, Confined, SumSet, Sum, HeadAt;
    var b := live[p].blk;
    assert b in LiveBlocks(live);
    OwnWrite(m, m', p, live[p]);
    LiveApart(fs, LiveBlocks(live), pages, b);
    LinkedOutside(m, head, fs, b, m');
    ConfinedOutside(m, m', b, fs);
    OthersHeld(m, m', fs, live, pages, b, p);
  }

  lemma ConfinedOutside(m: seq<Byte>, m': seq<Byte>, b: Blk, fs: seq<Blk>)
    requires Outside(m, m', b.addr, b.End())
    ensures Confined(m, m', b, fs)
  {
  }

  lemma OwnWrite(m: seq<Byte>, m': seq<Byte>, p: int, g: Grant)
    requires Held(m, p, g) && Outside(m, m', p, p + g.size)
    ensures Held(m', p, g) && Outside(m, m', g.blk.addr, g.blk.End())
  {
  }

  /** heap_used + heap_free_bytes() == heap_total, with each side counted from the blocks themselves. */
  lemma Balance(m: seq<Byte>, head: int, fs: seq<Blk>, live: map<int, Grant>, pages: set<int>, total: int, used: int)
    requires Sane(m, head, fs, live, pages, total, used)
    ensures used + Sum(fs) == total && used == SumSet(LiveBlocks(live)) && 0 <= used
  {
    forall b | b in LiveBlocks(live) ensures 0 <= b.size { assert b in SetOf(fs) + LiveBlocks(live); }
    SumSetPositive(LiveBlocks(live));
  }

  // ---- which block a pointer releases -------------------------------------------------------------

  predicate LooksTaken(m: seq<Byte>, a: int)
    requires |m| == TWO32
  {
    0 <= a && a + HDR <= TWO32 && HeadAt(m, a).magic == MAGIC_ALLOC && HeadAt(m, a).canary == CANARY_ALLOC
  }

  /** heap.c:211-231: the header in front of the address if it looks taken, else the one the eight
      bytes in front of the address lead to, else none (-1). */
  function FreeTarget(m: seq<Byte>, ptr: int): int
    requires |m| == TWO32 && HDR <= ptr <= TWO32
  {
    if LooksTaken(m, ptr - HDR) then ptr - HDR
    else if Le64(m, ptr - 8) != 0 && LooksTaken(m, Le64(m, ptr - 8)) then Le64(m, ptr - 8)
    else -1
  }

  /** The bytes in front of an over-aligned pointer pass for a header. */
  predicate Misread(m: seq<Byte>, p: int, g: Grant)
    requires |m| == TWO32 && HDR <= p <= TWO32
  {
    g.over && g.blk.addr == CANARY_ALLOC && Le32(m, p - HDR) == MAGIC_ALLOC
  }

  /** A pointer that was handed out releases its own block exactly when it is not misread. */
  lemma ReleasesOwnBlock(m: seq<Byte>, p: int, g: Grant)
    requires Held(m, p, g)
    ensures FreeTarget(m, p) == g.blk.addr <==> !Misread(m, p, g)
    ensures g.blk.addr % 2 == 0 ==> FreeTarget(m, p) == g.blk.addr
  {
    hide Le32;
    if g.over {
      assert Le64(m, p - 8) == Le32(m, p - 8) + TWO32 * Le32(m, p - 4);
      assert Le32(m, p - 8) == g.blk.addr;
      assert HeadAt(m, p - HDR).canary == Le32(m, p - 8);
    }
  }

  lemma WordSame(m: seq<Byte>, m': seq<Byte>, a: int)
    requires 0 <= a && a + 4 <= |m| && SameOn(m, m', a, a + 4)
    ensures Le32(m', a) == Le32(m, a)
  {
  }

  /** Some block that is handed out has its header at `a`. */
  ghost predicate BlockAt(live: map<int, Grant>, a: int) { exists q :: q in live && live[q].blk.addr == a }

  /** No two pointers share a header. */
  lemma OneHolder(m: seq<Byte>, head: int, fs: seq<Blk>, live: map<int, Grant>, pages: set<int>, total: int, used: int,
                  p: int, q: int)
    requires Sane(m, head, fs, live, pages, total, used) && p in live && q in live
    requires live[p].blk.addr == live[q].blk.addr
    ensures p == q
  {
    hide Linked, Held, SumSet, Sum;
    var b, c := live[p].blk, live[q].blk;
    assert b in LiveBlocks(live) && c in LiveBlocks(live);
    LiveApart(fs, LiveBlocks(live), pages, b);
    assert b in SetOf(fs) + LiveBlocks(live) && c in SetOf(fs) + LiveBlocks(live);
  }

  /** heap.h:17: a second kfree of a plain pointer has an effect exactly when its header is taken again,
      or the eight bytes in front of it lead to a taken header.  If the block was handed out again in the
      meantime the new holder's block is released; if its header still says free, the word followed is the
      canary and the padding of that header. */
  lemma SecondFree(m: seq<Byte>, head: int, fs: seq<Blk>, live: map<int, Grant>, pages: set<int>, total: int, used: int,
                   p: int)
    requires Sane(m, head, fs, live, pages, total, used) && HDR <= p <= TWO32
    ensures |m| == TWO32
    ensures FreeTarget(m, p) != -1 <==> LooksTaken(m, p - HDR) || (Le64(m, p - 8) != 0 && LooksTaken(m, Le64(m, p - 8)))
    ensures BlockAt(live, p - HDR) ==> FreeTarget(m, p) == p - HDR
    ensures (exists i :: 0 <= i < |fs| && fs[i].addr == p - HDR) ==>
              && Le64(m, p - 8) == CANARY_FREE + TWO32 * Le32(m, p - 4)
              && (FreeTarget(m, p) == -1 <==> Le32(m, p - 4) != 0 || !LooksTaken(m, CANARY_FREE))
  {
    hide Tiled, SumSet, Sum, Le32;
    forall q | q in live && live[q].blk.addr == p - HDR ensures FreeTarget(m, p) == p - HDR {
      assert Held(m, q, live[q]);
    }
    forall i | 0 <= i < |fs| && fs[i].addr == p - HDR ensures HeadAt(m, p - HDR) == FreeHead(fs, i) { }
    assert HeadAt(m, p - HDR).canary == Le32(m, p - 8);
  }

  // ---- every block on an 8-byte boundary ----------------------------------------------------------

  ghost predicate AllEight(fs: seq<Blk>,
                           live: map<int, Grant>) { Eights(fs) && forall p :: p in live ==> Eight(live[p].blk) }

  /** While over-aligned requests ask for multiples of eight bytes, no pointer is ever misread. */
  lemma EightReleases(m: seq<Byte>, fs: seq<Blk>, live: map<int, Grant>, p: int)
    requires AllHeld(m, live) && AllEight(fs, live) && p in live
    ensures |m| == TWO32 && HDR <= p <= TWO32 && FreeTarget(m, p) == live[p].blk.addr
  {
    hide HeadAt, Le32, Le64, FreeTarget;
    assert Held(m, p, live[p]) && Eight(live[p].blk);
    ReleasesOwnBlock(m, p, live[p]);
  }
}
