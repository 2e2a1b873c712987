/**
  kernel/mm/vmm.c: the page tables are built in place, in pages taken from the page allocator.
  Frames are numbered; the physical address of frame f is 4096 * f, and frame 0 stands for NULL.
*/
module Vmm {
  import opened PageTables
  import Pmm

  /** Every table lies in a page that the page allocator counts as used. */
  ghost predicate Taken(role: map<int, Role>, bits: seq<bool>) {
    |bits| == FRAMES && bits[0] && forall f :: f in role && 0 <= f < FRAMES ==> bits[f]
  }

  lemma FreshFrame(m: seq<int>, role: map<int, Role>, root: int, bits: seq<bool>, g: int)
    requires Tree(m, role, root) && Taken(role, bits) && 0 <= g < FRAMES && !bits[g]
    ensures g !in role && g != 0
  {
  }

  lemma TakenMore(role: map<int, Role>, bits: seq<bool>, g: int, r: Role)
    requires Taken(role, bits) && 0 <= g < FRAMES
    ensures Taken(role[g := r], bits[g := true])
  {
  }

  /** The lowest free page, if there is one and the allocator is set up, is now used; `f` is 0 otherwise. */
  ghost predicate Took(bits: seq<bool>, bits': seq<bool>, hi: int, ready: bool, f: int) {
    && 0 <= hi <= |bits|
    && if f == 0 then bits' == bits && (ready ==> Pmm.Spare(bits, hi) == 0)
       else ready && 0 < f < hi && bits' == bits[f := true] && !bits[f] && forall p :: 0 <= p < f ==> bits[p]
  }

  lemma TookOne(bits: seq<bool>, bits': seq<bool>, hi: int, ready: bool, f: int)
    requires Took(bits, bits', hi, ready, f)
    ensures |bits'| == |bits| && (f != 0 ==> ready && Pmm.Spare(bits', hi) == Pmm.Spare(bits, hi) - 1)
    ensures f == 0 ==> bits' == bits && (ready ==> Pmm.Spare(bits, hi) == 0)
    ensures forall p :: 0 <= p < |bits| && bits[p] ==> bits'[p]
  {
    if f != 0 { Pmm.SpareTaken(bits, hi, f); }
  }

  /** `n` pages that were free are used now, and no page has become free. */
  ghost predicate Used(bits: seq<bool>, bits': seq<bool>, hi: int, n: int) {
    && 0 <= hi <= |bits| == |bits'| && Pmm.Spare(bits', hi) == Pmm.Spare(bits, hi) - n
    && forall p :: 0 <= p < |bits| && bits[p] ==> bits'[p]
  }

  lemma UsedMore(bits: seq<bool>, bits1: seq<bool>, bits2: seq<bool>, hi: int, n: int, ready: bool, f: int)
    requires Used(bits, bits1, hi, n) && Took(bits1, bits2, hi, ready, f) && f != 0
    ensures Used(bits, bits2, hi, n + 1) && ready
  {
    hide Pmm.Spare;
    TookOne(bits1, bits2, hi, ready, f);
  }

  lemma UsedUp(bits: seq<bool>, bits1: seq<bool>, bits2: seq<bool>, hi: int, n: int, ready: bool)
    requires Used(bits, bits1, hi, n) && Took(bits1, bits2, hi, ready, 0) && ready
    ensures Pmm.Spare(bits, hi) == n && Pmm.Spare(bits2, hi) == 0 && bits2 == bits1
  {
    hide Pmm.Spare;
  }

  lemma NoneUsed(bits: seq<bool>, hi: int)
    requires 0 <= hi <= |bits|
    ensures Used(bits, bits, hi, 0)
  {
  }

  lemma EnoughUsed(bits: seq<bool>, bits': seq<bool>, hi: int)
    requires Used(bits, bits', hi, 6)
    ensures 0 <= hi <= |bits| && Pmm.Spare(bits, hi) >= 6
  {
  }

  /** The addresses of 2 MiB pages from `lo` up to `hi`. */
  predicate Between(p: Path, lo: int, hi: int) { lo <= Base(p) < hi }

  class AddressSpace {
    const pmm: Pmm.Allocator
    var mem: seq<int>
    var pml4: int
    ghost var role: map<int, Role>

    constructor (allocator: Pmm.Allocator, memory: seq<int>)
      requires |memory| == WORDS
      ensures pmm == allocator && mem == memory && pml4 == 0 && role == map[]
    {
      pmm, mem, pml4, role := allocator, memory, 0, map[];
    }

    ghost predicate Valid()
      reads this, pmm, pmm.bitmap
    {
      pmm.Valid() && Tree(mem, role, pml4) && Taken(role, pmm.Bits())
    }

    /** No page is left to take, or the page allocator was never set up. */
    ghost predicate Exhausted()
      reads pmm, pmm.bitmap
    {
      pmm.Shape() && pmm.highest <= Pmm.MAX_PAGES && (pmm.ready ==> Pmm.Spare(pmm.Bits(), pmm.highest) == 0)
    }

    /** vmm.c:18-24: a zeroed page, 0 if there is none. */
    method AllocTable() returns (f: int)
      requires pmm.Valid() && |mem| == WORDS && pmm.Bits()[0]
      modifies this`mem, pmm.bitmap, pmm`used
      ensures pmm.Valid() && |mem| == WORDS && 0 <= f < FRAMES
      ensures f == 0 ==> mem == old(mem) && pmm.Bits() == old(pmm.Bits())
      ensures f != 0 ==> !old(pmm.Bits())[f] && pmm.Bits() == old(pmm.Bits())[f := true] && Blank(mem, f)
      ensures Took(old(pmm.Bits()), pmm.Bits(), pmm.highest, pmm.ready, f)
      ensures f != 0 ==>
                forall x, i :: 0 <= x < FRAMES && x != f && 0 <= i < 512 ==> Entry(mem, x, i) == Entry(old(mem), x, i)
    {
      hide Pmm.Lowest, Pmm.Filled, Pmm.Tally, Pmm.BitsOf;
      ghost var bits := pmm.Bits();
      var phys, start := pmm.AllocPage();
      if pmm.ready { PageFound(bits, pmm.highest, start); }
      if phys == 0 { return 0; }
      f := phys / 4096;
      var i := 0;
      while i < 512
        modifies this`mem
        invariant 0 <= i <= 512 && |mem| == WORDS
        invariant forall j :: 0 <= j < i ==> Entry(mem, f, j) == 0
        invariant forall x, j :: 0 <= x < FRAMES && x != f && 0 <= j < 512 ==> Entry(mem, x, j) == Entry(old(mem), x, j)
      {
        mem := Store(mem, f, i, 0);
        i := i + 1;
      }
    }

    /** A fresh table goes into the empty slot `i` of table `f`. */
    method Attach(f: int, i: int) returns (g: int)
      requires Valid() && f in role && 0 <= f < FRAMES && !role[f].Lower? && 0 <= i < 512 && Entry(mem, f, i) == 0
      modifies this`mem, this`role, pmm.bitmap, pmm`used
      ensures Valid() && 0 <= g < FRAMES
      ensures g == 0 ==> mem == old(mem) && role == old(role)
      ensures g != 0 ==> Attached(old(mem), old(role), pml4, g, f, i, mem)
      ensures Took(old(pmm.Bits()), pmm.Bits(), pmm.highest, pmm.ready, g)
    {
      hide Took, Tree, Taken, Entry, TableEntry, Pmm.Tally, Pmm.BitsOf, Attached, Blank;
      ghost var m, bits, roles := mem, pmm.Bits(), role;
      TreeShape(m, roles, pml4);
      TakenShape(roles, bits);
      g := AllocTable();
      if g == 0 { return; }
      FreshFrame(m, roles, pml4, bits, g);
      OthersSame(m, mem, roles, g);
      ghost var m1 := mem;
      mem := Store(mem, f, i, TableEntry(g));
      role := role[g := Child(role[f], i)];
      AttachTree(m, roles, pml4, m1, g, f, i);
      TakenMore(roles, bits, g, Child(roles[f], i));
      AttachDone(m, roles, pml4, m1, g, f, i);
    }

    /** vmm.c:63-72: slot 0 of the root is never filled here. */
    method EnsureUpper(p: Path) returns (ok: bool)
      requires Valid() && InRange(p) && (p.i4 == 0 ==> UpperOf(mem, pml4, p) != -1)
      modifies this`mem, this`role, pmm.bitmap, pmm`used
      ensures Valid() && SameLeaves(old(mem), mem, pml4) && UppersStay(old(mem), mem, pml4)
      ensures ok ==> UpperOf(mem, pml4, p) != -1
      ensures !ok ==> Exhausted()
    {
      hide Tree, Taken, Entry, TableEntry, UpperOf, LowerOf, HasLeaf, Pmm.Tally, Pmm.BitsOf, Attached, Present,
        SameLeaves, UppersStay;
      ghost var m, roles := mem, role;
      TreeShape(m, roles, pml4);
      LeavesRefl(m, pml4);
      UpperSlot(m, roles, pml4, p);
      if p.i4 != 0 && !Present(Entry(mem, pml4, p.i4)) {
        var g := Attach(pml4, p.i4);
        if g == 0 { return false; }
        AttachedLeaves(m, roles, pml4, g, pml4, p.i4, mem, p);
      }
      ok := true;
    }

    /** vmm.c:73-78. */
    method EnsureLower(p: Path) returns (ok: bool)
      requires Valid() && InRange(p) && UpperOf(mem, pml4, p) != -1
      modifies this`mem, this`role, pmm.bitmap, pmm`used
      ensures Valid() && SameLeaves(old(mem), mem, pml4) && UppersStay(old(mem), mem, pml4)
      ensures ok ==> UpperOf(mem, pml4, p) != -1 && LowerOf(mem, pml4, p) != -1
      ensures !ok ==> Exhausted()
    {
      hide Tree, Taken, Entry, TableEntry, UpperOf, LowerOf, HasLeaf, Pmm.Tally, Pmm.BitsOf, Attached, Present,
        SameLeaves, UppersStay, FrameOf;
      ghost var m, roles := mem, role;
      TreeShape(m, roles, pml4);
      LeavesRefl(m, pml4);
      LowerSlot(m, roles, pml4, p);
      var pdpt := FrameOf(Entry(mem, pml4, p.i4));
      if !Present(Entry(mem, pdpt, p.i3)) {
        var g := Attach(pdpt, p.i3);
        if g == 0 { return false; }
        AttachedLeaves(m, roles, pml4, g, pdpt, p.i3, mem, p);
      }
      ok := true;
    }

    /** vmm.c:59-80: one turn of the loop. */
    method MapPage(a: int) returns (ok: bool)
      requires Valid() && 0 <= a < TWO48 && a % LARGE == 0 && Served(mem, pml4, a)
      modifies this`mem, this`role, pmm.bitmap, pmm`used
      ensures Valid() && forall lo :: Served(old(mem), pml4, lo) ==> Served(mem, pml4, lo)
      ensures if ok then OneMore(old(mem), mem, pml4, PathOf(a)) else SameLeaves(old(mem), mem, pml4) && Exhausted()
    {
      hide Exhausted, Tree, Taken, Entry, TableEntry, LeafEntry, UpperOf, LowerOf, HasLeaf, PathOf, Pmm.Tally,
        Pmm.BitsOf, SameLeaves, UppersStay, FrameOf, Served, OneMore;
      ghost var m := mem;
      var p := PathOf(a);
      TreeShape(m, role, pml4);
      ServedUpper(m, role, pml4, a);
      ok := EnsureUpper(p);
      TreeShape(mem, role, pml4);
      ServedStays(m, mem, pml4);
      if !ok { return; }
      ghost var m1 := mem;
      ok := EnsureLower(p);
      TreeShape(mem, role, pml4);
      ServedStays(m1, mem, pml4);
      LeavesTrans(m, m1, mem, pml4);
      if !ok { return; }
      ghost var m2 := mem;
      LeafSlot(m2, role, pml4, p, a);
      var pd := FrameOf(Entry(mem, FrameOf(Entry(mem, pml4, p.i4)), p.i3));
      mem := Store(mem, pd, p.i2, a + LEAF_FLAGS);
      LeafDone(m, m2, role, pml4, p);
      ServedStays(m2, mem, pml4);
    }

    /** vmm.c:54-82: vmm_map_physical_range; the pages from the range's start up to `stop` get mapped. */
    method MapRange(phys: int, size: int) returns (r: int, ghost stop: int)
      requires |mem| == WORDS && 0 <= phys < TWO64 && 0 <= size < TWO64 && (pml4 != 0 ==> Valid())
      requires pml4 != 0 && size != 0 ==> Served(mem, pml4, RangeStart(phys)) && RangeEnd(phys, size) <= TWO48
      modifies this`mem, this`role, pmm.bitmap, pmm`used
      ensures r == 0 || r == -1
      ensures pml4 == 0 || size == 0 ==> r == -1 && mem == old(mem)
      ensures pml4 != 0 ==> Valid() && forall lo :: Served(old(mem), pml4, lo) ==> Served(mem, pml4, lo)
      ensures pml4 != 0 && size != 0 ==>
                (r == 0 <==> stop >= RangeEnd(phys, size)) && MappedUpTo(old(mem), mem, pml4, RangeStart(phys), stop)
      ensures (stop <= RangeEnd(phys, size) || stop == RangeStart(phys)) && stop % LARGE == 0
      ensures r == -1 && pml4 != 0 && size != 0 ==> Exhausted()
    {
      hide Exhausted, Tree, Taken, Pmm.Tally, Pmm.BitsOf, Served, OneMore, SameLeaves, PathOf, MappedUpTo;
      stop := RangeStart(phys);
      if pml4 == 0 || size == 0 { return -1, stop; }
      var start := RangeStart(phys);
      var end := RangeEnd(phys, size);
      var a := start;
      ghost var m := mem;
      TreeShape(m, role, pml4);
      UpToStart(m, pml4, start);
      while a < end
        invariant Valid() && (forall lo :: Served(m, pml4, lo) ==> Served(mem, pml4, lo)) && start <= a
        invariant a % LARGE == 0 && (a <= end || a == start)
        invariant MappedUpTo(m, mem, pml4, start, a)
      {
        ghost var m1 := mem;
        ServedAbove(m1, pml4, start, a);
        var ok := MapPage(a);
        stop := a;
        if !ok {
          UpToSame(m, m1, mem, pml4, start, a);
          return -1, stop;
        }
        UpToNext(m, m1, mem, pml4, start, a);
        a := a + LARGE;
      }
      return 0, a;
    }

    /** vmm.c:37-41: the 512 leaves of one gigabyte. */
    method FillGigabyte(g: int, pd: int)
      requires Valid() && 0 <= g < 4 && UpperOf(mem, pml4, Path(0, g, 0)) != -1
      requires LowerOf(mem, pml4, Path(0, g, 0)) == pd && 0 <= pd < FRAMES
      modifies this`mem
      ensures Valid() && SameUpper(old(mem), mem, pml4)
      ensures MappedUpTo(old(mem), mem, pml4, g * GIGA, g * GIGA + GIGA)
    {
      hide Tree, Taken, Pmm.Tally, Pmm.BitsOf, UpperOf, LowerOf, HasLeaf, MappedUpTo, LeafEntry, Store, SameUpper;
      ghost var m := mem;
      UpToStart(m, pml4, g * GIGA);
      UpperRefl(m, pml4);
      var i := 0;
      while i < 512
        invariant 0 <= i <= 512 && Valid() && SameUpper(m, mem, pml4)
        invariant MappedUpTo(m, mem, pml4, g * GIGA, g * GIGA + i * LARGE)
      {
        ghost var m1 := mem;
        var phys := g * GIGA + i * LARGE;
        UpperSame(m, m1, pml4, Path(0, g, 0));
        GigabyteSlot(m1, role, pml4, g, i, pd);
        mem := Store(mem, pd, i, phys + LEAF_FLAGS);
        LeafStep(m, m1, role, pml4, g, i, pd);
        i := i + 1;
      }
    }

    /** vmm.c:26-47: vmm_init.  After success exactly the first 4 GiB are mapped. */
    method Init() returns (r: int)
      requires pmm.Valid() && |mem| == WORDS && pmm.Bits()[0]
      modifies this, pmm.bitmap, pmm`used
      ensures r == 0 || r == -1
      ensures pml4 == 0 || Valid()
      ensures r == 0 ==> pml4 != 0 && Rooted(mem, pml4) && AllMapped(mem, pml4, 4 * GIGA)
      ensures pmm.Valid() && (r == 0 <==> pmm.ready && Pmm.Spare(old(pmm.Bits()), pmm.highest) >= 6)
      ensures r == 0 ==> Used(old(pmm.Bits()), pmm.Bits(), pmm.highest, 6)
      ensures r == -1 ==> Exhausted()
    {
      hide Took, Used, Tree, Taken, Pmm.Tally, Pmm.BitsOf, UpperOf, LowerOf, HasLeaf, MappedUpTo, Attached, SameUpper,
        EmptyFrom, Rooted, AllMapped, Entry, Blank;
      ghost var bits := pmm.Bits();
      NoneUsed(bits, pmm.highest);
      pml4 := AllocTable();
      ghost var bits1 := pmm.Bits();
      if pml4 == 0 {
        if pmm.ready { UsedUp(bits, bits, bits1, pmm.highest, 0, true); }
        return -1;
      }
      UsedMore(bits, bits, bits1, pmm.highest, 0, pmm.ready, pml4);
      role := map[pml4 := Root];
      RootAlone(mem, pml4, bits);
      ghost var m0 := mem;
      var pdpt := Attach(pml4, 0);
      if pdpt == 0 {
        UsedUp(bits, bits1, pmm.Bits(), pmm.highest, 1, true);
        return -1;
      }
      UsedMore(bits, bits1, pmm.Bits(), pmm.highest, 1, true, pdpt);
      UpperHung(m0, map[pml4 := Root], pml4, pdpt, mem);
      var g := 0;
      while g < 4
        invariant 0 <= g <= 4 && Valid() && AllMapped(mem, pml4, g * GIGA) && EmptyFrom(mem, pml4, g, pdpt)
        invariant pmm.ready && Used(bits, pmm.Bits(), pmm.highest, g + 2)
      {
        ghost var m1, role1 := mem, role;
        bits1 := pmm.Bits();
        NextGigabyte(m1, role1, pml4, g, pdpt);
        var pd := Attach(pdpt, g);
        if pd == 0 {
          UsedUp(bits, bits1, pmm.Bits(), pmm.highest, g + 2, true);
          return -1;
        }
        UsedMore(bits, bits1, pmm.Bits(), pmm.highest, g + 2, true, pd);
        ghost var m2 := mem;
        LowerHung(m1, role1, pml4, g, pdpt, pd, m2);
        FillGigabyte(g, pd);
        GigabyteDone(m2, mem, pml4, g, pdpt);
        g := g + 1;
      }
      EmptyRooted(mem, pml4, pdpt);
      EnoughUsed(bits, pmm.Bits(), pmm.highest);
      r := 0;
    }
  }

  const GIGA: int := 0x4000_0000

  function RangeStart(phys: int): (a: int)
    requires 0 <= phys
    ensures 0 <= a <= phys < a + LARGE && a % LARGE == 0
  {
    phys / LARGE * LARGE
  }

  /** With the wrap-around of 64-bit addition. */
  function RangeEnd(phys: int, size: int): (a: int)
    requires 0 <= phys && 0 <= size
    ensures a % LARGE == 0
  {
    (phys + size + (LARGE - 1)) % TWO64 / LARGE * LARGE
  }

  /** The rounded range covers the request exactly when the addition does not wrap. */
  lemma RangeCovers(phys: int, size: int)
    requires 0 <= phys < TWO64 && 0 < size < TWO64
    ensures phys + size <= RangeEnd(phys, size) <==> phys + size + (LARGE - 1) < TWO64
  {
  }

  /** Beyond what was mapped in `m`, `m'` maps the 2 MiB pages from `lo` up to `hi` and no others. */
  ghost predicate MappedUpTo(m: seq<int>, m': seq<int>, root: int, lo: int, hi: int) {
    && Ok(m, root) && Ok(m', root)
    && forall p :: InRange(p) ==> HasLeaf(m', root, p) == (HasLeaf(m, root, p) || Between(p, lo, hi))
  }

  lemma UpToStart(m: seq<int>, root: int, a: int)
    requires Ok(m, root)
    ensures MappedUpTo(m, m, root, a, a)
  {
  }

  lemma UpToSame(m: seq<int>, m1: seq<int>, m2: seq<int>, root: int, lo: int, hi: int)
    requires MappedUpTo(m, m1, root, lo, hi) && SameLeaves(m1, m2, root)
    ensures MappedUpTo(m, m2, root, lo, hi)
  {
    forall p | InRange(p) ensures HasLeaf(m2, root, p) == (HasLeaf(m, root, p) || Between(p, lo, hi)) {
      assert HasLeaf(m2, root, p) == HasLeaf(m1, root, p);
    }
  }

  lemma UpToNext(m: seq<int>, m1: seq<int>, m2: seq<int>, root: int, lo: int, a: int)
    requires MappedUpTo(m, m1, root, lo, a) && 0 <= lo <= a < TWO48 && a % LARGE == 0
    requires OneMore(m1, m2, root, PathOf(a))
    ensures MappedUpTo(m, m2, root, lo, a + LARGE)
  {
    hide HasLeaf, PathOf, Base;
    forall p | InRange(p) ensures HasLeaf(m2, root, p) == (HasLeaf(m, root, p) || Between(p, lo, a + LARGE)) {
      NextPage(p, a);
      assert HasLeaf(m2, root, p) == (HasLeaf(m1, root, p) || p == PathOf(a));
      assert HasLeaf(m1, root, p) == (HasLeaf(m, root, p) || Between(p, lo, a));
    }
  }

  /** The only 2 MiB page that starts between `a` and `a + LARGE` is the one at `a`. */
  lemma NextPage(p: Path, a: int)
    requires InRange(p) && 0 <= a < TWO48 && a % LARGE == 0
    ensures a <= Base(p) < a + LARGE <==> p == PathOf(a)
  {
    PathIdentity(a);
    PathOfBase(p, 0);
    assert Base(p) % LARGE == 0;
  }

  lemma GigabyteSlot(m: seq<int>, role: map<int, Role>, root: int, g: int, i: int, pd: int)
    requires Tree(m, role, root) && 0 <= g < 4 && 0 <= i < 512
    requires UpperOf(m, root, Path(0, g, 0)) != -1 && LowerOf(m, root, Path(0, g, 0)) == pd && 0 <= pd
    ensures var p := Path(0, g, i); UpperOf(m, root, p) != -1 && LowerOf(m, root, p) == pd
    ensures g * GIGA + i * LARGE + LEAF_FLAGS == LeafEntry(Path(0, g, i))
    ensures PathOf(g * GIGA + i * LARGE) == Path(0, g, i)
  {
    PathOfBase(Path(0, g, i), 0);
  }

  /** The same tables above the leaves. */
  ghost predicate SameUpper(m: seq<int>, m': seq<int>, root: int) {
    && Ok(m, root) && Ok(m', root)
    && forall p :: InRange(p) ==>
         UpperOf(m', root, p) == UpperOf(m, root, p) && LowerOf(m', root, p) == LowerOf(m, root, p)
  }

  lemma UpperRefl(m: seq<int>, root: int)
    requires Ok(m, root)
    ensures SameUpper(m, m, root)
  {
  }

  lemma UpperSame(m: seq<int>, m': seq<int>, root: int, p: Path)
    requires SameUpper(m, m', root) && InRange(p)
    ensures UpperOf(m', root, p) == UpperOf(m, root, p) && LowerOf(m', root, p) == LowerOf(m, root, p)
  {
  }

  lemma LeafStep(m: seq<int>, m1: seq<int>, role: map<int, Role>, root: int, g: int, i: int, pd: int)
    requires Tree(m1, role, root) && 0 <= g < 4 && 0 <= i < 512 && 0 <= pd < FRAMES
    requires UpperOf(m1, root, Path(0, g, 0)) != -1 && LowerOf(m1, root, Path(0, g, 0)) == pd
    requires MappedUpTo(m, m1, root, g * GIGA, g * GIGA + i * LARGE) && SameUpper(m, m1, root)
    ensures var m2 := Store(m1, pd, i, LeafEntry(Path(0, g, i)));
            && Tree(m2, role, root) && SameUpper(m, m2, root)
            && MappedUpTo(m, m2, root, g * GIGA, g * GIGA + i * LARGE + LARGE)
  {
    hide Tree, Entry, UpperOf, LowerOf, HasLeaf, LeafEntry, Store, MappedUpTo, PathOf;
    var p := Path(0, g, i);
    GigabyteSlot(m1, role, root, g, i, pd);
    LeavesRefl(m1, root);
    LeafDone(m1, m1, role, root, p);
    var m2 := Store(m1, pd, i, LeafEntry(p));
    forall q | InRange(q)
      ensures UpperOf(m2, root, q) == UpperOf(m, root, q) && LowerOf(m2, root, q) == LowerOf(m, root, q)
    {
      LeafLeaves(m1, role, root, p, q);
      UpperSame(m, m1, root, q);
    }
    UpToNext(m, m1, m2, root, g * GIGA, g * GIGA + i * LARGE);
  }

  /** Exactly the 2 MiB pages below `hi` are mapped. */
  ghost predicate AllMapped(m: seq<int>, root: int, hi: int) {
    Ok(m, root) && forall p :: InRange(p) ==> HasLeaf(m, root, p) == Between(p, 0, hi)
  }

  lemma RootAlone(m: seq<int>, root: int, bits: seq<bool>)
    requires Blank(m, root) && |bits| == FRAMES && bits[0]
    ensures Tree(m, map[root := Root], root) && Taken(map[root := Root], bits[root := true]) && Entry(m, root, 0) == 0
    ensures AllMapped(m, root, 0)
  {
    forall p | InRange(p) ensures HasLeaf(m, root, p) == Between(p, 0, 0) { assert Entry(m, root, p.i4) == 0; }
  }

  /** Slots `g` and up of the first upper table are empty. */
  ghost predicate EmptyFrom(m: seq<int>, root: int, g: int, pdpt: int) {
    && Ok(m, root) && 0 < pdpt < FRAMES && (forall j :: 0 <= j < 512 ==> UpperOf(m, root, Path(0, j, 0)) == pdpt)
    && forall j :: 0 <= g <= j < 512 ==> LowerOf(m, root, Path(0, j, 0)) == -1
  }

  lemma EmptyRooted(m: seq<int>, root: int, pdpt: int)
    requires EmptyFrom(m, root, 4, pdpt)
    ensures Rooted(m, root)
  {
  }

  lemma UpperHung(m: seq<int>, role: map<int, Role>, root: int, g: int, m': seq<int>)
    requires Attached(m, role, root, g, root, 0, m') && 0 < g < FRAMES && Blank(m, root) && AllMapped(m, root, 0)
    ensures EmptyFrom(m', root, 0, g) && AllMapped(m', root, 0)
  {
    forall j | 0 <= j < 512 ensures UpperOf(m', root, Path(0, j, 0)) == g && LowerOf(m', root, Path(0, j, 0)) == -1 {
      assert InRange(Path(0, j, 0)) && Entry(m, root, 0) == 0;
    }
    forall p | InRange(p) ensures HasLeaf(m', root, p) == Between(p, 0, 0) {
      assert HasLeaf(m', root, p) == HasLeaf(m, root, p);
    }
  }

  /** The slot of the next gigabyte is still empty. */
  lemma NextGigabyte(m: seq<int>, role: map<int, Role>, root: int, g: int, pdpt: int)
    requires Tree(m, role, root) && 0 <= g < 4 && EmptyFrom(m, root, g, pdpt)
    ensures 0 < pdpt < FRAMES && pdpt in role && role[pdpt] == Upper(0) && Entry(m, pdpt, g) == 0
  {
    UpperIs(m, role, root, Path(0, g, 0));
    LowerIs(m, role, root, Path(0, g, 0));
  }

  lemma LowerHung(m: seq<int>, role: map<int, Role>, root: int, g: int, pdpt: int, pd: int, m': seq<int>)
    requires Tree(m, role, root) && 0 <= g < 4 && EmptyFrom(m, root, g, pdpt) && AllMapped(m, root, g * GIGA)
    requires Attached(m, role, root, pd, pdpt, g, m') && 0 < pd < FRAMES
    ensures UpperOf(m', root, Path(0, g, 0)) == pdpt && LowerOf(m', root, Path(0, g, 0)) == pd
    ensures EmptyFrom(m', root, g + 1, pdpt) && AllMapped(m', root, g * GIGA)
  {
    NextGigabyte(m, role, root, g, pdpt);
    assert role[root] == Root;
    hide Tree, Entry, UpperOf, LowerOf, HasLeaf;
    forall j | 0 <= j < 512 ensures UpperOf(m', root, Path(0, j, 0)) == pdpt
      ensures j != g ==> LowerOf(m', root, Path(0, j, 0)) == LowerOf(m, root, Path(0, j, 0))
    {
      assert InRange(Path(0, j, 0)) && UpperOf(m, root, Path(0, j, 0)) == pdpt;
    }
    assert InRange(Path(0, g, 0));
    forall p | InRange(p) ensures HasLeaf(m', root, p) == Between(p, 0, g * GIGA) {
      assert HasLeaf(m', root, p) == HasLeaf(m, root, p);
    }
  }

  lemma GigabyteDone(m: seq<int>, m': seq<int>, root: int, g: int, pdpt: int)
    requires 0 <= g < 4 && EmptyFrom(m, root, g + 1, pdpt) && AllMapped(m, root, g * GIGA)
    requires SameUpper(m, m', root) && MappedUpTo(m, m', root, g * GIGA, g * GIGA + GIGA)
    ensures EmptyFrom(m', root, g + 1, pdpt) && AllMapped(m', root, (g + 1) * GIGA)
  {
    hide UpperOf, LowerOf, HasLeaf;
    forall j | 0 <= j < 512 ensures UpperOf(m', root, Path(0, j, 0)) == pdpt
      ensures g + 1 <= j ==> LowerOf(m', root, Path(0, j, 0)) == -1
    {
      UpperSame(m, m', root, Path(0, j, 0));
    }
    forall p | InRange(p) ensures HasLeaf(m', root, p) == Between(p, 0, (g + 1) * GIGA) {
      assert HasLeaf(m', root, p) == (HasLeaf(m, root, p) || Between(p, g * GIGA, g * GIGA + GIGA));
      assert HasLeaf(m, root, p) == Between(p, 0, g * GIGA);
      assert 0 <= Base(p);
    }
  }

  // ---- what the hardware sees ----------------------------------------------------------------------------

  /** After a call that stopped at `stop`: every address below 2^48 translates to itself if it did before
      or lies in the mapped part of the range, and to nothing otherwise. */
  lemma RangeWalk(m: seq<int>, role: map<int, Role>, m': seq<int>, role': map<int, Role>, root: int, phys: int,
                  stop: int, va: int)
    requires Tree(m, role, root) && Tree(m', role', root) && 0 <= phys && stop % LARGE == 0
    requires MappedUpTo(m, m', root, RangeStart(phys), stop) && 0 <= va < TWO48
    ensures Walk(m', root, va) ==
            if Walk(m, root, va) == Mapped(va) || RangeStart(phys) <= va < stop then Mapped(va) else Unmapped
  {
    hide Tree, HasLeaf, Walk, PathOf, Base;
    WalkIsIdentity(m, role, root, va);
    WalkIsIdentity(m', role', root, va);
    var p := PathOf(va);
    assert HasLeaf(m', root, p) == (HasLeaf(m, root, p) || Between(p, RangeStart(phys), stop));
    PathIdentity(va);
    SamePage(Base(p), va, RangeStart(phys), stop);
  }

  lemma SamePage(base: int, va: int, lo: int, hi: int)
    requires base + va % LARGE == va && lo % LARGE == 0 && hi % LARGE == 0
    ensures lo <= base < hi <==> lo <= va < hi
  {
  }

  lemma InitWalk(m: seq<int>, role: map<int, Role>, root: int, va: int)
    requires Tree(m, role, root) && AllMapped(m, root, 4 * GIGA) && 0 <= va < TWO48
    ensures Walk(m, root, va) == if va < 4 * GIGA then Mapped(va) else Unmapped
  {
    hide Tree, HasLeaf, Walk, PathOf, Base;
    WalkIsIdentity(m, role, root, va);
    var p := PathOf(va);
    assert HasLeaf(m, root, p) == Between(p, 0, 4 * GIGA);
    PathIdentity(va);
    SamePage(Base(p), va, 0, 4 * GIGA);
  }

  /** From 2^48 on the indices wrap: the store that is meant to map `a` maps a lower address to `a`. */
  lemma BeyondBreaks(m: seq<int>, role: map<int, Role>, root: int, a: int)
    requires Tree(m, role, root) && TWO48 <= a && a % LARGE == 0
    requires UpperOf(m, root, PathOf(a)) != -1 && LowerOf(m, root, PathOf(a)) != -1
    ensures 0 < LowerOf(m, root, PathOf(a)) < FRAMES
    ensures Walk(Store(m, LowerOf(m, root, PathOf(a)), PathOf(a).i2, a + LEAF_FLAGS), root, a % TWO48) == Mapped(a)
    ensures a % TWO48 != a
  {
    var p := PathOf(a);
    WrappedPath(a);
    hide PathOf, Base;
    UpperIs(m, role, root, p);
    LowerIs(m, role, root, p);
    TableEntryDecodes(UpperOf(m, root, p));
    TableEntryDecodes(LowerOf(m, root, p));
    hide Tree, TableEntry, Store, Entry, FrameOf, Points, Present, IsLarge, Grants;
    LargeDecodes(a / LARGE);
  }

  lemma WrappedPath(a: int)
    requires TWO48 <= a && a % LARGE == 0
    ensures PathOf(a % TWO48) == PathOf(a) && a % TWO48 % LARGE == 0
  {
    PathIdentity(a);
    PathOfBase(PathOf(a), 0);
  }

  lemma PageFound(bits: seq<bool>, hi: int, start: int)
    requires |bits| == FRAMES && 0 <= hi <= FRAMES && bits[0] && Pmm.Lowest(bits, hi, 1, start)
    ensures start != 0 && start < FRAMES
    ensures (0 < start ==> !bits[start] && Pmm.Filled(bits, start, start + 1, true) == bits[start := true])
    ensures 0 < start ==> Took(bits, bits[start := true], hi, true, start)
    ensures start < 0 ==> Took(bits, bits, hi, true, 0)
  {
    assert 0 <= start ==> Pmm.FreeRun(bits, start, 1);
    forall p | 0 <= p < hi && (start < 0 || p < start) ensures bits[p] { assert !Pmm.FreeRun(bits, p, 1); }
    Pmm.NoneSpare(bits, hi);
  }

  lemma TakenShape(role: map<int, Role>, bits: seq<bool>)
    requires Taken(role, bits)
    ensures |bits| == FRAMES && bits[0]
  {
  }

  lemma OthersSame(m: seq<int>, m': seq<int>, role: map<int, Role>, g: int)
    requires |m| == |m'| == WORDS && g !in role
    requires forall x, i :: 0 <= x < FRAMES && x != g && 0 <= i < 512 ==> Entry(m', x, i) == Entry(m, x, i)
    ensures SameTables(m, m', role)
  {
  }

  // ---- leaves across a change ---------------------------------------------------------------------------

  ghost predicate Ok(m: seq<int>, root: int) { |m| == WORDS && 0 <= root < FRAMES }

  ghost predicate SameLeaves(m: seq<int>, m': seq<int>, root: int) {
    Ok(m, root) && Ok(m', root) && forall p :: InRange(p) ==> HasLeaf(m', root, p) == HasLeaf(m, root, p)
  }

  /** Upper tables that are there stay. */
  ghost predicate UppersStay(m: seq<int>, m': seq<int>, root: int) {
    Ok(m, root) && Ok(m', root) && forall p :: InRange(p) && UpperOf(m, root, p) != -1 ==> UpperOf(m', root, p) != -1
  }

  ghost predicate OneMore(m: seq<int>, m': seq<int>, root: int, q: Path) {
    Ok(m, root) && Ok(m', root) && forall p :: InRange(p) ==> HasLeaf(m', root, p) == (HasLeaf(m, root, p) || p == q)
  }

  /** The root has a table for addresses from `lo` up: slot 0, for the first 512 GiB, is filled by vmm_init
      alone. */
  ghost predicate Served(m: seq<int>, root: int, lo: int) {
    Ok(m, root) && (UpperOf(m, root, Path(0, 0, 0)) != -1 || 0x80_0000_0000 <= lo)
  }

  /** vmm_init has filled slot 0 of the root. */
  ghost predicate Rooted(m: seq<int>, root: int) { Served(m, root, 0) }

  /** Table `g` now hangs in slot `i` of table `f`, and nothing else is mapped. */
  ghost predicate Attached(m: seq<int>, role: map<int, Role>, root: int, g: int, f: int, i: int, m': seq<int>) {
    && SameLeaves(m, m', root)
    && (forall p :: InRange(p) ==> UpperOf(m', root, p) == if f == root && p.i4 == i then g else UpperOf(m, root, p))
    && (forall p :: InRange(p) ==>
         LowerOf(m', root, p) == if f == UpperOf(m, root, p) && p.i3 == i then g else LowerOf(m, root, p))
  }

  lemma AttachDone(m: seq<int>, role: map<int, Role>, root: int, m1: seq<int>, g: int, f: int, i: int)
    requires Tree(m, role, root) && SameTables(m, m1, role) && Blank(m1, g) && g !in role
    requires f in role && 0 <= f < FRAMES && !role[f].Lower? && 0 <= i < 512 && Entry(m, f, i) == 0
    ensures Attached(m, role, root, g, f, i, Store(m1, f, i, TableEntry(g)))
  {
    hide Tree, Blank, Entry, Store, UpperOf, LowerOf, HasLeaf, TableEntry;
    TreeShape(m, role, root);
    var m2 := Store(m1, f, i, TableEntry(g));
    forall p | InRange(p)
      ensures HasLeaf(m2, root, p) == HasLeaf(m, root, p)
      ensures UpperOf(m2, root, p) == if f == root && p.i4 == i then g else UpperOf(m, root, p)
      ensures LowerOf(m2, root, p) == if f == UpperOf(m, root, p) && p.i3 == i then g else LowerOf(m, root, p)
    {
      AttachLeaves(m, role, root, m1, g, f, i, p);
    }
  }

  lemma LeavesRefl(m: seq<int>, root: int)
    requires Ok(m, root)
    ensures SameLeaves(m, m, root) && UppersStay(m, m, root)
  {
  }

  lemma LeavesTrans(m: seq<int>, m1: seq<int>, m2: seq<int>, root: int)
    requires SameLeaves(m, m1, root) && SameLeaves(m1, m2, root)
    ensures SameLeaves(m, m2, root)
  {
    forall p | InRange(p) ensures HasLeaf(m2, root, p) == HasLeaf(m, root, p) {
      assert HasLeaf(m1, root, p) == HasLeaf(m, root, p);
    }
  }

  lemma UpperSlot(m: seq<int>, role: map<int, Role>, root: int, p: Path)
    requires Tree(m, role, root) && InRange(p)
    ensures Present(Entry(m, root, p.i4)) <==> UpperOf(m, root, p) != -1
    ensures !Present(Entry(m, root, p.i4)) ==> Entry(m, root, p.i4) == 0
  {
    UpperIs(m, role, root, p);
    if UpperOf(m, root, p) != -1 { TableEntryDecodes(UpperOf(m, root, p)); }
  }

  lemma LowerSlot(m: seq<int>, role: map<int, Role>, root: int, p: Path)
    requires Tree(m, role, root) && InRange(p) && UpperOf(m, root, p) != -1
    ensures var f := FrameOf(Entry(m, root, p.i4));
            && f == UpperOf(m, root, p) && f in role && 0 < f < FRAMES && role[f] == Upper(p.i4)
            && (Present(Entry(m, f, p.i3)) <==> LowerOf(m, root, p) != -1)
            && (!Present(Entry(m, f, p.i3)) ==> Entry(m, f, p.i3) == 0)
            && (LowerOf(m, root, p) != -1 ==> FrameOf(Entry(m, f, p.i3)) == LowerOf(m, root, p))
  {
    UpperIs(m, role, root, p);
    LowerIs(m, role, root, p);
    TableEntryDecodes(UpperOf(m, root, p));
    if LowerOf(m, root, p) != -1 { TableEntryDecodes(LowerOf(m, root, p)); }
  }

  lemma AttachedLeaves(m: seq<int>, role: map<int, Role>, root: int, g: int, f: int, i: int, m': seq<int>, p: Path)
    requires Attached(m, role, root, g, f, i, m') && 0 < g && InRange(p)
    ensures SameLeaves(m, m', root) && UppersStay(m, m', root)
    ensures f == root && p.i4 == i ==> UpperOf(m', root, p) == g
    ensures f == UpperOf(m, root, p) && p.i3 == i ==> LowerOf(m', root, p) == g
  {
  }

  lemma ServedUpper(m: seq<int>, role: map<int, Role>, root: int, a: int)
    requires Tree(m, role, root) && 0 <= a < TWO48 && Served(m, root, a)
    ensures PathOf(a).i4 == 0 ==> UpperOf(m, root, PathOf(a)) != -1
  {
    UpperIs(m, role, root, PathOf(a));
  }

  lemma ServedStays(m: seq<int>, m': seq<int>, root: int)
    requires UppersStay(m, m', root)
    ensures forall lo :: Served(m, root, lo) ==> Served(m', root, lo)
  {
  }

  lemma ServedAbove(m: seq<int>, root: int, lo: int, a: int)
    requires Served(m, root, lo) && lo <= a
    ensures Served(m, root, a)
  {
  }

  lemma LeafSlot(m: seq<int>, role: map<int, Role>, root: int, p: Path, a: int)
    requires Tree(m, role, root) && InRange(p) && UpperOf(m, root, p) != -1 && LowerOf(m, root, p) != -1
    requires 0 <= a < TWO48 && a % LARGE == 0 && p == PathOf(a)
    ensures 0 <= FrameOf(Entry(m, root, p.i4)) < FRAMES
    ensures FrameOf(Entry(m, FrameOf(Entry(m, root, p.i4)), p.i3)) == LowerOf(m, root, p)
    ensures 0 <= LowerOf(m, root, p) < FRAMES
    ensures a + LEAF_FLAGS == LeafEntry(p)
  {
    hide Tree, Entry, UpperOf, LowerOf, FrameOf;
    LowerSlot(m, role, root, p);
    LowerIs(m, role, root, p);
    PathIdentity(a);
  }

  lemma LeafDone(m0: seq<int>, m: seq<int>, role: map<int, Role>, root: int, p: Path)
    requires Tree(m, role, root) && InRange(p) && UpperOf(m, root, p) != -1 && LowerOf(m, root, p) != -1
    requires SameLeaves(m0, m, root)
    ensures 0 < LowerOf(m, root, p) < FRAMES
    ensures var m' := Store(m, LowerOf(m, root, p), p.i2, LeafEntry(p));
            Tree(m', role, root) && OneMore(m0, m', root, p) && UppersStay(m, m', root)
  {
    hide Tree, Entry, LowerOf, HasLeaf, LeafEntry, Store, FrameOf;
    TreeShape(m, role, root);
    LeafTree(m, role, root, p);
    LowerIs(m, role, root, p);
    var m' := Store(m, LowerOf(m, root, p), p.i2, LeafEntry(p));
    forall q | InRange(q) ensures HasLeaf(m', root, q) == (HasLeaf(m0, root, q) || q == p) {
      LeafLeaves(m, role, root, p, q);
      assert HasLeaf(m, root, q) == HasLeaf(m0, root, q);
    }
  }

  // ---- whole runs -----------------------------------------------------------------------------------------

  /** A range that vmm_map_physical_range can take without leaving the 48-bit address space. */
  predicate Fits(q: (int, int)) {
    0 <= q.0 < TWO64 && 0 < q.1 < TWO64 && q.0 + q.1 + (LARGE - 1) < TWO48 + LARGE
  }

  ghost predicate Identity(m: seq<int>, root: int) {
    Ok(m, root) && forall va :: 0 <= va < TWO48 ==> Walk(m, root, va) == Mapped(va) || Walk(m, root, va) == Unmapped
  }

  ghost predicate StillMapped(m: seq<int>, m': seq<int>, root: int) {
    && Ok(m, root) && Ok(m', root)
    && forall va :: 0 <= va < TWO48 && Walk(m, root, va) == Mapped(va) ==> Walk(m', root, va) == Mapped(va)
  }

  ghost predicate RangeMapped(m: seq<int>, root: int, q: (int, int))
    requires Fits(q)
  {
    Ok(m, root) && forall va :: q.0 <= va < q.0 + q.1 ==> Walk(m, root, va) == Mapped(va)
  }

  lemma FitsEnd(q: (int, int))
    requires Fits(q)
    ensures q.0 + q.1 <= RangeEnd(q.0, q.1) <= TWO48 && RangeStart(q.0) <= q.0
  {
  }

  lemma TreeIdentity(m: seq<int>, role: map<int, Role>, root: int)
    requires Tree(m, role, root)
    ensures Identity(m, root)
  {
    hide Tree, Walk, HasLeaf;
    forall va | 0 <= va < TWO48 ensures Walk(m, root, va) == Mapped(va) || Walk(m, root, va) == Unmapped {
      WalkIsIdentity(m, role, root, va);
    }
  }

  lemma CallWalk(m: seq<int>, role: map<int, Role>, m': seq<int>, role': map<int, Role>, root: int, q: (int, int),
                 stop: int)
    requires Tree(m, role, root) && Tree(m', role', root) && Fits(q) && stop % LARGE == 0
    requires MappedUpTo(m, m', root, RangeStart(q.0), stop)
    ensures StillMapped(m, m', root) && (RangeEnd(q.0, q.1) <= stop ==> RangeMapped(m', root, q))
  {
    hide Tree, Walk, HasLeaf, MappedUpTo, RangeStart, RangeEnd;
    FitsEnd(q);
    forall va | 0 <= va < TWO48
      ensures Walk(m, root, va) == Mapped(va) || RangeStart(q.0) <= va < stop ==> Walk(m', root, va) == Mapped(va)
    {
      RangeWalk(m, role, m', role', root, q.0, stop, va);
    }
  }

  lemma StillTrans(m: seq<int>, m1: seq<int>, m2: seq<int>, root: int)
    requires StillMapped(m, m1, root) && StillMapped(m1, m2, root)
    ensures StillMapped(m, m2, root)
  {
    hide Walk;
  }

  lemma StillRange(m: seq<int>, m': seq<int>, root: int, q: (int, int))
    requires StillMapped(m, m', root) && Fits(q) && RangeMapped(m, root, q)
    ensures RangeMapped(m', root, q)
  {
    hide Walk;
  }

  /** Any sequence of calls after vmm_init, some of which may run out of pages midway: every address
      translates to itself or not at all, what was mapped stays mapped, and every range whose call
      succeeded is mapped in the end. */
  method MapAll(v: AddressSpace, qs: seq<(int, int)>) returns (rs: seq<int>)
    requires v.pml4 != 0 && v.Valid() && Rooted(v.mem, v.pml4) && forall i :: 0 <= i < |qs| ==> Fits(qs[i])
    modifies v`mem, v`role, v.pmm.bitmap, v.pmm`used
    ensures v.Valid() && Rooted(v.mem, v.pml4) && |rs| == |qs|
    ensures Identity(v.mem, v.pml4) && StillMapped(old(v.mem), v.mem, v.pml4)
    ensures forall i :: 0 <= i < |qs| && rs[i] == 0 ==> RangeMapped(v.mem, v.pml4, qs[i])
  {
    hide Tree, Taken, Pmm.Tally, Pmm.BitsOf, Walk, HasLeaf, Served, StillMapped, RangeMapped, Identity, MappedUpTo,
      RangeStart, RangeEnd;
    rs := [];
    ghost var m := v.mem;
    StillRefl(m, v.pml4);
    var k := 0;
    while k < |qs|
      invariant 0 <= k <= |qs| && |rs| == k && v.Valid() && Rooted(v.mem, v.pml4) && StillMapped(m, v.mem, v.pml4)
      invariant forall i :: 0 <= i < k && rs[i] == 0 ==> RangeMapped(v.mem, v.pml4, qs[i])
    {
      ghost var m1, role1 := v.mem, v.role;
      FitsEnd(qs[k]);
      StartServed(m1, v.pml4, qs[k].0);
      var r, stop := v.MapRange(qs[k].0, qs[k].1);
      CallWalk(m1, role1, v.mem, v.role, v.pml4, qs[k], stop);
      StillTrans(m, m1, v.mem, v.pml4);
      forall i | 0 <= i < k && rs[i] == 0 ensures RangeMapped(v.mem, v.pml4, qs[i]) {
        StillRange(m1, v.mem, v.pml4, qs[i]);
      }
      rs := rs + [r];
      k := k + 1;
    }
    TreeIdentity(v.mem, v.role, v.pml4);
  }

  lemma StartServed(m: seq<int>, root: int, phys: int)
    requires Rooted(m, root) && 0 <= phys
    ensures Served(m, root, RangeStart(phys))
  {
    ServedAbove(m, root, 0, RangeStart(phys));
  }

  lemma StillRefl(m: seq<int>, root: int)
    requires Ok(m, root)
    ensures StillMapped(m, m, root)
  {
  }
}
