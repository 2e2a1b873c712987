/**
  The physical page allocator of kernel/mm/pmm.c: a bitmap over 4 KiB pages, scanned from below.
*/
module Pmm {

  const PAGE_SIZE: nat := 4096
  const MAX_PAGES: nat := 0x10_0000
  const TWO64: nat := 0x1_0000_0000_0000_0000

  // ---- one bit of a byte ---------------------------------------------------------------------------

  function Mask(k: int): bv8
    requires 0 <= k < 8
  {
    if k == 0 then 1 else if k == 1 then 2 else if k == 2 then 4 else if k == 3 then 8
    else if k == 4 then 16 else if k == 5 then 32 else if k == 6 then 64 else 128
  }

  predicate Bit(b: bv8, k: int)
    requires 0 <= k < 8
  {
    b & Mask(k) != 0
  }

  /** `b` with bit `k` set or cleared, as bitmap_set and bitmap_clear do it. */
  function SetTo(b: bv8, k: int, on: bool): bv8
    requires 0 <= k < 8
  {
    if on then b | Mask(k) else b & !Mask(k)
  }

  lemma BitSetTo(b: bv8, k: int, on: bool, j: int)
    requires 0 <= k < 8 && 0 <= j < 8
    ensures Bit(SetTo(b, k, on), j) == if j == k then on else Bit(b, j)
  {
  }

  // ---- pages as a sequence of bits -------------------------------------------------------------------

  /** The number of used pages among `s`. */
  function Count(s: seq<bool>): nat {
    if s == [] then 0 else Count(s[..|s| - 1]) + if s[|s| - 1] then 1 else 0
  }

  lemma {:induction false} CountUpdate(s: seq<bool>, i: nat, b: bool)
    requires i < |s|
    ensures Count(s[i := b]) == Count(s) - (if s[i] then 1 else 0) + (if b then 1 else 0)
  {
    var n := |s| - 1;
    if i == n {
      assert s[i := b][..n] == s[..n];
    } else {
      assert s[i := b][..n] == s[..n][i := b];
      CountUpdate(s[..n], i, b);
    }
  }

  lemma CountPrefix(s: seq<bool>, n: nat, i: nat, b: bool)
    requires i < n <= |s|
    ensures Count(s[i := b][..n]) == Count(s[..n]) - (if s[i] then 1 else 0) + (if b then 1 else 0)
  {
    CountUpdate(s[..n], i, b);
    assert s[i := b][..n] == s[..n][i := b];
  }

  lemma CountNext(s: seq<bool>, p: nat)
    requires p < |s|
    ensures Count(s[..p + 1]) == Count(s[..p]) + if s[p] then 1 else 0
  {
    assert s[..p + 1][..p] == s[..p];
  }

  lemma CountNone(s: seq<bool>)
    ensures Count(s[..0]) == 0
  {
  }

  predicate FreeRun(bits: seq<bool>, start: int, n: int) {
    0 <= start && start + n <= |bits| && forall i :: start <= i < start + n ==> !bits[i]
  }

  /** `start` is the lowest run of `n` free pages below `hi`; -1 means there is none. */
  ghost predicate Lowest(bits: seq<bool>, hi: int, n: int, start: int)
    requires 0 <= hi <= |bits|
  {
    if start < 0 then forall s :: 0 <= s <= hi - n ==> !FreeRun(bits, s, n)
    else start + n <= hi && FreeRun(bits, start, n) && forall s :: 0 <= s < start ==> !FreeRun(bits, s, n)
  }

  lemma LowestUnique(bits: seq<bool>, hi: int, n: int, s: int, t: int)
    requires 0 <= hi <= |bits| && Lowest(bits, hi, n, s) && Lowest(bits, hi, n, t)
    ensures s == t || (s < 0 && t < 0)
  {
  }

  /** `bits` with pages `lo` to `hi` set to `b`. */
  function Filled(bits: seq<bool>, lo: int, hi: int, b: bool): (r: seq<bool>)
    ensures |r| == |bits|
    ensures forall i :: 0 <= i < |bits| ==> r[i] == if lo <= i < hi then b else bits[i]
  {
    seq(|bits|, i requires 0 <= i < |bits| => if lo <= i < hi then b else bits[i])
  }

  function BitsOf(bm: seq<bv8>): (r: seq<bool>)
    ensures |r| == 8 * |bm|
    ensures forall p :: 0 <= p < 8 * |bm| ==> r[p] == Bit(bm[p / 8], p % 8)
  {
    seq(8 * |bm|, p requires 0 <= p < 8 * |bm| => Bit(bm[p / 8], p % 8))
  }

  lemma BitsUpdate(bm: seq<bv8>, page: nat, on: bool)
    requires page < 8 * |bm|
    ensures BitsOf(bm[page / 8 := SetTo(bm[page / 8], page % 8, on)]) == BitsOf(bm)[page := on]
  {
    hide Bit, SetTo;
    var bm' := bm[page / 8 := SetTo(bm[page / 8], page % 8, on)];
    var bits, bits' := BitsOf(bm), BitsOf(bm');
    forall p | 0 <= p < 8 * |bm| ensures bits'[p] == if p == page then on else bits[p] {
      if p / 8 == page / 8 { BitSetTo(bm[page / 8], page % 8, on, p % 8); }
    }
  }

  // ---- the memory map --------------------------------------------------------------------------------

  datatype Descriptor = Descriptor(kind: int, physicalStart: nat, pages: nat)

  /** Conventional memory, and what the firmware and the loader give back (pmm.c:117-121). */
  predicate Usable(kind: int) { kind == 7 || kind == 3 || kind == 4 || kind == 1 || kind == 2 }

  /** The first page past a descriptor, in 64-bit arithmetic. */
  function EndPage(d: Descriptor): nat { (d.physicalStart / PAGE_SIZE + d.pages) % TWO64 }

  predicate Offers(d: Descriptor, p: int) { Usable(d.kind) && d.physicalStart / PAGE_SIZE <= p < EndPage(d) }

  function MaxEnd(ds: seq<Descriptor>): nat {
    if ds == [] then 0 else
    var m := MaxEnd(ds[..|ds| - 1]);
    var e := EndPage(ds[|ds| - 1]);
    if e > m then e else m
  }

  /** The managed range ends where the last region does. */
  lemma {:induction false} MaxEndExactly(ds: seq<Descriptor>)
    ensures forall i :: 0 <= i < |ds| ==> EndPage(ds[i]) <= MaxEnd(ds)
    ensures MaxEnd(ds) == 0 || exists i :: 0 <= i < |ds| && EndPage(ds[i]) == MaxEnd(ds)
  {
    if ds != [] {
      var n := |ds| - 1;
      var front := ds[..n];
      MaxEndExactly(front);
      forall i | 0 <= i < |ds| ensures EndPage(ds[i]) <= MaxEnd(ds) {
        if i < n { assert EndPage(front[i]) <= MaxEnd(front); }
      }
      if MaxEnd(ds) != 0 {
        if EndPage(ds[n]) > MaxEnd(front) {
          assert EndPage(ds[n]) == MaxEnd(ds);
        } else {
          var i :| 0 <= i < |front| && EndPage(front[i]) == MaxEnd(front);
          assert EndPage(ds[i]) == MaxEnd(ds);
        }
      }
    }
  }

  datatype Region = Region(phys: nat, size: nat)

  /** The pages mark_range_used marks (pmm.c:71-75), in 64-bit arithmetic. */
  predicate Covers(r: Region, p: int) {
    r.size != 0 && r.phys / PAGE_SIZE <= p < (r.phys + r.size + PAGE_SIZE - 1) % TWO64 / PAGE_SIZE
  }

  /** What pmm_init sets aside (pmm.c:149-169). */
  function Protected(kernelBase: nat, bootInfo: nat, mapAddr: nat, mapSize: nat): seq<Region> {
    [Region(0, 0x10_0000)]
    + (if kernelBase != 0 then [Region(kernelBase, 0x10_0000)] else [])
    + [Region(0x8_0000, 0x1_0000), Region(bootInfo, PAGE_SIZE)]
    + (if mapAddr != 0 && mapSize != 0 then [Region(mapAddr, mapSize)] else [])
  }

  /** The bytes that must never be given out: the first MiB, a MiB from the kernel's base on if it is known, the boot
      record's page and the memory map. */
  predicate Vital(x: int, kernelBase: nat, bootInfo: nat, mapAddr: nat, mapSize: nat) {
    || 0 <= x < 0x10_0000 || (kernelBase != 0 && kernelBase <= x < kernelBase + 0x10_0000)
    || bootInfo <= x < bootInfo + 4096 || mapAddr <= x < mapAddr + mapSize
  }

  /** A page with such a byte. */
  ghost predicate HoldsVital(p: int, kernelBase: nat, bootInfo: nat, mapAddr: nat, mapSize: nat) {
    exists x :: Vital(x, kernelBase, bootInfo, mapAddr, mapSize) && x / 4096 == p
  }

  /** The page lies in a region of boot services, loader or conventional memory (types 1 to 4 and 7). */
  predicate Given(d: Descriptor, p: int) {
    d.kind in {1, 2, 3, 4, 7} && d.physicalStart / 4096 <= p < d.physicalStart / 4096 + d.pages
  }

  lemma OffersMeans(d: Descriptor, p: int)
    requires d.physicalStart / 4096 + d.pages < TWO64
    ensures Offers(d, p) <==> Given(d, p)
  {
  }

  /** A region's first page is marked exactly when rounding up the region's end does not wrap. */
  lemma RegionCovers(r: Region)
    requires 0 < r.size && r.phys + r.size <= TWO64 && r.phys / PAGE_SIZE < MAX_PAGES
    ensures Covers(r, r.phys / PAGE_SIZE) <==> r.phys + r.size + 4095 < TWO64
  {
  }

  lemma CoversMeans(r: Region, p: int)
    requires 0 <= p < MAX_PAGES && (r.phys + r.size + 4095 < TWO64 || (r.size <= 0x10_0000 && r.phys >= 0x2_0000_0000))
    ensures Covers(r, p) <==> exists x :: r.phys <= x < r.phys + r.size && x / 4096 == p
  {
    if Covers(r, p) {
      var x := if r.phys >= 4096 * p then r.phys else 4096 * p;
      assert r.phys <= x < r.phys + r.size && x / 4096 == p;
    }
  }

  /** The pages set aside are those with a byte that must be kept. */
  lemma ProtectedMeans(kernelBase: nat, bootInfo: nat, mapAddr: nat, mapSize: nat, p: int)
    requires 0 <= p < MAX_PAGES && mapAddr != 0 && mapAddr + mapSize + 4095 < TWO64
    ensures Covered(Protected(kernelBase, bootInfo, mapAddr, mapSize), p) <==>
            HoldsVital(p, kernelBase, bootInfo, mapAddr, mapSize)
  {
    var rs := Protected(kernelBase, bootInfo, mapAddr, mapSize);
    var low, stack, boot, kern, mp := Region(0, 0x10_0000), Region(0x8_0000, 0x1_0000), Region(bootInfo, PAGE_SIZE),
      Region(kernelBase, 0x10_0000), Region(mapAddr, mapSize);
    var k := if kernelBase != 0 then 1 else 0;
    assert rs[0] == low && rs[k + 1] == stack && rs[k + 2] == boot && (k == 1 ==> rs[1] == kern);
    assert mapSize != 0 ==> rs[k + 3] == mp;
    assert Covered(rs, p) <==> Covers(low, p) || (k == 1 && Covers(kern, p)) || Covers(stack, p) || Covers(boot, p)
                               || (mapSize != 0 && Covers(mp, p));
    CoversMeans(low, p);
    CoversMeans(stack, p);
    CoversMeans(boot, p);
    CoversMeans(kern, p);
    CoversMeans(mp, p);
    hide Covers, Covered;
    if Covered(rs, p) {
      var r := if Covers(low, p) then low else if k == 1 && Covers(kern, p) then kern
               else if Covers(stack, p) then stack else if Covers(boot, p) then boot else mp;
      var x :| r.phys <= x < r.phys + r.size && x / 4096 == p;
      assert Vital(x, kernelBase, bootInfo, mapAddr, mapSize);
    }
  }

  predicate Covered(rs: seq<Region>, p: int) { exists i :: 0 <= i < |rs| && Covers(rs[i], p) }

  /** The region ends within 64 bits. */
  predicate Unwrapped(d: Descriptor) { d.physicalStart / 4096 + d.pages < TWO64 }

  lemma InitMeans(bits: seq<bool>, ds: seq<Descriptor>, kernelBase: nat, bootInfo: nat, mapAddr: nat, mapSize: nat)
    requires |bits| == MAX_PAGES && mapAddr != 0
    requires forall p :: 0 <= p < MAX_PAGES ==>
               (bits[p] <==> (forall i :: 0 <= i < |ds| ==> !Offers(ds[i], p))
                             || Covered(Protected(kernelBase, bootInfo, mapAddr, mapSize), p))
    ensures mapAddr + mapSize + 4095 < TWO64 && (forall i :: 0 <= i < |ds| ==> Unwrapped(ds[i])) ==>
              forall p :: 0 <= p < MAX_PAGES ==>
                (bits[p] <==> (forall i :: 0 <= i < |ds| ==> !Given(ds[i], p))
                              || HoldsVital(p, kernelBase, bootInfo, mapAddr, mapSize))
  {
    hide Covered, Protected, HoldsVital;
    if mapAddr + mapSize + 4095 < TWO64 && forall i :: 0 <= i < |ds| ==> Unwrapped(ds[i]) {
      forall p | 0 <= p < MAX_PAGES
        ensures bits[p] <==> (forall i :: 0 <= i < |ds| ==> !Given(ds[i], p))
                             || HoldsVital(p, kernelBase, bootInfo, mapAddr, mapSize)
      {
        forall i | 0 <= i < |ds| ensures Offers(ds[i], p) <==> Given(ds[i], p) {
          assert Unwrapped(ds[i]);
          OffersMeans(ds[i], p);
        }
        hide Offers, Given;
        ProtectedMeans(kernelBase, bootInfo, mapAddr, mapSize, p);
      }
    }
  }

  ghost predicate Tally(bits: seq<bool>, hi: nat, used: int) { hi <= |bits| && used == Count(bits[..hi]) }

  lemma TallyUpdate(bits: seq<bool>, hi: nat, used: int, p: nat, b: bool)
    requires Tally(bits, hi, used) && p < hi && bits[p] != b
    ensures Tally(bits[p := b], hi, if b then used + 1 else used - 1) && 0 <= used && (bits[p] ==> 0 < used)
  {
    CountPrefix(bits, hi, p, b);
  }

  /** Exactly `run` free pages end at `p`, and no run of `count` ends at or before it. */
  ghost predicate Scanned(bits: seq<bool>, p: int, run: int, count: int) {
    && 0 <= run <= p <= |bits| && run < count
    && FreeRun(bits, p - run, run) && (run < p ==> bits[p - run - 1])
    && forall s :: 0 <= s <= p - count ==> !FreeRun(bits, s, count)
  }

  lemma ScanStart(bits: seq<bool>, count: int)
    requires 0 < count
    ensures Scanned(bits, 0, 0, count)
  {
  }

  lemma ScanStep(bits: seq<bool>, p: int, run: int, count: int)
    requires Scanned(bits, p, run, count) && p < |bits|
    ensures bits[p] ==> Scanned(bits, p + 1, 0, count)
    ensures !bits[p] && run + 1 < count ==> Scanned(bits, p + 1, run + 1, count)
    ensures !bits[p] && run + 1 == count && p < |bits| ==> FreeRun(bits, p + 1 - count, count)
  {
    if bits[p] {
      RunTooShort(bits, p + 1, 0, count);
    } else if run + 1 < count {
      RunTooShort(bits, p + 1, run + 1, count);
    }
  }

  lemma ScanFound(bits: seq<bool>, p: int, run: int, count: int, hi: int)
    requires Scanned(bits, p, run, count) && p < hi <= |bits| && !bits[p] && run + 1 == count
    ensures Lowest(bits, hi, count, p - run)
  {
    ScanStep(bits, p, run, count);
  }

  lemma ScanEnd(bits: seq<bool>, hi: int, run: int, count: int)
    requires Scanned(bits, hi, run, count)
    ensures Lowest(bits, hi, count, -1)
  {
  }

  /** The free pages that end at `p` are too few, so no long enough run ends there. */
  lemma RunTooShort(bits: seq<bool>, p: int, run: int, count: int)
    requires 0 <= run < count && run <= p <= |bits| && (run < p ==> bits[p - run - 1])
    ensures !FreeRun(bits, p - count, count)
  {
    assert 0 <= p - count ==> p - count <= p - run - 1 < p;
  }

  class Allocator {
    const bitmap: array<bv8>
    var used: int
    var highest: nat
    var ready: bool

    constructor ()
      ensures fresh(bitmap) && bitmap.Length == MAX_PAGES / 8 && !ready && highest == 0
    {
      bitmap := new bv8[MAX_PAGES / 8];
      used, highest, ready := 0, 0, false;
    }

    ghost predicate Shape() { bitmap.Length == MAX_PAGES / 8 }

    ghost function Bits(): (s: seq<bool>)
      requires Shape()
      reads bitmap
      ensures |s| == MAX_PAGES
    {
      BitsOf(bitmap[..])
    }

    /** The counter agrees with the bitmap, and no page past the managed range looks free. */
    ghost predicate Valid()
      reads this, bitmap
    {
      && Shape() && highest <= MAX_PAGES
      && Tally(Bits(), highest, used)
      && forall p :: highest <= p < MAX_PAGES ==> Bits()[p]
    }

    /** pmm.c:56-59. */
    method BitmapSet(page: nat)
      requires Shape()
      modifies bitmap
      ensures Bits() == if page < MAX_PAGES then old(Bits())[page := true] else old(Bits())
    {
      hide BitsOf, Bit, SetTo;
      if page >= MAX_PAGES { return; }
      BitsUpdate(bitmap[..], page, true);
      bitmap[page / 8] := SetTo(bitmap[page / 8], page % 8, true);
      assert bitmap[..] == old(bitmap[..])[page / 8 := SetTo(old(bitmap[page / 8]), page % 8, true)];
    }

    /** pmm.c:61-64. */
    method BitmapClear(page: nat)
      requires Shape()
      modifies bitmap
      ensures Bits() == if page < MAX_PAGES then old(Bits())[page := false] else old(Bits())
    {
      hide BitsOf, Bit, SetTo;
      if page >= MAX_PAGES { return; }
      BitsUpdate(bitmap[..], page, false);
      bitmap[page / 8] := SetTo(bitmap[page / 8], page % 8, false);
      assert bitmap[..] == old(bitmap[..])[page / 8 := SetTo(old(bitmap[page / 8]), page % 8, false)];
    }

    /** pmm.c:66-69: pages out of range count as used. */
    method BitmapTest(page: nat) returns (r: bool)
      requires Shape()
      ensures r == if page < MAX_PAGES then Bits()[page] else true
    {
      if page >= MAX_PAGES { return true; }
      r := Bit(bitmap[page / 8], page % 8);
    }

    /** A free page becomes used, with the counter. */
    method UsePage(p: nat)
      requires Valid() && p < highest && !Bits()[p]
      modifies bitmap, this`used
      ensures Valid() && used == old(used) + 1 && Bits() == old(Bits())[p := true]
    {
      hide BitsOf, Tally;
      TallyUpdate(Bits(), highest, used, p, true);
      BitmapSet(p);
      used := used + 1;
    }

    /** pmm.c:71-82. */
    method MarkRangeUsed(r: Region)
      requires Valid()
      modifies bitmap, this`used
      ensures Valid()
      ensures forall p :: 0 <= p < MAX_PAGES ==> Bits()[p] == (old(Bits())[p] || Covers(r, p))
    {
      hide BitsOf, Tally;
      if r.size == 0 { return; }
      var p := r.phys / PAGE_SIZE;
      var end := (r.phys + r.size + PAGE_SIZE - 1) % TWO64 / PAGE_SIZE;
      if end > MAX_PAGES { end := MAX_PAGES; }
      ghost var start := p;
      while p < end
        invariant start <= p && Valid()
        invariant forall q :: 0 <= q < MAX_PAGES ==> Bits()[q] == (old(Bits())[q] || (start <= q < p && q < end))
      {
        var t := BitmapTest(p);
        if !t {
          UsePage(p);
        }
        p := p + 1;
      }
    }

    /** pmm.c:109-133 for one descriptor. */
    method TakeDescriptor(d: Descriptor)
      requires Shape()
      modifies bitmap, this`highest
      ensures highest == if EndPage(d) > old(highest) then EndPage(d) else old(highest)
      ensures forall p :: 0 <= p < MAX_PAGES ==> Bits()[p] == (old(Bits())[p] && !Offers(d, p))
    {
      hide BitsOf;
      var startPage := d.physicalStart / PAGE_SIZE;
      var last := (startPage + d.pages) % TWO64;
      if last > highest { highest := last; }
      if Usable(d.kind) && startPage < MAX_PAGES {
        if last > MAX_PAGES { last := MAX_PAGES; }
        var p := startPage;
        ghost var hi := highest;
        while p < last
          invariant startPage <= p && highest == hi
          invariant forall q :: 0 <= q < MAX_PAGES ==>
                      Bits()[q] == (old(Bits())[q] && !(startPage <= q < p && q < last))
        {
          var t := BitmapTest(p);
          if t { BitmapClear(p); }
          p := p + 1;
        }
      }
    }

    /** pmm.c:95-139: everything used, then every usable region freed. */
    method ReadMap(ds: seq<Descriptor>)
      requires Shape()
      modifies bitmap, this`highest
      ensures highest == if MaxEnd(ds) > MAX_PAGES then MAX_PAGES else MaxEnd(ds)
      ensures forall p :: 0 <= p < MAX_PAGES ==> (Bits()[p] <==> forall i :: 0 <= i < |ds| ==> !Offers(ds[i], p))
    {
      var i := 0;
      while i < bitmap.Length
        invariant 0 <= i <= bitmap.Length && forall x :: 0 <= x < i ==> bitmap[x] == 0xFF
      {
        bitmap[i] := 0xFF;
        i := i + 1;
      }
      assert forall p :: 0 <= p < MAX_PAGES ==> Bits()[p] by {
        forall p | 0 <= p < MAX_PAGES ensures Bits()[p] { AllOnes(p % 8); assert bitmap[..][p / 8] == 0xFF; }
      }
      hide BitsOf;
      highest := 0;
      var k := 0;
      while k < |ds|
        invariant 0 <= k <= |ds| && highest == MaxEnd(ds[..k])
        invariant forall p :: 0 <= p < MAX_PAGES ==> (Bits()[p] <==> forall i :: 0 <= i < k ==> !Offers(ds[i], p))
      {
        assert ds[..k + 1][..k] == ds[..k];
        TakeDescriptor(ds[k]);
        k := k + 1;
      }
      assert ds[..|ds|] == ds;
      if highest > MAX_PAGES { highest := MAX_PAGES; }
    }

    lemma AllOnes(k: int)
      requires 0 <= k < 8
      ensures Bit(0xFF, k)
    {
    }

    /** pmm.c:141-146. */
    method Recount()
      requires Shape() && highest <= MAX_PAGES
      modifies this`used
      ensures used == Count(Bits()[..highest])
    {
      hide BitsOf, Count;
      used := 0;
      var p := 0;
      CountNone(Bits());
      while p < highest
        invariant 0 <= p <= highest && used == Count(Bits()[..p])
      {
        CountNext(Bits(), p);
        var t := BitmapTest(p);
        if t { used := used + 1; }
        p := p + 1;
      }
    }

    /** pmm.c:88-183: a page is free exactly when some usable region offers it and no protected region
        covers it.  `magicOk` is the test of the boot record's magic number. */
    method Init(magicOk: bool, ds: seq<Descriptor>, kernelBase: nat, bootInfo: nat, mapAddr: nat, mapSize: nat)
      returns (r: int)
      requires Shape()
      modifies bitmap, this
      ensures r == if bootInfo == 0 || !magicOk || mapAddr == 0 then -1 else 0
      ensures r == -1 ==> Bits() == old(Bits()) && used == old(used) && highest == old(highest) && ready == old(ready)
      ensures r == 0 ==> Valid() && ready
      ensures r == 0 ==> highest == if MaxEnd(ds) > MAX_PAGES then MAX_PAGES else MaxEnd(ds)
      ensures r == 0 ==> forall p :: 0 <= p < MAX_PAGES ==>
                (Bits()[p] <==> (forall i :: 0 <= i < |ds| ==> !Offers(ds[i], p))
                                || Covered(Protected(kernelBase, bootInfo, mapAddr, mapSize), p))
      ensures r == 0 && mapAddr + mapSize + 4095 < TWO64 && (forall i :: 0 <= i < |ds| ==> Unwrapped(ds[i])) ==>
                forall p :: 0 <= p < MAX_PAGES ==>
                  (Bits()[p] <==> (forall i :: 0 <= i < |ds| ==> !Given(ds[i], p))
                                  || HoldsVital(p, kernelBase, bootInfo, mapAddr, mapSize))
    {
      hide BitsOf, Offers, Given, HoldsVital, Unwrapped, Protected, Covers, Covered, MaxEnd, Count;
      if bootInfo == 0 || !magicOk || mapAddr == 0 { return -1; }
      ReadMap(ds);
      Recount();
      forall p | highest <= p < MAX_PAGES ensures Bits()[p] { NoneOffers(ds, p); }
      ghost var before, hi := Bits(), highest;
      var rs := Protected(kernelBase, bootInfo, mapAddr, mapSize);
      var i := 0;
      NoneCovered(rs);
      while i < |rs|
        invariant 0 <= i <= |rs| && Valid() && highest == hi
        invariant forall p :: 0 <= p < MAX_PAGES ==> Bits()[p] == (before[p] || Covered(rs[..i], p))
      {
        forall p | 0 <= p < MAX_PAGES ensures Covered(rs[..i + 1], p) == (Covered(rs[..i], p) || Covers(rs[i], p)) {
          CoveredSnoc(rs, i, p);
        }
        MarkRangeUsed(rs[i]);
        i := i + 1;
      }
      assert rs[..|rs|] == rs;
      InitMeans(Bits(), ds, kernelBase, bootInfo, mapAddr, mapSize);
      ready := true;
      r := 0;
    }

    lemma NoneCovered(rs: seq<Region>)
      ensures forall p :: !Covered(rs[..0], p)
    {
    }

    lemma CoveredSnoc(rs: seq<Region>, i: int, p: int)
      requires 0 <= i < |rs|
      ensures Covered(rs[..i + 1], p) == (Covered(rs[..i], p) || Covers(rs[i], p))
    {
      var a, b := rs[..i], rs[..i + 1];
      assert b[i] == rs[i];
      if Covered(a, p) {
        var x :| 0 <= x < |a| && Covers(a[x], p);
        assert Covers(b[x], p);
      }
      if Covered(b, p) {
        var x :| 0 <= x < |b| && Covers(b[x], p);
        if x < i { assert Covers(a[x], p); }
      }
    }

    lemma {:induction false} NoneOffers(ds: seq<Descriptor>, p: int)
      requires MaxEnd(ds) <= p
      ensures forall i :: 0 <= i < |ds| ==> !Offers(ds[i], p)
    {
      if ds != [] {
        var n := |ds| - 1;
        NoneOffers(ds[..n], p);
        forall i | 0 <= i < |ds| ensures !Offers(ds[i], p) { if i < n { assert !Offers(ds[..n][i], p); } }
      }
    }

    /** pmm.c:185-196. */
    method AllocPage() returns (phys: int, ghost start: int)
      requires Valid()
      modifies bitmap, this`used
      ensures Valid()
      ensures !ready ==> phys == 0 && start == -1 && Bits() == old(Bits()) && used == old(used)
      ensures ready ==> Lowest(old(Bits()), highest, 1, start)
      ensures if start < 0 then phys == 0 && Bits() == old(Bits())
              else phys == start * PAGE_SIZE && Bits() == Filled(old(Bits()), start, start + 1, true)
    {
      hide BitsOf, Lowest, Filled, Tally;
      if !ready { return 0, -1; }
      var p := 0;
      while p < highest
        invariant 0 <= p <= highest && Valid() && Bits() == old(Bits()) && used == old(used)
        invariant forall s :: 0 <= s < p ==> Bits()[s]
      {
        var t := BitmapTest(p);
        if !t {
          UsePage(p);
          LowestOne(old(Bits()), highest, p);
          return p * PAGE_SIZE, p;
        }
        p := p + 1;
      }
      LowestOne(old(Bits()), highest, highest);
      return 0, -1;
    }

    lemma LowestOne(bits: seq<bool>, hi: int, p: int)
      requires 0 <= p <= hi <= |bits| && (forall s :: 0 <= s < p ==> bits[s]) && (p < hi ==> !bits[p])
      ensures Lowest(bits, hi, 1, if p < hi then p else -1)
      ensures p < hi ==> Filled(bits, p, p + 1, true) == bits[p := true]
    {
      forall s | 0 <= s < p ensures !FreeRun(bits, s, 1) { assert bits[s]; }
    }

    /** pmm.c:210-213. */
    method SetRun(start: nat, count: nat)
      requires Valid() && start + count <= highest && FreeRun(Bits(), start, count)
      modifies bitmap, this`used
      ensures Valid() && used == old(used) + count && Bits() == Filled(old(Bits()), start, start + count, true)
    {
      hide BitsOf, Tally, Filled;
      var i := 0;
      while i < count
        invariant 0 <= i <= count && Valid() && used == old(used) + i
        invariant forall q :: 0 <= q < MAX_PAGES ==>
                    Bits()[q] == if start <= q < start + i then true else old(Bits())[q]
      {
        UsePage(start + i);
        i := i + 1;
      }
      assert Bits() == Filled(old(Bits()), start, start + count, true);
    }

    /** pmm.c:198-221: the lowest run of `count` free pages, which becomes used; 0 if there is none. */
    method AllocPages(count: nat) returns (phys: int, ghost start: int)
      requires Valid()
      modifies bitmap, this`used
      ensures Valid()
      ensures !ready || count == 0 ==> start == -1
      ensures ready && count != 0 ==> Lowest(old(Bits()), highest, count, start)
      ensures if start < 0 then phys == 0 && Bits() == old(Bits())
              else phys == start * PAGE_SIZE && Bits() == Filled(old(Bits()), start, start + count, true)
    {
      hide BitsOf, Tally, Scanned, FreeRun, Lowest, Filled;
      if !ready || count == 0 { return 0, -1; }
      if count == 1 {
        phys, start := AllocPage();
        return;
      }
      var run, first, p := 0, 0, 0;
      ghost var bits := Bits();
      ScanStart(bits, count);
      while p < highest
        invariant 0 <= p <= highest && Valid() && Bits() == bits && 0 <= run < count
        invariant (run > 0 ==> first == p - run) && Scanned(bits, p, run, count)
      {
        var t := BitmapTest(p);
        ScanStep(bits, p, run, count);
        if !t {
          if run == 0 { first := p; }
          run := run + 1;
          if run == count {
            ScanFound(bits, p, run - 1, count, highest);
            SetRun(first, count);
            return first * PAGE_SIZE, first;
          }
        } else {
          run := 0;
        }
        p := p + 1;
      }
      ScanEnd(bits, highest, run, count);
      return 0, -1;
    }

    /** pmm.c:223-236: frees one used page; anything else is ignored. */
    method FreePage(phys: nat)
      requires Valid()
      modifies bitmap, this`used
      ensures Valid()
      ensures var p := phys / PAGE_SIZE;
              if ready && phys % PAGE_SIZE == 0 && p < highest then Bits() == old(Bits())[p := false]
              else Bits() == old(Bits())
    {
      hide BitsOf, Tally;
      if !ready || phys % PAGE_SIZE != 0 { return; }
      var p := phys / PAGE_SIZE;
      if p >= highest { return; }
      var t := BitmapTest(p);
      if !t {
        assert Bits() == Bits()[p := false];
        return;
      }
      TallyUpdate(Bits(), highest, used, p, false);
      BitmapClear(p);
      if used != 0 { used := used - 1; }
    }

    /** pmm.c:238-241.  The addresses wrap at 2^64, so the pages are counted from the first modulo 2^52. */
    method FreePages(phys: nat, count: nat)
      requires Valid() && phys < TWO64
      modifies bitmap, this`used
      ensures Valid()
      ensures forall q :: 0 <= q < MAX_PAGES ==>
                Bits()[q] == if ready && phys % PAGE_SIZE == 0 && Turns(phys / PAGE_SIZE, q) < count && q < highest
                             then false else old(Bits())[q]
    {
      hide BitsOf, Turns;
      var i := 0;
      while i < count
        invariant 0 <= i <= count && Valid()
        invariant forall q :: 0 <= q < MAX_PAGES ==>
                    Bits()[q] == if ready && phys % PAGE_SIZE == 0 && Turns(phys / PAGE_SIZE, q) < i && q < highest
                                 then false else old(Bits())[q]
      {
        TurnAt(phys, i);
        FreePage((phys + i * PAGE_SIZE) % TWO64);
        i := i + 1;
      }
    }

    /** pmm.c:251-254: the saturating branch is never taken. */
    method GetFreePages() returns (n: int)
      requires Valid()
      ensures n == highest - used && n == Count(Negated(Bits()[..highest]))
    {
      CountComplement(Bits()[..highest]);
      if highest < used { return 0; }
      n := highest - used;
    }
  }

  /** The number of steps from page `p` to page `q`, going on from the last page of 2^64 bytes to page 0. */
  function Turns(p: int, q: int): (k: int)
    ensures 0 <= k < TWO64 / PAGE_SIZE && (0 <= p <= q < TWO64 / PAGE_SIZE ==> k == q - p)
    ensures 0 <= q < p < TWO64 / PAGE_SIZE ==> k == q - p + TWO64 / PAGE_SIZE
  {
    (q - p) % (TWO64 / PAGE_SIZE)
  }

  /** The i-th address is on the page that is `i` steps away, or on one that was met before. */
  lemma TurnAt(phys: nat, i: nat)
    requires phys < TWO64
    ensures var a, p := (phys + i * PAGE_SIZE) % TWO64, phys / PAGE_SIZE;
            && a % PAGE_SIZE == phys % PAGE_SIZE
            && (forall q :: 0 <= q < MAX_PAGES ==> (Turns(p, q) < i + 1 <==> Turns(p, q) < i || q == a / PAGE_SIZE))
  {
  }

  function Negated(s: seq<bool>): seq<bool> { seq(|s|, i requires 0 <= i < |s| => !s[i]) }

  lemma {:induction false} CountComplement(s: seq<bool>)
    ensures Count(s) + Count(Negated(s)) == |s|
  {
    if s != [] {
      CountComplement(s[..|s| - 1]);
      assert Negated(s)[..|s| - 1] == Negated(s[..|s| - 1]);
    }
  }

  // ---- how many pages are free -----------------------------------------------------------------------------

  /** The number of free pages below `hi`. */
  function Spare(bits: seq<bool>, hi: nat): nat
    requires hi <= |bits|
  {
    Count(Negated(bits[..hi]))
  }

  lemma SpareTaken(bits: seq<bool>, hi: nat, p: nat)
    requires p < hi <= |bits| && !bits[p]
    ensures Spare(bits[p := true], hi) == Spare(bits, hi) - 1
  {
    var s := bits[..hi];
    assert bits[p := true][..hi] == s[p := true];
    assert Negated(s[p := true]) == Negated(s)[p := false];
    CountUpdate(Negated(s), p, false);
  }

  lemma {:induction false} NoneCounted(s: seq<bool>)
    ensures Count(s) == 0 <==> forall i :: 0 <= i < |s| ==> !s[i]
  {
    if s != [] {
      var n := |s| - 1;
      NoneCounted(s[..n]);
      assert forall i :: 0 <= i < n ==> s[..n][i] == s[i];
    }
  }

  /** None is free exactly when every page is used. */
  lemma NoneSpare(bits: seq<bool>, hi: nat)
    requires hi <= |bits|
    ensures Spare(bits, hi) == 0 <==> forall p :: 0 <= p < hi ==> bits[p]
  {
    var s := Negated(bits[..hi]);
    NoneCounted(s);
    assert forall p :: 0 <= p < hi ==> s[p] == !bits[p];
  }

  // ---- runs of allocations and releases ----------------------------------------------------------------

  /** The bitmap and the pages that callers hold. */
  datatype World = World(bits: seq<bool>, held: set<int>)

  datatype Request = Alloc(count: nat) | Release(start: nat, count: nat)

  predicate Inside(p: int, start: int, n: int) { start <= p < start + n }

  function Pages(start: int, n: int): set<int> { set p | start <= p < start + n && Inside(p, start, n) }

  /** The pages are managed, and callers hold them. */
  predicate Allowed(hi: nat, held: set<int>, start: nat, n: nat) { start + n <= hi && Pages(start, n) <= held }

  /** What a request does when callers release only what they hold: other releases are not made. */
  ghost predicate Serves(hi: nat, w: World, req: Request, start: int, w': World)
    requires hi <= |w.bits|
  {
    match req
    case Alloc(n) =>
      && (if n == 0 then start == -1 else Lowest(w.bits, hi, n, start))
      && w' == (if start < 0 then w else World(Filled(w.bits, start, start + n, true), w.held + Pages(start, n)))
    case Release(s, n) =>
      if Allowed(hi, w.held, s, n) then
        start == s && w' == World(Filled(w.bits, s, s + n, false), w.held - Pages(s, n))
      else start == -1 && w' == w
  }

  /** Every held page is marked used, and so is every reserved page, and no page is both. */
  ghost predicate Safe(w: World, reserved: set<int>) {
    && (forall p :: p in w.held ==> 0 <= p < |w.bits| && w.bits[p])
    && (forall p :: p in reserved ==> 0 <= p < |w.bits| && w.bits[p])
    && w.held !! reserved
  }

  lemma ServeKeepsSafe(hi: nat, w: World, req: Request, start: int, w': World, reserved: set<int>)
    requires hi <= |w.bits| && Safe(w, reserved) && Serves(hi, w, req, start, w')
    ensures |w'.bits| == |w.bits| && Safe(w', reserved)
    ensures req.Alloc? && 0 <= start ==> Pages(start, req.count) !! w.held && Pages(start, req.count) !! reserved
  {
    if req.Alloc? && 0 <= start {
      forall p | p in Pages(start, req.count) ensures p !in w.held && p !in reserved { assert !w.bits[p]; }
    }
  }

  ghost predicate IsRun(hi: nat, ws: seq<World>, reqs: seq<Request>, starts: seq<int>) {
    && |ws| == |reqs| + 1 && |starts| == |reqs|
    && forall i :: 0 <= i < |reqs| ==> hi <= |ws[i].bits| && Serves(hi, ws[i], reqs[i], starts[i], ws[i + 1])
  }

  /** Over every run in which callers release only what they hold, no allocation hands out a reserved
      page or a page that somebody still holds. */
  lemma {:induction false} RunNeverReuses(hi: nat, ws: seq<World>, reqs: seq<Request>, starts: seq<int>,
                                          reserved: set<int>, k: nat)
    requires IsRun(hi, ws, reqs, starts) && Safe(ws[0], reserved) && k <= |reqs|
    ensures Safe(ws[k], reserved)
    ensures k < |reqs| && reqs[k].Alloc? && 0 <= starts[k] ==>
              Pages(starts[k], reqs[k].count) !! ws[k].held && Pages(starts[k], reqs[k].count) !! reserved
    decreases k
  {
    if k > 0 {
      RunNeverReuses(hi, ws, reqs, starts, reserved, k - 1);
      ServeKeepsSafe(hi, ws[k - 1], reqs[k - 1], starts[k - 1], ws[k], reserved);
    }
    if k < |reqs| { ServeKeepsSafe(hi, ws[k], reqs[k], starts[k], ws[k + 1], reserved); }
  }

  /** One request, made on the bitmap.  Page 0 stays used, so a null address always means that there was no run. */
  method Ask(a: Allocator, req: Request, held: set<int>) returns (start: int, held': set<int>)
    requires a.Valid() && a.ready && a.Bits()[0] && 0 !in held
    modifies a.bitmap, a`used
    ensures a.Valid() && a.Bits()[0] && 0 !in held'
    ensures Serves(a.highest, World(old(a.Bits()), held), req, start, World(a.Bits(), held'))
  {
    hide BitsOf, Tally, Lowest, Turns;
    match req {
      case Alloc(n) =>
        var phys;
        ghost var s;
        phys, s := a.AllocPages(n);
        if n != 0 { NullMeansNone(old(a.Bits()), a.highest, n, s); }
        start := if phys == 0 then -1 else phys / PAGE_SIZE;
        held' := if phys == 0 then held else held + Pages(start, n);
      case Release(s, n) =>
        if !Allowed(a.highest, held, s, n) { return -1, held; }
        assert 0 in Pages(s, n) <==> s == 0 < n;
        a.FreePages(s * PAGE_SIZE, n);
        TurnsInside(s, n);
        assert a.Bits() == Filled(old(a.Bits()), s, s + n, false);
        start, held' := s, held - Pages(s, n);
    }
  }

  lemma TurnsInside(s: nat, n: nat)
    requires s + n <= MAX_PAGES
    ensures s * PAGE_SIZE / PAGE_SIZE == s && s * PAGE_SIZE % PAGE_SIZE == 0 && s * PAGE_SIZE < TWO64
    ensures forall q :: 0 <= q < MAX_PAGES ==> (Turns(s, q) < n <==> s <= q < s + n)
  {
  }

  lemma NullMeansNone(bits: seq<bool>, hi: int, n: int, start: int)
    requires 0 <= hi <= |bits| && 0 < n && 0 < |bits| && bits[0] && Lowest(bits, hi, n, start)
    ensures start != 0 && (start < 0 ==> Lowest(bits, hi, n, -1)) && start * PAGE_SIZE / PAGE_SIZE == start
  {
  }

  /** The pages pmm_init leaves used: offered by no usable region, or protected. */
  function Reserved(ds: seq<Descriptor>, rs: seq<Region>): set<int> {
    set p | 0 <= p < MAX_PAGES && ((forall i :: 0 <= i < |ds| ==> !Offers(ds[i], p)) || Covered(rs, p))
  }

  /** From pmm_init on, with nothing held, requests on the bitmap are a run: no allocation hands out a reserved
      page or one that is still held. */
  method Session(a: Allocator, magicOk: bool, ds: seq<Descriptor>, kernelBase: nat, bootInfo: nat, mapAddr: nat,
                 mapSize: nat, reqs: seq<Request>)
    returns (r: int, starts: seq<int>, ghost ws: seq<World>)
    requires a.Shape()
    modifies a, a.bitmap
    ensures r == if bootInfo == 0 || !magicOk || mapAddr == 0 then -1 else 0
    ensures r == 0 ==> a.Valid() && IsRun(a.highest, ws, reqs, starts) && ws[|reqs|].bits == a.Bits()
    ensures r == 0 ==> a.highest == if MaxEnd(ds) > MAX_PAGES then MAX_PAGES else MaxEnd(ds)
    ensures r == 0 ==> var reserved := Reserved(ds, Protected(kernelBase, bootInfo, mapAddr, mapSize));
              && ws[0].held == {} && |ws[0].bits| == MAX_PAGES
              && (forall p :: 0 <= p < MAX_PAGES ==> (ws[0].bits[p] <==> p in reserved))
              && (forall k :: 0 <= k <= |reqs| ==> Safe(ws[k], reserved))
              && forall k :: 0 <= k < |reqs| && reqs[k].Alloc? && 0 <= starts[k] ==>
                   Pages(starts[k], reqs[k].count) !! ws[k].held && Pages(starts[k], reqs[k].count) !! reserved
    ensures r == 0 && mapAddr + mapSize + 4095 < TWO64 ==>
              forall x, k | Vital(x, kernelBase, bootInfo, mapAddr, mapSize) && 0 <= x / 4096 < MAX_PAGES
                            && 0 <= k <= |reqs| :: Kept(ws[k], x / 4096, k, reqs, starts)
  {
    hide BitsOf, Tally, Serves, Pages, Safe, Offers, Covered, Protected, MaxEnd;
    starts, ws := [], [];
    r := a.Init(magicOk, ds, kernelBase, bootInfo, mapAddr, mapSize);
    if r != 0 { return; }
    ghost var reserved := Reserved(ds, Protected(kernelBase, bootInfo, mapAddr, mapSize));
    ghost var hi, bits := a.highest, a.Bits();
    var held: set<int> := {};
    ws := [World(bits, held)];
    InitSafe(bits, ds, kernelBase, bootInfo, mapAddr, mapSize);
    hide Reserved;
    assert reqs[..0] == [];
    while |starts| < |reqs|
      invariant |starts| <= |reqs| && a.Valid() && a.ready && a.highest == hi && a.Bits()[0] && 0 !in held
      invariant IsRun(hi, ws, reqs[..|starts|], starts) && ws[|starts|] == World(a.Bits(), held)
      invariant ws[0] == World(bits, {})
      decreases |reqs| - |starts|
    {
      var req, start := reqs[|starts|], 0;
      start, held := Ask(a, req, held);
      RunGrows(hi, ws, reqs[..|starts|], starts, req, start, World(a.Bits(), held));
      assert reqs[..|starts| + 1] == reqs[..|starts|] + [req];
      starts, ws := starts + [start], ws + [World(a.Bits(), held)];
    }
    assert reqs[..|starts|] == reqs;
    forall k | 0 <= k <= |reqs|
      ensures Safe(ws[k], reserved)
      ensures k < |reqs| && reqs[k].Alloc? && 0 <= starts[k] ==>
                Pages(starts[k], reqs[k].count) !! ws[k].held && Pages(starts[k], reqs[k].count) !! reserved
    {
      RunNeverReuses(hi, ws, reqs, starts, reserved, k);
    }
    if mapAddr + mapSize + 4095 < TWO64 {
      forall x, k | Vital(x, kernelBase, bootInfo, mapAddr, mapSize) && 0 <= x / 4096 < MAX_PAGES && 0 <= k <= |reqs|
        ensures Kept(ws[k], x / 4096, k, reqs, starts)
      {
        VitalReserved(ds, kernelBase, bootInfo, mapAddr, mapSize, x);
        KeptReserved(ws[k], x / 4096, k, reqs, starts, reserved);
      }
    }
  }

  /** The page is used, and request `k` does not hand it out. */
  ghost predicate Kept(w: World, p: int, k: nat, reqs: seq<Request>, starts: seq<int>) {
    && 0 <= p < |w.bits| && w.bits[p]
    && (k < |reqs| && k < |starts| && reqs[k].Alloc? && 0 <= starts[k] ==>
          !(starts[k] <= p < starts[k] + reqs[k].count))
  }

  lemma VitalReserved(ds: seq<Descriptor>, kernelBase: nat, bootInfo: nat, mapAddr: nat, mapSize: nat, x: int)
    requires Vital(x, kernelBase, bootInfo, mapAddr, mapSize) && 0 <= x / 4096 < MAX_PAGES
    requires mapAddr != 0 && mapAddr + mapSize + 4095 < TWO64
    ensures x / 4096 in Reserved(ds, Protected(kernelBase, bootInfo, mapAddr, mapSize))
  {
    assert HoldsVital(x / 4096, kernelBase, bootInfo, mapAddr, mapSize);
    ProtectedMeans(kernelBase, bootInfo, mapAddr, mapSize, x / 4096);
  }

  lemma KeptReserved(w: World, p: int, k: nat, reqs: seq<Request>, starts: seq<int>, reserved: set<int>)
    requires Safe(w, reserved) && p in reserved
    requires k < |reqs| && k < |starts| && reqs[k].Alloc? && 0 <= starts[k] ==>
               Pages(starts[k], reqs[k].count) !! reserved
    ensures Kept(w, p, k, reqs, starts)
  {
    if k < |reqs| && k < |starts| && reqs[k].Alloc? && 0 <= starts[k] {
      assert p in Pages(starts[k], reqs[k].count) <==> Inside(p, starts[k], reqs[k].count);
    }
  }

  lemma InitSafe(bits: seq<bool>, ds: seq<Descriptor>, kernelBase: nat, bootInfo: nat, mapAddr: nat, mapSize: nat)
    requires |bits| == MAX_PAGES
    requires forall p :: 0 <= p < MAX_PAGES ==>
               (bits[p] <==> (forall i :: 0 <= i < |ds| ==> !Offers(ds[i], p))
                             || Covered(Protected(kernelBase, bootInfo, mapAddr, mapSize), p))
    ensures bits[0] && Safe(World(bits, {}), Reserved(ds, Protected(kernelBase, bootInfo, mapAddr, mapSize)))
    ensures forall p :: 0 <= p < MAX_PAGES ==>
              (bits[p] <==> p in Reserved(ds, Protected(kernelBase, bootInfo, mapAddr, mapSize)))
  {
    var rs := Protected(kernelBase, bootInfo, mapAddr, mapSize);
    assert Covers(rs[0], 0);
  }

  lemma RunGrows(hi: nat, ws: seq<World>, reqs: seq<Request>, starts: seq<int>, req: Request, start: int, w: World)
    requires IsRun(hi, ws, reqs, starts) && hi <= |ws[|reqs|].bits| && Serves(hi, ws[|reqs|], req, start, w)
    ensures IsRun(hi, ws + [w], reqs + [req], starts + [start])
  {
    hide Serves;
    var ws', reqs', starts' := ws + [w], reqs + [req], starts + [start];
    forall i | 0 <= i < |reqs'| ensures hi <= |ws'[i].bits| && Serves(hi, ws'[i], reqs'[i], starts'[i], ws'[i + 1]) {
      if i < |reqs| { assert Serves(hi, ws[i], reqs[i], starts[i], ws[i + 1]); }
    }
  }
}
