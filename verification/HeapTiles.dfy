/**
  The arithmetic of kernel/mm/heap.c without its memory: blocks as (address, size) pairs, the
  address-sorted free list as a sequence, and the claim that free and live blocks together tile
  the pages obtained from the page allocator.
*/
module HeapTiles {

  const HDR: int := 24
  const MIN_BLOCK: int := 32
  const PAGE: int := 4096

  /** A block with its header at `addr` and `size` bytes of payload behind it. */
  datatype Blk = Blk(addr: int, size: int) {
    function End(): int { addr + HDR + size }
    function Weight(): int { HDR + size }
  }

  predicate Apart(b: Blk, c: Blk) { b.End() <= c.addr || c.End() <= b.addr }

  predicate Within(b: Blk, a: int) { b.addr <= a < b.End() }

  ghost predicate Sorted(fs: seq<Blk>) {
    && (forall i :: 0 <= i < |fs| ==> 0 <= fs[i].size)
    && forall i, j :: 0 <= i < j < |fs| ==> fs[i].End() <= fs[j].addr
  }

  /** The number of blocks of the list that lie below `addr`. */
  function Pos(fs: seq<Blk>, addr: int): (k: int)
    ensures 0 <= k <= |fs|
    ensures forall i :: 0 <= i < k ==> fs[i].addr < addr
    ensures k < |fs| ==> addr <= fs[k].addr
  {
    if fs == [] || addr <= fs[0].addr then 0 else
    var r := Pos(fs[1..], addr);
    assert forall i :: 1 <= i < 1 + r ==> fs[i] == fs[1..][i - 1];
    1 + r
  }

  lemma PosIs(fs: seq<Blk>, addr: int, k: int)
    requires Sorted(fs) && 0 <= k < |fs|
    ensures fs[k].addr < addr <==> k < Pos(fs, addr)
  {
    var p := Pos(fs, addr);
    if p < k { assert fs[p].End() <= fs[k].addr; }
  }

  function Put(fs: seq<Blk>, k: int, b: Blk): (r: seq<Blk>)
    requires 0 <= k <= |fs|
    ensures |r| == |fs| + 1
    ensures r[k] == b && (forall i :: 0 <= i < k ==> r[i] == fs[i]) && (forall i :: k < i < |r| ==> r[i] == fs[i - 1])
  {
    fs[..k] + [b] + fs[k..]
  }

  function Swap(fs: seq<Blk>, k: int, b: Blk): (r: seq<Blk>)
    requires 0 <= k < |fs|
    ensures |r| == |fs|
    ensures r[k] == b && forall i :: 0 <= i < |r| && i != k ==> r[i] == fs[i]
  {
    fs[..k] + [b] + fs[k + 1..]
  }

  function Drop(fs: seq<Blk>, k: int): (r: seq<Blk>)
    requires 0 <= k < |fs|
    ensures |r| == |fs| - 1
    ensures (forall i :: 0 <= i < k ==> r[i] == fs[i]) && (forall i :: k <= i < |r| ==> r[i] == fs[i + 1])
  {
    fs[..k] + fs[k + 1..]
  }

  /** Two adjacent blocks as one. */
  function Join(lo: Blk, hi: Blk): Blk { Blk(lo.addr, lo.size + HDR + hi.size) }

  /** insert_free on the list: sorted insertion that joins the block with its successor, or else with
      its predecessor (never with both). */
  function Insert(fs: seq<Blk>, b: Blk): seq<Blk> {
    var k := Pos(fs, b.addr);
    if k < |fs| && b.End() == fs[k].addr then Swap(fs, k, Join(b, fs[k]))
    else if 0 < k && fs[k - 1].End() == b.addr then Swap(fs, k - 1, Join(fs[k - 1], b))
    else Put(fs, k, b)
  }

  ghost predicate ApartFrom(b: Blk, fs: seq<Blk>) { forall i :: 0 <= i < |fs| ==> Apart(b, fs[i]) }

  lemma SortedAround(a: seq<Blk>, b: Blk, c: seq<Blk>)
    requires Sorted(a) && Sorted(c) && 0 <= b.size
    requires forall i :: 0 <= i < |a| ==> a[i].End() <= b.addr
    requires forall i :: 0 <= i < |c| ==> b.End() <= c[i].addr
    ensures Sorted(a + [b] + c)
  {
    var r := a + [b] + c;
    forall i, j | 0 <= i < j < |r| ensures r[i].End() <= r[j].addr {
      if i < |a| && |a| < j { assert r[j] == c[j - |a| - 1]; }
    }
  }

  lemma SortedSlice(fs: seq<Blk>, i: int, j: int)
    requires Sorted(fs) && 0 <= i <= j <= |fs|
    ensures Sorted(fs[i..j])
  {
  }

  /** Everything below the position ends before the block, everything from it on starts after. */
  lemma Around(fs: seq<Blk>, b: Blk)
    requires Sorted(fs) && 0 <= b.size && ApartFrom(b, fs)
    ensures var k := Pos(fs, b.addr);
            && (forall i :: 0 <= i < k ==> fs[i].End() <= b.addr)
            && (forall i :: k <= i < |fs| ==> b.End() <= fs[i].addr)
  {
    var k := Pos(fs, b.addr);
    forall i | k <= i < |fs| ensures b.End() <= fs[i].addr {
      if k < i { assert fs[k].End() <= fs[i].addr; }
    }
  }

  lemma InsertSorted(fs: seq<Blk>, b: Blk)
    requires Sorted(fs) && 0 <= b.size && ApartFrom(b, fs)
    ensures Sorted(Insert(fs, b))
  {
    hide Sorted, Pos, ApartFrom, Swap, Put;
    var k := Pos(fs, b.addr);
    Around(fs, b);
    if k < |fs| && b.End() == fs[k].addr {
      SortedTail(fs, k);
      SwapSorted(fs, k, Join(b, fs[k]));
    } else if 0 < k && fs[k - 1].End() == b.addr {
      SortedTail(fs, k - 1);
      SwapSorted(fs, k - 1, Join(fs[k - 1], b));
    } else {
      PutAtSorted(fs, k, b);
    }
  }

  /** A block may grow into the gaps around it. */
  lemma SwapSorted(fs: seq<Blk>, k: int, b: Blk)
    requires Sorted(fs) && 0 <= k < |fs| && 0 <= b.size
    requires forall i :: 0 <= i < k ==> fs[i].End() <= b.addr
    requires forall i :: k < i < |fs| ==> b.End() <= fs[i].addr
    ensures Sorted(Swap(fs, k, b))
  {
    SortedSlice(fs, 0, k);
    SortedSlice(fs, k + 1, |fs|);
    SortedTail(fs, k);
    hide Sorted;
    SortedAround(fs[..k], b, fs[k + 1..]);
  }

  lemma PutAtSorted(fs: seq<Blk>, k: int, b: Blk)
    requires Sorted(fs) && 0 <= k <= |fs| && 0 <= b.size
    requires forall i :: 0 <= i < k ==> fs[i].End() <= b.addr
    requires forall i :: k <= i < |fs| ==> b.End() <= fs[i].addr
    ensures Sorted(Put(fs, k, b))
  {
    SortedSlice(fs, 0, k);
    SortedSlice(fs, k, |fs|);
    hide Sorted;
    SortedAround(fs[..k], b, fs[k..]);
  }

  lemma SortedTail(fs: seq<Blk>, k: int)
    requires Sorted(fs) && 0 <= k < |fs|
    ensures 0 <= fs[k].size
    ensures forall i :: k < i < |fs| ==> fs[k].End() <= fs[i].addr
    ensures forall i :: 0 <= i < k ==> fs[i].End() <= fs[k].addr
  {
  }

  // ---- sums ---------------------------------------------------------------------------------------

  function Sum(fs: seq<Blk>): int {
    if fs == [] then 0 else fs[0].Weight() + Sum(fs[1..])
  }

  lemma {:induction false} SumConcat(a: seq<Blk>, b: seq<Blk>)
    ensures Sum(a + b) == Sum(a) + Sum(b)
  {
    if a == [] {
      assert a + b == b;
    } else {
      SumConcat(a[1..], b);
      assert (a + b)[1..] == a[1..] + b;
    }
  }

  lemma SumAround(a: seq<Blk>, b: Blk, c: seq<Blk>)
    ensures Sum(a + [b] + c) == Sum(a) + b.Weight() + Sum(c)
  {
    SumConcat(a + [b], c);
    SumConcat(a, [b]);
    assert [b][1..] == [];
  }

  lemma SumAt(fs: seq<Blk>, k: int)
    requires 0 <= k < |fs|
    ensures Sum(fs) == Sum(fs[..k]) + fs[k].Weight() + Sum(fs[k + 1..])
  {
    SumAround(fs[..k], fs[k], fs[k + 1..]);
    assert fs[..k] + [fs[k]] + fs[k + 1..] == fs;
  }

  /** Joining blocks gains and loses no byte: headers turn into payload. */
  lemma InsertSum(fs: seq<Blk>, b: Blk)
    ensures Sum(Insert(fs, b)) == Sum(fs) + b.Weight()
  {
    var k := Pos(fs, b.addr);
    if k < |fs| && b.End() == fs[k].addr {
      SumAt(fs, k);
      SumAround(fs[..k], Join(b, fs[k]), fs[k + 1..]);
    } else if 0 < k && fs[k - 1].End() == b.addr {
      SumAt(fs, k - 1);
      SumAround(fs[..k - 1], Join(fs[k - 1], b), fs[k..]);
    } else {
      SumAround(fs[..k], b, fs[k..]);
      SumConcat(fs[..k], fs[k..]);
      assert fs[..k] + fs[k..] == fs;
    }
  }

  // ---- tiling -------------------------------------------------------------------------------------

  /** The blocks of `bs` do not overlap and cover exactly the pages in `pages`. */
  ghost predicate Tiles(bs: set<Blk>, pages: set<int>) {
    && (forall b, c :: b in bs && c in bs && b != c ==> Apart(b, c))
    && (forall b :: b in bs ==> 0 <= b.size)
    && (forall b, a :: b in bs && Within(b, a) ==> a / PAGE in pages)
    && (forall a :: a / PAGE in pages ==> exists b :: b in bs && Within(b, a))
  }

  lemma TilesSplit(bs: set<Blk>, pages: set<int>, b: Blk, b1: Blk, b2: Blk)
    requires Tiles(bs, pages) && b in bs && b1.addr == b.addr && b1.End() == b2.addr && b2.End() == b.End()
    requires 0 <= b1.size && 0 <= b2.size
    ensures Tiles(bs - {b} + {b1, b2}, pages)
  {
    var bs' := bs - {b} + {b1, b2};
    forall a | a / PAGE in pages ensures exists x :: x in bs' && Within(x, a) {
      var x :| x in bs && Within(x, a);
      assert x != b ==> x in bs';
      assert x == b ==> (b1 in bs' && Within(b1, a)) || (b2 in bs' && Within(b2, a));
    }
    forall x, a | x in bs' && Within(x, a) ensures a / PAGE in pages {
      if x !in bs { assert Within(b, a); }
    }
  }

  lemma TilesJoin(bs: set<Blk>, pages: set<int>, b1: Blk, b2: Blk)
    requires Tiles(bs, pages) && b1 in bs && b2 in bs && b1.End() == b2.addr
    ensures Tiles(bs - {b1, b2} + {Join(b1, b2)}, pages)
  {
    var b := Join(b1, b2);
    var bs' := bs - {b1, b2} + {b};
    forall a | a / PAGE in pages ensures exists x :: x in bs' && Within(x, a) {
      var x :| x in bs && Within(x, a);
      assert x == b1 || x == b2 ==> b in bs' && Within(b, a);
      assert x != b1 && x != b2 ==> x in bs';
    }
    forall x, a | x in bs' && Within(x, a) ensures a / PAGE in pages {
      if x == b { assert Within(b1, a) || Within(b2, a); }
    }
  }

  lemma TilesAdd(bs: set<Blk>, pages: set<int>, b: Blk, start: int, n: int, more: set<int>)
    requires Tiles(bs, pages) && b == Blk(start * PAGE, n * PAGE - HDR) && 0 < n
    requires forall p :: p in more <==> start <= p < start + n
    requires pages !! more
    ensures Tiles(bs + {b}, pages + more)
    ensures forall x :: x in bs ==> Apart(x, b)
  {
    assert b.End() == (start + n) * PAGE;
    forall x | x in bs ensures Apart(x, b) {
      var a := if x.addr <= b.addr then b.addr else x.addr;
      assert Within(x, a) ==> a / PAGE in pages;
      assert Within(b, a) ==> a / PAGE in more;
    }
    var bs' := bs + {b};
    forall a | a / PAGE in pages + more ensures exists x :: x in bs' && Within(x, a) {
      if a / PAGE in pages {
        var x :| x in bs && Within(x, a);
        assert x in bs';
      } else {
        assert b in bs' && Within(b, a);
      }
    }
  }

  // ---- the heap as a value ----------------------------------------------------------------------------

  function SetOf(fs: seq<Blk>): set<Blk> { set b | b in fs }

  /** The free list is sorted, no block is both free and live, and together they tile the pages. */
  ghost predicate Tiled(free: seq<Blk>, live: set<Blk>,
                        pages: set<int>) { Sorted(free) && Tessellate(free, live, pages) }

  ghost predicate Tessellate(free: seq<Blk>, live: set<Blk>, pages: set<int>) {
    SetOf(free) !! live && Tiles(SetOf(free) + live, pages)
  }

  lemma SetReplace(fs: seq<Blk>, k: int, b: Blk)
    requires Sorted(fs) && 0 <= k < |fs|
    ensures SetOf(Swap(fs, k, b)) == SetOf(fs) - {fs[k]} + {b}
    ensures SetOf(Drop(fs, k)) == SetOf(fs) - {fs[k]}
  {
    SortedOnce(fs, k);
    hide Sorted, Drop, Swap;
    forall x: Blk ensures x in Drop(fs, k) <==> x in fs && x != fs[k] { InDrop(fs, k, x); }
    forall x: Blk ensures x in Swap(fs, k, b) <==> (x in fs && x != fs[k]) || x == b { InSwap(fs, k, b, x); }
  }

  lemma InDrop(fs: seq<Blk>, k: int, x: Blk)
    requires 0 <= k < |fs| && forall i :: 0 <= i < |fs| && i != k ==> fs[i] != fs[k]
    ensures x in Drop(fs, k) <==> x in fs && x != fs[k]
  {
    var d := Drop(fs, k);
    hide Drop;
    if x in fs && x != fs[k] {
      var i :| 0 <= i < |fs| && fs[i] == x;
      assert d[if i < k then i else i - 1] == x;
    }
  }

  lemma InSwap(fs: seq<Blk>, k: int, b: Blk, x: Blk)
    requires 0 <= k < |fs| && forall i :: 0 <= i < |fs| && i != k ==> fs[i] != fs[k]
    ensures x in Swap(fs, k, b) <==> (x in fs && x != fs[k]) || x == b
  {
    var s := Swap(fs, k, b);
    hide Swap;
    assert s[k] == b;
    if x in fs && x != fs[k] {
      var i :| 0 <= i < |fs| && fs[i] == x;
      assert s[i] == x;
    }
  }

  lemma SortedOnce(fs: seq<Blk>, k: int)
    requires Sorted(fs) && 0 <= k < |fs|
    ensures forall i :: 0 <= i < |fs| && i != k ==> fs[i] != fs[k]
  {
  }

  lemma SetInsert(fs: seq<Blk>, k: int, b: Blk)
    requires 0 <= k <= |fs|
    ensures SetOf(Put(fs, k, b)) == SetOf(fs) + {b}
  {
    assert fs == fs[..k] + fs[k..];
  }

  lemma JoinSets(free: set<Blk>, live: set<Blk>, b: Blk, c: Blk, j: Blk)
    requires b !in live && b !in free && c in free && c !in live && b != c
    ensures free + {b} + live - {b, c} + {j} == free - {c} + {j} + live
  {
  }

  lemma JoinTiled(free: seq<Blk>, b: Blk, live: set<Blk>, pages: set<int>, k: int, lo: Blk, hi: Blk)
    requires Sorted(free) && SetOf(free) !! live && b !in live && b !in free && 0 <= k < |free|
    requires Tiles(SetOf(free) + {b} + live, pages) && lo.End() == hi.addr
    requires (lo == b && hi == free[k]) || (lo == free[k] && hi == b)
    ensures Tessellate(Swap(free, k, Join(lo, hi)), live, pages)
  {
    hide Tiles, Sorted, Swap;
    var bs := SetOf(free) + {b} + live;
    var j := Join(lo, hi);
    assert free[k] in free;
    SetReplace(free, k, j);
    TilesJoin(bs, pages, lo, hi);
    JoinIsNew(bs, pages, lo, hi);
    JoinSets(SetOf(free), live, b, free[k], j);
    assert {lo, hi} == {b, free[k]};
  }

  lemma PutTiled(free: seq<Blk>, b: Blk, live: set<Blk>, pages: set<int>, k: int)
    requires SetOf(free) !! live && b !in live && b !in free && 0 <= k <= |free|
    requires Tiles(SetOf(free) + {b} + live, pages)
    ensures Tessellate(Put(free, k, b), live, pages)
  {
    hide Tiles, Put;
    SetInsert(free, k, b);
  }

  /** A block that is neither free nor live but completes the tiling goes into the free list. */
  lemma InsertTiled(free: seq<Blk>, b: Blk, live: set<Blk>, pages: set<int>)
    requires Sorted(free) && SetOf(free) !! live && b !in live && b !in free
    requires Tiles(SetOf(free) + {b} + live, pages)
    ensures ApartFrom(b, free) && Tiled(Insert(free, b), live, pages)
  {
    TilesApart(SetOf(free) + {b} + live, pages, b, free);
    hide Tiles, Sorted, Pos, ApartFrom, SetOf, Tessellate, Swap, Put, Join;
    InsertSorted(free, b);
    var k := Pos(free, b.addr);
    if k < |free| && b.End() == free[k].addr {
      JoinTiled(free, b, live, pages, k, b, free[k]);
    } else if 0 < k && free[k - 1].End() == b.addr {
      JoinTiled(free, b, live, pages, k - 1, free[k - 1], b);
    } else {
      PutTiled(free, b, live, pages, k);
    }
  }

  lemma TilesApart(bs: set<Blk>, pages: set<int>, b: Blk, fs: seq<Blk>)
    requires Tiles(bs, pages) && b in bs && SetOf(fs) <= bs && b !in fs
    ensures ApartFrom(b, fs) && 0 <= b.size
  {
    forall i | 0 <= i < |fs| ensures Apart(b, fs[i]) { assert fs[i] in SetOf(fs); }
  }

  lemma JoinIsNew(bs: set<Blk>, pages: set<int>, b1: Blk, b2: Blk)
    requires Tiles(bs, pages) && b1 in bs && b2 in bs && b1.End() == b2.addr
    ensures Join(b1, b2) !in bs
  {
    var j := Join(b1, b2);
    assert j != b1 && !Apart(j, b1);
  }

  // ---- allocation ---------------------------------------------------------------------------------

  /** The first block from `i` on with room for `need` bytes, or -1. */
  function FirstFit(fs: seq<Blk>, need: int, i: int): (r: int)
    requires 0 <= i <= |fs|
    ensures -1 <= r < |fs| && (0 <= r ==> i <= r && need <= fs[r].size)
    ensures forall x :: i <= x < (if r < 0 then |fs| else r) ==> fs[x].size < need
    decreases |fs| - i
  {
    if i == |fs| then -1 else if fs[i].size >= need then i else FirstFit(fs, need, i + 1)
  }

  predicate Splits(b: Blk, need: int) { b.size - need >= HDR + MIN_BLOCK }

  function Rest(b: Blk, need: int): Blk { Blk(b.addr + HDR + need, b.size - need - HDR) }

  /** What is handed out of block `b`. */
  function Taken(b: Blk, need: int): Blk { if Splits(b, need) then Blk(b.addr, need) else b }

  /** heap.c:167: a block is cut exactly when what is left can be a block of at least 32 bytes; otherwise it is given
      whole, so less than 24 + 32 bytes are wasted. */
  lemma CutExactly(b: Blk, need: int)
    requires 0 <= need <= b.size
    ensures var t := Taken(b, need);
            && t.addr == b.addr && need <= t.size < need + 24 + 32
            && (t == b || (t.size == need && Rest(b, need).addr == t.End() && Rest(b, need).End() == b.End()
                           && Rest(b, need).size >= 32))
  {
  }

  function Remaining(fs: seq<Blk>, i: int, need: int): seq<Blk>
    requires 0 <= i < |fs|
  {
    var others := Drop(fs, i);
    if Splits(fs[i], need) then Insert(others, Rest(fs[i], need)) else others
  }

  lemma SortedWithout(fs: seq<Blk>, k: int)
    requires Sorted(fs) && 0 <= k < |fs|
    ensures Sorted(Drop(fs, k))
  {
    var r := Drop(fs, k);
    assert forall i :: 0 <= i < |r| ==> r[i] == if i < k then fs[i] else fs[i + 1];
  }

  lemma SplitSets(free: set<Blk>, live: set<Blk>, b: Blk, got: Blk, rest: Blk)
    requires b in free && free !! live
    ensures free - {b} + {rest} + (live + {got}) == free + live - {b} + {got, rest}
  {
  }

  lemma AllocSplit(free: seq<Blk>, live: set<Blk>, pages: set<int>, i: int, need: int)
    requires Tiled(free, live, pages) && 0 <= i < |free| && 0 <= need && Splits(free[i], need)
    ensures var got := Blk(free[i].addr, need);
            got !in live && Tiled(Insert(Drop(free, i), Rest(free[i], need)), live + {got}, pages)
  {
    hide Tiles, Sorted, Insert, Drop;
    var b := free[i];
    var got, rest := Blk(b.addr, need), Rest(b, need);
    var bs := SetOf(free) + live;
    assert b in free && b in bs;
    SortedWithout(free, i);
    SetReplace(free, i, b);
    TilesSplit(bs, pages, b, got, rest);
    PartIsNew(bs, pages, b, got);
    PartIsNew(bs, pages, b, rest);
    SplitSets(SetOf(free), live, b, got, rest);
    InsertTiled(Drop(free, i), rest, live + {got}, pages);
  }

  lemma AllocWhole(free: seq<Blk>, live: set<Blk>, pages: set<int>, i: int)
    requires Tiled(free, live, pages) && 0 <= i < |free|
    ensures free[i] !in live && Tiled(Drop(free, i), live + {free[i]}, pages)
  {
    hide Tiles, Sorted;
    assert free[i] in free;
    SortedWithout(free, i);
    SetReplace(free, i, free[i]);
    assert SetOf(free) - {free[i]} + (live + {free[i]}) == SetOf(free) + live;
  }

  /** Handing out a block, split or whole, keeps the tiling and the sum. */
  lemma AllocTiled(free: seq<Blk>, live: set<Blk>, pages: set<int>, i: int, need: int)
    requires Tiled(free, live, pages) && 0 <= i < |free| && 0 <= need <= free[i].size
    ensures var got := Taken(free[i], need);
            && got !in live && Tiled(Remaining(free, i, need), live + {got}, pages)
            && Sum(Remaining(free, i, need)) == Sum(free) - got.Weight()
            && need <= got.size
  {
    hide Tiled, Sum, Insert;
    SumAt(free, i);
    SumConcat(free[..i], free[i + 1..]);
    if Splits(free[i], need) {
      AllocSplit(free, live, pages, i, need);
      InsertSum(Drop(free, i), Rest(free[i], need));
    } else {
      AllocWhole(free, live, pages, i);
    }
  }

  lemma PartIsNew(bs: set<Blk>, pages: set<int>, b: Blk, part: Blk)
    requires Tiles(bs, pages)
    requires b in bs && part != b && b.addr <= part.addr && part.End() <= b.End() && 0 <= part.size
    ensures part !in bs
  {
    assert !Apart(part, b);
  }

  /** Freeing a live block keeps the tiling and the sum. */
  lemma FreeTiled(free: seq<Blk>, live: set<Blk>, pages: set<int>, b: Blk)
    requires Tiled(free, live, pages) && b in live
    ensures ApartFrom(b, free) && Tiled(Insert(free, b), live - {b}, pages)
    ensures Sum(Insert(free, b)) == Sum(free) + b.Weight()
  {
    assert SetOf(free) + {b} + (live - {b}) == SetOf(free) + live;
    InsertTiled(free, b, live - {b}, pages);
    InsertSum(free, b);
  }

  /** New pages become one free block. */
  lemma GrowTiled(free: seq<Blk>, live: set<Blk>, pages: set<int>, start: int, n: int, more: set<int>)
    requires Tiled(free, live, pages) && 0 < n
    requires forall p :: p in more <==> start <= p < start + n
    requires pages !! more
    ensures var b := Blk(start * PAGE, n * PAGE - HDR);
            && ApartFrom(b, free) && Tiled(Insert(free, b), live, pages + more)
            && Sum(Insert(free, b)) == Sum(free) + n * PAGE
  {
    var b := Blk(start * PAGE, n * PAGE - HDR);
    TilesAdd(SetOf(free) + live, pages, b, start, n, more);
    assert b !in SetOf(free) + live;
    assert SetOf(free) + {b} + live == SetOf(free) + live + {b};
    InsertTiled(free, b, live, pages + more);
    InsertSum(free, b);
  }

  /** Somewhere in the list there is a block with room, whenever one was put in. */
  lemma InsertFits(fs: seq<Blk>, b: Blk, need: int)
    requires need <= b.size && forall i :: 0 <= i < |fs| ==> 0 <= fs[i].size
    ensures FirstFit(Insert(fs, b), need, 0) >= 0
  {
    var k := Pos(fs, b.addr);
    var r := Insert(fs, b);
    if k < |fs| && b.End() == fs[k].addr {
      assert r[k].size >= need;
    } else if 0 < k && fs[k - 1].End() == b.addr {
      assert r[k - 1].size >= need;
    } else {
      assert r[k].size >= need;
    }
  }

  // ---- requests -----------------------------------------------------------------------------------

  predicate IsPowerOfTwo(v: int)
    decreases v
  {
    v == 1 || (1 < v && v % 2 == 0 && IsPowerOfTwo(v / 2))
  }

  lemma MulMod(q: int, a: int)
    requires 0 < a
    ensures q * a % a == 0
  {
    var r := q * a;
    var d := q - r / a;
    assert d * a == r % a;
    assert 1 <= d ==> a <= d * a;
    assert d <= -1 ==> d * a <= -a;
  }

  /** The least multiple of `a` that is at least `v`. */
  function AlignUp(v: int, a: int): (r: int)
    requires 0 <= v && 0 < a
    ensures v <= r < v + a && r % a == 0
  {
    var q := (v + a - 1) / a;
    MulMod(q, a);
    assert v + a - 1 == q * a + (v + a - 1) % a;
    q * a
  }

  /** heap.c:138-139: anything that is not a power of two of at least 16 means 16. */
  function PowerOfTwo(k: nat): int { if k == 0 then 1 else 2 * PowerOfTwo(k - 1) }

  lemma {:induction false} PowersOnly(v: int) returns (k: nat)
    requires IsPowerOfTwo(v)
    ensures v == PowerOfTwo(k)
    decreases v
  {
    if v == 1 { return 0; }
    k := PowersOnly(v / 2);
    k := k + 1;
  }

  lemma {:induction false} PowersAll(k: nat)
    ensures PowerOfTwo(k) >= 1 && IsPowerOfTwo(PowerOfTwo(k))
  {
    if k > 0 { PowersAll(k - 1); }
  }

  /** heap.c:139-142: powers of two from 16 up are taken as they are, anything else as 16. */
  lemma AlignExactly(align: int)
    ensures (exists k: nat :: k >= 4 && align == PowerOfTwo(k)) ==> AlignOf(align) == align
    ensures !(exists k: nat :: k >= 4 && align == PowerOfTwo(k)) ==> AlignOf(align) == 16
  {
    if k: nat :| k >= 4 && align == PowerOfTwo(k) {
      PowersAll(k);
      PowersFrom16(k);
    } else if IsPowerOfTwo(align) && align >= 16 {
      var k := PowersOnly(align);
      if k < 4 { assert PowerOfTwo(k) <= 8; }
      assert false;
    }
  }

  lemma {:induction false} PowersFrom16(k: nat)
    requires k >= 4
    ensures PowerOfTwo(k) >= 16
  {
    if k > 4 { PowersFrom16(k - 1); }
  }

  function AlignOf(align: int): (a: int)
    ensures 16 <= a
  {
    if !IsPowerOfTwo(align) || align < 16 then 16 else align
  }

  /** heap.c:143-153: the payload a block needs to serve a request. */
  function NeedOf(size: int, a: int): (n: int)
    requires 0 <= size && 16 <= a
    ensures 16 <= n && size <= n
    ensures a > 16 ==> n == size + a + 8
    ensures a == 16 ==> n % 16 == 0 && (n < size + 16 || n == 16)
  {
    var n := if a > 16 then size + a + 8 else AlignUp(size, 16);
    if n < 16 then 16 else n
  }

  function PagesFor(need: int): (n: int)
    requires 0 <= need
    ensures 16 <= n && need + HDR + MIN_BLOCK <= n * PAGE
    ensures n == 16 || (n - 1) * PAGE < need + HDR + MIN_BLOCK
  {
    var n := (HDR + need + MIN_BLOCK + PAGE - 1) / PAGE;
    if n < 16 then 16 else n
  }

  // ---- what the list does not promise -------------------------------------------------------------

  predicate Touch(fs: seq<Blk>, i: int) { 0 <= i < |fs| - 1 && fs[i].End() == fs[i + 1].addr }

  /** No two neighbours of the list touch. */
  ghost predicate Loose(fs: seq<Blk>) { forall i :: !Touch(fs, i) }

  lemma LooseSwap(fs: seq<Blk>, k: int, b: Blk)
    requires Loose(fs) && 0 <= k < |fs|
    requires (0 < k ==> fs[k - 1].End() != b.addr) && (k + 1 < |fs| ==> b.End() != fs[k + 1].addr)
    ensures Loose(Swap(fs, k, b))
  {
    var r := Swap(fs, k, b);
    forall i ensures !Touch(r, i) { assert !Touch(fs, i); }
  }

  lemma LoosePut(fs: seq<Blk>, k: int, b: Blk)
    requires Loose(fs) && 0 <= k <= |fs|
    requires (0 < k ==> fs[k - 1].End() != b.addr) && (k < |fs| ==> b.End() != fs[k].addr)
    ensures Loose(Put(fs, k, b))
  {
    var r := Put(fs, k, b);
    forall i ensures !Touch(r, i) { assert !Touch(fs, if i < k then i else i - 1); }
  }

  /** Joining keeps the list free of touching neighbours unless the block touches both: it is then
      joined with the right one only. */
  lemma InsertLoose(fs: seq<Blk>, b: Blk)
    requires Sorted(fs) && 0 <= b.size && ApartFrom(b, fs) && Loose(fs)
    ensures var k := Pos(fs, b.addr);
            Loose(Insert(fs, b)) <==> !(0 < k < |fs| && fs[k - 1].End() == b.addr && b.End() == fs[k].addr)
  {
    hide Sorted, Pos, ApartFrom, Put, Swap, Loose;
    var k := Pos(fs, b.addr);
    if k < |fs| && b.End() == fs[k].addr {
      if 0 < k && fs[k - 1].End() == b.addr {
        StillTouching(Insert(fs, b), k - 1);
      } else {
        NotTouching(fs, k);
        LooseSwap(fs, k, Join(b, fs[k]));
      }
    } else if 0 < k && fs[k - 1].End() == b.addr {
      NotTouching(fs, k - 2);
      LooseSwap(fs, k - 1, Join(fs[k - 1], b));
    } else {
      LoosePut(fs, k, b);
    }
  }

  lemma NotTouching(fs: seq<Blk>, i: int)
    requires Loose(fs)
    ensures 0 <= i < |fs| - 1 ==> fs[i].End() != fs[i + 1].addr
  {
    assert !Touch(fs, i);
  }

  lemma StillTouching(fs: seq<Blk>, i: int)
    requires Touch(fs, i)
    ensures !Loose(fs)
  {
  }

  // ---- alignment ----------------------------------------------------------------------------------

  predicate Eight(b: Blk) { b.addr % 8 == 0 && b.size % 8 == 0 }

  ghost predicate Eights(fs: seq<Blk>) { forall i :: 0 <= i < |fs| ==> Eight(fs[i]) }

  lemma InsertEights(fs: seq<Blk>, b: Blk)
    requires Eights(fs) && Eight(b)
    ensures Eights(Insert(fs, b))
  {
    hide Pos, Put, Swap;
  }

  lemma RemainingEights(fs: seq<Blk>, i: int, need: int)
    requires Eights(fs) && 0 <= i < |fs| && need % 8 == 0
    ensures Eights(Remaining(fs, i, need)) && Eight(Taken(fs[i], need))
  {
    hide Drop, Insert;
    if Splits(fs[i], need) { InsertEights(Drop(fs, i), Rest(fs[i], need)); }
  }

  lemma NewBlockEight(start: int, n: int)
    ensures Eight(Blk(start * PAGE, n * PAGE - HDR))
  {
  }

  lemma PowerOfEight(v: int)
    requires IsPowerOfTwo(v) && 16 <= v
    ensures v % 8 == 0
  {
    var u := v / 2;
    assert IsPowerOfTwo(u) && v == 2 * u;
    var w := u / 2;
    assert IsPowerOfTwo(w) && u == 2 * w;
    assert w % 2 == 0;
  }

  lemma NeedEight(size: int, align: int)
    requires 0 < size && (AlignOf(align) > 16 ==> size % 8 == 0)
    ensures NeedOf(size, AlignOf(align)) % 8 == 0
  {
    hide IsPowerOfTwo;
    if AlignOf(align) > 16 { PowerOfEight(align); } else { PlainNeedEight(size); }
  }

  lemma PlainNeedEight(size: int)
    requires 0 < size
    ensures NeedOf(size, 16) % 8 == 0
  {
    var q := (size + 15) / 16;
    assert AlignUp(size, 16) == 8 * (2 * q);
  }

  /** Every block starts on a page. */
  ghost predicate Paged(fs: seq<Blk>) { forall i :: 0 <= i < |fs| ==> fs[i].addr % PAGE == 0 }

  lemma InsertPaged(fs: seq<Blk>, b: Blk)
    requires Paged(fs) && b.addr % PAGE == 0
    ensures Paged(Insert(fs, b))
  {
    hide Pos, Put, Swap;
  }

  // ---- giving back and asking again ------------------------------------------------------------------

  /** Cutting a block off the front of block `k` leaves a block right behind it in place `k`. */
  lemma RestStays(fs: seq<Blk>, k: int, need: int)
    requires Sorted(fs) && 0 <= k < |fs| && 0 <= need && Splits(fs[k], need)
    ensures var r := Remaining(fs, k, need);
            && k < |r| && r[k].addr == fs[k].addr + HDR + need && MIN_BLOCK <= r[k].size
            && forall i :: 0 <= i < k ==> r[i] == fs[i]
  {
    var d, rest := Drop(fs, k), Rest(fs[k], need);
    SortedTail(fs, k);
    if k < |d| { SortedTail(fs, k + 1); }
    hide Sorted, Drop, Put, Swap;
    PosBetween(d, rest.addr, k);
  }

  lemma PosBetween(fs: seq<Blk>, a: int, k: int)
    requires 0 <= k <= |fs| && (forall i :: 0 <= i < k ==> fs[i].addr < a) && (k < |fs| ==> a <= fs[k].addr)
    ensures Pos(fs, a) == k
  {
  }

  /** A request that cut its block off a larger one, given back and made again, is served with the
      same block. */
  lemma SameAgain(fs: seq<Blk>, need: int)
    requires Sorted(fs) && 0 <= need
    requires var k := FirstFit(fs, need, 0); 0 <= k && Splits(fs[k], need)
    ensures var k := FirstFit(fs, need, 0);
            var again := Insert(Remaining(fs, k, need), Taken(fs[k], need));
            FirstFit(again, need, 0) == k && Splits(again[k], need) && Taken(again[k], need) == Taken(fs[k], need)
  {
    var k := FirstFit(fs, need, 0);
    var r, got := Remaining(fs, k, need), Taken(fs[k], need);
    RestStays(fs, k, need);
    SortedTail(fs, k);
    hide Sorted, Remaining, Put, Swap, FirstFit, Insert, Pos;
    InsertInFront(r, got, k);
    FitIs(Insert(r, got), need, k);
  }

  lemma InsertInFront(fs: seq<Blk>, b: Blk, k: int)
    requires 0 <= k < |fs| && (forall i :: 0 <= i < k ==> fs[i].addr < b.addr) && b.End() == fs[k].addr && 0 <= b.size
    ensures Insert(fs, b) == Swap(fs, k, Join(b, fs[k]))
  {
    hide Put, Swap;
    PosBetween(fs, b.addr, k);
  }

  lemma FitIs(fs: seq<Blk>, need: int, k: int)
    requires 0 <= k < |fs| && need <= fs[k].size && forall i :: 0 <= i < k ==> fs[i].size < need
    ensures FirstFit(fs, need, 0) == k
  {
  }

  /** Cutting a block off the front of the only free block. */
  lemma CutFirst(b: Blk, need: int)
    requires 0 <= need && Splits(b, need)
    ensures FirstFit([b], need, 0) == 0 && Remaining([b], 0, need) == [Rest(b, need)]
    ensures Taken(b, need) == Blk(b.addr, need)
  {
    assert Drop([b], 0) == [];
  }

  /** Three neighbours cut off the front of a block, given back in the order first, third, second: the second touches
      the first, but has been joined with the third. */
  lemma FirstThirdSecond(b: Blk, need: int)
    requires 0 <= need && b.size - 3 * need - 2 * HDR >= HDR + MIN_BLOCK
    ensures var r1 := Rest(b, need); var r2 := Rest(r1, need); var r3 := Rest(r2, need);
            var one, two, three := Blk(b.addr, need), Blk(r1.addr, need), Blk(r2.addr, need);
            var last := Insert(Insert(Insert([r3], one), three), two);
            |last| == 2 && last[0] == one && last[1].addr == one.End() && !Loose(last)
  {
    var r1 := Rest(b, need);
    var r2 := Rest(r1, need);
    var r3 := Rest(r2, need);
    var one, two, three := Blk(b.addr, need), Blk(r1.addr, need), Blk(r2.addr, need);
    PosBetween([r3], one.addr, 0);
    assert Insert([r3], one) == [one, r3];
    InsertInFront([one, r3], three, 1);
    assert Insert([one, r3], three) == [one, Join(three, r3)];
    InsertInFront([one, Join(three, r3)], two, 1);
    StillTouching(Insert([one, Join(three, r3)], two), 0);
  }
}
