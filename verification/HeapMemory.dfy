/**
  Block headers in physical memory, byte by byte, and the free list threaded through them.
*/
module HeapMemory {
  import opened Bytes
  import opened HeapTiles

  const MAGIC_ALLOC: int := 0xA110_C000
  const MAGIC_FREE: int := 0xF4EE_0000
  const CANARY_ALLOC: int := 0xFFFF_FFFF - MAGIC_ALLOC
  const CANARY_FREE: int := 0xFFFF_FFFF - MAGIC_FREE
  const POISON_ALLOC: Byte := 0xCD
  const POISON_FREE: Byte := 0xDC

  /** The fields of heap.c:25-30; the last four of its 24 bytes are padding. */
  datatype Header = Header(magic: int, size: int, next: int, canary: int)

  function HeadAt(m: seq<Byte>, a: int): Header
    requires 0 <= a && a + HDR <= |m|
  {
    Header(Le32(m, a), Le32(m, a + 4), Le64(m, a + 8), Le32(m, a + 16))
  }

  function Le64(m: seq<Byte>, a: int): (v: int)
    requires 0 <= a && a + 8 <= |m|
    ensures 0 <= v
  {
    Le32(m, a) + TWO32 * Le32(m, a + 4)
  }

  /** Only bytes from `lo` to `hi` may differ. */
  ghost predicate Outside(m: seq<Byte>, m': seq<Byte>, lo: int, hi: int) {
    |m'| == |m| && forall x :: 0 <= x < |m| && !(lo <= x < hi) ==> m'[x] == m[x]
  }

  ghost predicate SameOn(m: seq<Byte>, m': seq<Byte>, lo: int, hi: int) {
    |m'| == |m| && forall x :: 0 <= x < |m| && lo <= x < hi ==> m'[x] == m[x]
  }

  lemma HeadSame(m: seq<Byte>, m': seq<Byte>, a: int)
    requires 0 <= a && a + HDR <= |m| && SameOn(m, m', a, a + HDR)
    ensures HeadAt(m', a) == HeadAt(m, a)
  {
  }

  function SetMagic(m: seq<Byte>, a: int, v: int): (r: seq<Byte>)
    requires 0 <= a && a + HDR <= |m| && 0 <= v < TWO32
    ensures Outside(m, r, a, a + HDR) && HeadAt(r, a) == HeadAt(m, a).(magic := v)
  {
    Put32(m, a, v)
  }

  function SetSize(m: seq<Byte>, a: int, v: int): (r: seq<Byte>)
    requires 0 <= a && a + HDR <= |m| && 0 <= v < TWO32
    ensures Outside(m, r, a, a + HDR) && HeadAt(r, a) == HeadAt(m, a).(size := v)
  {
    Put32(m, a + 4, v)
  }

  function SetCanary(m: seq<Byte>, a: int, v: int): (r: seq<Byte>)
    requires 0 <= a && a + HDR <= |m| && 0 <= v < TWO32
    ensures Outside(m, r, a, a + HDR) && HeadAt(r, a) == HeadAt(m, a).(canary := v)
  {
    Put32(m, a + 16, v)
  }

  /** A pointer below 4 GiB, stored in eight bytes. */
  function Put64(m: seq<Byte>, a: int, v: int): (r: seq<Byte>)
    requires 0 <= a && a + 8 <= |m| && 0 <= v < TWO32
    ensures Outside(m, r, a, a + 8) && Le64(r, a) == v && Le32(r, a) == v
  {
    Put32(Put32(m, a, v), a + 4, 0)
  }

  function SetNext(m: seq<Byte>, a: int, v: int): (r: seq<Byte>)
    requires 0 <= a && a + HDR <= |m| && 0 <= v < TWO32
    ensures Outside(m, r, a, a + HDR) && HeadAt(r, a) == HeadAt(m, a).(next := v)
  {
    Put64(m, a + 8, v)
  }

  // ---- the free list ----------------------------------------------------------------------------------

  function AddrAt(fs: seq<Blk>, i: int): int
    requires 0 <= i
  {
    if i < |fs| then fs[i].addr else 0
  }

  function FreeHead(fs: seq<Blk>, i: int): Header
    requires 0 <= i < |fs|
  {
    Header(MAGIC_FREE, fs[i].size, AddrAt(fs, i + 1), CANARY_FREE)
  }

  predicate InMemory(b: Blk) { 0 < b.addr && 0 <= b.size && b.End() <= TWO32 }

  /** `head` starts a list through memory that visits the blocks of `fs` in order. */
  ghost predicate Linked(m: seq<Byte>, head: int, fs: seq<Blk>) {
    && |m| == TWO32 && head == AddrAt(fs, 0)
    && (forall i :: 0 <= i < |fs| ==> InMemory(fs[i]))
    && forall i :: 0 <= i < |fs| ==> HeadAt(m, fs[i].addr) == FreeHead(fs, i)
  }

  /** The header of a block that lies apart from the changed bytes is unchanged. */
  lemma HeadApart(m: seq<Byte>, m': seq<Byte>, b: Blk, c: Blk)
    requires |m| == TWO32 && Outside(m, m', b.addr, b.End()) && InMemory(c) && Apart(b, c)
    ensures SameOn(m, m', c.addr, c.End()) && HeadAt(m', c.addr) == HeadAt(m, c.addr)
  {
  }

  lemma LinkedOutside(m: seq<Byte>, head: int, fs: seq<Blk>, b: Blk, m': seq<Byte>)
    requires Linked(m, head, fs) && ApartFrom(b, fs) && Outside(m, m', b.addr, b.End())
    ensures Linked(m', head, fs)
  {
    forall i | 0 <= i < |fs| ensures HeadAt(m', fs[i].addr) == FreeHead(fs, i) { HeadApart(m, m', b, fs[i]); }
  }

  lemma HeaderOnly(m: seq<Byte>, m': seq<Byte>, b: Blk)
    requires Outside(m, m', b.addr, b.addr + HDR) && 0 <= b.size
    ensures Outside(m, m', b.addr, b.End()) && |m'| == |m|
  {
  }

  /** Redirecting the link to the `k`-th block, which is the list head or the field of its
      predecessor, changes no other header. */
  ghost predicate Redirected(m: seq<Byte>, head: int, fs: seq<Blk>, k: int, to: int, m': seq<Byte>, head': int)
    requires Linked(m, head, fs) && 0 <= k <= |fs|
  {
    if k == 0 then m' == m && head' == to
    else 0 <= to < TWO32 && m' == SetNext(m, fs[k - 1].addr, to) && head' == head
  }

  lemma RedirectedHeads(m: seq<Byte>, head: int, fs: seq<Blk>, k: int, to: int, m': seq<Byte>, head': int, c: Blk)
    requires Linked(m, head, fs) && Sorted(fs) && 0 <= k <= |fs| && Redirected(m, head, fs, k, to, m', head')
    requires InMemory(c) && (0 < k ==> c == fs[k - 1] || Apart(fs[k - 1], c))
    ensures |m'| == TWO32
    ensures HeadAt(m', c.addr) == if 0 < k && c == fs[k - 1] then HeadAt(m, c.addr).(next := to) else HeadAt(m, c.addr)
  {
    hide SetNext, HeadAt;
    if 0 < k {
      HeaderOnly(m, m', fs[k - 1]);
      if c != fs[k - 1] { HeadApart(m, m', fs[k - 1], c); }
    }
  }

  lemma AddrPut(fs: seq<Blk>, k: int, b: Blk, i: int)
    requires 0 <= k <= |fs| && 0 <= i
    ensures AddrAt(Put(fs, k, b), i) == if i < k then AddrAt(fs, i) else if i == k then b.addr else AddrAt(fs, i - 1)
  {
  }

  lemma AddrDrop(fs: seq<Blk>, k: int, i: int)
    requires 0 <= k < |fs| && 0 <= i
    ensures AddrAt(Drop(fs, k), i) == if i < k then AddrAt(fs, i) else AddrAt(fs, i + 1)
  {
  }

  lemma AddrSwap(fs: seq<Blk>, k: int, b: Blk, i: int)
    requires 0 <= k < |fs| && 0 <= i && b.addr == fs[k].addr
    ensures AddrAt(Swap(fs, k, b), i) == AddrAt(fs, i)
  {
  }

  /** What one header of the list must be, with the list's other elements out of sight. */
  ghost predicate HeadOk(m: seq<Byte>, b: Blk, next: int) {
    InMemory(b) && |m| == TWO32 && HeadAt(m, b.addr) == Header(MAGIC_FREE, b.size, next, CANARY_FREE)
  }

  lemma LinkedHead(m: seq<Byte>, head: int, fs: seq<Blk>, i: int)
    requires Linked(m, head, fs) && 0 <= i < |fs|
    ensures HeadOk(m, fs[i], AddrAt(fs, i + 1))
  {
  }

  lemma LinkedFrom(m: seq<Byte>, head: int, fs: seq<Blk>)
    requires |m| == TWO32 && head == AddrAt(fs, 0) && forall i :: 0 <= i < |fs| ==> HeadOk(m, fs[i], AddrAt(fs, i + 1))
    ensures Linked(m, head, fs)
  {
    forall i | 0 <= i < |fs| ensures InMemory(fs[i]) && HeadAt(m, fs[i].addr) == FreeHead(fs, i) {
      assert HeadOk(m, fs[i], AddrAt(fs, i + 1));
    }
  }

  lemma PairApart(fs: seq<Blk>, i: int, j: int)
    requires Sorted(fs) && 0 <= i < |fs| && 0 <= j < |fs| && i != j
    ensures Apart(fs[i], fs[j]) && fs[i] != fs[j]
  {
  }

  lemma RedirectedFirst(m: seq<Byte>, head: int, fs: seq<Blk>, k: int, to: int, m': seq<Byte>, head': int)
    requires Linked(m, head, fs) && 0 <= k <= |fs| && Redirected(m, head, fs, k, to, m', head')
    ensures head' == if k == 0 then to else AddrAt(fs, 0)
  {
  }

  lemma JoinInMemory(lo: Blk, hi: Blk)
    requires InMemory(lo) && InMemory(hi) && lo.End() == hi.addr
    ensures InMemory(Join(lo, hi)) && Join(lo, hi).addr == lo.addr
  {
  }

  lemma LinkedStart(m: seq<Byte>, head: int, fs: seq<Blk>)
    requires Linked(m, head, fs)
    ensures head == AddrAt(fs, 0) && |m| == TWO32
  {
  }

  lemma BehindApart(b: Blk, fs: seq<Blk>, k: int)
    requires ApartFrom(b, fs) && 0 <= k <= |fs| && 0 <= b.size
    ensures 0 < k ==> Apart(fs[k - 1], b) && fs[k - 1] != b
  {
  }

  /** Linking `b`, whose own header is ready, in front of the `k`-th block. */
  lemma LinkedPut(m: seq<Byte>, head: int, fs: seq<Blk>, k: int, b: Blk, m': seq<Byte>, head': int)
    requires Linked(m, head, fs) && Sorted(fs) && ApartFrom(b, fs) && 0 <= k <= |fs|
    requires HeadOk(m, b, AddrAt(fs, k)) && Redirected(m, head, fs, k, b.addr, m', head')
    ensures Linked(m', head', Put(fs, k, b))
  {
    hide HeadAt, Put, Redirected, Sorted, Linked, AddrAt;
    BehindApart(b, fs, k);
    RedirectedHeads(m, head, fs, k, b.addr, m', head', b);
    var r := Put(fs, k, b);
    AddrPut(fs, k, b, 0);
    RedirectedFirst(m, head, fs, k, b.addr, m', head');
    forall i | 0 <= i < |r| ensures HeadOk(m', r[i], AddrAt(r, i + 1)) {
      AddrPut(fs, k, b, i + 1);
      if i != k {
        var x := if i < k then i else i - 1;
        LinkedHead(m, head, fs, x);
        if 0 < k && x != k - 1 { PairApart(fs, k - 1, x); }
        RedirectedHeads(m, head, fs, k, b.addr, m', head', fs[x]);
      }
    }
    LinkedFrom(m', head', r);
  }

  /** Taking the `k`-th block out of the list. */
  lemma LinkedDrop(m: seq<Byte>, head: int, fs: seq<Blk>, k: int, m': seq<Byte>, head': int)
    requires Linked(m, head, fs) && Sorted(fs) && 0 <= k < |fs|
    requires Redirected(m, head, fs, k, AddrAt(fs, k + 1), m', head')
    ensures Linked(m', head', Drop(fs, k))
    ensures |m'| == TWO32 && InMemory(fs[k]) && HeadAt(m', fs[k].addr) == HeadAt(m, fs[k].addr)
  {
    hide HeadAt, Drop, Redirected, Sorted, Linked, AddrAt, InMemory;
    var to := AddrAt(fs, k + 1);
    LinkedHead(m, head, fs, k);
    if 0 < k { PairApart(fs, k - 1, k); }
    RedirectedHeads(m, head, fs, k, to, m', head', fs[k]);
    var r := Drop(fs, k);
    AddrDrop(fs, k, 0);
    RedirectedFirst(m, head, fs, k, to, m', head');
    forall i | 0 <= i < |r| ensures HeadOk(m', r[i], AddrAt(r, i + 1)) {
      AddrDrop(fs, k, i + 1);
      var x := if i < k then i else i + 1;
      LinkedHead(m, head, fs, x);
      if 0 < k && x != k - 1 { PairApart(fs, k - 1, x); }
      RedirectedHeads(m, head, fs, k, to, m', head', fs[x]);
    }
    LinkedFrom(m', head', r);
  }

  /** Widening the `k`-th block over its successor, in place. */
  lemma LinkedJoin(m: seq<Byte>, head: int, fs: seq<Blk>, k: int, m': seq<Byte>)
    requires Linked(m, head, fs) && Sorted(fs) && 0 <= k < |fs| - 1 && fs[k].End() == fs[k + 1].addr
    requires Outside(m, m', fs[k].addr, fs[k].addr + HDR)
    requires HeadAt(m', fs[k].addr) == Header(MAGIC_FREE, Join(fs[k], fs[k + 1]).size, AddrAt(fs, k + 2), CANARY_FREE)
    ensures Linked(m', head, Swap(Drop(fs, k + 1), k, Join(fs[k], fs[k + 1])))
  {
    hide HeadAt, Drop, Swap, Outside, Sorted, Linked, AddrAt, Join;
    LinkedHead(m, head, fs, k);
    LinkedHead(m, head, fs, k + 1);
    HeaderOnly(m, m', fs[k]);
    var j := Join(fs[k], fs[k + 1]);
    var d := Drop(fs, k + 1);
    var r := Swap(d, k, j);
    JoinInMemory(fs[k], fs[k + 1]);
    AddrSwap(d, k, j, 0);
    AddrDrop(fs, k + 1, 0);
    LinkedStart(m, head, fs);
    forall i | 0 <= i < |r| ensures HeadOk(m', r[i], AddrAt(r, i + 1)) {
      AddrSwap(d, k, j, i + 1);
      AddrDrop(fs, k + 1, i + 1);
      if i != k {
        var x := if i <= k then i else i + 1;
        LinkedHead(m, head, fs, x);
        PairApart(fs, k, x);
        HeadApart(m, m', fs[k], fs[x]);
      }
    }
    LinkedFrom(m', head, r);
  }

  /** Linking `b`, already widened over the `k`-th block, in that block's place. */
  lemma LinkedAbsorb(m: seq<Byte>, head: int, fs: seq<Blk>, k: int, b: Blk, m': seq<Byte>, head': int)
    requires Linked(m, head, fs) && Sorted(fs) && ApartFrom(b, fs) && InMemory(b) && 0 <= k < |fs|
    requires b.End() == fs[k].addr
    requires HeadOk(m, Join(b, fs[k]), AddrAt(fs, k + 1)) && Redirected(m, head, fs, k, b.addr, m', head')
    ensures Linked(m', head', Swap(fs, k, Join(b, fs[k])))
  {
    hide HeadAt, Swap, Redirected, Sorted, Linked, AddrAt;
    var j := Join(b, fs[k]);
    BehindApart(b, fs, k);
    RedirectedHeads(m, head, fs, k, b.addr, m', head', b);
    var r := Swap(fs, k, j);
    AddrReplace(fs, k, j, 0);
    RedirectedFirst(m, head, fs, k, b.addr, m', head');
    forall i | 0 <= i < |r| ensures HeadOk(m', r[i], AddrAt(r, i + 1)) {
      AddrReplace(fs, k, j, i + 1);
      if i != k {
        LinkedHead(m, head, fs, i);
        if 0 < k && i != k - 1 { PairApart(fs, k - 1, i); }
        RedirectedHeads(m, head, fs, k, b.addr, m', head', fs[i]);
      }
    }
    LinkedFrom(m', head', r);
  }

  lemma AddrReplace(fs: seq<Blk>, k: int, b: Blk, i: int)
    requires 0 <= k < |fs| && 0 <= i
    ensures AddrAt(Swap(fs, k, b), i) == if i == k then b.addr else AddrAt(fs, i)
  {
  }
}
