/**
  The invariant of a mounted volume.  A forest records, for the first cluster of every
  directory and every non-empty file, its chain and the one directory slot that refers to it.
  `Sound` ties a forest to a volume; the lemmas say how the driver's primitive steps (touching
  clusters nobody owns, growing a directory, freeing a chain, storing a slot) keep it.
*/
module FatForest {
  import opened Bytes
  import opened FatVolume
  import opened FatDir
  import opened FatChain

  /** One owned chain, and the directory and slot index that refer to it (the root has none).
      `depth` grows from a directory to what it contains, so directories form a tree. */
  datatype Node = Node(chain: seq<int>, isDir: bool, dir: int, slot: int, depth: nat)
  type Forest = map<int, Node>

  ghost predicate Shape(g: Geometry, v: Vol) {
    && |v.fat| == |v.clus| == g.total + 2 <= EOC
    && 0 < g.spc
    && forall c :: 2 <= c < |v.clus| ==> |v.clus[c]| == g.spc
  }

  ghost predicate ChainsOk(v: Vol, f: Forest) {
    && |v.fat| == |v.clus|
    && (forall h :: h in f ==> IsChain(v.fat, f[h].chain) && f[h].chain[0] == h)
    && (forall h, h', c :: h in f && h' in f && c in f[h].chain && c in f[h'].chain ==> h == h')
  }

  ghost function Sectors(v: Vol, f: Forest, h: int): seq<Sector>
    requires ChainsOk(v, f) && h in f
  {
    Flat(v.clus, f[h].chain)
  }

  ghost function Slots(v: Vol, f: Forest, h: int): seq<Slot>
    requires ChainsOk(v, f) && h in f
  {
    SlotsOf(Sectors(v, f, h))
  }

  /** A nameable slot refers to a chain of its own kind, which knows this slot as its only owner. */
  ghost predicate RefOk(f: Forest, h: int, k: int, s: Slot)
    requires h in f
  {
    Live(s) ==>
      && (IsDir(s) ==> First(s) >= 2)
      && (First(s) >= 2 ==>
            && First(s) in f
            && f[First(s)].isDir == IsDir(s) && f[First(s)].dir == h && f[First(s)].slot == k
            && f[First(s)].depth > f[h].depth)
  }

  ghost predicate DirOk(f: Forest, h: int, ss: seq<Slot>, hd: int, hk: int)
    requires h in f
  {
    && Tidy(ss) && UniqueNames(ss)
    && forall k :: 0 <= k < |ss| && !(h == hd && k == hk) ==> RefOk(f, h, k, ss[k])
  }

  /** The volume invariant.  Slot `hk` of directory `hd` is exempt from `RefOk`: it is the slot
      that an operation is about to rewrite; (0, 0) exempts nothing. */
  ghost predicate Sound(g: Geometry, v: Vol, f: Forest, hd: int, hk: int) {
    && Shape(g, v) && ChainsOk(v, f)
    && g.root in f && f[g.root].isDir && f[g.root].dir == 0
    && forall h :: h in f && f[h].isDir ==> DirOk(f, h, Slots(v, f, h), hd, hk)
  }

  ghost predicate Owned(f: Forest, c: int) { exists h :: h in f && c in f[h].chain }

  // ---- steps that touch only clusters nobody owns ---------------------------------------------

  /** `v'` differs from `v` only in clusters that no chain of `f` uses. */
  ghost predicate Agree(v: Vol, v': Vol, f: Forest) {
    && |v'.fat| == |v.fat| == |v'.clus| == |v.clus|
    && (forall c :: 0 <= c < |v.clus| ==> |v'.clus[c]| == |v.clus[c]|)
    && forall h, c :: h in f && c in f[h].chain && 0 <= c < |v.fat| ==> v'.fat[c] == v.fat[c] && v'.clus[c] == v.clus[c]
  }

  lemma FreeIsUnowned(v: Vol, f: Forest, c: int)
    requires ChainsOk(v, f) && 0 <= c < |v.fat| && v.fat[c] == 0
    ensures !Owned(f, c)
  {
    forall h | h in f && c in f[h].chain ensures false { ChainNonzero(v.fat, f[h].chain, c); }
  }

  lemma ChainsFrame(v: Vol, v': Vol, f: Forest)
    requires ChainsOk(v, f) && Agree(v, v', f)
    ensures ChainsOk(v', f)
    ensures forall h :: h in f ==> Sectors(v', f, h) == Sectors(v, f, h)
  {
    forall h | h in f
      ensures IsChain(v'.fat, f[h].chain) && Flat(v'.clus, f[h].chain) == Flat(v.clus, f[h].chain)
    {
      forall c | c in f[h].chain ensures 0 <= c < |v.fat| && v'.fat[c] == v.fat[c] && v'.clus[c] == v.clus[c] {}
      ChainFrame(v.fat, v'.fat, f[h].chain);
      FlatFrame(v.clus, v'.clus, f[h].chain);
    }
  }

  lemma SoundFrame(g: Geometry, v: Vol, v': Vol, f: Forest, hd: int, hk: int)
    requires Sound(g, v, f, hd, hk) && Agree(v, v', f)
    ensures Sound(g, v', f, hd, hk)
    ensures forall h :: h in f ==> Sectors(v', f, h) == Sectors(v, f, h)
  {
    ChainsFrame(v, v', f);
    forall c | 2 <= c < |v'.clus| ensures |v'.clus[c]| == g.spc { assert |v.clus[c]| == g.spc; }
    forall h | h in f && f[h].isDir ensures DirOk(f, h, Slots(v', f, h), hd, hk) {
      assert Slots(v', f, h) == Slots(v, f, h);
    }
  }

  // ---- growing a directory ----------------------------------------------------------------------

  ghost function Grown(f: Forest, p: int, nc: int): Forest
    requires p in f
  {
    f[p := f[p].(chain := f[p].chain + [nc])]
  }

  lemma GrowOther(v: Vol, f: Forest, p: int, nc: int, v': Vol, h: int)
    requires ChainsOk(v, f) && p in f && h in f && h != p && !Owned(f, nc)
    requires v' == Vol(v.fat[f[p].chain[|f[p].chain| - 1] := nc], v.clus)
    ensures IsChain(v'.fat, f[h].chain) && nc !in f[h].chain
  {
    assert f[p].chain[|f[p].chain| - 1] in f[p].chain;
    ChainFrame(v.fat, v'.fat, f[h].chain);
  }

  lemma GrowChains(v: Vol, f: Forest, p: int, nc: int, v': Vol)
    requires ChainsOk(v, f) && p in f
    requires 2 <= nc < |v.fat| && !Owned(f, nc) && v.fat[nc] >= EOC
    requires v' == Vol(v.fat[f[p].chain[|f[p].chain| - 1] := nc], v.clus)
    ensures ChainsOk(v', Grown(f, p, nc))
    ensures Sectors(v', Grown(f, p, nc), p) == Sectors(v, f, p) + v.clus[nc]
    ensures forall h :: h in f && h != p ==> Sectors(v', Grown(f, p, nc), h) == Sectors(v, f, h)
  {
    var ch := f[p].chain;
    var f' := Grown(f, p, nc);
    assert nc !in ch;
    ChainAppend(v.fat, ch, nc, v'.fat);
    forall h | h in f && h != p ensures IsChain(v'.fat, f[h].chain) && nc !in f[h].chain {
      GrowOther(v, f, p, nc, v', h);
    }
    forall h, h', c | h in f' && h' in f' && c in f'[h].chain && c in f'[h'].chain ensures h == h' {
      if c != nc { assert c in f[h].chain && c in f[h'].chain; }
    }
    FlatConcat(v.clus, ch, [nc]);
    FlatOne(v.clus, nc);
  }

  /** fat.c:168-176: a zeroed cluster behind the last one of directory `p` adds unused slots. */
  lemma SoundGrow(g: Geometry, v: Vol, f: Forest, p: int, nc: int, v': Vol)
    requires Sound(g, v, f, 0, 0) && p in f && f[p].isDir
    requires 2 <= nc < |v.fat| && !Owned(f, nc) && v.fat[nc] >= EOC
    requires v' == Vol(v.fat[f[p].chain[|f[p].chain| - 1] := nc], v.clus)
    requires AllUnused(SlotsOf(v.clus[nc]))
    ensures Sound(g, v', Grown(f, p, nc), 0, 0)
    ensures Slots(v', Grown(f, p, nc), p) == Slots(v, f, p) + SlotsOf(v.clus[nc])
    ensures forall h :: h in f && h != p ==> Sectors(v', Grown(f, p, nc), h) == Sectors(v, f, h)
  {
    var f' := Grown(f, p, nc);
    GrowChains(v, f, p, nc, v');
    SlotsOfConcat(Sectors(v, f, p), v.clus[nc]);
    forall h | h in f' && f'[h].isDir ensures DirOk(f', h, Slots(v', f', h), 0, 0) {
      var ss, ss' := Slots(v, f, h), Slots(v', f', h);
      assert DirOk(f, h, ss, 0, 0);
      if h != p { assert ss' == ss; } else { TidyGrow(ss, SlotsOf(v.clus[nc])); }
      forall k | 0 <= k < |ss'| && !(h == 0 && k == 0) ensures RefOk(f', h, k, ss'[k]) {
        if k < |ss| { assert RefOk(f, h, k, ss[k]); }
      }
    }
  }

  // ---- giving up a chain ------------------------------------------------------------------------

  /** fat.c:468 and fat.c:555: the chain of `h` is cleared; until its slot is rewritten that slot
      is the exempt one. */
  lemma SoundFree(g: Geometry, v: Vol, f: Forest, h: int, v': Vol)
    requires Sound(g, v, f, 0, 0) && h in f && h != g.root && f[h].dir != h
    requires v' == Vol(Freed(v.fat, h), v.clus)
    ensures Sound(g, v', f - {h}, f[h].dir, f[h].slot)
    ensures forall x :: x in f && x != h ==> Sectors(v', f - {h}, x) == Sectors(v, f, x)
    ensures Zeros(v'.fat) == Zeros(v.fat) + |f[h].chain|
  {
    FreedChain(v.fat, f[h].chain);
    var f' := f - {h};
    forall x, c | x in f' && c in f'[x].chain && 0 <= c < |v.fat|
      ensures v'.fat[c] == v.fat[c] && v'.clus[c] == v.clus[c]
    {
      assert c !in f[h].chain;
    }
    assert ChainsOk(v, f');
    ChainsFrame(v, v', f');
    forall x | x in f' && f'[x].isDir ensures DirOk(f', x, Slots(v', f', x), f[h].dir, f[h].slot) {
      var ss := Slots(v, f, x);
      assert Slots(v', f', x) == ss && DirOk(f, x, ss, 0, 0);
      forall k | 0 <= k < |ss| && !(x == f[h].dir && k == f[h].slot) ensures RefOk(f', x, k, ss[k]) {
        assert RefOk(f, x, k, ss[k]);
      }
    }
  }

  // ---- taking on a chain ------------------------------------------------------------------------

  lemma SoundAdopt(g: Geometry, v: Vol, f: Forest, p: int, k: int, ch: seq<int>, isDir: bool)
    requires Sound(g, v, f, p, k) && p in f
    requires IsChain(v.fat, ch) && forall c :: c in ch ==> !Owned(f, c)
    requires isDir ==> UniqueNames(SlotsOf(Flat(v.clus, ch))) && Tidy(SlotsOf(Flat(v.clus, ch)))
                       && forall i :: 0 <= i < 16 * |Flat(v.clus, ch)| ==> !Live(SlotsOf(Flat(v.clus, ch))[i])
    ensures var f' := f[ch[0] := Node(ch, isDir, p, k, f[p].depth + 1)];
            && ch[0] !in f
            && Sound(g, v, f', p, k)
            && (forall h :: h in f ==> Sectors(v, f', h) == Sectors(v, f, h))
            && Sectors(v, f', ch[0]) == Flat(v.clus, ch)
  {
    var n := ch[0];
    var f' := f[n := Node(ch, isDir, p, k, f[p].depth + 1)];
    assert n in ch;
    assert !Owned(f, n);
    assert n !in f;
    forall h, h', c | h in f' && h' in f' && c in f'[h].chain && c in f'[h'].chain ensures h == h' {
      if c in ch { assert !Owned(f, c); }
    }
    assert ChainsOk(v, f');
    forall h | h in f' && f'[h].isDir ensures DirOk(f', h, Slots(v, f', h), p, k) {
      if h != n {
        var ss := Slots(v, f, h);
        assert Slots(v, f', h) == ss && DirOk(f, h, ss, p, k);
        forall i | 0 <= i < |ss| && !(h == p && i == k) ensures RefOk(f', h, i, ss[i]) {
          assert RefOk(f, h, i, ss[i]);
        }
      }
    }
  }

  // ---- storing a slot ---------------------------------------------------------------------------

  /** Writing sector `s` of cluster `j` of the chain of `p` writes one sector of `p` and leaves
      every other chain's sectors alone. */
  lemma PokeChains(g: Geometry, v: Vol, f: Forest, p: int, j: int, s: int, sec: Sector, v': Vol)
    requires Shape(g, v) && ChainsOk(v, f) && p in f && 0 <= j < |f[p].chain| && 0 <= s < g.spc
    requires v' == Vol(v.fat, Poke(v.clus, f[p].chain[j], s, sec))
    ensures Shape(g, v') && ChainsOk(v', f)
    ensures forall h :: h in f && h != p ==> Sectors(v', f, h) == Sectors(v, f, h)
    ensures var q := |Flat(v.clus, f[p].chain[..j])| + s;
            && q < |Sectors(v, f, p)|
            && Sectors(v, f, p)[q] == v.clus[f[p].chain[j]][s]
            && Sectors(v', f, p) == Sectors(v, f, p)[q := sec]
  {
    var ch := f[p].chain;
    FlatPoke(v.clus, ch, j, s, sec);
    forall h | h in f && h != p ensures Flat(v'.clus, f[h].chain) == Flat(v.clus, f[h].chain) {
      forall c | c in f[h].chain ensures 0 <= c < |v.clus| && v'.clus[c] == v.clus[c] {
        assert ch[j] in ch;
      }
      FlatFrame(v.clus, v'.clus, f[h].chain);
    }
    forall c | 2 <= c < |v'.clus| ensures |v'.clus[c]| == g.spc {
      assert |v.clus[c]| == g.spc;
    }
  }

  /** The slot stored at the exempt place ends the exemption, if it refers to what the forest
      records there and repeats no name. */
  lemma SoundStore(g: Geometry, v: Vol, f: Forest, p: int, k: int, s: Slot, v': Vol)
    requires Sound(g, v, f, p, k) && p in f && f[p].isDir
    requires Shape(g, v') && ChainsOk(v', f)
    requires forall h :: h in f && h != p ==> Sectors(v', f, h) == Sectors(v, f, h)
    requires 0 <= k < |Slots(v, f, p)| && Slots(v', f, p) == Slots(v, f, p)[k := s]
    requires s[0] != 0 && forall i :: 0 <= i < k ==> Slots(v, f, p)[i][0] != 0
    requires Live(s) ==> forall i :: 0 <= i < |Slots(v, f, p)| && i != k ==> !Hit(Slots(v, f, p)[i], s[..11])
    requires RefOk(f, p, k, s)
    ensures Sound(g, v', f, 0, 0)
  {
    forall h | h in f && f[h].isDir ensures DirOk(f, h, Slots(v', f, h), 0, 0) {
      var ss, ss' := Slots(v, f, h), Slots(v', f, h);
      assert DirOk(f, h, ss, p, k);
      if h != p { assert ss' == ss; } else { TidyStore(ss, k, s); }
      forall i | 0 <= i < |ss'| ensures RefOk(f, h, i, ss'[i]) {
        if !(h == p && i == k) { assert RefOk(f, h, i, ss[i]); }
      }
    }
  }

  // ---- what a whole operation leaves alone ------------------------------------------------------

  /** From `v` to `v'` only directory `p` may have changed, and only by growing; `extra` clusters
      went from free to used. */
  ghost predicate Grew(g: Geometry, v: Vol, f: Forest, v': Vol, f': Forest, p: int, extra: int) {
    && Sound(g, v, f, 0, 0) && Sound(g, v', f', 0, 0)
    && p in f && f'.Keys == f.Keys
    && (forall h :: h in f && h != p ==> f'[h] == f[h] && Sectors(v', f', h) == Sectors(v, f, h))
    && f[p].chain <= f'[p].chain && f'[p] == f[p].(chain := f'[p].chain)
    && Slots(v, f, p) <= Slots(v', f', p)
    && AllUnused(Slots(v', f', p)[|Slots(v, f, p)|..])
    && Zeros(v'.fat) == Zeros(v.fat) - extra && |f'[p].chain| == |f[p].chain| + extra
  }

  lemma GrewByNone(g: Geometry, v: Vol, f: Forest, p: int)
    requires Sound(g, v, f, 0, 0) && p in f
    ensures Grew(g, v, f, v, f, p, 0)
  {
  }

  /** `v'` is `v` after fat.c:169-174: claim cluster `nc`, link it behind `last`, zero it. */
  ghost predicate Extended(g: Geometry, v: Vol, last: int, nc: int, v': Vol) {
    && 3 <= nc < |v.fat| == |v.clus| && 0 <= last < |v.fat| && v.fat[nc] == 0 && last != nc
    && v'.fat == v.fat[nc := 0x0FFF_FFFF][last := nc] && |v'.clus| == |v.clus|
    && (forall x :: 0 <= x < |v.clus| && x != nc ==> v'.clus[x] == v.clus[x])
    && |v'.clus[nc]| == g.spc && ZeroFrom(v'.clus[nc], 0)
  }

  lemma GrewByOne(g: Geometry, v: Vol, f: Forest, p: int, nc: int, v': Vol)
    requires Sound(g, v, f, 0, 0) && p in f && f[p].isDir
    requires Extended(g, v, f[p].chain[|f[p].chain| - 1], nc, v')
    ensures Grew(g, v, f, v', Grown(f, p, nc), p, 1)
    ensures Sectors(v', Grown(f, p, nc), p) == Sectors(v, f, p) + v'.clus[nc]
    ensures AllUnused(SlotsOf(v'.clus[nc]))
  {
    var fat1 := v.fat[nc := 0x0FFF_FFFF];
    var zeroed := Vol(fat1, v'.clus);
    var f' := Grown(f, p, nc);
    var last := f[p].chain[|f[p].chain| - 1];
    FreeIsUnowned(v, f, nc);
    ClaimAgrees(g, v, f, nc, zeroed);
    SoundFrame(g, v, zeroed, f, 0, 0);
    ZeroSectorsUnused(v'.clus[nc]);
    GrowChains(zeroed, f, p, nc, v');
    SoundGrow(g, zeroed, f, p, nc, v');
    ZerosUpdate(v.fat, nc, 0x0FFF_FFFF);
    ChainNonzero(zeroed.fat, f[p].chain, last);
    ZerosUpdate(fat1, last, nc);
    var ss, ss' := Slots(v, f, p), Slots(v', f', p);
    assert ss' == ss + SlotsOf(v'.clus[nc]);
    assert ss'[|ss|..] == SlotsOf(v'.clus[nc]);
  }

  lemma ClaimAgrees(g: Geometry, v: Vol, f: Forest, c: int, v': Vol)
    requires Shape(g, v) && 2 <= c < |v.fat| && !Owned(f, c)
    requires |v'.fat| == |v.fat| && |v'.clus| == |v.clus| && |v'.clus[c]| == g.spc
    requires forall x :: 0 <= x < |v.fat| && x != c ==> v'.fat[x] == v.fat[x] && v'.clus[x] == v.clus[x]
    ensures Agree(v, v', f)
  {
  }

  // ---- what the driver reads off the invariant ----------------------------------------------------

  lemma SoundDir(g: Geometry, v: Vol, f: Forest, hd: int, hk: int, p: int)
    requires Sound(g, v, f, hd, hk) && p in f && f[p].isDir
    ensures IsChain(v.fat, f[p].chain) && f[p].chain[0] == p
    ensures ChainsOk(v, f) && Tidy(Slots(v, f, p)) && UniqueNames(Slots(v, f, p))
    ensures g.root in f && f[g.root].isDir && Shape(g, v)
  {
    assert DirOk(f, p, Slots(v, f, p), hd, hk);
  }

  lemma SoundRoot(g: Geometry, v: Vol, f: Forest, hd: int, hk: int)
    requires Sound(g, v, f, hd, hk)
    ensures ChainsOk(v, f) && Shape(g, v) && g.root in f && f[g.root].isDir
  {
  }

  lemma GrewSound(g: Geometry, v: Vol, f: Forest, v': Vol, f': Forest, p: int, extra: int)
    requires Grew(g, v, f, v', f', p, extra)
    ensures Sound(g, v', f', 0, 0) && f'.Keys == f.Keys && f'[p] == f[p].(chain := f'[p].chain)
  {
  }

  /** Slot `k` of the directory with chain `ch` is slot `i` of sector `s` of the `j`-th cluster. */
  ghost predicate Spot(g: Geometry, v: Vol, ch: seq<int>, k: int, j: int, s: int, i: int) {
    && Within(|v.clus|, ch) && 0 <= j < |ch| && 0 <= s < g.spc && 0 <= i < 16
    && k == 16 * (|Flat(v.clus, ch[..j])| + s) + i
  }

  /** That slot is at byte `off` of disk sector `lba`. */
  ghost predicate At(g: Geometry, v: Vol, ch: seq<int>, k: int, j: int, s: int, lba: int, off: int) {
    && IsChain(v.fat, ch) && 0 <= off < 512 && off % 32 == 0
    && Spot(g, v, ch, k, j, s, off / 32) && k < 16 * |Flat(v.clus, ch)|
    && lba == g.ClusterToLba(ch[j]) + s
  }

  /** `v'` is `v` with slot `i` of sector `s` of cluster `c` replaced. */
  ghost predicate Rewritten(g: Geometry, v: Vol, c: int, s: int, i: int, slot: Slot, v': Vol) {
    && 0 <= c < |v.clus| && 0 <= s < |v.clus[c]| && 0 <= i < 16
    && v' == Vol(v.fat, Poke(v.clus, c, s, PutSlot(v.clus[c][s], i, slot)))
  }

  /** No slot before the `n`-th is free. */
  ghost predicate Taken(ss: seq<Slot>, n: int) {
    0 <= n <= |ss| && forall x :: 0 <= x < n ==> ss[x][0] != 0 && ss[x][0] != DELETED
  }

  /** Slot `k` is the first free one. */
  ghost predicate FirstFree(ss: seq<Slot>, k: int) {
    Taken(ss, k) && k < |ss| && (ss[k][0] == 0 || ss[k][0] == DELETED)
  }

  lemma NotLinked(fat: seq<int>, ch: seq<int>, c: int)
    requires IsChain(fat, ch) && 0 <= c < |fat| && fat[c] == 0
    ensures c !in ch && Within(|fat|, ch)
  {
    if c in ch { ChainNonzero(fat, ch, c); }
  }

  /** The extended directory in the view after the extension. */
  lemma ExtendedFlat(g: Geometry, v: Vol, ch: seq<int>, nc: int, v': Vol)
    requires IsChain(v.fat, ch) && |v.fat| == |v.clus| && Extended(g, v, ch[|ch| - 1], nc, v')
    ensures IsChain(v'.fat, ch + [nc])
    ensures Flat(v'.clus, ch) == Flat(v.clus, ch)
    ensures Flat(v'.clus, ch + [nc]) == Flat(v.clus, ch) + v'.clus[nc]
    ensures AllUnused(SlotsOf(v'.clus[nc]))
  {
    NotLinked(v.fat, ch, nc);
    ChainFrame(v.fat, v.fat[nc := 0x0FFF_FFFF], ch);
    ChainAppend(v.fat[nc := 0x0FFF_FFFF], ch, nc, v'.fat);
    hide IsChain, SlotsOf, Flat;
    FlatFrame(v.clus, v'.clus, ch);
    FlatConcat(v'.clus, ch, [nc]);
    FlatOne(v'.clus, nc);
    ZeroSectorsUnused(v'.clus[nc]);
  }
}
