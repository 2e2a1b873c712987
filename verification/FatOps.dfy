/**
  The last steps of write_file, mkdir and unlink as facts about views and forests, and what the
  finished operation means for every path.
*/
module FatOps {
  import opened Bytes
  import opened FatVolume
  import opened FatDir
  import opened FatChain
  import opened FatForest
  import opened FatPath
  import opened FatEffect

  const ATTR_FILE: Byte := 0x20
  const ATTR_DIR: Byte := 0x10

  /** The slot that a whole path names, if it names one. */
  ghost function Target(g: Geometry, v: Vol, f: Forest, cwd: int, path: seq<Byte>): Option<Slot>
    requires ChainsOk(v, f) && cwd in f && g.root in f
  {
    match Resolve(g, v, f, cwd, path)
    case None => None
    case Some((p, last)) => if last == [] || p !in f then None else Look(v, f, p, Name83(last))
  }

  lemma UntouchedAgrees(v: Vol, v': Vol, f: Forest, ch: seq<int>)
    requires ChainsOk(v, f) && Untouched(v, v', ch) && forall c :: 0 <= c < |v.clus| ==> |v'.clus[c]| == |v.clus[c]|
    ensures Agree(v, v', f) && forall c :: c in ch ==> !Owned(f, c)
  {
    forall c | c in ch ensures !Owned(f, c) { FreeIsUnowned(v, f, c); }
  }

  ghost function Adopted(f: Forest, ch: seq<int>, isDir: bool, p: int, k: int): Forest
    requires p in f
  {
    if ch == [] then f else f[ch[0] := Node(ch, isDir, p, k, f[p].depth + 1)]
  }

  ghost function Made(ch: seq<int>): set<int> { if ch == [] then {} else {ch[0]} }

  // ---- write_file ----------------------------------------------------------------------------------

  /** The data is on disk in the fresh chain `ch`: the volume is ready for the slot. */
  lemma ReadyData(g: Geometry, v: Vol, f: Forest, v1: Vol, f1: Forest, p: int, k: int, name: Name,
                  gone: set<int>, grown: seq<Slot>, v2: Vol, ch: seq<int>)
    requires Ready(g, v, f, v1, f1, p, k, name, gone, {}, grown)
    requires Shape(g, v2) && Untouched(v1, v2, ch) && (ch != [] ==> IsChain(v2.fat, ch))
    ensures Ready(g, v, f, v2, Adopted(f1, ch, false, p, k), p, k, name, gone, Made(ch), grown)
    ensures ch != [] ==> Sectors(v2, Adopted(f1, ch, false, p, k), ch[0]) == Flat(v2.clus, ch)
    ensures p in f1 && p !in Made(ch) && Adopted(f1, ch, false, p, k)[p].chain == f1[p].chain
    ensures forall j, sx, i :: Spot(g, v1, f1[p].chain, k, j, sx, i) ==> Spot(g, v2, f1[p].chain, k, j, sx, i)
  {
    SoundDir(g, v1, f1, p, k, p);
    forall c | 0 <= c < |v1.clus| ensures |v2.clus[c]| == |v1.clus[c]| { }
    UntouchedAgrees(v1, v2, f1, ch);
    ReadyFrame(g, v, f, v1, f1, p, k, name, gone, grown, v2);
    forall j, sx, i | Spot(g, v1, f1[p].chain, k, j, sx, i) ensures Spot(g, v2, f1[p].chain, k, j, sx, i) {
      FlatFrame(v1.clus, v2.clus, f1[p].chain[..j]);
    }
    if ch != [] {
      assert ch[0] in ch && !Owned(f1, ch[0]);
      assert p in f1[p].chain && Owned(f1, p);
      ReadyAdopt(g, v, f, v2, f1, p, k, name, gone, grown, ch, false);
    }
  }

  /** The slot write_file stores. */
  function FileSlot(name: Name, first: int, size: int): (s: Slot)
    requires 0 <= first < TWO32 && 0 <= size < TWO32
    ensures s[..11] == name && First(s) == first && Size(s) == size && !IsDir(s) && !IsLabel(s) && s[0] == name[0]
  {
    var s := MakeSlot(name, ATTR_FILE, first, size);
    assert s[0] == s[..11][0];
    s
  }

  /** The slot is written: the name finds it and its bytes are `data`, unless the name starts with
      the deleted mark, in which case nothing finds it; every other name is as before. */
  lemma FinishFile(g: Geometry, v: Vol, f: Forest, v2: Vol, f2: Forest, p: int, k: int, name: Name,
                   gone: set<int>, ch: seq<int>, grown: seq<Slot>, j: int, sx: int, i: int, data: seq<Byte>, s: Slot,
                   v3: Vol)
    requires Ready(g, v, f, v2, f2, p, k, name, gone, Made(ch), grown) && p !in Made(ch)
    requires Spot(g, v2, f2[p].chain, k, j, sx, i) && Rewritten(g, v2, f2[p].chain[j], sx, i, s, v3)
    requires (ch == [] <==> data == []) && |data| < TWO32
    requires ch != [] ==> && 2 <= ch[0] < TWO32 && ch[0] in f2 && f2[ch[0]] == Node(ch, false, p, k, f2[p].depth + 1)
                          && Holds(Sectors(v2, f2, ch[0]), data, 0) && |data| <= 512 * |Sectors(v2, f2, ch[0])|
    requires s == FileSlot(name, if ch == [] then 0 else ch[0], |data|)
    ensures Changed(g, v, f, v3, f2, p, k, name, s, gone, Made(ch), grown)
    ensures OthersSame(v, f, v3, f2, p, name, gone)
    ensures Look(v3, f2, p, name) == if name[0] == DELETED then None else Some(s)
    ensures FileBytes(v3, f2, s) == data
  {
    hide Sound, SlotsOf, Data;
    Commit(g, v, f, v2, f2, p, k, name, gone, Made(ch), grown, j, sx, i, s, v3);
    ChangedLook(g, v, f, v3, f2, p, k, name, s, gone, Made(ch), grown, p, name);
    ChangedOthers(g, v, f, v3, f2, p, k, name, s, gone, Made(ch), grown);
    if ch != [] { HoldsData(Sectors(v2, f2, ch[0]), data); }
  }

  /** Out of clusters, new name: its slot is still unused, so the volume is sound as it stands. */
  lemma AbortNew(g: Geometry, v: Vol, f: Forest, v1: Vol, f1: Forest, p: int, k: int, name: Name, grown: seq<Slot>)
    requires Ready(g, v, f, v1, f1, p, k, name, {}, {}, grown)
    requires !Live(Slots(v1, f1, p)[k])
    ensures Sound(g, v1, f1, 0, 0) && OthersSame(v, f, v1, f1, p, name, {})
  {
    SoundDir(g, v1, f1, p, k, p);
    forall h | h in f1 && f1[h].isDir ensures DirOk(f1, h, Slots(v1, f1, h), 0, 0) {
      assert DirOk(f1, h, Slots(v1, f1, h), p, k);
    }
    assert Slots(v1, f1, p) == (Slots(v, f, p) + grown)[k := Slots(v1, f1, p)[k]];
    KeptOthers(g, v, f, v1, f1, p, k, name, {}, {}, grown);
  }

  /** Before the slot is rewritten the others already see what they saw. */
  lemma KeptOthers(g: Geometry, v: Vol, f: Forest, v1: Vol, f1: Forest, p: int, k: int, name: Name,
                   gone: set<int>, made: set<int>, grown: seq<Slot>)
    requires Sound(g, v, f, 0, 0) && Kept(v, f, v1, f1, p, gone, made) && OnlyOwner(f, p, k, gone) && p !in made
    requires AllUnused(grown) && Slots(v1, f1, p) == Slots(v, f, p) + grown && Fits(Slots(v1, f1, p), k, name)
    ensures OthersSame(v, f, v1, f1, p, name, gone)
  {
    hide Sound, SlotsOf, Data;
    forall h, n: Name | h in f && f[h].isDir && h !in gone && Askable(n) && (h != p || n != name)
      ensures h in f1 && f1[h].isDir && Look(v1, f1, h, n) == Look(v, f, h, n)
      ensures Look(v, f, h, n).Some? && !IsDir(Look(v, f, h, n).value) ==>
                FileBytes(v1, f1, Look(v, f, h, n).value) == FileBytes(v, f, Look(v, f, h, n).value)
    {
      if h == p { LookupGrown(Slots(v, f, p), grown, n); }
      if Look(v, f, h, n).Some? && !IsDir(Look(v, f, h, n).value) {
        var i := Find(Slots(v, f, h), n, 0);
        LookSound(g, v, f, h, n, i);
        var e := Slots(v, f, h)[i];
        assert h == p ==> (Slots(v, f, p) + grown)[i] == e;
        assert First(e) >= 2 ==> First(e) !in gone && First(e) != p;
      }
    }
  }

  lemma LookupGrown(ss: seq<Slot>, grown: seq<Slot>, n: Name)
    requires AllUnused(grown)
    ensures Lookup(ss + grown, n) == Lookup(ss, n)
  {
    var all := ss + grown;
    assert forall i :: 0 <= i < |ss| ==> all[i] == ss[i];
    var r := Find(ss, n, 0);
    if 0 <= r {
      assert all[r] == ss[r];
      assert Find(all, n, 0) == r;
    } else {
      assert forall i :: 0 <= i < |all| ==> !Hit(all[i], n);
    }
  }

  lemma ExemptionEnds(g: Geometry, v: Vol, f: Forest, p: int, k: int)
    requires Sound(g, v, f, p, k) && p in f && f[p].isDir && 0 <= k < |Slots(v, f, p)|
    requires RefOk(f, p, k, Slots(v, f, p)[k])
    ensures Sound(g, v, f, 0, 0)
  {
    forall h | h in f && f[h].isDir ensures DirOk(f, h, Slots(v, f, h), 0, 0) {
      assert DirOk(f, h, Slots(v, f, h), p, k);
    }
  }

  lemma UnownedIsNew(v: Vol, f: Forest, c: int)
    requires ChainsOk(v, f) && !Owned(f, c)
    ensures c !in f
  {
    assert forall h :: h in f ==> f[h].chain[0] in f[h].chain;
  }

  lemma AbortFinish(g: Geometry, v: Vol, f: Forest, v2: Vol, f2: Forest, p: int, k: int, name: Name, h: int)
    requires Ready(g, v, f, v2, f2, p, k, name, {h}, {h}, []) && p != h && RefOk(f2, p, k, Slots(v2, f2, p)[k])
    ensures Sound(g, v2, f2, 0, 0) && OthersSame(v, f, v2, f2, p, name, {h})
  {
    hide Sound, SlotsOf;
    ExemptionEnds(g, v2, f2, p, k);
    KeptOthers(g, v, f, v2, f2, p, k, name, {h}, {h}, []);
  }

  /** Out of clusters while replacing the file that began at cluster `h`, which has been freed: the
      aborted chain has taken every free cluster from 3 up, so it runs through `h` and the old slot
      now names the rest of it.  Only a file that began at cluster 2 is left dangling. */
  lemma AbortOld(g: Geometry, v: Vol, f: Forest, v1: Vol, f1: Forest, p: int, k: int, name: Name, h: int,
                 v2: Vol, ch: seq<int>) returns (f2: Forest)
    requires Ready(g, v, f, v1, f1, p, k, name, {h}, {}, [])
    requires First(Slots(v1, f1, p)[k]) == h && !IsDir(Slots(v1, f1, p)[k]) && 3 <= h < |v1.fat| && v1.fat[h] == 0
    requires Shape(g, v2) && Untouched(v1, v2, ch) && (ch != [] ==> IsChain(v2.fat, ch))
    requires forall x :: 3 <= x < |v2.fat| ==> v2.fat[x] != 0
    ensures Sound(g, v2, f2, 0, 0) && OthersSame(v, f, v2, f2, p, name, {h})
    ensures h in f2 && f2 == f1[h := f2[h]] && !f2[h].isDir
  {
    hide Sound, SlotsOf;
    SoundDir(g, v1, f1, p, k, p);
    assert h !in f1 && p in f1 && f1[p].isDir && 0 <= k < |Slots(v1, f1, p)|;
    hide Ready;
    assert h in ch;
    var j :| 0 <= j < |ch| && ch[j] == h;
    ChainSuffix(v2.fat, ch, j);
    forall c | 0 <= c < |v1.clus| ensures |v2.clus[c]| == |v1.clus[c]| { }
    UntouchedAgrees(v1, v2, f1, ch);
    ReadyFrame(g, v, f, v1, f1, p, k, name, {h}, [], v2);
    SoundDir(g, v2, f1, p, k, p);
    assert p in f1[p].chain && Owned(f1, p);
    assert Slots(v2, f1, p)[k] == Slots(v1, f1, p)[k] by { SoundFrame(g, v1, v2, f1, p, k); }
    ReadyAdopt(g, v, f, v2, f1, p, k, name, {h}, [], ch[j..], false);
    f2 := f1[h := Node(ch[j..], false, p, k, f1[p].depth + 1)];
    AbortFinish(g, v, f, v2, f2, p, k, name, h);
  }

  // ---- mkdir ----------------------------------------------------------------------------------------

  const DOT_NAME: Name := [DOT, SPACE, SPACE, SPACE, SPACE, SPACE, SPACE, SPACE, SPACE, SPACE, SPACE]
  const DOTDOT_NAME: Name := [DOT, DOT, SPACE, SPACE, SPACE, SPACE, SPACE, SPACE, SPACE, SPACE, SPACE]

  /** The first cluster of a new directory `c` inside `parent`: "." and ".." and nothing else. */
  ghost predicate FreshDir(secs: seq<Sector>, c: int, parent: int)
    requires 0 <= c < TWO32 && 0 <= parent < TWO32
  {
    && secs != [] && ZeroFrom(secs, 1)
    && SlotAt(secs[0], 0) == MakeSlot(DOT_NAME, ATTR_DIR, c, 0)
    && SlotAt(secs[0], 1) == MakeSlot(DOTDOT_NAME, ATTR_DIR, parent, 0)
    && forall i :: 2 <= i < 16 ==> AllZero(SlotAt(secs[0], i))
  }

  lemma FreshDirSlots(secs: seq<Sector>, c: int, parent: int)
    requires 0 <= c < TWO32 && 0 <= parent < TWO32 && FreshDir(secs, c, parent)
    ensures var ss := SlotsOf(secs);
            Tidy(ss) && UniqueNames(ss) && forall i :: 0 <= i < |ss| ==> !Live(ss[i])
  {
    var ss := SlotsOf(secs);
    assert ss[0] == SlotAt(secs[0], 0) && ss[0][0] == ss[0][..11][0] == DOT;
    assert ss[1] == SlotAt(secs[0], 1) && ss[1][0] == ss[1][..11][0] == DOT;
    forall i | 2 <= i < |ss| ensures ss[i][0] == 0 {
      if i < 16 { assert ss[i] == SlotAt(secs[0], i); } else { assert AllZero(secs[i / 16]); }
    }
    UsedIs(ss, 2);
  }

  function DirSlot(name: Name, first: int): (s: Slot)
    requires 0 <= first < TWO32
    ensures s[..11] == name && First(s) == first && Size(s) == 0 && IsDir(s) && !IsLabel(s) && s[0] == name[0]
  {
    var s := MakeSlot(name, ATTR_DIR, first, 0);
    assert s[0] == s[..11][0];
    s
  }

  /** Getting ready from `v` passed through `w`, which differs only in clusters nobody owned. */
  lemma ReadyRebase(g: Geometry, v: Vol, f: Forest, w: Vol, v1: Vol, f1: Forest, p: int, k: int, name: Name,
                    gone: set<int>, made: set<int>, grown: seq<Slot>)
    requires Sound(g, v, f, 0, 0) && Agree(v, w, f) && Ready(g, w, f, v1, f1, p, k, name, gone, made, grown)
    ensures Ready(g, v, f, v1, f1, p, k, name, gone, made, grown)
  {
    SoundFrame(g, v, w, f, 0, 0);
  }

  /** The new directory's slot is written. */
  lemma FinishDir(g: Geometry, v: Vol, f: Forest, v1: Vol, f1: Forest, p: int, k: int, name: Name,
                  grown: seq<Slot>, c: int, j: int, sx: int, i: int, s: Slot, v2: Vol)
    requires Ready(g, v, f, v1, f1, p, k, name, {}, {}, grown)
    requires 2 <= c < |v1.fat| && v1.fat[c] >= EOC && !Owned(f1, c) && 0 <= p < TWO32 && FreshDir(v1.clus[c], c, p)
    requires Spot(g, v1, f1[p].chain, k, j, sx, i) && Rewritten(g, v1, f1[p].chain[j], sx, i, s, v2)
    requires s == DirSlot(name, c)
    ensures var f2 := Adopted(f1, [c], true, p, k);
            && Changed(g, v, f, v2, f2, p, k, name, s, {}, {c}, grown)
            && OthersSame(v, f, v2, f2, p, name, {})
            && Look(v2, f2, p, name) == (if name[0] == DELETED then None else Some(s))
            && c !in f && c in f2 && f2[c].isDir && FreshDir(Sectors(v2, f2, c), c, p)
            && forall n: Name :: Askable(n) ==> Look(v2, f2, c, n).None?
  {
    hide Sound, SlotsOf;
    SoundDir(g, v1, f1, p, k, p);
    FlatOne(v1.clus, c);
    FreshDirSlots(v1.clus[c], c, p);
    assert p in f1[p].chain && Owned(f1, p);
    UnownedIsNew(v1, f1, c);
    ReadyAdopt(g, v, f, v1, f1, p, k, name, {}, grown, [c], true);
    var f2 := Adopted(f1, [c], true, p, k);
    Commit(g, v, f, v1, f2, p, k, name, {}, {c}, grown, j, sx, i, s, v2);
    ChangedLook(g, v, f, v2, f2, p, k, name, s, {}, {c}, grown, p, name);
    ChangedOthers(g, v, f, v2, f2, p, k, name, s, {}, {c}, grown);
    assert Sectors(v2, f2, c) == v1.clus[c];
    var ss := Slots(v2, f2, c);
    forall n: Name | Askable(n) ensures Lookup(ss, n).None? {
      forall i | 0 <= i < |ss| ensures !Hit(ss[i], n) { assert ss[i][0] == ss[i][..11][0]; }
    }
  }

  // ---- unlink ----------------------------------------------------------------------------------------

  predicate DotLike(s: Slot) { s[0] == DOT && (s[1] == SPACE || (s[1] == DOT && s[2] == SPACE)) }

  /** What the emptiness check of fat.c:540-547 accepts in one slot. */
  predicate Idle(s: Slot) { s[0] == 0 || s[0] == DELETED || DotLike(s) }

  ghost predicate Vacant(ss: seq<Slot>) { forall i :: 0 <= i < |ss| ==> Idle(ss[i]) }

  lemma VacantFindsNothing(ss: seq<Slot>, n: Name)
    requires Vacant(ss) && Askable(n)
    ensures Lookup(ss, n).None?
  {
    forall i | 0 <= i < |ss| ensures !Hit(ss[i], n) { assert ss[i][0] == ss[i][..11][0]; }
  }

  /** The slot is marked deleted: the name finds nothing, the others are as before. */
  lemma FinishUnlink(g: Geometry, v: Vol, f: Forest, v1: Vol, f1: Forest, p: int, k: int, name: Name,
                     gone: set<int>, j: int, sx: int, i: int, s: Slot, v2: Vol)
    requires Ready(g, v, f, v1, f1, p, k, name, gone, {}, [])
    requires Spot(g, v1, f1[p].chain, k, j, sx, i) && Rewritten(g, v1, f1[p].chain[j], sx, i, s, v2)
    requires s[0] == DELETED
    ensures Changed(g, v, f, v2, f1, p, k, name, s, gone, {}, [])
    ensures OthersSame(v, f, v2, f1, p, name, gone)
    ensures Look(v2, f1, p, name) == None
  {
    hide Sound, SlotsOf;
    Commit(g, v, f, v1, f1, p, k, name, gone, {}, [], j, sx, i, s, v2);
    ChangedLook(g, v, f, v2, f1, p, k, name, s, gone, {}, [], p, name);
    ChangedOthers(g, v, f, v2, f1, p, k, name, s, gone, {}, []);
  }

  // ---- the outcome of write_file -----------------------------------------------------------------

  /** The number of clusters that hold `len` bytes. */
  function ClustersFor(g: Geometry, len: int): int
    requires 0 < g.spc
  {
    (len + 512 * g.spc - 1) / (512 * g.spc)
  }

  lemma DivUnique(n: int, b: int, q: int)
    requires 0 < b && b * q <= n < b * q + b
    ensures n / b == q
  {
    var r := n / b;
    assert n == b * r + n % b;
    if r < q { MulMono(r + 1, q, b); }
    if q < r { MulMono(q + 1, r, b); }
  }

  lemma ClustersForChain(g: Geometry, clus: seq<seq<Sector>>, ch: seq<int>, len: int)
    requires 0 < g.spc && Within(|clus|, ch) && forall i :: 0 <= i < |ch| ==> |clus[ch[i]]| == g.spc
    requires 512 * (|Flat(clus, ch)| - g.spc) < len <= 512 * |Flat(clus, ch)|
    ensures |ch| == ClustersFor(g, len)
  {
    FlatLength(clus, ch, g.spc);
    hide Flat;
    RoundedUp(g.spc, |ch|, |Flat(clus, ch)|, len);
  }

  lemma RoundedUp(spc: int, n: int, sectors: int, len: int)
    requires 0 < spc && sectors == n * spc && 512 * (sectors - spc) < len <= 512 * sectors
    ensures (len + 512 * spc - 1) / (512 * spc) == n
  {
    var b := 512 * spc;
    assert 512 * sectors == b * n;
    DivUnique(len + b - 1, b, n);
  }

  lemma ChainSize(g: Geometry, v: Vol, ch: seq<int>, len: int)
    requires Shape(g, v) && (ch == [] <==> len == 0)
    requires ch != [] ==> IsChain(v.fat, ch) && 512 * (|Flat(v.clus, ch)| - g.spc) < len <= 512 * |Flat(v.clus, ch)|
    ensures |ch| == ClustersFor(g, len)
  {
    if ch == [] { DivUnique(512 * g.spc - 1, 512 * g.spc, 0); } else { ClustersForChain(g, v.clus, ch, len); }
  }

  /** A chain that is too short for `len` bytes has fewer clusters than they need. */
  lemma TooFew(g: Geometry, v: Vol, ch: seq<int>, len: int)
    requires Shape(g, v) && (ch != [] ==> IsChain(v.fat, ch)) && Within(|v.clus|, ch) && 512 * |Flat(v.clus, ch)| < len
    ensures |ch| < ClustersFor(g, len)
  {
    FlatLength(v.clus, ch, g.spc);
    var b := 512 * g.spc;
    assert 512 * |Flat(v.clus, ch)| == b * |ch|;
    DivAbove(len, b, |ch|);
  }

  lemma DivAbove(len: int, b: int, n: int)
    requires 0 < b && b * n < len
    ensures n < (len + b - 1) / b
  {
    var q := (len + b - 1) / b;
    assert len + b - 1 < b * q + b;
    if q <= n { MulMono(q, n, b); }
  }

  /** No slot is unused or deleted. */
  ghost predicate Full(ss: seq<Slot>) { Taken(ss, |ss|) }

  /** What replacing entry `e` makes spare: its clusters, but not cluster 2. */
  ghost function Returned(f: Forest, e: Slot): int {
    if First(e) in f then |f[First(e)].chain| - (if 2 in f[First(e)].chain then 1 else 0) else 0
  }

  /** There are clusters for a file of `len` bytes under this name, and for one more slot if need be. */
  ghost predicate Enough(g: Geometry, v: Vol, f: Forest, p: int, name: Name, len: int)
    requires 0 < g.spc && |v.fat| >= 3 && ChainsOk(v, f) && p in f
  {
    match Look(v, f, p, name)
    case Some(e) => ClustersFor(g, len) <= Spare(v.fat) + Returned(f, e)
    case None => ClustersFor(g, len) + (if Full(Slots(v, f, p)) then 1 else 0) <= Spare(v.fat)
  }

  /** The cluster a new name costs beside its data: one more when its directory is full. */
  ghost function ExtraFor(v: Vol, f: Forest, p: int, name: Name): int
    requires ChainsOk(v, f) && p in f
  {
    if Look(v, f, p, name).None? && Full(Slots(v, f, p)) then 1 else 0
  }

  /** Whether the entry's chain uses cluster 2. */
  ghost function TwoOf(f: Forest, e: Option<Slot>): int {
    if e.Some? && First(e.value) in f && 2 in f[First(e.value)].chain then 1 else 0
  }

  /** A call that ran out of clusters has used up all from 3 up, and may have freed cluster 2. */
  ghost predicate Drained(v: Vol, f: Forest, p: int, name: Name, v': Vol)
    requires ChainsOk(v, f) && p in f
  {
    && |v'.fat| == |v.fat| >= 3 && Spare(v'.fat) == 0
    && Low(v'.fat) == Low(v.fat) + TwoOf(f, Look(v, f, p, name))
  }

  /** Data is stored exactly when there are clusters for it. */
  lemma StoredExactly(g: Geometry, v1: Vol, v2: Vol, ch: seq<int>, len: int, ok: bool)
    requires Shape(g, v1) && Shape(g, v2) && |v1.fat| >= 3 && Untouched(v1, v2, ch)
    requires Zeros(v2.fat) == Zeros(v1.fat) - |ch|
    requires ok ==> |ch| == ClustersFor(g, len)
    requires !ok ==> |ch| < ClustersFor(g, len) && forall x :: 3 <= x < |v2.fat| ==> v2.fat[x] != 0
    ensures ok <==> ClustersFor(g, len) <= Spare(v1.fat)
    ensures !ok ==> Spare(v2.fat) == 0 && Low(v2.fat) == Low(v1.fat)
  {
    hide Zeros, ClustersFor, Low;
    SpareTouched(v1, v2, ch);
    LowZeros(v2.fat);
  }

  lemma EnoughOld(g: Geometry, v: Vol, f: Forest, p: int, k: int, name: Name, e: Slot, v1: Vol, len: int)
    requires Sound(g, v, f, 0, 0) && p in f && f[p].isDir && |v.fat| >= 3 && Look(v, f, p, name) == Some(e)
    requires RefOk(f, p, k, e) && Live(e)
    requires if First(e) < 2 then v1 == v else WalkInRange(v.fat, First(e)) && v1 == Vol(Freed(v.fat, First(e)), v.clus)
    ensures |v1.fat| >= 3 && (Enough(g, v, f, p, name, len) <==> ClustersFor(g, len) <= Spare(v1.fat))
    ensures Low(v1.fat) == Low(v.fat) + TwoOf(f, Some(e))
  {
    hide ClustersFor, SlotsOf, Look, Low;
    if First(e) < 2 { NoHeadBelowTwo(v, f, First(e)); } else { SpareFreed(v.fat, f[First(e)].chain); }
  }

  lemma EnoughNew(g: Geometry, v: Vol, f: Forest, p: int, name: Name, nc: int, v1: Vol, len: int)
    requires Sound(g, v, f, 0, 0) && p in f && f[p].isDir && |v.fat| >= 3 && Look(v, f, p, name).None?
    requires if nc == 0 then v1 == v && !Full(Slots(v, f, p))
             else Full(Slots(v, f, p)) && Extended(g, v, f[p].chain[|f[p].chain| - 1], nc, v1)
    ensures |v1.fat| >= 3 && (Enough(g, v, f, p, name, len) <==> ClustersFor(g, len) <= Spare(v1.fat))
    ensures Low(v1.fat) == Low(v.fat) && ExtraFor(v, f, p, name) == if nc == 0 then 0 else 1
  {
    hide ClustersFor, SlotsOf, Look, Full, Zeros, Low;
    if nc != 0 { SpareExtended(g, v, f, p, nc, v1); }
  }

  lemma SpareExtended(g: Geometry, v: Vol, f: Forest, p: int, nc: int, v1: Vol)
    requires ChainsOk(v, f) && p in f && |v.fat| >= 3 && Extended(g, v, f[p].chain[|f[p].chain| - 1], nc, v1)
    ensures |v1.fat| == |v.fat| && Spare(v1.fat) == Spare(v.fat) - 1 && Low(v1.fat) == Low(v.fat)
  {
    var last := f[p].chain[|f[p].chain| - 1];
    ChainNonzero(v.fat, f[p].chain, last);
    ZerosUpdate(v.fat, nc, 0x0FFF_FFFF);
    ZerosUpdate(v.fat[nc := 0x0FFF_FFFF], last, nc);
  }

  /** How many clusters the entry `e` owns. */
  ghost function Holding(f: Forest, e: Option<Slot>): int {
    if e.Some? && First(e.value) in f then |f[First(e.value)].chain| else 0
  }

  /** Entry `name` of directory `p` now is the file `data`, nothing else that a path can name has
      changed, and the free clusters are accounted for.  A name that starts with the deleted mark is
      the exception: nothing finds it. */
  ghost predicate Written(g: Geometry, v: Vol, f: Forest, v': Vol, f': Forest, p: int, name: Name, data: seq<Byte>,
                          extra: int) {
    && Sound(g, v, f, 0, 0) && Sound(g, v', f', 0, 0) && p in f && p in f'
    && OthersSame(v, f, v', f', p, name, {}) && |data| < TWO32
    && (if name[0] == DELETED then Look(v', f', p, name).None?
        else && Look(v', f', p, name).Some?
             && var s := Look(v', f', p, name).value;
                s == FileSlot(name, First(s), |data|) && FileBytes(v', f', s) == data)
    && extra == ExtraFor(v, f, p, name)
    && Zeros(v'.fat) == Zeros(v.fat) + Holding(f, Look(v, f, p, name)) - ClustersFor(g, |data|) - extra
    && forall h :: h in f && f[h].isDir ==> h in f' && f'[h].isDir
  }

  lemma OthersWiden(v: Vol, f: Forest, v1: Vol, f1: Forest, p: int, name: Name, gone: set<int>)
    requires ChainsOk(v, f) && ChainsOk(v1, f1) && OthersSame(v, f, v1, f1, p, name, gone)
    requires forall h :: h in gone ==> h in f && !f[h].isDir
    ensures OthersSame(v, f, v1, f1, p, name, {})
  {
  }

  // ---- the paths through write_file -----------------------------------------------------------------

  ghost function MaybeGrown(f: Forest, p: int, nc: int): Forest
    requires p in f
  {
    if nc == 0 then f else Grown(f, p, nc)
  }

  /** A slot has been found for a new name: the volume is ready. */
  lemma NewReady(g: Geometry, v: Vol, f: Forest, p: int, nc: int, v1: Vol, k: int, name: Name)
    returns (grown: seq<Slot>)
    requires Sound(g, v, f, 0, 0) && p in f && f[p].isDir && Askable(name) && Look(v, f, p, name).None?
    requires if nc == 0 then v1 == v else Extended(g, v, f[p].chain[|f[p].chain| - 1], nc, v1)
    requires Within(|v1.clus|, MaybeGrown(f, p, nc)[p].chain)
    requires FirstFree(SlotsOf(Flat(v1.clus, MaybeGrown(f, p, nc)[p].chain)), k)
    ensures var f1 := MaybeGrown(f, p, nc);
            && Ready(g, v, f, v1, f1, p, k, name, {}, {}, grown) && ChainsOk(v1, f1) && p in f1
            && 0 <= k < |Slots(v1, f1, p)| && !Live(Slots(v1, f1, p)[k])
            && Zeros(v1.fat) == Zeros(v.fat) - (if nc == 0 then 0 else 1)
  {
    hide Sound, SlotsOf;
    var f1 := MaybeGrown(f, p, nc);
    if nc == 0 { GrewByNone(g, v, f, p); } else { GrewByOne(g, v, f, p, nc, v1); }
    GrewSound(g, v, f, v1, f1, p, if nc == 0 then 0 else 1);
    SoundDir(g, v1, f1, 0, 0, p);
    ReadyNew(g, v, f, v1, f1, p, k, name, if nc == 0 then 0 else 1);
    grown := Slots(v1, f1, p)[|Slots(v, f, p)|..];
  }

  lemma AbortNewData(g: Geometry, v: Vol, f: Forest, v1: Vol, f1: Forest, p: int, k: int, name: Name, grown: seq<Slot>,
                     v2: Vol, ch: seq<int>)
    requires Ready(g, v, f, v1, f1, p, k, name, {}, {}, grown) && !Live(Slots(v1, f1, p)[k])
    requires Shape(g, v2) && Untouched(v1, v2, ch)
    ensures Sound(g, v2, f1, 0, 0) && OthersSame(v, f, v2, f1, p, name, {})
    ensures Look(v2, f1, p, name) == Look(v, f, p, name)
  {
    hide Sound, SlotsOf;
    SoundDir(g, v1, f1, p, k, p);
    UntouchedAgrees(v1, v2, f1, ch);
    ReadyFrame(g, v, f, v1, f1, p, k, name, {}, grown, v2);
    SoundFrame(g, v1, v2, f1, p, k);
    AbortNew(g, v, f, v2, f1, p, k, name, grown);
    LookupGrown(Slots(v, f, p), grown, name);
  }

  /** Replacing a file: its chain, if any, is freed and the volume is ready. */
  lemma OldReady(g: Geometry, v: Vol, f: Forest, p: int, k: int, name: Name, e: Slot)
    requires Sound(g, v, f, 0, 0) && p in f && f[p].isDir && Askable(name)
    requires k == Find(Slots(v, f, p), name, 0) >= 0 && e == Slots(v, f, p)[k]
    ensures var gone := if First(e) < 2 then {} else {First(e)};
            var v1 := if First(e) < 2 then v else Vol(Freed(v.fat, First(e)), v.clus);
            && Ready(g, v, f, v1, f - gone, p, k, name, gone, {}, [])
            && Slots(v1, f - gone, p)[k] == e && (f - gone)[p] == f[p] && gone <= f.Keys
            && Zeros(v1.fat) == Zeros(v.fat) + Holding(f, Some(e))
            && (forall h :: h in gone ==> f[h].isDir == IsDir(e) && h < |v1.fat| && h != g.root && v1.fat[h] == 0)
            && Look(v, f, p, name) == Some(e) && RefOk(f, p, k, e)
    ensures First(e) >= 2 ==> First(e) in f && IsChain(v.fat, f[First(e)].chain) && f[First(e)].chain[0] == First(e)
                              && WalkInRange(v.fat, First(e))
  {
    LookSound(g, v, f, p, name, k);
    var h := First(e);
    var v1 := if h < 2 then v else Vol(Freed(v.fat, h), v.clus);
    ReadyOld(g, v, f, p, k, name, v1);
    SoundDir(g, v, f, 0, 0, p);
    if h >= 2 {
      ChainWalks(v.fat, f[h].chain);
      FreedChain(v.fat, f[h].chain);
      assert h == f[h].chain[0] && h in f[h].chain;
    } else {
      NoHeadBelowTwo(v, f, h);
    }
  }

  lemma NoHeadBelowTwo(v: Vol, f: Forest, h: int)
    requires ChainsOk(v, f) && h < 2
    ensures h !in f
  {
    assert forall x :: x in f ==> f[x].chain[0] >= 2;
  }

  /** Out of clusters while replacing an empty file. */
  lemma AbortEmpty(g: Geometry, v: Vol, f: Forest, p: int, k: int, name: Name, v2: Vol, ch: seq<int>)
    requires Ready(g, v, f, v, f, p, k, name, {}, {}, [])
    requires Shape(g, v2) && Untouched(v, v2, ch)
    ensures Sound(g, v2, f, 0, 0) && OthersSame(v, f, v2, f, p, name, {})
  {
    hide SlotsOf;
    SoundDir(g, v, f, p, k, p);
    UntouchedAgrees(v, v2, f, ch);
    SoundFrame(g, v, v2, f, 0, 0);
    ReadyFrame(g, v, f, v, f, p, k, name, {}, [], v2);
    hide Sound;
    KeptOthers(g, v, f, v2, f, p, k, name, {}, {}, []);
  }

  /** A replaced file that began at cluster 2: the volume stays as it is but for that slot. */
  lemma AbortSecond(g: Geometry, v: Vol, f: Forest, v1: Vol, f1: Forest, p: int, k: int, name: Name, gone: set<int>,
                    v2: Vol, ch: seq<int>)
    requires Ready(g, v, f, v1, f1, p, k, name, gone, {}, [])
    requires Shape(g, v2) && Untouched(v1, v2, ch)
    ensures Sound(g, v2, f1, p, k) && OthersSame(v, f, v2, f1, p, name, gone)
    ensures 0 <= k < |Slots(v2, f1, p)| && Slots(v2, f1, p)[k] == Slots(v1, f1, p)[k]
  {
    hide Sound, SlotsOf;
    SoundDir(g, v1, f1, p, k, p);
    UntouchedAgrees(v1, v2, f1, ch);
    ReadyFrame(g, v, f, v1, f1, p, k, name, gone, [], v2);
    SoundFrame(g, v1, v2, f1, p, k);
    KeptOthers(g, v, f, v2, f1, p, k, name, gone, {}, []);
  }

  lemma WrittenFrom(g: Geometry, v: Vol, f: Forest, v': Vol, f': Forest, p: int, k: int, name: Name, s: Slot,
                    gone: set<int>, ch: seq<int>, grown: seq<Slot>, data: seq<Byte>, extra: int)
    requires Changed(g, v, f, v', f', p, k, name, s, gone, Made(ch), grown) && |data| < TWO32
    requires OthersSame(v, f, v', f', p, name, gone) && forall h :: h in gone ==> h in f && !f[h].isDir
    requires s == FileSlot(name, First(s), |data|) && FileBytes(v', f', s) == data
    requires Look(v', f', p, name) == if name[0] == DELETED then None else Some(s)
    requires extra == ExtraFor(v, f, p, name)
    requires Zeros(v'.fat) == Zeros(v.fat) + Holding(f, Look(v, f, p, name)) - ClustersFor(g, |data|) - extra
    ensures Written(g, v, f, v', f', p, name, data, extra)
  {
    hide Sound, SlotsOf;
    OthersWiden(v, f, v', f', p, name, gone);
  }

  lemma SameOthers(v: Vol, f: Forest, p: int, name: Name)
    requires ChainsOk(v, f)
    ensures OthersSame(v, f, v, f, p, name, {})
  {
  }

  lemma AtChain(g: Geometry, v: Vol, ch: seq<int>, k: int, j: int, s: int, lba: int, off: int)
    requires At(g, v, ch, k, j, s, lba, off)
    ensures IsChain(v.fat, ch) && Within(|v.clus|, ch)
  {
  }

  lemma WrittenSound(g: Geometry, v: Vol, f: Forest, v': Vol, f': Forest, p: int, name: Name, data: seq<Byte>,
                     extra: int)
    requires Written(g, v, f, v', f', p, name, data, extra)
    ensures Sound(g, v', f', 0, 0) && ChainsOk(v', f') && p in f'
    ensures forall h :: h in f && f[h].isDir ==> h in f' && f'[h].isDir
  {
  }

  lemma AtFrame(g: Geometry, v: Vol, v': Vol, ch: seq<int>, k: int, j: int, s: int, lba: int, off: int)
    requires At(g, v, ch, k, j, s, lba, off) && v'.clus == v.clus && IsChain(v'.fat, ch)
    ensures At(g, v', ch, k, j, s, lba, off)
  {
  }

  /** The three ways of running out of clusters while replacing the file `e`. */
  lemma WriteAborted(g: Geometry, v: Vol, f: Forest, v1: Vol, f1: Forest, p: int, k: int, name: Name, e: Slot,
                     v2: Vol, ch: seq<int>) returns (f2: Forest)
    requires First(e) < 2 ==> v1 == v && f1 == f
    requires Ready(g, v, f, v1, f1, p, k, name, if First(e) < 2 then {} else {First(e)}, {}, [])
    requires 0 <= k < |Slots(v1, f1, p)| && Slots(v1, f1, p)[k] == e && !IsDir(e)
    requires First(e) >= 2 ==> First(e) in f && !f[First(e)].isDir && First(e) < |v1.fat| && v1.fat[First(e)] == 0
    requires Shape(g, v2) && Untouched(v1, v2, ch) && (ch != [] ==> IsChain(v2.fat, ch))
    requires forall x :: 3 <= x < |v2.fat| ==> v2.fat[x] != 0
    ensures ChainsOk(v2, f2) && OthersSame(v, f, v2, f2, p, name, {})
    ensures First(e) != 2 ==> Sound(g, v2, f2, 0, 0)
    ensures First(e) == 2 ==>
              v2.fat[2] == 0 && p in f2 && f2[p].isDir && 0 <= k < |Slots(v2, f2, p)| && Slots(v2, f2, p)[k] == e
  {
    hide Sound, SlotsOf, OthersSame;
    var h := First(e);
    ReadyParent(g, v, f, v1, f1, p, k, name, if h < 2 then {} else {h}, {}, []);
    hide Ready;
    if h < 2 {
      AbortEmpty(g, v, f, p, k, name, v2, ch);
      f2 := f;
      SoundDir(g, v2, f2, 0, 0, p);
    } else if h == 2 {
      AbortSecond(g, v, f, v1, f1, p, k, name, {h}, v2, ch);
      f2 := f1;
      SoundDir(g, v2, f2, p, k, p);
      OthersWiden(v, f, v2, f2, p, name, {h});
      assert 2 !in ch;
    } else {
      f2 := AbortOld(g, v, f, v1, f1, p, k, name, h, v2, ch);
      assert p in f2 && f2[p].isDir by { if p != h { assert f2[p] == f1[p]; } }
      SoundDir(g, v2, f2, 0, 0, p);
      OthersWiden(v, f, v2, f2, p, name, {h});
    }
  }

  /** Some slot of directory `p` names cluster 2, which is free. */
  ghost predicate Dangling(v: Vol, f: Forest, p: int) {
    && 2 < |v.fat| && v.fat[2] == 0 && ChainsOk(v, f) && p in f && f[p].isDir
    && exists k :: 0 <= k < |Slots(v, f, p)| && Live(Slots(v, f, p)[k]) && First(Slots(v, f, p)[k]) == 2
  }

  /** The volume is then not sound, for no way of accounting for its chains that has `p` as a directory. */
  lemma DanglingIsUnsound(g: Geometry, v: Vol, f: Forest, p: int, f': Forest)
    requires Dangling(v, f, p) && p in f' && f'[p].isDir
    ensures !Sound(g, v, f', 0, 0)
  {
    if Sound(g, v, f', 0, 0) {
      ChainUnique(v.fat, f[p].chain, f'[p].chain);
      var k :| 0 <= k < |Slots(v, f, p)| && Live(Slots(v, f, p)[k]) && First(Slots(v, f, p)[k]) == 2;
      assert Slots(v, f', p) == Slots(v, f, p);
      assert DirOk(f', p, Slots(v, f', p), 0, 0);
      assert p == f'[p].chain[0] >= 2;
      assert RefOk(f', p, k, Slots(v, f', p)[k]);
      ChainNonzero(v.fat, f'[2].chain, 2);
    }
  }

  /** Every sound volume has its root as a directory, so a dangling entry there cannot be explained at all. */
  lemma DanglingRoot(g: Geometry, v: Vol, f: Forest)
    requires Dangling(v, f, g.root)
    ensures forall f' :: !Sound(g, v, f', 0, 0)
  {
    forall f' ensures !Sound(g, v, f', 0, 0) {
      if Sound(g, v, f', 0, 0) {
        SoundRoot(g, v, f', 0, 0);
        DanglingIsUnsound(g, v, f, g.root, f');
      }
    }
  }

  lemma StillDangling(g: Geometry, v: Vol, f: Forest, v': Vol, f': Forest, p: int, k: int, name: Name, e: Slot)
    requires Sound(g, v, f, 0, 0) && p in f && f[p].isDir && Askable(name)
    requires k == Find(Slots(v, f, p), name, 0) >= 0 && e == Slots(v, f, p)[k] && First(e) == 2
    requires Shape(g, v') && 2 < |v'.fat| && v'.fat[2] == 0 && ChainsOk(v', f') && p in f' && f'[p].isDir
    requires 0 <= k < |Slots(v', f', p)| && Slots(v', f', p)[k] == e
    ensures Dangling(v', f', p) && !Sound(g, v', f', 0, 0)
  {
    LookSound(g, v, f, p, name, k);
    DanglingIsUnsound(g, v', f', p, f');
  }

  lemma StillThere(v: Vol, f: Forest, v': Vol, f': Forest, p: int, name: Name, gone: set<int>, h: int)
    requires ChainsOk(v, f) && ChainsOk(v', f') && OthersSame(v, f, v', f', p, name, gone) && h in f && f[h].isDir
    requires h !in gone
    ensures h in f' && f'[h].isDir
  {
    var n: Name := name[0 := if name[0] == SPACE then 1 else SPACE];
    assert n[0] != name[0];
    var found := Look(v, f, h, n);
  }

  // ---- the path through mkdir -----------------------------------------------------------------------

  /** `w` is `v` after fat.c:396-418: cluster `c` claimed and filled with "." and "..". */
  ghost predicate Prepared(g: Geometry, v: Vol, c: int, p: int, w: Vol) {
    && 3 <= c < |v.fat| == |v.clus| && c < TWO32 && 0 <= p < TWO32 && v.fat[c] == 0
    && w.fat == v.fat[c := 0x0FFF_FFFF] && |w.clus| == |v.clus|
    && (forall x :: 0 <= x < |v.clus| && x != c ==> w.clus[x] == v.clus[x])
    && |w.clus[c]| == g.spc && FreshDir(w.clus[c], c, p)
  }

  lemma PreparedSound(g: Geometry, v: Vol, f: Forest, c: int, p: int, w: Vol, name: Name)
    requires Sound(g, v, f, 0, 0) && p in f && f[p].isDir && Prepared(g, v, c, p, w)
    ensures Sound(g, w, f, 0, 0) && Agree(v, w, f) && !Owned(f, c) && OthersSame(v, f, w, f, p, name, {})
    ensures Look(w, f, p, name) == Look(v, f, p, name) && Slots(w, f, p) == Slots(v, f, p)
    ensures Zeros(w.fat) == Zeros(v.fat) - 1
  {
    SoundDir(g, v, f, 0, 0, p);
    FreeIsUnowned(v, f, c);
    ClaimAgrees(g, v, f, c, w);
    SoundFrame(g, v, w, f, 0, 0);
    ZerosUpdate(v.fat, c, 0x0FFF_FFFF);
  }

  /** There is a cluster for a directory under `p`, and one for its slot if need be. */
  ghost predicate EnoughDir(v: Vol, f: Forest, p: int)
    requires |v.fat| >= 3 && ChainsOk(v, f) && p in f
  {
    1 + (if Full(Slots(v, f, p)) then 1 else 0) <= Spare(v.fat)
  }

  /** A directory is made exactly when there are clusters for it. */
  lemma MadeExactly(g: Geometry, v: Vol, f: Forest, c: int, p: int, w: Vol, name: Name, ok: bool, k: int, nc: int,
                    v1: Vol)
    requires Sound(g, v, f, 0, 0) && p in f && f[p].isDir && |v.fat| >= 3 && Prepared(g, v, c, p, w) && ChainsOk(w, f)
    requires if ok && nc == 0 then FirstFree(Slots(w, f, p), k) else Taken(Slots(w, f, p), 16 * |Sectors(w, f, p)|)
    requires ok && nc != 0 ==> Extended(g, w, f[p].chain[|f[p].chain| - 1], nc, v1)
    requires !ok ==> forall x :: 3 <= x < |w.fat| ==> w.fat[x] != 0
    ensures ok <==> EnoughDir(v, f, p)
    ensures if ok then nc != 0 <==> Full(Slots(v, f, p))
            else |w.fat| >= 3 && Spare(w.fat) == 0 && Low(w.fat) == Low(v.fat)
  {
    PreparedSound(g, v, f, c, p, w, name);
    PreparedLow(g, v, c, p, w);
    hide Sound, Zeros, Low, OthersSame, Prepared, Extended;
    if ok && nc != 0 { SpareExtended(g, w, f, p, nc, v1); }
    LowZeros(w.fat);
  }

  lemma PreparedLow(g: Geometry, v: Vol, c: int, p: int, w: Vol)
    requires Prepared(g, v, c, p, w)
    ensures |w.fat| == |v.fat| >= 3 && Low(w.fat) == Low(v.fat)
  {
  }

  /** The new directory is on disk and its slot's place is known. */
  lemma DirReady(g: Geometry, v: Vol, f: Forest, p: int, c: int, w: Vol, nc: int, v1: Vol, k: int, name: Name)
    returns (grown: seq<Slot>)
    requires Sound(g, v, f, 0, 0) && p in f && f[p].isDir && Askable(name) && Look(v, f, p, name).None?
    requires Prepared(g, v, c, p, w)
    requires if nc == 0 then v1 == w else Extended(g, w, f[p].chain[|f[p].chain| - 1], nc, v1)
    requires Within(|v1.clus|, MaybeGrown(f, p, nc)[p].chain)
    requires FirstFree(SlotsOf(Flat(v1.clus, MaybeGrown(f, p, nc)[p].chain)), k)
    ensures var f1 := MaybeGrown(f, p, nc);
            && Ready(g, v, f, v1, f1, p, k, name, {}, {}, grown)
            && c < |v1.fat| == |v1.clus| && v1.fat[c] >= EOC && !Owned(f1, c) && FreshDir(v1.clus[c], c, p)
            && Zeros(v1.fat) == Zeros(v.fat) - 1 - (if nc == 0 then 0 else 1)
  {
    hide Sound, SlotsOf, OthersSame;
    PreparedSound(g, v, f, c, p, w, name);
    SoundDir(g, w, f, 0, 0, p);
    grown := NewReady(g, w, f, p, nc, v1, k, name);
    ReadyRebase(g, v, f, w, v1, MaybeGrown(f, p, nc), p, k, name, {}, {}, grown);
    if nc != 0 {
      assert f[p].chain[|f[p].chain| - 1] in f[p].chain;
      assert c != nc && c != f[p].chain[|f[p].chain| - 1];
    }
  }

  /** Directory `p` has the new empty directory `c` under `name`; nothing else has changed. */
  ghost predicate MadeDir(g: Geometry, v: Vol, f: Forest, v': Vol, f': Forest, p: int, name: Name, c: int, extra: int) {
    && Sound(g, v, f, 0, 0) && Sound(g, v', f', 0, 0) && p in f && p in f' && 0 <= p < TWO32 && 0 <= c < TWO32
    && OthersSame(v, f, v', f', p, name, {})
    && c !in f && c in f' && f'[c].isDir && FreshDir(Sectors(v', f', c), c, p)
    && f'.Keys == f.Keys + {c} && f'[c].chain == [c]
    && (forall n: Name :: Askable(n) ==> Look(v', f', c, n).None?)
    && Look(v', f', p, name) == (if name[0] == DELETED then None else Some(DirSlot(name, c)))
    && extra == (if Full(Slots(v, f, p)) then 1 else 0) && Zeros(v'.fat) == Zeros(v.fat) - 1 - extra
    && forall h :: h in f && f[h].isDir ==> h in f' && f'[h].isDir
  }

  lemma MadeDirFrom(g: Geometry, v: Vol, f: Forest, v1: Vol, f1: Forest, p: int, k: int, name: Name,
                    grown: seq<Slot>, c: int, j: int, sx: int, i: int, s: Slot, v2: Vol, extra: int)
    requires Ready(g, v, f, v1, f1, p, k, name, {}, {}, grown) && c < TWO32
    requires 2 <= c < |v1.fat| && v1.fat[c] >= EOC && !Owned(f1, c) && 0 <= p < TWO32 && FreshDir(v1.clus[c], c, p)
    requires Spot(g, v1, f1[p].chain, k, j, sx, i) && Rewritten(g, v1, f1[p].chain[j], sx, i, s, v2)
    requires s == DirSlot(name, c) && Zeros(v1.fat) == Zeros(v.fat) - 1 - extra
    requires ChainsOk(v, f) && p in f && extra == if Full(Slots(v, f, p)) then 1 else 0
    ensures MadeDir(g, v, f, v2, Adopted(f1, [c], true, p, k), p, name, c, extra)
    ensures Sound(g, v2, Adopted(f1, [c], true, p, k), 0, 0)
  {
    hide Sound, SlotsOf, OthersSame, FreshDir;
    FinishDir(g, v, f, v1, f1, p, k, name, grown, c, j, sx, i, s, v2);
  }

  lemma MadeDirSound(g: Geometry, v: Vol, f: Forest, v': Vol, f': Forest, p: int, name: Name, c: int, extra: int)
    requires MadeDir(g, v, f, v', f', p, name, c, extra)
    ensures Sound(g, v', f', 0, 0) && ChainsOk(v', f') && p in f'
    ensures forall h :: h in f && f[h].isDir ==> h in f' && f'[h].isDir
  {
  }

  // ---- the path through unlink ------------------------------------------------------------------------

  ghost function Gone(e: Slot): set<int> { if First(e) < 2 then {} else {First(e)} }

  /** Entry `e`, found under `name` in directory `p`, is gone with its chain; a directory among the
      removed was empty. */
  ghost predicate Unlinked(g: Geometry, v: Vol, f: Forest, v': Vol, f': Forest, p: int, name: Name, e: Slot) {
    && Sound(g, v, f, 0, 0) && Sound(g, v', f', 0, 0) && p in f && p in f'
    && Look(v, f, p, name) == Some(e) && f'.Keys == f.Keys - Gone(e)
    && OthersSame(v, f, v', f', p, name, Gone(e))
    && Look(v', f', p, name).None?
    && Zeros(v'.fat) == Zeros(v.fat) + Holding(f, Some(e))
    && (IsDir(e) ==> First(e) in f && forall n: Name :: Askable(n) ==> Look(v, f, First(e), n).None?)
    && (forall h :: h in f && f[h].isDir && h !in Gone(e) ==> h in f' && f'[h].isDir)
  }

  lemma UnlinkedFrom(g: Geometry, v: Vol, f: Forest, v1: Vol, p: int, k: int, name: Name, e: Slot,
                     j: int, sx: int, i: int, v2: Vol)
    requires Sound(g, v, f, 0, 0) && p in f && f[p].isDir && Askable(name)
    requires k == Find(Slots(v, f, p), name, 0) >= 0 && e == Slots(v, f, p)[k]
    requires v1 == if First(e) < 2 then v else Vol(Freed(v.fat, First(e)), v.clus)
    requires IsDir(e) ==> First(e) in f && Vacant(Slots(v, f, First(e)))
    requires Spot(g, v1, f[p].chain, k, j, sx, i) && Rewritten(g, v1, f[p].chain[j], sx, i, e[0 := DELETED], v2)
    ensures Unlinked(g, v, f, v2, f - Gone(e), p, name, e)
  {
    hide Sound, SlotsOf, OthersSame, Freed;
    OldReady(g, v, f, p, k, name, e);
    FinishUnlink(g, v, f, v1, f - Gone(e), p, k, name, Gone(e), j, sx, i, e[0 := DELETED], v2);
    if IsDir(e) {
      forall n: Name | Askable(n) ensures Look(v, f, First(e), n).None? {
        VacantFindsNothing(Slots(v, f, First(e)), n);
      }
    }
  }

  lemma UnlinkedSound(g: Geometry, v: Vol, f: Forest, v': Vol, f': Forest, p: int, name: Name, e: Slot)
    requires Unlinked(g, v, f, v', f', p, name, e)
    ensures Sound(g, v', f', 0, 0) && f'.Keys == f.Keys - Gone(e)
    ensures forall h :: h in f && f[h].isDir && h !in Gone(e) ==> h in f' && f'[h].isDir
  {
  }

  /** The slot at a spot is what the spot's sector holds there. */
  lemma SlotOnDisk(g: Geometry, v: Vol, ch: seq<int>, k: int, j: int, s: int, i: int)
    requires Within(|v.clus|, ch) && Spot(g, v, ch, k, j, s, i) && |v.clus[ch[j]]| == g.spc
    ensures k < 16 * |Flat(v.clus, ch)| && SlotsOf(Flat(v.clus, ch))[k] == SlotAt(v.clus[ch[j]][s], i)
  {
    FlatWindow(v.clus, ch, j);
    var b := |Flat(v.clus, ch[..j])|;
    assert Flat(v.clus, ch)[b + s] == Flat(v.clus, ch)[b..b + g.spc][s];
    assert k / 16 == b + s && k % 16 == i;
  }

  /** The directory that a whole path names, if it names one. */
  ghost function DirTarget(g: Geometry, v: Vol, f: Forest, cwd: int, path: seq<Byte>): Option<int>
    requires ChainsOk(v, f) && cwd in f && g.root in f
  {
    match Resolve(g, v, f, cwd, path)
    case None => None
    case Some((p, last)) =>
      if last == [] then Some(p) else if p !in f then None
      else match Look(v, f, p, Name83(last))
        case None => None
        case Some(e) => if IsDir(e) then Some(First(e)) else None
  }
}
