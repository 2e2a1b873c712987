/**
  What one operation on entry `name` of directory `p` does to the volume, from its first write
  to its last: `Ready` describes the volume once the slot of the entry is the only thing left to
  write, `Changed` the volume afterwards, and `OthersSame` what every other name still sees.
*/
module FatEffect {
  import opened Bytes
  import opened FatVolume
  import opened FatDir
  import opened FatChain
  import opened FatForest
  import opened FatPath

  /** The bytes fat_read_file delivers for a file slot. */
  ghost function FileBytes(v: Vol, f: Forest, e: Slot): seq<Byte>
    requires ChainsOk(v, f)
  {
    if First(e) < 2 || First(e) !in f then [] else
    Prefix(Data(Sectors(v, f, First(e))), Size(e))
  }

  /** How the forest and the sectors of everything but `p` relate before and after: the chains in
      `gone` are given up, those in `made` are new. */
  ghost predicate Kept(v: Vol, f: Forest, v1: Vol, f1: Forest, p: int, gone: set<int>, made: set<int>) {
    && ChainsOk(v, f) && ChainsOk(v1, f1)
    && p in f && p in f1 && p !in gone && f[p].isDir && f1[p] == f[p].(chain := f1[p].chain)
    && gone <= f.Keys && f1.Keys == f.Keys - gone + made && made !! (f.Keys - gone)
    && forall h :: h in f && h !in gone && h != p ==> f1[h] == f[h] && Sectors(v1, f1, h) == Sectors(v, f, h)
  }

  ghost predicate OnlyOwner(f: Forest, p: int, k: int, gone: set<int>) {
    forall h :: h in gone ==> h in f && f[h].dir == p && f[h].slot == k
  }

  /** Slot `k` of `p` is where `name` is or may go. */
  ghost predicate Fits(ss: seq<Slot>, k: int, name: Name) {
    && 0 <= k < |ss|
    && (forall i :: 0 <= i < k ==> ss[i][0] != 0)
    && (forall i :: 0 <= i < |ss| && i != k ==> !Hit(ss[i], name))
    && (ss[k][0] == 0 || ss[k][0] == DELETED || Hit(ss[k], name))
  }

  ghost predicate Ready(g: Geometry, v: Vol, f: Forest, v1: Vol, f1: Forest, p: int, k: int, name: Name,
                        gone: set<int>, made: set<int>, grown: seq<Slot>)
  {
    && Sound(g, v, f, 0, 0) && Sound(g, v1, f1, p, k) && Askable(name)
    && Kept(v, f, v1, f1, p, gone, made) && OnlyOwner(f, p, k, gone)
    && AllUnused(grown) && Slots(v1, f1, p) == Slots(v, f, p) + grown
    && Fits(Slots(v1, f1, p), k, name)
  }

  ghost predicate Changed(g: Geometry, v: Vol, f: Forest, v1: Vol, f1: Forest, p: int, k: int, name: Name, s: Slot,
                          gone: set<int>, made: set<int>, grown: seq<Slot>)
  {
    && Sound(g, v, f, 0, 0) && Sound(g, v1, f1, 0, 0) && Askable(name)
    && Kept(v, f, v1, f1, p, gone, made) && OnlyOwner(f, p, k, gone)
    && AllUnused(grown) && Fits(Slots(v, f, p) + grown, k, name)
    && s[0] != 0 && (Live(s) ==> s[..11] == name)
    && Slots(v1, f1, p) == (Slots(v, f, p) + grown)[k := s]
  }

  lemma ReadyParent(g: Geometry, v: Vol, f: Forest, v1: Vol, f1: Forest, p: int, k: int, name: Name,
                    gone: set<int>, made: set<int>, grown: seq<Slot>)
    requires Ready(g, v, f, v1, f1, p, k, name, gone, made, grown)
    ensures ChainsOk(v, f) && ChainsOk(v1, f1) && p in f1 && f1[p].isDir && p in f
    ensures IsChain(v1.fat, f1[p].chain)
  {
  }

  // ---- getting ready -------------------------------------------------------------------------------

  lemma Exempt(g: Geometry, v: Vol, f: Forest, p: int, k: int)
    requires Sound(g, v, f, 0, 0)
    ensures Sound(g, v, f, p, k)
  {
    forall h | h in f && f[h].isDir ensures DirOk(f, h, Slots(v, f, h), p, k) {
      assert DirOk(f, h, Slots(v, f, h), 0, 0);
      assert h == f[h].chain[0] >= 2;
    }
  }

  /** The name was not there: its slot is the first free one of a directory that may have grown. */
  lemma ReadyNew(g: Geometry, v: Vol, f: Forest, v1: Vol, f1: Forest, p: int, k: int, name: Name, extra: int)
    requires Grew(g, v, f, v1, f1, p, extra) && f[p].isDir && Askable(name)
    requires Look(v, f, p, name).None?
    requires FirstFree(Slots(v1, f1, p), k)
    ensures Ready(g, v, f, v1, f1, p, k, name, {}, {}, Slots(v1, f1, p)[|Slots(v, f, p)|..])
  {
    GrewKept(g, v, f, v1, f1, p, extra);
    assert Look(v, f, p, name) == Lookup(Slots(v, f, p), name);
    hide Grew, Kept, Fits, Sound, SlotsOf, Lookup, Look, FirstFree, AllUnused, ChainsOk;
    Exempt(g, v1, f1, p, k);
    FreeFits(Slots(v, f, p), Slots(v1, f1, p), k, name);
  }

  lemma GrewKept(g: Geometry, v: Vol, f: Forest, v1: Vol, f1: Forest, p: int, extra: int)
    requires Grew(g, v, f, v1, f1, p, extra) && f[p].isDir
    ensures Kept(v, f, v1, f1, p, {}, {}) && Sound(g, v, f, 0, 0) && Sound(g, v1, f1, 0, 0)
    ensures Slots(v, f, p) <= Slots(v1, f1, p) && AllUnused(Slots(v1, f1, p)[|Slots(v, f, p)|..])
  {
    SoundDir(g, v, f, 0, 0, p);
    SoundDir(g, v1, f1, 0, 0, p);
    hide Sound, SlotsOf, DirOk;
  }

  lemma FreeFits(ss: seq<Slot>, ss1: seq<Slot>, k: int, name: Name)
    requires ss <= ss1 && AllUnused(ss1[|ss|..]) && FirstFree(ss1, k) && Lookup(ss, name).None?
    ensures ss1 == ss + ss1[|ss|..] && Fits(ss1, k, name)
  {
    forall i | 0 <= i < |ss1| ensures !Hit(ss1[i], name) {
      if i < |ss| { assert ss1[i] == ss[i]; } else { assert ss1[i] == ss1[|ss|..][i - |ss|]; }
    }
  }

  /** The name was there: its old chain, if it had one, has been freed. */
  lemma ReadyOld(g: Geometry, v: Vol, f: Forest, p: int, k: int, name: Name, v1: Vol)
    requires Sound(g, v, f, 0, 0) && p in f && f[p].isDir && Askable(name)
    requires k == Find(Slots(v, f, p), name, 0) >= 0
    requires var h := First(Slots(v, f, p)[k]);
             v1 == if h < 2 then v else Vol(Freed(v.fat, h), v.clus)
    ensures var h := First(Slots(v, f, p)[k]);
            var gone := if h < 2 then {} else {h};
            && (h >= 2 ==> h in f && Zeros(v1.fat) == Zeros(v.fat) + |f[h].chain|)
            && Ready(g, v, f, v1, f - gone, p, k, name, gone, {}, [])
  {
    LookSound(g, v, f, p, name, k);
    var ss := Slots(v, f, p);
    var h := First(ss[k]);
    FoundFits(g, v, f, p, k, name);
    assert ss + [] == ss;
    if h < 2 {
      assert f - {} == f;
      Exempt(g, v, f, p, k);
    } else {
      SoundFree(g, v, f, h, v1);
    }
  }

  lemma FoundFits(g: Geometry, v: Vol, f: Forest, p: int, k: int, name: Name)
    requires Sound(g, v, f, 0, 0) && p in f && f[p].isDir && Askable(name)
    requires k == Find(Slots(v, f, p), name, 0) >= 0
    ensures Fits(Slots(v, f, p), k, name)
  {
    var ss := Slots(v, f, p);
    SoundDir(g, v, f, 0, 0, p);
    assert ss[k][0] != 0 && k < Used(ss, 0);
    assert Live(ss[k]) by { assert ss[k][0] == ss[k][..11][0]; }
    forall i | 0 <= i < |ss| && i != k ensures !Hit(ss[i], name) {
      assert ss[i][0] == ss[i][..11][0];
    }
  }

  /** Writing clusters that nobody owns keeps the volume ready. */
  lemma ReadyFrame(g: Geometry, v: Vol, f: Forest, v1: Vol, f1: Forest, p: int, k: int, name: Name,
                   gone: set<int>, grown: seq<Slot>, v2: Vol)
    requires Ready(g, v, f, v1, f1, p, k, name, gone, {}, grown) && Agree(v1, v2, f1)
    ensures Ready(g, v, f, v2, f1, p, k, name, gone, {}, grown)
  {
    SoundFrame(g, v1, v2, f1, p, k);
    assert Slots(v2, f1, p) == Slots(v1, f1, p);
  }

  /** A chain of clusters nobody owns is taken on by the slot to be written. */
  lemma ReadyAdopt(g: Geometry, v: Vol, f: Forest, v1: Vol, f1: Forest, p: int, k: int, name: Name,
                   gone: set<int>, grown: seq<Slot>, ch: seq<int>, isDir: bool)
    requires Ready(g, v, f, v1, f1, p, k, name, gone, {}, grown)
    requires IsChain(v1.fat, ch) && forall c :: c in ch ==> !Owned(f1, c)
    requires isDir ==> UniqueNames(SlotsOf(Flat(v1.clus, ch))) && Tidy(SlotsOf(Flat(v1.clus, ch)))
                       && forall i :: 0 <= i < 16 * |Flat(v1.clus, ch)| ==> !Live(SlotsOf(Flat(v1.clus, ch))[i])
    ensures var f2 := f1[ch[0] := Node(ch, isDir, p, k, f1[p].depth + 1)];
            && Ready(g, v, f, v1, f2, p, k, name, gone, {ch[0]}, grown)
            && Sectors(v1, f2, ch[0]) == Flat(v1.clus, ch)
  {
    SoundAdopt(g, v1, f1, p, k, ch, isDir);
    var f2 := f1[ch[0] := Node(ch, isDir, p, k, f1[p].depth + 1)];
    assert Slots(v1, f2, p) == Slots(v1, f1, p);
  }

  // ---- the last write ------------------------------------------------------------------------------

  lemma StoreSlot(g: Geometry, v: Vol, f: Forest, p: int, k: int, j: int, sx: int, i: int, s: Slot, v': Vol)
    requires Shape(g, v) && ChainsOk(v, f) && p in f && Spot(g, v, f[p].chain, k, j, sx, i)
    requires Rewritten(g, v, f[p].chain[j], sx, i, s, v')
    ensures Shape(g, v') && ChainsOk(v', f)
    ensures forall h :: h in f && h != p ==> Sectors(v', f, h) == Sectors(v, f, h)
    ensures 0 <= k < |Slots(v, f, p)| && Slots(v', f, p) == Slots(v, f, p)[k := s]
  {
    var sec := PutSlot(v.clus[f[p].chain[j]][sx], i, s);
    PokeChains(g, v, f, p, j, sx, sec, v');
    SlotsAfterPut(Sectors(v, f, p), |Flat(v.clus, f[p].chain[..j])| + sx, i, s);
  }

  lemma Commit(g: Geometry, v: Vol, f: Forest, v1: Vol, f1: Forest, p: int, k: int, name: Name,
               gone: set<int>, made: set<int>, grown: seq<Slot>, j: int, sx: int, i: int, s: Slot, v2: Vol)
    requires Ready(g, v, f, v1, f1, p, k, name, gone, made, grown) && p !in made
    requires Spot(g, v1, f1[p].chain, k, j, sx, i) && Rewritten(g, v1, f1[p].chain[j], sx, i, s, v2)
    requires s[0] != 0 && (Live(s) ==> s[..11] == name) && RefOk(f1, p, k, s)
    ensures Changed(g, v, f, v2, f1, p, k, name, s, gone, made, grown)
    ensures forall h :: h in f1 && h != p ==> Sectors(v2, f1, h) == Sectors(v1, f1, h)
  {
    SoundDir(g, v1, f1, p, k, p);
    SoundDir(g, v, f, 0, 0, p);
    StoreSlot(g, v1, f1, p, k, j, sx, i, s, v2);
    hide Sound, SlotsOf;
    SoundStore(g, v1, f1, p, k, s, v2);
  }

  // ---- what the others see -------------------------------------------------------------------------

  /** Every other name, in every directory that is still there, finds the same slot, and if that is
      a file the same bytes. */
  ghost predicate OthersSame(v: Vol, f: Forest, v1: Vol, f1: Forest, p: int, name: Name, gone: set<int>)
    requires ChainsOk(v, f) && ChainsOk(v1, f1)
  {
    forall h, n: Name :: h in f && f[h].isDir && h !in gone && Askable(n) && (h != p || n != name) ==>
      && h in f1 && f1[h].isDir
      && Look(v1, f1, h, n) == Look(v, f, h, n)
      && (Look(v, f, h, n).Some? && !IsDir(Look(v, f, h, n).value) ==>
            FileBytes(v1, f1, Look(v, f, h, n).value) == FileBytes(v, f, Look(v, f, h, n).value))
  }

  lemma ChangedLook(g: Geometry, v: Vol, f: Forest, v1: Vol, f1: Forest, p: int, k: int, name: Name, s: Slot,
                    gone: set<int>, made: set<int>, grown: seq<Slot>, h: int, n: Name)
    requires Changed(g, v, f, v1, f1, p, k, name, s, gone, made, grown) && p !in made
    requires h in f && f[h].isDir && h !in gone && Askable(n)
    ensures h in f1 && f1[h].isDir
    ensures Look(v1, f1, h, n) == if h == p && n == name then (if Live(s) then Some(s) else None) else Look(v, f, h, n)
  {
    if h == p {
      var ss := Slots(v, f, p);
      assert !Live(s) && n == name ==> Lookup((ss + grown)[k := s], n).None? by {
        if !Live(s) && n == name {
          var ss' := (ss + grown)[k := s];
          assert forall j :: 0 <= j < |ss'| ==> !Hit(ss'[j], n);
        }
      }
      if n != name || Live(s) {
        assert forall j :: 0 <= j < |ss| ==> (ss + grown)[j] == ss[j];
        LookupAfterStore(ss, grown, k, s, n);
      }
    }
  }

  lemma ChangedBytes(g: Geometry, v: Vol, f: Forest, v1: Vol, f1: Forest, p: int, k: int, name: Name, s: Slot,
                     gone: set<int>, made: set<int>, grown: seq<Slot>, h: int, n: Name)
    requires Changed(g, v, f, v1, f1, p, k, name, s, gone, made, grown)
    requires h in f && f[h].isDir && h !in gone && Askable(n) && (h != p || n != name)
    requires Look(v, f, h, n).Some? && !IsDir(Look(v, f, h, n).value)
    ensures FileBytes(v1, f1, Look(v, f, h, n).value) == FileBytes(v, f, Look(v, f, h, n).value)
  {
    var i := Find(Slots(v, f, h), n, 0);
    LookSound(g, v, f, h, n, i);
    var e := Slots(v, f, h)[i];
    if First(e) >= 2 {
      assert h == p ==> (Slots(v, f, p) + grown)[i] == e;
      assert First(e) !in gone && First(e) != p;
    }
  }

  lemma ChangedOthers(g: Geometry, v: Vol, f: Forest, v1: Vol, f1: Forest, p: int, k: int, name: Name, s: Slot,
                      gone: set<int>, made: set<int>, grown: seq<Slot>)
    requires Changed(g, v, f, v1, f1, p, k, name, s, gone, made, grown) && p !in made
    ensures OthersSame(v, f, v1, f1, p, name, gone)
  {
    forall h, n: Name | h in f && f[h].isDir && h !in gone && Askable(n) && (h != p || n != name)
      ensures h in f1 && f1[h].isDir && Look(v1, f1, h, n) == Look(v, f, h, n)
      ensures Look(v, f, h, n).Some? && !IsDir(Look(v, f, h, n).value) ==>
                FileBytes(v1, f1, Look(v, f, h, n).value) == FileBytes(v, f, Look(v, f, h, n).value)
    {
      ChangedLook(g, v, f, v1, f1, p, k, name, s, gone, made, grown, h, n);
      if Look(v, f, h, n).Some? && !IsDir(Look(v, f, h, n).value) {
        ChangedBytes(g, v, f, v1, f1, p, k, name, s, gone, made, grown, h, n);
      }
    }
  }
}
