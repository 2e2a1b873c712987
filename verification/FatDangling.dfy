/**
  A volume on which fat_write_file breaks a promise: the root directory is at cluster 3, the file A at
  cluster 2, and no cluster is free.  Replacing A frees cluster 2, which is never handed out again.
*/
module FatDangling {
  import opened Bytes
  import opened FatVolume
  import opened FatDir
  import opened FatChain
  import opened FatForest
  import opened FatPath
  import opened FatOps
  import opened FatDriver

  const G := Geometry(1, 2, 1, 2, 3)
  const LETTER_A: Byte := 65
  const PATH: seq<Byte> := [LETTER_A]

  function Zero512(): Sector { seq(512, _ => 0) }

  /** Cluster 2 and cluster 3 each end a chain. */
  function FatSector(): Sector { Put32(Put32(Zero512(), 8, 0x0FFF_FFFF), 12, 0x0FFF_FFFF) }

  /** The one entry of the root directory. */
  function Entry(): Slot { FileSlot(Name83(PATH), 2, 1) }

  function RootSector(): (s: Sector)
    ensures SlotAt(s, 0) == Entry() && forall i :: 1 <= i < 16 ==> SlotAt(s, i)[0] == 0
  {
    var s: Sector := Entry() + Zero512()[32..];
    assert forall i :: 1 <= i < 16 ==> s[32 * i..32 * i + 32][0] == s[32 * i] == 0;
    s
  }

  function Disk(): seq<Sector> { [Zero512(), FatSector(), Zero512(), RootSector()] }

  function Chains(): Forest { map[3 := Node([3], true, 0, 0, 0), 2 := Node([2], false, 3, 0, 1)] }

  lemma NameOfA()
    ensures Name83(PATH)[0] == LETTER_A
  {
  }

  lemma DiskView()
    ensures G.Fits(|Disk()|)
    ensures var v := View(G, Disk());
            && |v.fat| == |v.clus| == 4 && v.fat[2] == v.fat[3] == 0x0FFF_FFFF && v.clus[3] == [RootSector()]
            && |v.clus[2]| == 1
  {
    hide RootSector, Put32, Zero512;
    var fs := FatSector();
    assert Le32(fs, 12) == 0x0FFF_FFFF;
    FirstWord();
    assert RawEntry(G, Disk(), 2) == 0x0FFF_FFFF && RawEntry(G, Disk(), 3) == 0x0FFF_FFFF;
    assert Disk()[3..4] == [RootSector()];
  }

  lemma FirstWord()
    ensures Le32(FatSector(), 8) == 0x0FFF_FFFF
  {
    var one := Put32(Zero512(), 8, 0x0FFF_FFFF);
    hide Put32;
  }

  lemma RootSlots()
    ensures G.Fits(|Disk()|) && ChainsOk(View(G, Disk()), Chains())
    ensures var ss := Slots(View(G, Disk()), Chains(), 3);
            |ss| == 16 && ss[0] == Entry() && forall i :: 1 <= i < 16 ==> ss[i][0] == 0
  {
    DiskView();
    hide View, Disk, RootSector;
    var v := View(G, Disk());
    FlatOne(v.clus, 3);
    assert Sectors(v, Chains(), 3) == [RootSector()];
  }

  lemma DiskSound()
    ensures G.Fits(|Disk()|) && Sound(G, View(G, Disk()), Chains(), 0, 0)
  {
    DiskView();
    RootSlots();
    NameOfA();
    hide View, Disk, RootSector, Name83, SlotsOf;
    var v, f := View(G, Disk()), Chains();
    var ss := Slots(v, f, 3);
    UsedIs(ss, 1);
    assert ss[0][0] == LETTER_A;
    assert forall k :: 1 <= k < 16 ==> !Live(ss[k]);
    assert DirOk(f, 3, ss, 0, 0);
  }

  lemma PathToA(v: Vol, f: Forest)
    requires ChainsOk(v, f) && 3 in f
    ensures Resolve(G, v, f, 3, PATH) == Some((3, PATH))
  {
    assert Span(PATH, 15, false) == 1 by { assert PATH[1..] == []; }
    assert PATH[..1] == PATH && PATH[1..] == [];
    assert SkipSlashes(PATH) == PATH && Tokens([]) == [];
    assert Tokens(PATH) == [PATH];
  }

  lemma FindsA()
    ensures G.Fits(|Disk()|) && ChainsOk(View(G, Disk()), Chains())
    ensures Look(View(G, Disk()), Chains(), 3, Name83(PATH)) == Some(Entry())
  {
    RootSlots();
    NameOfA();
    hide View, Disk, RootSector, Name83, SlotsOf;
    var ss := Slots(View(G, Disk()), Chains(), 3);
    assert ss[0][0] == LETTER_A;
    assert Hit(ss[0], Name83(PATH));
  }

  /** One byte does not fit: cluster 2 comes free, but it does not count. */
  lemma NoRoom()
    ensures G.Fits(|Disk()|) && ChainsOk(View(G, Disk()), Chains())
    ensures !Enough(G, View(G, Disk()), Chains(), 3, Name83(PATH), 1)
  {
    FindsA();
    DiskView();
    hide View, Disk, RootSector, Name83, SlotsOf, Look;
    LowZeros(View(G, Disk()).fat);
    assert 2 in Chains()[2].chain;
    assert ClustersFor(G, 1) == 1;
  }

  /** Writing one byte to A fails and leaves the entry naming a free cluster: no forest accounts for the
      volume any more. */
  method ReplaceA() returns (d: Driver, r: int)
    ensures d.g == G && d.Mounted() && r == -1 && !d.Valid()
    ensures forall f :: !Sound(d.g, d.V(), f, 0, 0)
  {
    DiskSound();
    FindsA();
    NoRoom();
    PathToA(View(G, Disk()), Chains());
    hide View, Disk, RootSector, Name83, SlotsOf, Look, Enough, Resolve, Sound, Written, Chains, Dangling;
    d := new Driver(G, Disk(), Chains());
    ghost var extra;
    var cl;
    r, cl, extra := d.WriteFile(PATH, [1]);
    DanglingRoot(d.g, d.V(), d.forest);
  }
}
