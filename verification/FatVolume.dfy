/**
  The disk under kernel/fs/fat.c: an array of 512-byte sectors, and the view of it as a
  file allocation table and a list of data clusters.  Everything above this module talks
  about the view; the address arithmetic (and the fact that the FAT and the clusters never
  share a sector) is settled here once.
*/
module FatVolume {
  import opened Bytes

  type Sector = s: seq<Byte> | |s| == 512 witness seq(512, _ => 0)

  const MASK28: int := 0x1000_0000
  const EOC: int := 0x0FFF_FFF8

  /** What fat_mount leaves in its static variables. */
  datatype Geometry = Geometry(fatStart: nat, dataStart: nat, spc: nat, total: nat, root: int) {

    /** A well-formed volume on a disk of `n` sectors: the first FAT copy has an entry for
        every cluster and ends before the data area, which is on the disk. */
    predicate Fits(n: nat) {
      && 1 <= spc <= 255
      && total + 2 < EOC - 1
      && 512 * fatStart + 4 * (total + 2) <= 512 * dataStart
      && dataStart + total * spc <= n < TWO32
      && 2 <= root < total + 2
    }

    function ClusterToLba(c: int): (lba: int)
      requires 2 <= c
    {
      dataStart + (c - 2) * spc
    }
  }

  /** The volume as the driver's algorithms see it: masked FAT entries, and for each cluster
      its sectors (clusters 0 and 1 do not exist and hold none). */
  datatype Vol = Vol(fat: seq<int>, clus: seq<seq<Sector>>)

  function RawEntry(g: Geometry, disk: seq<Sector>, c: int): (v: int)
    requires g.Fits(|disk|) && 0 <= c < g.total + 2
    ensures 0 <= v < TWO32
  {
    SectorInFat(g, |disk|, c);
    Le32(disk[g.fatStart + c * 4 / 512], c * 4 % 512)
  }

  lemma MulMono(a: int, b: int, k: int)
    requires a <= b && 0 <= k
    ensures a * k <= b * k
  {
  }

  lemma SectorInFat(g: Geometry, n: nat, c: int)
    requires g.Fits(n) && 0 <= c < g.total + 2
    ensures g.fatStart + c * 4 / 512 < g.dataStart <= n
    ensures c * 4 % 512 + 4 <= 512
  {
    MulMono(0, g.total, g.spc);
  }

  lemma ClusterInData(g: Geometry, n: nat, c: int)
    requires g.Fits(n) && 2 <= c < g.total + 2
    ensures g.dataStart <= g.ClusterToLba(c)
    ensures g.ClusterToLba(c) + g.spc <= g.dataStart + g.total * g.spc <= n
  {
    MulMono(0, c - 2, g.spc);
    MulMono(c - 1, g.total, g.spc);
    assert (c - 2) * g.spc + g.spc == (c - 1) * g.spc;
  }

  /** Distinct clusters do not share a sector. */
  lemma ClustersApart(g: Geometry, c: int, c': int)
    requires 2 <= c < c' && 0 < g.spc
    ensures g.ClusterToLba(c) + g.spc <= g.ClusterToLba(c')
  {
    MulMono(c - 1, c' - 2, g.spc);
    assert (c - 2) * g.spc + g.spc == (c - 1) * g.spc;
  }

  function Cluster(g: Geometry, disk: seq<Sector>, c: int): (r: seq<Sector>)
    requires g.Fits(|disk|) && 0 <= c < g.total + 2
    ensures 2 <= c ==> |r| == g.spc
  {
    if c < 2 then [] else
    ClusterInData(g, |disk|, c);
    disk[g.ClusterToLba(c)..g.ClusterToLba(c) + g.spc]
  }

  ghost function View(g: Geometry, disk: seq<Sector>): (v: Vol)
    requires g.Fits(|disk|)
    ensures |v.fat| == |v.clus| == g.total + 2
    ensures forall c :: 2 <= c < g.total + 2 ==> |v.clus[c]| == g.spc
  {
    Vol(seq(g.total + 2, c requires 0 <= c < g.total + 2 => RawEntry(g, disk, c) % MASK28),
        seq(g.total + 2, c requires 0 <= c < g.total + 2 => Cluster(g, disk, c)))
  }

  /** The word fat_set stores: the new 28 bits under the reserved top four. */
  function Merged(old32: int, val: int): (r: int)
    requires 0 <= old32 < TWO32 && 0 <= val
    ensures 0 <= r < TWO32
    ensures r % MASK28 == val % MASK28
    ensures r / MASK28 == old32 / MASK28
  {
    old32 / MASK28 * MASK28 + val % MASK28
  }

  /** Rewriting one FAT word changes one entry of the view and no cluster. */
  lemma ViewFatSet(g: Geometry, disk: seq<Sector>, c: int, val: int, disk': seq<Sector>)
    requires g.Fits(|disk|) && 0 <= c < g.total + 2 && 0 <= val
    requires 0 <= g.fatStart + c * 4 / 512 < |disk|
    requires disk' == disk[g.fatStart + c * 4 / 512 :=
                             Put32(disk[g.fatStart + c * 4 / 512], c * 4 % 512, Merged(RawEntry(g, disk, c), val))]
    ensures View(g, disk') == Vol(View(g, disk).fat[c := val % MASK28], View(g, disk).clus)
    ensures forall x :: 0 <= x < g.total + 2 ==> RawEntry(g, disk', x) / MASK28 == RawEntry(g, disk, x) / MASK28
  {
    SectorInFat(g, |disk|, c);
    forall x | 0 <= x < g.total + 2
      ensures RawEntry(g, disk', x) == if x == c then Merged(RawEntry(g, disk, c), val) else RawEntry(g, disk, x)
    {
      SectorInFat(g, |disk|, x);
    }
    forall x | 0 <= x < g.total + 2 ensures Cluster(g, disk', x) == Cluster(g, disk, x) {
      if 2 <= x { ClusterInData(g, |disk|, x); }
    }
  }

  /** `clus` with sector `s` of cluster `c` replaced. */
  function Poke(clus: seq<seq<Sector>>, c: int, s: int, sec: Sector): (r: seq<seq<Sector>>)
    requires 0 <= c < |clus| && 0 <= s < |clus[c]|
    ensures |r| == |clus|
    ensures forall x :: 0 <= x < |clus| && x != c ==> r[x] == clus[x]
    ensures |r[c]| == |clus[c]| && r[c][s] == sec
    ensures forall y :: 0 <= y < |clus[c]| && y != s ==> r[c][y] == clus[c][y]
  {
    var cl: seq<Sector> := clus[c][s := sec];
    clus[c := cl]
  }

  /** Writing sector `s` of cluster `c` changes that sector of the view and no FAT entry. */
  lemma ViewDataSet(g: Geometry, disk: seq<Sector>, c: int, s: int, sec: Sector, disk': seq<Sector>)
    requires g.Fits(|disk|) && 2 <= c < g.total + 2 && 0 <= s < g.spc
    requires 0 <= g.ClusterToLba(c) + s < |disk| && disk' == disk[g.ClusterToLba(c) + s := sec]
    ensures View(g, disk') == Vol(View(g, disk).fat, Poke(View(g, disk).clus, c, s, sec))
    ensures forall x :: 0 <= x < g.total + 2 ==> RawEntry(g, disk', x) == RawEntry(g, disk, x)
  {
    ClusterInData(g, |disk|, c);
    forall x | 0 <= x < g.total + 2 ensures RawEntry(g, disk', x) == RawEntry(g, disk, x) {
      SectorInFat(g, |disk|, x);
    }
    var v := View(g, disk);
    forall x | 0 <= x < g.total + 2
      ensures Cluster(g, disk', x) == Poke(v.clus, c, s, sec)[x]
    {
      if 2 <= x < c {
        ClustersApart(g, x, c);
        ClusterInData(g, |disk|, x);
      } else if c < x {
        ClustersApart(g, c, x);
        ClusterInData(g, |disk|, x);
      } else if x == c {
        assert Cluster(g, disk', x) == Poke(v.clus, c, s, sec)[c];
      }
    }
    assert View(g, disk').clus == Poke(v.clus, c, s, sec);
    assert View(g, disk').fat == v.fat;
  }
}
