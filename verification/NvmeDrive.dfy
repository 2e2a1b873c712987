/**
  The drive behind the controller of kernel/drivers/nvme.c, the page it transfers to and from, and what a
  read or write command asks it to do, sector by sector.
*/
module NvmeDrive {
  import opened Bytes

  type Drive = map<int, seq<Byte>>

  function Blank(): (s: seq<Byte>)
    ensures |s| == 512 && forall i :: 0 <= i < 512 ==> s[i] == 0
  {
    seq(512, _ => 0)
  }

  function SectorAt(d: Drive, lba: int): seq<Byte> { if lba in d && |d[lba]| == 512 then d[lba] else Blank() }

  function ReadSectors(d: Drive, lba: int, n: nat): (r: seq<Byte>)
    ensures |r| == 512 * n
  {
    if n == 0 then [] else ReadSectors(d, lba, n - 1) + SectorAt(d, lba + n - 1)
  }

  function WriteSectors(d: Drive, lba: int, n: nat, data: seq<Byte>): Drive
    requires |data| == 512 * n
  {
    if n == 0 then d else WriteSectors(d, lba, n - 1, data[..512 * (n - 1)])[lba + n - 1 := data[512 * (n - 1)..]]
  }

  lemma {:induction false} WrittenElsewhere(d: Drive, lba: int, n: nat, data: seq<Byte>, l: int)
    requires |data| == 512 * n && !(lba <= l < lba + n)
    ensures SectorAt(WriteSectors(d, lba, n, data), l) == SectorAt(d, l)
  {
    if n > 0 { WrittenElsewhere(d, lba, n - 1, data[..512 * (n - 1)], l); }
  }

  lemma {:induction false} ReadSame(d: Drive, d': Drive, lba: int, n: nat)
    requires forall l :: lba <= l < lba + n ==> SectorAt(d', l) == SectorAt(d, l)
    ensures ReadSectors(d', lba, n) == ReadSectors(d, lba, n)
  {
    if n > 0 { ReadSame(d, d', lba, n - 1); }
  }

  lemma {:induction false} ReadWritten(d: Drive, lba: int, n: nat, data: seq<Byte>)
    requires |data| == 512 * n
    ensures ReadSectors(WriteSectors(d, lba, n, data), lba, n) == data
  {
    if n > 0 {
      var k := 512 * (n - 1);
      var d1 := WriteSectors(d, lba, n - 1, data[..k]);
      var d2 := WriteSectors(d, lba, n, data);
      ReadWritten(d, lba, n - 1, data[..k]);
      forall l | lba <= l < lba + (n - 1) ensures SectorAt(d2, l) == SectorAt(d1, l) { }
      ReadSame(d1, d2, lba, n - 1);
      assert data[..k] + data[k..] == data;
    }
  }

  /** nvme.c:259-267: a read or write command. */
  function RwCommand(lba: int, count: int, isWrite: bool, prp: int): (c: seq<int>)
    requires 0 <= lba && 0 <= prp
    ensures |c| == 16 && 0 <= c[0]
  {
    [if isWrite then 1 else 2, 1, 0, 0, 0, 0, prp % TWO32, prp / TWO32,
     0, 0, lba % TWO32, lba / TWO32, count - 1, 0, 0, 0]
  }

  /** The drive and the bounce page, which both the driver and the controller access. */
  datatype Store = Store(drive: Drive, page: seq<Byte>)

  predicate IsWrite(cmd: seq<int>)
    requires |cmd| == 16
  {
    cmd[0] % TWO16 == 1
  }

  function Lba(cmd: seq<int>): int
    requires |cmd| == 16
  {
    cmd[10] + TWO32 * cmd[11]
  }

  /** The sectors a command moves between the drive and the page at `pageAddr`. */
  function Sectors(cmd: seq<int>, pageAddr: int): (n: nat)
    requires |cmd| == 16
    ensures n <= 8
  {
    if cmd[6] + TWO32 * cmd[7] == pageAddr && 0 <= cmd[12] < 8 && 1 <= cmd[0] % TWO16 <= 2 then cmd[12] + 1 else 0
  }

  /** `page` with `data` at its start. */
  function Overlay(page: seq<Byte>, data: seq<Byte>): (r: seq<Byte>)
    requires |data| <= |page|
    ensures |r| == |page| && r[..|data|] == data && r[|data|..] == page[|data|..]
  {
    data + page[|data|..]
  }

  /** The store after the first `k` sectors of a command. */
  function Partial(s: Store, cmd: seq<int>, k: nat): (r: Store)
    requires |cmd| == 16 && |s.page| == 4096 && k <= 8
    ensures |r.page| == 4096
  {
    if IsWrite(cmd) then s.(drive := WriteSectors(s.drive, Lba(cmd), k, s.page[..512 * k]))
    else s.(page := Overlay(s.page, ReadSectors(s.drive, Lba(cmd), k)))
  }

  /** What the controller does for the `k`-th sector. */
  function OneSector(s: Store, cmd: seq<int>, k: nat): (r: Store)
    requires |cmd| == 16 && |s.page| == 4096 && k < 8
    ensures |r.page| == 4096
  {
    if IsWrite(cmd) then s.(drive := s.drive[Lba(cmd) + k := s.page[512 * k..512 * k + 512]])
    else s.(page := s.page[..512 * k] + SectorAt(s.drive, Lba(cmd) + k) + s.page[512 * k + 512..])
  }

  lemma PartialNext(s: Store, cmd: seq<int>, k: nat)
    requires |cmd| == 16 && |s.page| == 4096 && k < 8
    ensures OneSector(Partial(s, cmd, k), cmd, k) == Partial(s, cmd, k + 1)
  {
    if IsWrite(cmd) {
      assert s.page[..512 * (k + 1)][..512 * k] == s.page[..512 * k];
      assert s.page[..512 * (k + 1)][512 * k..] == s.page[512 * k..512 * k + 512];
    } else {
      var p := Partial(s, cmd, k).page;
      assert p[512 * k + 512..] == s.page[512 * (k + 1)..];
      assert p[..512 * k] == ReadSectors(s.drive, Lba(cmd), k);
    }
  }
}
