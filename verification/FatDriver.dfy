/**
  The driver of kernel/fs/fat.c: mount state, the one sector buffer that every helper
  overwrites, and the operations, with their loops.  Each method is specified on the view of
  the disk (FatVolume) and on the forest of chains (FatForest), never on its own body.
*/
module FatDriver {
  import opened Bytes
  import opened FatVolume
  import opened FatDir
  import opened FatChain
  import opened FatForest
  import opened FatPath
  import opened FatEffect
  import opened FatOps

  /** One of to_83's copy-and-pad loop pairs (fat.c:36-41 and 44-49). */
  method CopyField(a: seq<Byte>, i: nat, n: array<Byte>, at: nat, width: nat, dotStops: bool) returns (next: nat)
    requires i <= |a| && at + width <= n.Length
    modifies n
    ensures next == i + Span(a[i..], width, dotStops) <= |a|
    ensures n[at..at + width] == Field(a[i..next], width)
    ensures n[..at] == old(n[..at])
  {
    hide Span;
    next := i;
    var j := 0;
    while next < |a| && !(dotStops && a[next] == DOT) && !IsSlash(a[next]) && j < width
      invariant next == i + j <= |a| && j <= width
      invariant j + Span(a[next..], width - j, dotStops) == Span(a[i..], width, dotStops)
      invariant forall x :: at <= x < at + j ==> n[x] == Upper(a[i + x - at])
      invariant n[..at] == old(n[..at])
    {
      SpanStep(a, next, width - j, dotStops);
      n[at + j] := Upper(a[next]);
      next, j := next + 1, j + 1;
    }
    SpanStep(a, next, width - j, dotStops);
    ghost var taken := j;
    while j < width
      invariant taken <= j <= width
      invariant forall x :: at <= x < at + j ==> n[x] == if x < at + taken then Upper(a[i + x - at]) else SPACE
      invariant n[..at] == old(n[..at])
    {
      n[at + j] := SPACE;
      j := j + 1;
    }
    ghost var field := Field(a[i..next], width);
    assert |n[at..at + width]| == |field|;
    forall x | 0 <= x < width ensures n[at..at + width][x] == field[x] {
      assert n[at..at + width][x] == n[at + x];
      if x < taken { assert a[i..next][x] == a[i + x]; }
    }
    assert n[at..at + width] == field;
  }

  /** fat.c:34-50. */
  method To83(a: seq<Byte>) returns (name: Name)
    ensures name == Name83(a)
  {
    hide Span;
    var n := new Byte[11];
    var i := CopyField(a, 0, n, 0, 8, true);
    assert a[0..] == a && a[0..i] == a[..i];
    ghost var base := n[..8];
    if i < |a| && a[i] == DOT { i := i + 1; }
    var end := CopyField(a, i, n, 8, 3, false);
    assert a[i..end] == a[i..][..end - i];
    assert n[..] == base + n[8..11];
    return n[..];
  }

  /** fat.c:52-56. */
  method Eq83(a: seq<Byte>, e: Slot) returns (r: bool)
    ensures r <==> e[..11] == Name83(a)
  {
    hide Name83;
    var n := To83(a);
    for i := 0 to 11
      invariant forall x :: 0 <= x < i ==> n[x] == e[x]
    {
      if n[i] != e[i] {
        assert e[..11][i] == e[i];
        return false;
      }
    }
    assert e[..11] == n;
    return true;
  }

  /** resolve_parent's slash loops (fat.c:195 and 203). */
  method SkipSlash(path: seq<Byte>, pos: nat) returns (q: nat)
    requires pos <= |path|
    ensures pos <= q <= |path| && path[q..] == SkipSlashes(path[pos..])
  {
    q := pos;
    while q < |path| && IsSlash(path[q])
      invariant pos <= q <= |path| && SkipSlashes(path[q..]) == SkipSlashes(path[pos..])
    {
      assert path[q..][1..] == path[q + 1..];
      q := q + 1;
    }
  }

  /** fat.c:199: one component, at most 15 bytes of it. */
  method TakePart(path: seq<Byte>, pos: nat) returns (q: nat, part: seq<Byte>)
    requires pos <= |path|
    ensures q == pos + Span(path[pos..], 15, false) <= |path| && part == path[pos..q]
  {
    hide Span;
    q, part := pos, [];
    while q < |path| && !IsSlash(path[q]) && q - pos < 15
      invariant pos <= q <= |path| && part == path[pos..q] && q - pos <= 15
      invariant q - pos + Span(path[q..], 15 - (q - pos), false) == Span(path[pos..], 15, false)
    {
      SpanStep(path, q, 15 - (q - pos), false);
      part := part + [path[q]];
      q := q + 1;
    }
    SpanStep(path, q, 15 - (q - pos), false);
  }

  class Driver {
    const g: Geometry
    const sector: array<Byte>
    var disk: seq<Sector>
    var cwd: int
    ghost var forest: Forest

    /** A mounted volume whose chains are accounted for; the current directory is the root. */
    constructor (geometry: Geometry, sectors: seq<Sector>, ghost chains: Forest)
      requires geometry.Fits(|sectors|) && Sound(geometry, View(geometry, sectors), chains, 0, 0)
      ensures Valid() && g == geometry && disk == sectors && cwd == g.root && forest == chains && fresh(sector)
    {
      g, disk, cwd, forest := geometry, sectors, geometry.root, chains;
      sector := new Byte[512](_ => 0);
    }

    ghost predicate Mounted()
      reads this`disk
    {
      g.Fits(|disk|) && sector.Length == 512
    }

    ghost function V(): Vol
      requires Mounted()
      reads this`disk
    {
      View(g, disk)
    }

    // ---- sectors ------------------------------------------------------------------------------

    method ReadAbs(lba: int)
      requires Mounted() && 0 <= lba < |disk|
      modifies sector
      ensures sector[..] == disk[lba]
    {
      forall i | 0 <= i < 512 { sector[i] := disk[lba][i]; }
    }

    method WriteAbs(lba: int)
      requires Mounted() && 0 <= lba < |disk|
      modifies this`disk
      ensures Mounted() && |disk| == old(|disk|) && disk == old(disk)[lba := sector[..]]
    {
      disk := disk[lba := sector[..]];
    }

    method ReadCluster(c: int, s: int)
      requires Mounted() && 2 <= c < g.total + 2 && 0 <= s < g.spc
      modifies sector
      ensures sector[..] == V().clus[c][s]
    {
      ClusterInData(g, |disk|, c);
      ReadAbs(g.ClusterToLba(c) + s);
    }

    method WriteCluster(c: int, s: int)
      requires Mounted() && 2 <= c < g.total + 2 && 0 <= s < g.spc
      modifies this`disk
      ensures Mounted() && V() == Vol(old(V()).fat, Poke(old(V()).clus, c, s, sector[..]))
    {
      ClusterInData(g, |disk|, c);
      ViewDataSet(g, disk, c, s, sector[..], disk[g.ClusterToLba(c) + s := sector[..]]);
      WriteAbs(g.ClusterToLba(c) + s);
    }

    // ---- the file allocation table --------------------------------------------------------------

    /** fat.c:83-90. */
    method FatGet(cl: int) returns (v: int)
      requires Mounted() && 0 <= cl < g.total + 2
      modifies sector
      ensures v == V().fat[cl]
    {
      var off := cl * 4;
      var idx := off % 512;
      SectorInFat(g, |disk|, cl);
      ReadAbs(g.fatStart + off / 512);
      v := sector[idx] as int + 0x100 * sector[idx + 1] as int + 0x1_0000 * sector[idx + 2] as int
           + 0x100_0000 * sector[idx + 3] as int;
      assert v == Le32(sector[..], idx);
      v := v % MASK28;
    }

    /** fat.c:92-102: one entry changes, its reserved top four bits and every other entry stay. */
    method FatSet(cl: int, val: int)
      requires Mounted() && 0 <= cl < g.total + 2 && 0 <= val < TWO32
      modifies this`disk, sector
      ensures Mounted() && V() == Vol(old(V()).fat[cl := val % MASK28], old(V()).clus)
      ensures forall x :: 0 <= x < g.total + 2 ==> RawEntry(g, disk, x) / MASK28 == old(RawEntry(g, disk, x)) / MASK28
    {
      var off := cl * 4;
      var idx := off % 512;
      var sec := g.fatStart + off / 512;
      SectorInFat(g, |disk|, cl);
      ReadAbs(sec);
      var old32 := sector[idx] as int + 0x100 * sector[idx + 1] as int + 0x1_0000 * sector[idx + 2] as int
                   + 0x100_0000 * sector[idx + 3] as int;
      assert old32 == Le32(sector[..], idx);
      var neu := Merged(old32, val);
      ghost var next := disk[sec := Put32(disk[sec], idx, neu)];
      ViewFatSet(g, disk, cl, val, next);
      sector[idx], sector[idx + 1], sector[idx + 2], sector[idx + 3] :=
        ByteOf(neu, 0), ByteOf(neu, 1), ByteOf(neu, 2), ByteOf(neu, 3);
      assert sector[..] == Put32(disk[sec], idx, neu);
      WriteAbs(sec);
    }

    /** fat.c:104-112: the lowest free cluster from 3 up, marked end-of-chain; 0 when there is none. */
    method FatAllocCluster() returns (c: int)
      requires Mounted()
      modifies this`disk, sector
      ensures Mounted() && |V().fat| == |old(V()).fat|
      ensures c == 0 ==> disk == old(disk) && forall x :: 3 <= x < g.total + 2 ==> V().fat[x] != 0
      ensures c != 0 ==>
                && 3 <= c < g.total + 2 && old(V()).fat[c] == 0
                && (forall x :: 3 <= x < c ==> old(V()).fat[x] != 0)
                && V() == Vol(old(V()).fat[c := 0x0FFF_FFFF], old(V()).clus)
    {
      hide View;
      c := 3;
      while c < g.total + 2
        invariant 3 <= c && disk == old(disk)
        invariant forall x :: 3 <= x < c && x < g.total + 2 ==> V().fat[x] != 0
      {
        var e := FatGet(c);
        if e == 0 {
          FatSet(c, 0x0FFF_FFFF);
          return;
        }
        c := c + 1;
      }
      c := 0;
    }

    /** fat.c:114-121, on any table that the walk from `cl` does not leave, even a cyclic one. */
    method FatFreeChain(cl: int)
      requires Mounted() && WalkInRange(V().fat, cl)
      modifies this`disk, sector
      ensures Mounted() && V() == Vol(Freed(old(V()).fat, cl), old(V()).clus)
      ensures forall x :: 0 <= x < g.total + 2 ==> RawEntry(g, disk, x) / MASK28 == old(RawEntry(g, disk, x)) / MASK28
    {
      hide View;
      var cur := cl;
      while 2 <= cur < EOC
        invariant Mounted() && WalkInRange(V().fat, cur)
        invariant V().clus == old(V()).clus && Freed(V().fat, cur) == Freed(old(V()).fat, cl)
        invariant forall x :: 0 <= x < g.total + 2 ==>
                    RawEntry(g, disk, x) / MASK28 == old(RawEntry(g, disk, x)) / MASK28
        decreases |V().fat| - Zeros(V().fat), if 2 <= cur < EOC then 1 else 0
      {
        FreedStep(V().fat, cur);
        var n := FatGet(cur);
        FatSet(cur, 0);
        cur := n;
      }
    }

    // ---- directories --------------------------------------------------------------------------

    /** fat.c:132-145, for the sector in the buffer: stops at slot `i` on a match or on a never-used
        slot, or runs off the end. */
    method ScanSector(name: seq<Byte>) returns (i: int, hit: bool)
      requires sector.Length == 512
      ensures 0 <= i <= 16 && (i == 16 ==> !hit)
      ensures forall x :: 0 <= x < i ==> SlotAt(sector[..], x)[0] != 0 && !Hit(SlotAt(sector[..], x), Name83(name))
      ensures i < 16 ==> if hit then Hit(SlotAt(sector[..], i), Name83(name)) else SlotAt(sector[..], i)[0] == 0
    {
      i := 0;
      while i < 16
        invariant 0 <= i <= 16
        invariant forall x :: 0 <= x < i ==> SlotAt(sector[..], x)[0] != 0 && !Hit(SlotAt(sector[..], x), Name83(name))
      {
        var e := SlotAt(sector[..], i);
        if e[0] == 0 { return i, false; }
        if e[0] != DELETED && !IsLabel(e) {
          var eq := Eq83(name, e);
          if eq { return i, true; }
        }
        i := i + 1;
      }
      return 16, false;
    }

    /** The sector in the buffer is sector `q` of a directory whose earlier slots all miss. */
    ghost predicate Missed(ss: seq<Slot>, n: int, name: Name) {
      0 <= n <= |ss| && forall x :: 0 <= x < n ==> ss[x][0] != 0 && !Hit(ss[x], name)
    }

    lemma MissedMore(secs: seq<Sector>, q: int, i: int, name: Name)
      requires 0 <= q < |secs| && 0 <= i <= 16 && Missed(SlotsOf(secs), 16 * q, name)
      requires forall x :: 0 <= x < i ==> SlotAt(secs[q], x)[0] != 0 && !Hit(SlotAt(secs[q], x), name)
      ensures Missed(SlotsOf(secs), 16 * q + i, name)
      ensures i < 16 ==> SlotsOf(secs)[16 * q + i] == SlotAt(secs[q], i)
    {
      forall x | 16 * q <= x < 16 * q + i ensures SlotsOf(secs)[x] == SlotAt(secs[q], x - 16 * q) {
        assert x / 16 == q && x % 16 == x - 16 * q;
      }
    }

    lemma FoundAt(ss: seq<Slot>, n: int, name: Name)
      requires Missed(ss, n, name) && n < |ss| && Hit(ss[n], name)
      ensures Find(ss, name, 0) == n && Lookup(ss, name) == Some(ss[n])
      ensures Lookup(ss[..Used(ss, 0)], name).Some?
    {
      assert n < Used(ss, 0);
      assert ss[..Used(ss, 0)][n] == ss[n];
    }

    lemma MissedAll(ss: seq<Slot>, n: int, name: Name)
      requires Missed(ss, n, name) && (n < |ss| ==> ss[n][0] == 0)
      ensures Lookup(ss[..Used(ss, 0)], name).None? && (Tidy(ss) ==> Lookup(ss, name).None?)
    {
      UsedIs(ss, n);
      if Tidy(ss) {
        forall x | 0 <= x < |ss| ensures !Hit(ss[x], name) {
          if n < x { assert ss[x][0] == 0; }
        }
      }
    }

    /** One sector of a directory whose sectors are `secs` and whose first `16 * q` slots all miss. */
    method FindInSector(c: int, t: int, name: seq<Byte>, ghost secs: seq<Sector>, ghost q: int)
      returns (i: int, hit: bool, e: Slot)
      requires Mounted() && 2 <= c < g.total + 2 && 0 <= t < g.spc && 0 <= q < |secs| && secs[q] == V().clus[c][t]
      requires Missed(SlotsOf(secs), 16 * q, Name83(name))
      modifies sector
      ensures 0 <= i <= 16 && Missed(SlotsOf(secs), 16 * q + i, Name83(name))
      ensures i == 16 ==> !hit
      ensures i < 16 ==> SlotsOf(secs)[16 * q + i] == e && if hit then Hit(e, Name83(name)) else e[0] == 0
    {
      hide View, SlotsOf, Name83, Hit;
      ReadCluster(c, t);
      i, hit := ScanSector(name);
      ghost var sec: Sector := sector[..];
      assert sec == secs[q];
      MissedMore(secs, q, i, Name83(name));
      e := SlotAt(sector[..], if i < 16 then i else 0);
    }

    /** fat.c:129-146: one cluster of that directory.  `k` is the slot where the search stopped. */
    method FindInCluster(c: int, name: seq<Byte>, ghost secs: seq<Sector>, ghost before: int)
      returns (t: int, i: int, hit: bool, e: Slot, ghost n: int)
      requires Mounted() && 2 <= c < g.total + 2 && 0 <= before && before + g.spc <= |secs|
      requires secs[before..before + g.spc] == V().clus[c]
      requires Missed(SlotsOf(secs), 16 * before, Name83(name))
      modifies sector
      ensures 0 <= t <= g.spc && 0 <= i < 16 && (t == g.spc ==> !hit && i == 0)
      ensures n == 16 * (before + t) + i && Missed(SlotsOf(secs), n, Name83(name))
      ensures t < g.spc ==>
                n < |SlotsOf(secs)| && SlotsOf(secs)[n] == e && if hit then Hit(e, Name83(name)) else e[0] == 0
    {
      hide View, SlotsOf, Name83, Hit;
      t, n := 0, 0;
      e := seq(32, _ => 0);
      while t < g.spc
        invariant 0 <= t <= g.spc
        invariant Missed(SlotsOf(secs), 16 * (before + t), Name83(name))
      {
        assert secs[before + t] == secs[before..before + g.spc][t];
        i, hit, e := FindInSector(c, t, name, secs, before + t);
        n := 16 * (before + t) + i;
        if i < 16 { return; }
        t := t + 1;
      }
      i, hit, n := 0, false, 16 * (before + t);
    }

    /** The loop over the clusters of the directory.  It stops in sector `t` of the `j`-th cluster, at
        slot `i`, on a match or on a never-used slot, or it runs off the chain (`j` is its length). */
    method FindInChain(dirCl: int, name: seq<Byte>, ghost ch: seq<int>, ghost v: Vol, ghost secs: seq<Sector>)
      returns (cur: int, t: int, i: int, hit: bool, e: Slot, ghost j: int, ghost n: int)
      requires Mounted() && v == V() && IsChain(v.fat, ch) && ch[0] == dirCl && secs == Flat(v.clus, ch)
      modifies sector
      ensures 0 <= j <= |ch| && Missed(SlotsOf(secs), n, Name83(name))
      ensures j == |ch| ==> !hit && n == 16 * |secs|
      ensures j < |ch| ==> 0 <= t < g.spc && 0 <= i < 16 && cur == ch[j] && n == 16 * (|Flat(v.clus, ch[..j])| + t) + i
      ensures j < |ch| ==> n < 16 * |secs| && SlotsOf(secs)[n] == e && if hit then Hit(e, Name83(name)) else e[0] == 0
    {
      hide View, SlotsOf, Name83, Hit;
      cur, j, n, t, i, hit, e := dirCl, 0, 0, 0, 0, false, seq(32, _ => 0);
      while 2 <= cur < EOC
        invariant 0 <= j <= |ch| && !hit && n == 16 * |Flat(v.clus, ch[..j])|
        invariant if j < |ch| then cur == ch[j] else EOC <= cur && n == 16 * |secs|
        invariant Missed(SlotsOf(secs), n, Name83(name))
        decreases |ch| - j
      {
        FlatWindow(v.clus, ch, j);
        t, i, hit, e, n := FindInCluster(cur, name, secs, |Flat(v.clus, ch[..j])|);
        if t < g.spc { return; }
        cur := FatGet(cur);
        j := j + 1;
      }
    }

    lemma AtSlot(g: Geometry, v: Vol, ch: seq<int>, k: int, j: int, t: int, i: int)
      requires IsChain(v.fat, ch) && |v.fat| == |v.clus| == g.total + 2 && 0 <= j < |ch| && 0 <= t < g.spc
      requires 0 <= i < 16
      requires k == 16 * (|Flat(v.clus, ch[..j])| + t) + i < 16 * |Flat(v.clus, ch)|
      ensures 2 <= ch[j] && At(g, v, ch, k, j, t, g.ClusterToLba(ch[j]) + t, 32 * i)
    {
      hide Flat, Geometry.ClusterToLba;
      SlotOffset(i);
    }

    /** fat.c:125-150: dir_find is lookup among the slots before the first never-used one of the directory
        whose chain `dirCl` heads, and says where the slot is.  In a tidy directory that is all of it. */
    method DirFind(dirCl: int, name: seq<Byte>, ghost ch: seq<int>)
      returns (found: bool, e: Slot, lba: int, off: int, ghost k: int, ghost j: int, ghost s: int)
      requires Mounted() && IsChain(V().fat, ch) && ch[0] == dirCl
      modifies sector
      ensures var ss := SlotsOf(Flat(V().clus, ch)); found <==> Lookup(ss[..Used(ss, 0)], Name83(name)).Some?
      ensures var ss := SlotsOf(Flat(V().clus, ch)); Tidy(ss) ==> (found <==> Lookup(ss, Name83(name)).Some?)
      ensures found ==>
                && At(g, V(), ch, k, j, s, lba, off)
                && k == Find(SlotsOf(Flat(V().clus, ch)), Name83(name), 0)
                && e == SlotsOf(Flat(V().clus, ch))[k]
                && Lookup(SlotsOf(Flat(V().clus, ch)), Name83(name)) == Some(e)
    {
      hide View, SlotsOf, Tidy, Used, Name83, Flat, Hit, Find, Lookup, Missed, At;
      ghost var secs := Flat(V().clus, ch);
      var cur, t, i, hit;
      cur, t, i, hit, e, j, k := FindInChain(dirCl, name, ch, V(), secs);
      if hit {
        FoundAt(SlotsOf(secs), k, Name83(name));
        AtSlot(g, V(), ch, k, j, t, i);
        return true, e, g.ClusterToLba(cur) + t, 32 * i, k, j, t;
      }
      MissedAll(SlotsOf(secs), k, Name83(name));
      return false, e, 0, 0, k, j, 0;
    }

    // ---- a slot for a new entry -------------------------------------------------------------------

    method ClearBuffer()
      requires sector.Length == 512
      modifies sector
      ensures AllZero(sector[..])
    {
      forall i | 0 <= i < 512 { sector[i] := 0; }
    }

    /** Zeroes the sectors of cluster `c` from the `from`-th on (fat.c:172-174, 415-418, 491-494). */
    method ZeroCluster(c: int, from: int)
      requires Mounted() && 2 <= c < g.total + 2 && 0 <= from <= g.spc
      modifies this`disk, sector
      ensures Mounted() && V().fat == old(V()).fat
      ensures forall x :: 0 <= x < g.total + 2 && x != c ==> V().clus[x] == old(V()).clus[x]
      ensures V().clus[c][..from] == old(V()).clus[c][..from] && ZeroFrom(V().clus[c], from)
    {
      hide View;
      ghost var was := V().clus[c];
      var s := from;
      while s < g.spc
        invariant from <= s <= g.spc && Mounted() && V().fat == old(V()).fat
        invariant forall x :: 0 <= x < g.total + 2 && x != c ==> V().clus[x] == old(V()).clus[x]
        invariant |V().clus[c]| == g.spc && V().clus[c][..from] == was[..from]
        invariant forall y :: from <= y < s ==> AllZero(V().clus[c][y])
      {
        ClearBuffer();
        WriteCluster(c, s);
        s := s + 1;
      }
    }

    lemma TakenMore(secs: seq<Sector>, q: int, i: int)
      requires 0 <= q < |secs| && 0 <= i <= 16 && Taken(SlotsOf(secs), 16 * q)
      requires forall x :: 0 <= x < i ==> SlotAt(secs[q], x)[0] != 0 && SlotAt(secs[q], x)[0] != DELETED
      ensures Taken(SlotsOf(secs), 16 * q + i)
      ensures i < 16 ==> SlotsOf(secs)[16 * q + i] == SlotAt(secs[q], i)
    {
      forall x | 16 * q <= x < 16 * q + i ensures SlotsOf(secs)[x] == SlotAt(secs[q], x - 16 * q) {
        assert x / 16 == q && x % 16 == x - 16 * q;
      }
    }

    lemma TakenConcat(a: seq<Sector>, b: seq<Sector>)
      requires Taken(SlotsOf(a), 16 * |a|) && AllUnused(SlotsOf(b)) && b != []
      ensures Taken(SlotsOf(a + b), 16 * |a|)
      ensures (a + b)[|a|..|a| + |b|] == b
      ensures !Taken(SlotsOf(a + b), 16 * (|a| + |b|))
    {
      SlotsOfConcat(a, b);
      assert SlotsOf(a + b)[16 * |a|] == SlotsOf(b)[0];
    }

    /** fat.c:158-165: the first free slot of one sector, or 16. */
    method FreeInSector(c: int, t: int, ghost secs: seq<Sector>, ghost q: int) returns (i: int)
      requires Mounted() && 2 <= c < g.total + 2 && 0 <= t < g.spc && 0 <= q < |secs| && secs[q] == V().clus[c][t]
      requires Taken(SlotsOf(secs), 16 * q)
      modifies sector
      ensures 0 <= i <= 16 && Taken(SlotsOf(secs), 16 * q + i)
      ensures i < 16 ==> SlotsOf(secs)[16 * q + i][0] == 0 || SlotsOf(secs)[16 * q + i][0] == DELETED
    {
      hide View;
      ReadCluster(c, t);
      i := 0;
      while i < 16 && sector[32 * i] != 0 && sector[32 * i] != DELETED
        invariant 0 <= i <= 16
        invariant forall x :: 0 <= x < i ==> SlotAt(secs[q], x)[0] != 0 && SlotAt(secs[q], x)[0] != DELETED
      {
        assert sector[32 * i] == sector[..][32 * i] == SlotAt(secs[q], i)[0];
        i := i + 1;
      }
      if i < 16 { assert sector[32 * i] == sector[..][32 * i] == SlotAt(secs[q], i)[0]; }
      TakenMore(secs, q, i);
    }

    /** fat.c:156-166: the same for one cluster. */
    method FreeInCluster(c: int, ghost secs: seq<Sector>, ghost before: int) returns (t: int, i: int, ghost n: int)
      requires Mounted() && 2 <= c < g.total + 2 && 0 <= before && before + g.spc <= |secs|
      requires secs[before..before + g.spc] == V().clus[c] && Taken(SlotsOf(secs), 16 * before)
      modifies sector
      ensures 0 <= t <= g.spc && 0 <= i < 16 && (t == g.spc ==> i == 0)
      ensures n == 16 * (before + t) + i && Taken(SlotsOf(secs), n)
      ensures t < g.spc ==> n < |SlotsOf(secs)| && (SlotsOf(secs)[n][0] == 0 || SlotsOf(secs)[n][0] == DELETED)
    {
      hide View, SlotsOf;
      t, n := 0, 0;
      while t < g.spc
        invariant 0 <= t <= g.spc && Taken(SlotsOf(secs), 16 * (before + t))
      {
        assert secs[before + t] == secs[before..before + g.spc][t];
        i := FreeInSector(c, t, secs, before + t);
        n := 16 * (before + t) + i;
        if i < 16 { return; }
        t := t + 1;
      }
      i, n := 0, 16 * (before + t);
    }

    /** The same for the cluster just linked behind a full directory with sectors `secs`. */
    method FreeInNew(c: int, ghost secs: seq<Sector>) returns (t: int, i: int, ghost n: int)
      requires Mounted() && 2 <= c < g.total + 2
      requires Taken(SlotsOf(secs), 16 * |secs|) && AllUnused(SlotsOf(V().clus[c]))
      modifies sector
      ensures 0 <= t < g.spc && 0 <= i < 16 && n == 16 * (|secs| + t) + i < 16 * (|secs| + g.spc)
      ensures FirstFree(SlotsOf(secs + V().clus[c]), n)
    {
      hide View;
      ghost var b := V().clus[c];
      TakenConcat(secs, b);
      assert |b| == g.spc;
      t, i, n := FreeInCluster(c, secs + b, |secs|);
    }

    /** fat.c:154-178 without the extension: the first free slot of a chain, or its last cluster. */
    method FreeInChain(dirCl: int, ghost ch: seq<int>, ghost v: Vol, ghost secs: seq<Sector>)
      returns (cur: int, t: int, i: int, ghost j: int, ghost n: int)
      requires Mounted() && v == V() && IsChain(v.fat, ch) && ch[0] == dirCl && secs == Flat(v.clus, ch)
      modifies sector
      ensures 0 <= j < |ch| && cur == ch[j] && 0 <= t <= g.spc && 0 <= i < 16 && Taken(SlotsOf(secs), n)
      ensures t == g.spc ==> j == |ch| - 1 && n == 16 * |secs|
      ensures t < g.spc ==> n == 16 * (|Flat(v.clus, ch[..j])| + t) + i < 16 * |secs| && FirstFree(SlotsOf(secs), n)
    {
      hide View, SlotsOf;
      cur, j, n, t, i := dirCl, 0, 0, 0, 0;
      while true
        invariant 0 <= j < |ch| && n == 16 * |Flat(v.clus, ch[..j])| && cur == ch[j]
        invariant Taken(SlotsOf(secs), n)
        decreases |ch| - j
      {
        FlatWindow(v.clus, ch, j);
        t, i, n := FreeInCluster(cur, secs, |Flat(v.clus, ch[..j])|);
        if t < g.spc { return; }
        var next := FatGet(cur);
        assert next == v.fat[ch[j]];
        assert j < |ch| - 1 ==> next == ch[j + 1] < EOC;
        if EOC <= next { return; }
        cur := next;
        j := j + 1;
      }
    }

    /** fat.c:168-176: links one zeroed cluster behind `cur`; 0 and no change if none is free. */
    method ExtendDir(cur: int) returns (nc: int)
      requires Mounted() && 2 <= cur < g.total + 2 && V().fat[cur] != 0
      modifies this`disk, sector
      ensures Mounted()
      ensures nc == 0 ==> disk == old(disk) && forall x :: 3 <= x < g.total + 2 ==> V().fat[x] != 0
      ensures nc != 0 ==> Extended(g, old(V()), cur, nc, V())
    {
      hide View;
      nc := FatAllocCluster();
      if nc == 0 { return; }
      ghost var v1 := V();
      assert nc % MASK28 == nc;
      FatSet(cur, nc);
      assert V().fat == v1.fat[cur := nc];
      ZeroCluster(nc, 0);
    }

    lemma SlotOffset(i: int)
      requires 0 <= i < 16
      ensures 0 <= 32 * i < 512 && 32 * i % 32 == 0 && 32 * i / 32 == i
    {
    }

    /** fat.c:167-177 and the search of the new cluster, for a directory with no free slot. */
    method GrowForSlot(cur: int, ghost ch: seq<int>)
      returns (ok: bool, lba: int, off: int, ghost k: int, ghost s: int, ghost nc: int)
      requires Mounted() && IsChain(V().fat, ch) && cur == ch[|ch| - 1]
      requires Taken(SlotsOf(Flat(V().clus, ch)), 16 * |Flat(V().clus, ch)|)
      modifies this`disk, sector
      ensures Mounted()
      ensures !ok ==> disk == old(disk) && forall x :: 3 <= x < g.total + 2 ==> V().fat[x] != 0
      ensures ok ==> nc != 0 && Extended(g, old(V()), cur, nc, V())
      ensures ok ==> At(g, V(), ch + [nc], k, |ch|, s, lba, off) && FirstFree(SlotsOf(Flat(V().clus, ch + [nc])), k)
    {
      hide View, SlotsOf, Flat, Taken, FirstFree, Geometry.ClusterToLba;
      ghost var v := V();
      ghost var secs := Flat(v.clus, ch);
      ChainNonzero(v.fat, ch, cur);
      var next := ExtendDir(cur);
      if next == 0 { return false, 0, 0, 0, 0, 0; }
      ExtendedFlat(g, v, ch, next, V());
      var t, i;
      t, i, k := FreeInNew(next, secs);
      assert (ch + [next])[..|ch|] == ch;
      SlotOffset(i);
      return true, g.ClusterToLba(next) + t, 32 * i, k, t, next;
    }

    /** fat.c:153-180: the first free slot of the directory with chain `ch`; a full directory grows by
        the cluster `nc`. */
    method DirAllocSlot(dirCl: int, ghost ch: seq<int>)
      returns (ok: bool, lba: int, off: int, ghost k: int, ghost j: int, ghost s: int, ghost nc: int)
      requires Mounted() && IsChain(V().fat, ch) && ch[0] == dirCl
      modifies this`disk, sector
      ensures Mounted()
      ensures !ok ==> disk == old(disk) && Taken(SlotsOf(Flat(V().clus, ch)), 16 * |Flat(V().clus, ch)|)
                      && forall x :: 3 <= x < g.total + 2 ==> V().fat[x] != 0
      ensures ok && nc == 0 ==> disk == old(disk) && At(g, V(), ch, k, j, s, lba, off)
                                && FirstFree(SlotsOf(Flat(V().clus, ch)), k)
      ensures ok && nc != 0 ==> && Extended(g, old(V()), ch[|ch| - 1], nc, V())
                                && Taken(SlotsOf(Flat(old(V()).clus, ch)), 16 * |Flat(old(V()).clus, ch)|)
                                && At(g, V(), ch + [nc], k, j, s, lba, off)
                                && FirstFree(SlotsOf(Flat(V().clus, ch + [nc])), k)
    {
      hide View, SlotsOf, Flat, Taken, FirstFree, Extended, Geometry.ClusterToLba;
      ghost var v := V();
      ghost var secs := Flat(v.clus, ch);
      var cur, t, i;
      cur, t, i, j, k := FreeInChain(dirCl, ch, v, secs);
      if t < g.spc {
        return true, g.ClusterToLba(cur) + t, 32 * i, k, j, t, 0;
      }
      assert V() == v;
      hide At;
      j := |ch|;
      ok, lba, off, k, s, nc := GrowForSlot(cur, ch);
      if !ok {
        assert V() == v;
      }
    }

    // ---- file data ------------------------------------------------------------------------------

    /** fat.c:484-497: fills cluster `c` with the next bytes of `data` and zeros behind its end. */
    method FillCluster(c: int, data: seq<Byte>, from: int) returns (done: int)
      requires Mounted() && 2 <= c < g.total + 2 && 0 <= from < |data|
      modifies this`disk, sector
      ensures Mounted() && V().fat == old(V()).fat
      ensures forall x :: 0 <= x < g.total + 2 && x != c ==> V().clus[x] == old(V()).clus[x]
      ensures Holds(V().clus[c], data, from)
      ensures from < done <= |data| && done <= from + 512 * g.spc && (done < |data| ==> done == from + 512 * g.spc)
    {
      hide View;
      done := from;
      var s := 0;
      while s < g.spc
        invariant 0 <= s <= g.spc && Mounted() && V().fat == old(V()).fat
        invariant forall x :: 0 <= x < g.total + 2 && x != c ==> V().clus[x] == old(V()).clus[x]
        invariant Holds(V().clus[c][..s], data, from)
        invariant done == from + 512 * s < |data|
      {
        ghost var before := V();
        ClearBuffer();
        var chunk := if |data| - done > 512 then 512 else |data| - done;
        for i := 0 to chunk
          invariant Mounted() && V() == before
          invariant forall x :: 0 <= x < 512 ==> sector[x] == if x < i then data[done + x] else 0
        {
          sector[i] := data[done + i];
        }
        ghost var v := V();
        WriteCluster(c, s);
        HoldsNext(v.clus[c], V().clus[c], s, data, from);
        done := done + chunk;
        if done == |data| {
          ghost var w := V();
          ZeroCluster(c, s + 1);
          HoldsZeros(V().clus[c], s + 1, data, from);
          return;
        }
        s := s + 1;
      }
      assert V().clus[c][..g.spc] == V().clus[c];
    }

    lemma HoldsNext(secs: seq<Sector>, secs': seq<Sector>, s: int, data: seq<Byte>, from: int)
      requires 0 <= s < |secs| == |secs'| && 0 <= from && Holds(secs[..s], data, from)
      requires forall y :: 0 <= y < |secs| && y != s ==> secs'[y] == secs[y]
      requires SectorHolds(secs'[s], data, from + 512 * s)
      ensures Holds(secs'[..s + 1], data, from)
    {
      forall q | 0 <= q < s + 1 ensures SectorHolds(secs'[..s + 1][q], data, from + 512 * q) {
        if q < s { assert SectorHolds(secs[..s][q], data, from + 512 * q); }
      }
    }

    lemma HoldsZeros(secs: seq<Sector>, n: int, data: seq<Byte>, from: int)
      requires 0 <= n <= |secs| && 0 <= from && Holds(secs[..n], data, from) && ZeroFrom(secs, n)
      requires |data| <= from + 512 * n
      ensures Holds(secs, data, from)
    {
      forall q | 0 <= q < |secs| ensures SectorHolds(secs[q], data, from + 512 * q) {
        if q < n { assert SectorHolds(secs[..n][q], data, from + 512 * q); } else { assert AllZero(secs[q]); }
      }
    }

    /** fat.c:479-483: claims the lowest free cluster and links it behind the chain so far. */
    method NextCluster(prev: int, ghost ch: seq<int>) returns (c: int)
      requires Mounted() && (if ch == [] then prev == 0 else IsChain(V().fat, ch) && prev == ch[|ch| - 1])
      modifies this`disk, sector
      ensures Mounted() && V().clus == old(V()).clus
      ensures c == 0 ==> disk == old(disk) && forall x :: 3 <= x < g.total + 2 ==> V().fat[x] != 0
      ensures c != 0 ==>
                && 3 <= c < g.total + 2 && old(V()).fat[c] == 0 && c !in ch
                && IsChain(V().fat, ch + [c]) && Zeros(V().fat) == Zeros(old(V()).fat) - 1
                && forall x :: 0 <= x < g.total + 2 && x !in ch + [c] ==> V().fat[x] == old(V()).fat[x]
    {
      hide View;
      ghost var fat := V().fat;
      c := FatAllocCluster();
      if c == 0 { return; }
      assert c % MASK28 == c;
      if prev != 0 {
        FatSet(prev, c);
        assert V().fat == fat[c := 0x0FFF_FFFF][prev := c];
      }
      ChainStep(fat, fat, ch, c, V().fat);
    }

    /** fat.c:473-500 for a non-empty file: the bytes go to a fresh chain, exactly as long as needed;
        when clusters run out, what was linked so far stays behind. */
    method WriteData(data: seq<Byte>) returns (ok: bool, first: int, ghost ch: seq<int>)
      requires Mounted() && data != []
      modifies this`disk, sector
      ensures Mounted() && Untouched(old(V()), V(), ch) && Zeros(V().fat) == Zeros(old(V()).fat) - |ch|
      ensures ch != [] ==> IsChain(V().fat, ch) && first == ch[0]
      ensures ok ==> && ch != [] && Holds(Flat(V().clus, ch), data, 0)
                     && 512 * (|Flat(V().clus, ch)| - g.spc) < |data| <= 512 * |Flat(V().clus, ch)|
      ensures !ok ==> && (forall x :: 3 <= x < g.total + 2 ==> V().fat[x] != 0)
                      && Within(|V().clus|, ch) && 512 * |Flat(V().clus, ch)| < |data|
    {
      hide View, Holds, Flat, IsChain;
      var prev, done := 0, 0;
      first, ch := 0, [];
      FlatNothing(V().clus, data);
      while done < |data|
        invariant Mounted() && Untouched(old(V()), V(), ch) && Zeros(V().fat) == Zeros(old(V()).fat) - |ch|
        invariant if ch == [] then first == prev == done == 0
                  else first != 0 && IsChain(V().fat, ch) && first == ch[0] && prev == ch[|ch| - 1]
        invariant Within(|V().clus|, ch) && Holds(Flat(V().clus, ch), data, 0)
        invariant 0 <= done <= |data| && done <= 512 * |Flat(V().clus, ch)|
        invariant done < |data| ==> done == 512 * |Flat(V().clus, ch)|
        invariant ch != [] ==> 512 * (|Flat(V().clus, ch)| - g.spc) < done
      {
        ghost var v := V();
        var c := NextCluster(prev, ch);
        if c == 0 { return false, first, ch; }
        if first == 0 { first := c; }
        done := FillCluster(c, data, done);
        DataStep(v, V(), ch, c, data);
        ch := ch + [c];
        prev := c;
      }
      ok := true;
    }

    lemma FlatNothing(clus: seq<seq<Sector>>, data: seq<Byte>)
      ensures Flat(clus, []) == [] && Holds([], data, 0)
    {
    }

    lemma DataStep(v: Vol, v': Vol, ch: seq<int>, c: int, data: seq<Byte>)
      requires 0 <= c < |v.clus| == |v'.clus| && c !in ch && Within(|v.clus|, ch)
      requires forall x :: 0 <= x < |v.clus| && x != c ==> v'.clus[x] == v.clus[x]
      requires Holds(Flat(v.clus, ch), data, 0) && Holds(v'.clus[c], data, 512 * |Flat(v.clus, ch)|)
      ensures Within(|v'.clus|, ch + [c]) && Holds(Flat(v'.clus, ch + [c]), data, 0)
      ensures |Flat(v'.clus, ch + [c])| == |Flat(v.clus, ch)| + |v'.clus[c]|
    {
      FlatFrame(v.clus, v'.clus, ch);
      FlatConcat(v'.clus, ch, [c]);
      FlatOne(v'.clus, c);
      HoldsConcat(Flat(v.clus, ch), v'.clus[c], data);
    }

    /** fat.c:422-432, 502-512 and 558-560: rewrites one slot in place through the sector buffer. */
    method PutEntry(lba: int, off: int, s: Slot, ghost c: int, ghost sx: int)
      requires Mounted() && 2 <= c < g.total + 2 && 0 <= sx < g.spc && lba == g.ClusterToLba(c) + sx
      requires 0 <= off < 512 && off % 32 == 0
      modifies this`disk, sector
      ensures Mounted() && Rewritten(g, old(V()), c, sx, off / 32, s, V())
    {
      ClusterInData(g, |disk|, c);
      ReadAbs(lba);
      ghost var sec: Sector := sector[..];
      assert sec == V().clus[c][sx];
      hide View;
      forall i | 0 <= i < 32 { sector[off + i] := s[i]; }
      assert sector[..] == PutSlot(sec, off / 32, s);
      ViewDataSet(g, disk, c, sx, sector[..], disk[lba := sector[..]]);
      WriteAbs(lba);
    }

    /** fat.c:450-451: appends bytes of the sector in the buffer until `limit`. */
    method TakeSector(out: seq<Byte>, limit: int, ghost secs: seq<Sector>, ghost q: int) returns (out': seq<Byte>)
      requires sector.Length == 512 && 0 <= q < |secs| && sector[..] == secs[q]
      requires |out| == 512 * q < limit && out == Data(secs)[..|out|]
      ensures |out'| == if limit <= 512 * q + 512 then limit else 512 * q + 512
      ensures out' == Data(secs)[..|out'|]
    {
      out' := out;
      var i := 0;
      while i < 512 && |out'| < limit
        invariant 0 <= i <= 512 && |out'| == 512 * q + i <= limit && out' == Data(secs)[..|out'|]
      {
        assert Data(secs)[512 * q + i] == secs[q][i];
        out' := out' + [sector[i]];
        i := i + 1;
      }
    }

    /** fat.c:448-452: one cluster of the file whose sectors are `secs`. */
    method TakeCluster(c: int, out: seq<Byte>, limit: int, ghost secs: seq<Sector>, ghost before: int)
      returns (out': seq<Byte>)
      requires Mounted() && 2 <= c < g.total + 2 && 0 <= before && before + g.spc <= |secs|
      requires secs[before..before + g.spc] == V().clus[c]
      requires |out| == 512 * before < limit && out == Data(secs)[..|out|]
      modifies sector
      ensures |out'| == (if limit <= 512 * (before + g.spc) then limit else 512 * (before + g.spc))
      ensures out' == Data(secs)[..|out'|]
    {
      hide View, Data;
      out' := out;
      var s := 0;
      while s < g.spc && |out'| < limit
        invariant 0 <= s <= g.spc && |out'| <= 512 * |secs| && out' == Data(secs)[..|out'|]
        invariant |out'| == if limit <= 512 * (before + s) then limit else 512 * (before + s)
      {
        ReadCluster(c, s);
        assert secs[before + s] == secs[before..before + g.spc][s];
        out' := TakeSector(out', limit, secs, before + s);
        s := s + 1;
      }
    }

    /** fat.c:444-454: the bytes of a chain, up to the recorded size and the caller's limit. */
    method ReadData(cl: int, size: int, maxlen: int, ghost ch: seq<int>) returns (out: seq<Byte>)
      requires Mounted() && 0 <= size && 0 <= maxlen
      requires if cl < 2 then ch == [] else IsChain(V().fat, ch) && ch[0] == cl
      modifies sector
      ensures Within(|V().clus|, ch)
      ensures out == Prefix(Prefix(Data(Flat(V().clus, ch)), size), maxlen)
    {
      hide View, Data;
      ghost var v := V();
      ghost var secs := Flat(v.clus, ch);
      var limit := if size < maxlen then size else maxlen;
      var cur := cl;
      ghost var j := 0;
      out := [];
      while 2 <= cur < EOC && |out| < limit
        invariant 0 <= j <= |ch| && |out| <= limit && |out| <= 512 * |secs| && out == Data(secs)[..|out|]
        invariant |out| < limit ==> |out| == 512 * |Flat(v.clus, ch[..j])|
        invariant if j < |ch| then cur == ch[j] else cur < 2 || EOC <= cur
        invariant j == |ch| && |out| < limit ==> |out| == 512 * |secs|
        decreases |ch| - j
      {
        FlatWindow(v.clus, ch, j);
        out := TakeCluster(cur, out, limit, secs, |Flat(v.clus, ch[..j])|);
        cur := FatGet(cur);
        j := j + 1;
      }
    }

    // ---- paths ------------------------------------------------------------------------------------

    /** The mounted state between operations: every chain is accounted for. */
    ghost predicate Steady()
      reads this
    {
      Mounted() && Sound(g, V(), forest, 0, 0)
    }

    ghost predicate Valid()
      reads this
    {
      Steady() && cwd in forest && forest[cwd].isDir
    }

    /** Where a path leads from the current directory. */
    ghost function Resolved(path: seq<Byte>): Option<(int, seq<Byte>)>
      requires Valid()
      reads this
    {
      SoundRoot(g, V(), forest, 0, 0);
      Resolve(g, V(), forest, cwd, path)
    }

    /** fat.c:185-227. */
    method ResolveParent(path: seq<Byte>) returns (ok: bool, parent: int, name: seq<Byte>)
      requires Valid() && 0 !in path
      modifies sector
      ensures Valid() && ok == Resolve(g, V(), forest, cwd, path).Some?
      ensures ok ==> Resolve(g, V(), forest, cwd, path) == Some((parent, name))
      ensures ok ==> parent in forest && forest[parent].isDir && 0 !in name
    {
      ghost var v, f := V(), forest;
      var cl, pos := cwd, 0;
      if path != [] && IsSlash(path[0]) {
        cl, pos := g.root, 1;
        assert Tokens(path[1..]) == Tokens(path);
      } else {
        assert path[0..] == path;
      }
      TokensNoNul(path);
      ResolveSound(g, v, f, cl, Tokens(path));
      hide View, Sound, Name83, SlotsOf, Look;
      ok, parent, name := WalkPath(path, cl, pos);
    }

    /** The loop of fat.c:194-226. */
    method WalkPath(path: seq<Byte>, start: int, from: nat) returns (ok: bool, parent: int, name: seq<Byte>)
      requires Steady() && 0 !in path && from <= |path| && start in forest && forest[start].isDir
      modifies sector
      ensures Steady()
      ensures var r := ResolveFrom(g, V(), forest, start, Tokens(path[from..]));
              ok == r.Some? && (ok ==> r == Some((parent, name)))
    {
      hide View, Sound, Name83, SlotsOf, Look, Span;
      ghost var v, f := V(), forest;
      SoundDir(g, v, f, 0, 0, start);
      var cl, pos := start, from;
      ghost var goal := ResolveFrom(g, v, f, start, Tokens(path[from..]));
      while pos < |path|
        invariant pos <= |path| && cl in f && f[cl].isDir
        invariant ResolveFrom(g, v, f, cl, Tokens(path[pos..])) == goal
        decreases |path| - pos
      {
        var q := SkipSlash(path, pos);
        if q == |path| {
          assert Tokens(path[pos..]) == [];
          return true, cl, [];
        }
        ghost var rest := path[q..];
        var q', part := TakePart(path, q);
        ghost var toks := Tokens(path[q'..]);
        TokensStep(path, pos, q, q');
        var peek := SkipSlash(path, q');
        if peek == |path| {
          assert toks == [];
          return true, cl, part;
        }
        assert toks != [];
        assert [part][0] == part && ([part] + toks)[1..] == toks;
        pos := q';
        if part == [DOT] {
        } else if part == [DOT, DOT] {
          cl := g.root;
        } else {
          var ok, next := FindDir(cl, part);
          if !ok { return false, 0, []; }
          cl := next;
        }
      }
      return true, cl, [];
    }

    lemma TokensStep(path: seq<Byte>, pos: nat, q: nat, q': nat)
      requires pos <= q < |path| && path[q..] == SkipSlashes(path[pos..])
      requires q' == q + Span(path[q..], 15, false) <= |path|
      ensures q < q' && Tokens(path[pos..]) == [path[q..q']] + Tokens(path[q'..])
    {
      hide Span;
      SpanStep(path, q, 15, false);
      assert path[q..][q' - q..] == path[q'..];
      assert path[q..][..q' - q] == path[q..q'];
    }

    /** fat.c:219-222: an intermediate component that is neither "." nor "..". */
    method FindDir(cl: int, part: seq<Byte>) returns (ok: bool, next: int)
      requires Steady() && cl in forest && forest[cl].isDir && 0 !in part && part != [DOT] && part != [DOT, DOT]
      modifies sector
      ensures Steady() && ok == Step(g, V(), forest, cl, part).Some?
      ensures ok ==> Step(g, V(), forest, cl, part) == Some(next) && next in forest && forest[next].isDir
    {
      hide View, Sound, Name83, SlotsOf;
      SoundDir(g, V(), forest, 0, 0, cl);
      StepSound(g, V(), forest, cl, part);
      var found, e, lba, off, k, j, s := DirFind(cl, part, forest[cl].chain);
      if !found || !IsDir(e) { return false, 0; }
      return true, First(e);
    }

    // ---- fat_read_file ----------------------------------------------------------------------------

    /** fat.c:440-457 with fat.c:229-247: the bytes of the file that the path names. */
    method ReadFile(path: seq<Byte>, maxlen: int) returns (r: int, out: seq<Byte>)
      requires Valid() && 0 !in path && 0 <= maxlen
      modifies sector
      ensures Valid()
      ensures var e := Target(g, V(), forest, cwd, path);
              if e.None? || IsDir(e.value) then r == -1 && out == []
              else r == |out| && out == Prefix(FileBytes(V(), forest, e.value), maxlen)
    {
      hide View, Sound, Name83, SlotsOf, Resolve, Find, Lookup;
      var ok, p, last := ResolveParent(path);
      if !ok || last == [] { return -1, []; }
      ghost var f := forest;
      SoundDir(g, V(), f, 0, 0, p);
      var found, e, lba, off, k, j, s := DirFind(p, last, f[p].chain);
      if !found || IsDir(e) { return -1, []; }
      Name83Start(last);
      LookSound(g, V(), f, p, Name83(last), k);
      ghost var ch := if First(e) < 2 then [] else f[First(e)].chain;
      out := ReadData(First(e), Size(e), maxlen, ch);
      r := |out|;
    }

    // ---- fat_write_file ---------------------------------------------------------------------------

    /** fat.c:502-512: the slot for data that is already in its clusters. */
    method CommitFile(p: int, last: seq<Byte>, size: int, first: int, lba: int, off: int, ghost k: int, ghost j: int,
                      ghost sx: int,
                      ghost v: Vol, ghost f: Forest, ghost gone: set<int>, ghost grown: seq<Slot>, ghost ch: seq<int>,
                      ghost data: seq<Byte>)
      returns (ghost s: Slot)
      requires Mounted() && size == |data| < TWO32 && (ch == [] <==> data == [])
      requires first == (if ch == [] then 0 else ch[0])
      requires Ready(g, v, f, V(), forest, p, k, Name83(last), gone, Made(ch), grown) && p !in Made(ch) && p in forest
      requires 0 <= off < 512 && off % 32 == 0 && Spot(g, V(), forest[p].chain, k, j, sx, off / 32)
      requires 2 <= forest[p].chain[j] < g.total + 2 && 0 <= sx < g.spc
      requires lba == g.ClusterToLba(forest[p].chain[j]) + sx
      requires ch != [] ==>
                 && 2 <= ch[0] < TWO32 && ch[0] in forest && forest[ch[0]] == Node(ch, false, p, k, forest[p].depth + 1)
                            && Holds(Sectors(V(), forest, ch[0]), data, 0)
                            && |data| <= 512 * |Sectors(V(), forest, ch[0])|
      modifies this`disk, sector
      ensures Mounted() && V().fat == old(V()).fat && s == FileSlot(Name83(last), first, size)
      ensures Changed(g, v, f, V(), forest, p, k, Name83(last), s, gone, Made(ch), grown)
      ensures OthersSame(v, f, V(), forest, p, Name83(last), gone)
      ensures Look(V(), forest, p, Name83(last)) == (if Name83(last)[0] == DELETED then None else Some(s))
      ensures FileBytes(V(), forest, s) == data
    {
      hide View, Sound, Name83, SlotsOf, Holds, Data, Ready, Changed, OthersSame, Look, FileBytes, FileSlot, Sectors;
      ghost var v2 := V();
      var n83 := To83(last);
      var e := FileSlot(n83, first, size);
      s := e;
      PutEntry(lba, off, e, forest[p].chain[j], sx);
      FinishFile(g, v, f, v2, forest, p, k, n83, gone, ch, grown, j, sx, off / 32, data, s, V());
    }

    /** fat.c:473-512: the data, then the slot, once the slot's place is known and free to be used. */
    method StoreFile(p: int, last: seq<Byte>, data: seq<Byte>, lba: int, off: int, ghost k: int, ghost j: int,
                     ghost sx: int,
                     ghost v: Vol, ghost f: Forest, ghost gone: set<int>, ghost grown: seq<Slot>)
      returns (ok: bool, ghost ch: seq<int>, ghost s: Slot)
      requires Mounted() && |data| < TWO32
      requires Ready(g, v, f, V(), forest, p, k, Name83(last), gone, {}, grown)
      requires At(g, V(), forest[p].chain, k, j, sx, lba, off)
      modifies this`disk, this`forest, sector
      ensures Mounted()
      ensures !ok ==> && forest == old(forest) && Untouched(old(V()), V(), ch) && (ch != [] ==> IsChain(V().fat, ch))
                      && forall x :: 3 <= x < g.total + 2 ==> V().fat[x] != 0
      ensures ok ==> s == FileSlot(Name83(last), First(s), |data|)
      ensures ok ==> && Changed(g, v, f, V(), forest, p, k, Name83(last), s, gone, Made(ch), grown)
                     && OthersSame(v, f, V(), forest, p, Name83(last), gone)
                     && Look(V(), forest, p, Name83(last)) == (if Name83(last)[0] == DELETED then None else Some(s))
                     && FileBytes(V(), forest, s) == data
      ensures ok ==> Zeros(V().fat) == Zeros(old(V()).fat) - ClustersFor(g, |data|)
      ensures ok <==> ClustersFor(g, |data|) <= Spare(old(V()).fat)
      ensures !ok ==> Spare(V().fat) == 0 && Low(V().fat) == Low(old(V()).fat)
    {
      hide View, Sound, Name83, SlotsOf, Holds, Data, Ready, Changed, OthersSame, Look, Zeros, ClustersFor, FileSlot,
        Flat, Spare, Low;
      ReadyParent(g, v, f, V(), forest, p, k, Name83(last), gone, {}, grown);
      ghost var v1, f1 := V(), forest;
      var first := 0;
      ch, s := [], seq(32, _ => 0);
      if data != [] {
        ok, first, ch := WriteData(data);
        if !ok {
          TooFew(g, V(), ch, |data|);
          StoredExactly(g, v1, V(), ch, |data|, false);
          return;
        }
      }
      ghost var v2 := V();
      ReadyData(g, v, f, v1, f1, p, k, Name83(last), gone, grown, v2, ch);
      ChainSize(g, v2, ch, |data|);
      StoredExactly(g, v1, v2, ch, |data|, true);
      forest := Adopted(f1, ch, false, p, k);
      s := CommitFile(p, last, |data|, first, lba, off, k, j, sx, v, f, gone, grown, ch, data);
      ok := true;
    }

    lemma NoneLeft(g: Geometry, v: Vol, f: Forest, p: int, name: Name, len: int)
      requires Sound(g, v, f, 0, 0) && p in f && f[p].isDir && Look(v, f, p, name).None? && 0 <= len && |v.fat| >= 3
      requires Taken(Slots(v, f, p), 16 * |Sectors(v, f, p)|) && forall x :: 3 <= x < |v.fat| ==> v.fat[x] != 0
      ensures !Enough(g, v, f, p, name, len) && Drained(v, f, p, name, v)
    {
      LowZeros(v.fat);
      assert 0 <= ClustersFor(g, len);
    }

    lemma SlotSpare(g: Geometry, v: Vol, f: Forest, p: int, k: int, name: Name, nc: int, v1: Vol, len: int)
      requires Sound(g, v, f, 0, 0) && p in f && f[p].isDir && Look(v, f, p, name).None? && |v.fat| >= 3
      requires if nc == 0 then v1 == v && FirstFree(Slots(v, f, p), k)
               else Taken(Slots(v, f, p), 16 * |Sectors(v, f, p)|)
      requires nc != 0 ==> Extended(g, v, f[p].chain[|f[p].chain| - 1], nc, v1)
      ensures |v1.fat| >= 3 && (Enough(g, v, f, p, name, len) <==> ClustersFor(g, len) <= Spare(v1.fat))
      ensures Low(v1.fat) == Low(v.fat) && ExtraFor(v, f, p, name) == if nc == 0 then 0 else 1
    {
      hide ClustersFor, Enough, Spare, Low, ExtraFor;
      EnoughNew(g, v, f, p, name, nc, v1, len);
    }

    /** write_file for a name that directory `p` does not have (fat.c:469-512). */
    method WriteNew(p: int, last: seq<Byte>, data: seq<Byte>) returns (ok: bool, ghost extra: int)
      requires Steady() && p in forest && forest[p].isDir && 0 !in last && |data| < TWO32
      requires Look(V(), forest, p, Name83(last)).None?
      modifies this`disk, this`forest, sector
      ensures Steady() && ChainsOk(V(), forest)
      ensures ok ==> Written(g, old(V()), old(forest), V(), forest, p, Name83(last), data, extra)
      ensures !ok ==> OthersSame(old(V()), old(forest), V(), forest, p, Name83(last), {})
                      && forest.Keys == old(forest).Keys
                      && forall h :: h in forest ==> forest[h].isDir == old(forest)[h].isDir
      ensures ok <==> old(Enough(g, V(), forest, p, Name83(last), |data|))
      ensures !ok ==> Drained(old(V()), old(forest), p, Name83(last), V())
    {
      hide View, Sound, Name83, SlotsOf, Written, OthersSame, Ready, Changed, Look, At, FirstFree, Extended, Taken,
        Enough, Full, Spare, Low, ExtraFor, ClustersFor;
      ghost var v, f := V(), forest;
      SoundDir(g, v, f, 0, 0, p);
      Name83Start(last);
      extra := 0;
      var lba, off; ghost var k, j, s, nc;
      ok, lba, off, k, j, s, nc := DirAllocSlot(p, f[p].chain);
      if !ok {
        SameOthers(v, f, p, Name83(last));
        NoneLeft(g, v, f, p, Name83(last), |data|);
        return;
      }
      extra := if nc == 0 then 0 else 1;
      forest := MaybeGrown(f, p, nc);
      ghost var v1 := V();
      SlotSpare(g, v, f, p, k, Name83(last), nc, v1, |data|);
      AtChain(g, v1, forest[p].chain, k, j, s, lba, off);
      ghost var grown := NewReady(g, v, f, p, nc, v1, k, Name83(last));
      ok := WriteFresh(p, last, data, lba, off, k, j, s, v, f, grown, extra);
      if ok { WrittenSound(g, v, f, V(), forest, p, Name83(last), data, extra); }
    }

    /** fat.c:473-512, once a free slot is found. */
    method WriteFresh(p: int, last: seq<Byte>, data: seq<Byte>, lba: int, off: int, ghost k: int, ghost j: int,
                      ghost s: int,
                      ghost v: Vol, ghost f: Forest, ghost grown: seq<Slot>, ghost extra: int)
      returns (ok: bool)
      requires Mounted() && |data| < TWO32 && ChainsOk(V(), forest) && p in forest && p in f
      requires Ready(g, v, f, V(), forest, p, k, Name83(last), {}, {}, grown)
      requires 0 <= k < |Slots(V(), forest, p)| && !Live(Slots(V(), forest, p)[k])
      requires At(g, V(), forest[p].chain, k, j, s, lba, off) && Look(v, f, p, Name83(last)).None?
      requires extra == ExtraFor(v, f, p, Name83(last)) && Zeros(V().fat) == Zeros(v.fat) - extra
      modifies this`disk, this`forest, sector
      ensures Mounted() && (ok <==> ClustersFor(g, |data|) <= Spare(old(V()).fat))
      ensures ok ==> Written(g, v, f, V(), forest, p, Name83(last), data, extra)
      ensures !ok ==> forest == old(forest) && Sound(g, V(), forest, 0, 0) && ChainsOk(V(), forest)
                      && OthersSame(v, f, V(), forest, p, Name83(last), {})
      ensures !ok ==> Spare(V().fat) == 0 && Low(V().fat) == Low(old(V()).fat)
    {
      hide View, Sound, Name83, SlotsOf, Written, OthersSame, Ready, Changed, Look, At, Spare, Low, ClustersFor, Zeros,
        ExtraFor;
      ghost var v1 := V();
      ghost var ch, e;
      ok, ch, e := StoreFile(p, last, data, lba, off, k, j, s, v, f, {}, grown);
      if ok {
        WrittenFrom(g, v, f, V(), forest, p, k, Name83(last), e, {}, ch, grown, data, extra);
      } else {
        AbortNewData(g, v, f, v1, forest, p, k, Name83(last), grown, V(), ch);
        SoundChains(g, V(), forest);
      }
    }

    lemma SoundChains(g: Geometry, v: Vol, f: Forest)
      requires Sound(g, v, f, 0, 0)
      ensures ChainsOk(v, f)
    {
    }

    /** write_file for a name that directory `p` has as a file (fat.c:468 and 473-512).  Running out of
        clusters midway leaves every chain accounted for, except that a file which began at cluster 2,
        the one cluster fat_alloc_cluster never hands out, is left naming a free cluster. */
    method WriteOld(p: int, last: seq<Byte>, data: seq<Byte>, e: Slot, lba: int, off: int, ghost k: int, ghost j: int,
                    ghost s: int)
      returns (ok: bool)
      requires Steady() && p in forest && forest[p].isDir && 0 !in last && |data| < TWO32
      requires At(g, V(), forest[p].chain, k, j, s, lba, off) && !IsDir(e)
      requires k == Find(SlotsOf(Flat(V().clus, forest[p].chain)), Name83(last), 0) >= 0
      requires e == SlotsOf(Flat(V().clus, forest[p].chain))[k]
      modifies this`disk, this`forest, sector
      ensures Mounted() && ChainsOk(V(), forest)
      ensures ok ==> Written(g, old(V()), old(forest), V(), forest, p, Name83(last), data, 0)
      ensures !ok ==> OthersSame(old(V()), old(forest), V(), forest, p, Name83(last), {})
      ensures ok <==> old(Enough(g, V(), forest, p, Name83(last), |data|))
      ensures !ok ==> Drained(old(V()), old(forest), p, Name83(last), V())
      ensures !ok && First(e) != 2 ==> Steady()
      ensures !ok && First(e) == 2 ==>
                && V().fat[2] == 0 && p in forest && forest[p].isDir
                && 0 <= k < |Slots(V(), forest, p)| && Slots(V(), forest, p)[k] == e
    {
      hide View, Sound, Name83, SlotsOf, Written, OthersSame, Ready, Changed, Look, At, Find, Freed, Flat, Enough,
        Spare, Low, TwoOf, ClustersFor, IsChain, Zeros;
      ghost var v, f := V(), forest;
      SoundDir(g, v, f, 0, 0, p);
      Name83Start(last);
      var h := First(e);
      OldReady(g, v, f, p, k, Name83(last), e);
      ghost var gone := if h < 2 then {} else {h};
      if h >= 2 { FatFreeChain(h); }
      ghost var v1 := V();
      forest := f - gone;
      EnoughOld(g, v, f, p, k, Name83(last), e, v1, |data|);
      ReadyParent(g, v, f, v1, forest, p, k, Name83(last), gone, {}, []);
      AtFrame(g, v, v1, f[p].chain, k, j, s, lba, off);
      ghost var ch, slot;
      ok, ch, slot := StoreFile(p, last, data, lba, off, k, j, s, v, f, gone, []);
      if ok {
        WrittenFrom(g, v, f, V(), forest, p, k, Name83(last), slot, gone, ch, [], data, 0);
        WrittenSound(g, v, f, V(), forest, p, Name83(last), data, 0);
      } else {
        forest := WriteAborted(g, v, f, v1, f - gone, p, k, Name83(last), e, V(), ch);
      }
    }

    /** What fat_write_file turns down before it writes anything (fat.c:460-467). */
    ghost predicate WriteRejected(path: seq<Byte>, data: seq<Byte>)
      requires Valid()
      reads this
    {
      SoundDir(g, V(), forest, 0, 0, cwd);
      || path == [] || |data| > 512 * 64
      || Resolve(g, V(), forest, cwd, path).None?
      || var (p, last) := Resolve(g, V(), forest, cwd, path).value;
         var e := if p in forest then Look(V(), forest, p, Name83(last)) else None;
         last == [] || p !in forest || (e.Some? && IsDir(e.value))
    }

    /** fat.c:459-520.  `cl` is the first cluster of the file that was to be replaced, 0 if there was none.
        A write that fails leaves the mounted state intact unless that cluster was 2. */
    method WriteFile(path: seq<Byte>, data: seq<Byte>) returns (r: int, cl: int, ghost extra: int)
      requires Valid() && 0 !in path
      modifies this`disk, this`forest, sector
      ensures Mounted() && ChainsOk(V(), forest) && (r == -1 || r == |data|)
      ensures old(WriteRejected(path, data)) ==> r == -1 && cl == 0 && disk == old(disk) && forest == old(forest)
      ensures Valid() <==> r != -1 || cl != 2
      ensures !old(WriteRejected(path, data)) ==>
                var (p, last) := old(Resolve(g, V(), forest, cwd, path)).value;
                var e := old(Look(V(), forest, p, Name83(last)));
                && (r == |data| <==> old(Enough(g, V(), forest, p, Name83(last), |data|)))
                && (r == |data| ==> Written(g, old(V()), old(forest), V(), forest, p, Name83(last), data, extra))
                && (r == -1 ==> OthersSame(old(V()), old(forest), V(), forest, p, Name83(last), {}))
                && (r == -1 ==> Drained(old(V()), old(forest), p, Name83(last), V()))
                && (r == -1 && cl == 2 ==> Dangling(V(), forest, p)) && cl == if e.Some? then First(e.value) else 0
    {
      hide View, Sound, Name83, SlotsOf, Written, OthersSame, At, Find, Flat, Resolve, Enough, Dangling, Drained;
      cl, extra := 0, 0;
      ghost var v, f := V(), forest;
      SoundDir(g, v, f, 0, 0, cwd);
      if path == [] || |data| > 512 * 64 { return -1, 0, 0; }
      var ok, p, last := ResolveParent(path);
      if !ok || last == [] { return -1, 0, 0; }
      SoundDir(g, v, f, 0, 0, p);
      var found, e, lba, off, k, j, s := DirFind(p, last, f[p].chain);
      if found && IsDir(e) { return -1, 0, 0; }
      if found {
        cl := First(e);
        ok := WriteOld(p, last, data, e, lba, off, k, j, s);
        if !ok && First(e) == 2 {
          Name83Start(last);
          StillDangling(g, v, f, V(), forest, p, k, Name83(last), e);
        }
      } else {
        ok, extra := WriteNew(p, last, data);
      }
      if ok {
        WrittenSound(g, v, f, V(), forest, p, Name83(last), data, extra);
      } else {
        StillThere(v, f, V(), forest, p, Name83(last), {}, cwd);
      }
      r := if ok then |data| else -1;
    }

    // ---- fat_mkdir ------------------------------------------------------------------------------------

    /** fat.c:399-418: "." and ".." in the first sector of cluster `c`, zeros in the rest. */
    method FillDir(c: int, parent: int)
      requires Mounted() && 2 <= c < g.total + 2 && 0 <= parent < TWO32
      modifies this`disk, sector
      ensures Mounted() && V().fat == old(V()).fat
      ensures forall x :: 0 <= x < g.total + 2 && x != c ==> V().clus[x] == old(V()).clus[x]
      ensures FreshDir(V().clus[c], c, parent)
    {
      hide View;
      ClearBuffer();
      assert forall x :: 0 <= x < 512 ==> sector[x] == sector[..][x] == 0;
      var dot, dotdot := MakeSlot(DOT_NAME, ATTR_DIR, c, 0), MakeSlot(DOTDOT_NAME, ATTR_DIR, parent, 0);
      hide MakeSlot;
      forall i | 0 <= i < 32 { sector[i] := dot[i]; }
      forall i | 0 <= i < 32 { sector[32 + i] := dotdot[i]; }
      ghost var sec: Sector := sector[..];
      assert SlotAt(sec, 0) == dot && SlotAt(sec, 1) == dotdot;
      assert forall i :: 2 <= i < 16 ==> AllZero(SlotAt(sec, i));
      WriteCluster(c, 0);
      ghost var v := V();
      ZeroCluster(c, 1);
      assert V().clus[c][0] == V().clus[c][..1][0] == v.clus[c][..1][0] == sec;
    }

    ghost predicate MkdirRejected(path: seq<Byte>)
      requires Valid()
      reads this
    {
      SoundDir(g, V(), forest, 0, 0, cwd);
      || path == [] || Resolve(g, V(), forest, cwd, path).None?
      || var (p, last) := Resolve(g, V(), forest, cwd, path).value;
         last == [] || p !in forest || Look(V(), forest, p, Name83(last)).Some?
    }

    /** fat.c:389-438.  `c` is the new directory's cluster. */
    method Mkdir(path: seq<Byte>) returns (r: int, ghost c: int, ghost extra: int)
      requires Valid() && 0 !in path
      modifies this`disk, this`forest, sector
      ensures Valid() && (r == 0 || r == -1)
      ensures old(MkdirRejected(path)) ==> r == -1 && disk == old(disk) && forest == old(forest)
      ensures !old(MkdirRejected(path)) ==>
                var (p, last) := old(Resolve(g, V(), forest, cwd, path)).value;
                && (r == 0 <==> old(EnoughDir(V(), forest, p)))
                && (r == 0 ==> MadeDir(g, old(V()), old(forest), V(), forest, p, Name83(last), c, extra))
                && (r == -1 ==> forest == old(forest) && ChainsOk(V(), forest)
                                && OthersSame(old(V()), old(forest), V(), forest, p, Name83(last), {})
                                && Drained(old(V()), old(forest), p, Name83(last), V())
                                && Look(V(), forest, p, Name83(last)).None?)
    {
      hide View, Sound, Name83, SlotsOf, OthersSame, At, Find, Flat, Resolve, EnoughDir, Drained;
      c, extra := 0, 0;
      ghost var v, f := V(), forest;
      SoundDir(g, v, f, 0, 0, cwd);
      if path == [] { return -1, 0, 0; }
      var ok, p, last := ResolveParent(path);
      if !ok || last == [] { return -1, 0, 0; }
      SoundDir(g, v, f, 0, 0, p);
      var found, e, lba, off, k, j, s := DirFind(p, last, f[p].chain);
      if found { return -1, 0, 0; }
      ok, c, extra := MkdirIn(p, last);
      if ok { MadeDirSound(g, v, f, V(), forest, p, Name83(last), c, extra); }
      r := if ok then 0 else -1;
    }

    lemma NoDirLeft(v: Vol, f: Forest, p: int)
      requires |v.fat| >= 3 && ChainsOk(v, f) && p in f && forall x :: 3 <= x < |v.fat| ==> v.fat[x] != 0
      ensures !EnoughDir(v, f, p) && Spare(v.fat) == 0
    {
      LowZeros(v.fat);
    }

    /** fat.c:396-432, for a name that directory `p` does not have. */
    method MkdirIn(p: int, last: seq<Byte>) returns (ok: bool, ghost c: int, ghost extra: int)
      requires Steady() && p in forest && forest[p].isDir && 0 !in last
      requires Look(V(), forest, p, Name83(last)).None?
      modifies this`disk, this`forest, sector
      ensures Steady() && ChainsOk(V(), forest)
      ensures ok ==> MadeDir(g, old(V()), old(forest), V(), forest, p, Name83(last), c, extra)
      ensures !ok ==> forest == old(forest) && OthersSame(old(V()), old(forest), V(), forest, p, Name83(last), {})
                      && Look(V(), forest, p, Name83(last)).None?
                      && Drained(old(V()), old(forest), p, Name83(last), V())
      ensures ok <==> old(EnoughDir(V(), forest, p))
    {
      hide View, Sound, Name83, SlotsOf, OthersSame, Ready, Look, FirstFree, Extended, Taken, FreshDir, MadeDir, Flat,
        EnoughDir, Spare, Low, Full;
      ghost var v, f := V(), forest;
      SoundDir(g, v, f, 0, 0, p);
      Name83Start(last);
      c, extra := 0, 0;
      var newCl := FatAllocCluster();
      if newCl == 0 {
        SameOthers(v, f, p, Name83(last));
        NoDirLeft(v, f, p);
        return false, 0, 0;
      }
      c := newCl;
      FillDir(newCl, p);
      ghost var w := V();
      PreparedSound(g, v, f, c, p, w, Name83(last));
      SoundDir(g, w, f, 0, 0, p);
      var lba, off; ghost var k, j, s, nc;
      ok, lba, off, k, j, s, nc := DirAllocSlot(p, f[p].chain);
      MadeExactly(g, v, f, c, p, w, Name83(last), ok, k, nc, V());
      if !ok { return; }
      extra := if nc == 0 then 0 else 1;
      ghost var v1 := V();
      ghost var f1 := MaybeGrown(f, p, nc);
      AtChain(g, v1, f1[p].chain, k, j, s, lba, off);
      ghost var grown := DirReady(g, v, f, p, c, w, nc, v1, k, Name83(last));
      var n83 := To83(last);
      var e := DirSlot(n83, newCl);
      PutEntry(lba, off, e, f1[p].chain[j], s);
      MadeDirFrom(g, v, f, v1, f1, p, k, n83, grown, c, j, s, off / 32, e, V(), extra);
      forest := Adopted(f1, [c], true, p, k);
      SoundDir(g, V(), forest, 0, 0, p);
    }

    // ---- fat_unlink -----------------------------------------------------------------------------------

    /** The first `n` slots are all passed over by the emptiness check. */
    ghost predicate Passed(ss: seq<Slot>, n: int) {
      0 <= n <= |ss| && forall x :: 0 <= x < n ==> ss[x][0] != 0 && Idle(ss[x])
    }

    lemma PassedMore(secs: seq<Sector>, q: int, i: int)
      requires 0 <= q < |secs| && 0 <= i <= 16 && Passed(SlotsOf(secs), 16 * q)
      requires forall x :: 0 <= x < i ==> SlotAt(secs[q], x)[0] != 0 && Idle(SlotAt(secs[q], x))
      ensures Passed(SlotsOf(secs), 16 * q + i)
      ensures i < 16 ==> SlotsOf(secs)[16 * q + i] == SlotAt(secs[q], i)
    {
      forall x | 16 * q <= x < 16 * q + i ensures SlotsOf(secs)[x] == SlotAt(secs[q], x - 16 * q) {
        assert x / 16 == q && x % 16 == x - 16 * q;
      }
    }

    lemma PassedAll(ss: seq<Slot>, n: int)
      requires Passed(ss, n) && Tidy(ss)
      ensures n == |ss| || ss[n][0] == 0 ==> Vacant(ss)
      ensures n < |ss| && !Idle(ss[n]) ==> !Vacant(ss)
    {
      if n < |ss| && ss[n][0] == 0 {
        UsedIs(ss, n);
        forall x | 0 <= x < |ss| ensures Idle(ss[x]) { if n <= x { assert ss[x][0] == 0; } }
      }
    }

    /** fat.c:539-547 for one sector: stops at the first slot that is never-used or occupied. */
    method IdleInSector(c: int, t: int, ghost secs: seq<Sector>, ghost q: int) returns (i: int, e: Slot)
      requires Mounted() && 2 <= c < g.total + 2 && 0 <= t < g.spc && 0 <= q < |secs| && secs[q] == V().clus[c][t]
      requires Passed(SlotsOf(secs), 16 * q)
      modifies sector
      ensures 0 <= i <= 16 && Passed(SlotsOf(secs), 16 * q + i)
      ensures i < 16 ==> SlotsOf(secs)[16 * q + i] == e && (e[0] == 0 || !Idle(e))
    {
      hide View, SlotsOf;
      ReadCluster(c, t);
      i, e := 0, SlotAt(sector[..], 0);
      while i < 16
        invariant 0 <= i <= 16
        invariant forall x :: 0 <= x < i ==> SlotAt(secs[q], x)[0] != 0 && Idle(SlotAt(secs[q], x))
      {
        e := SlotAt(sector[..], i);
        if e[0] == 0 || !Idle(e) { break; }
        i := i + 1;
      }
      PassedMore(secs, q, i);
    }

    method IdleInCluster(c: int, ghost secs: seq<Sector>, ghost before: int) returns (t: int, e: Slot, ghost n: int)
      requires Mounted() && 2 <= c < g.total + 2 && 0 <= before && before + g.spc <= |secs|
      requires secs[before..before + g.spc] == V().clus[c] && Passed(SlotsOf(secs), 16 * before)
      modifies sector
      ensures 0 <= t <= g.spc && Passed(SlotsOf(secs), n) && (t == g.spc ==> n == 16 * (before + g.spc))
      ensures t < g.spc ==> n < |SlotsOf(secs)| && SlotsOf(secs)[n] == e && (e[0] == 0 || !Idle(e))
    {
      hide View, SlotsOf;
      t, n := 0, 0;
      e := seq(32, _ => 0);
      while t < g.spc
        invariant 0 <= t <= g.spc && Passed(SlotsOf(secs), 16 * (before + t))
      {
        assert secs[before + t] == secs[before..before + g.spc][t];
        var i;
        i, e := IdleInSector(c, t, secs, before + t);
        n := 16 * (before + t) + i;
        if i < 16 { return; }
        t := t + 1;
      }
      n := 16 * (before + t);
    }

    /** fat.c:536-553: whether a directory holds nothing but "." and "..". */
    method IsVacant(cl: int, ghost ch: seq<int>) returns (vacant: bool)
      requires Mounted() && IsChain(V().fat, ch) && ch[0] == cl && Tidy(SlotsOf(Flat(V().clus, ch)))
      modifies sector
      ensures vacant <==> Vacant(SlotsOf(Flat(V().clus, ch)))
    {
      hide View, SlotsOf, Tidy, Vacant, Idle;
      ghost var v := V();
      ghost var secs := Flat(v.clus, ch);
      var cur := cl;
      ghost var j, n := 0, 0;
      while 2 <= cur < EOC
        invariant 0 <= j <= |ch| && n == 16 * |Flat(v.clus, ch[..j])|
        invariant if j < |ch| then cur == ch[j] else EOC <= cur && n == 16 * |secs|
        invariant Passed(SlotsOf(secs), n)
        decreases |ch| - j
      {
        FlatWindow(v.clus, ch, j);
        var t, e;
        t, e, n := IdleInCluster(cur, secs, |Flat(v.clus, ch[..j])|);
        if t < g.spc {
          PassedAll(SlotsOf(secs), n);
          return e[0] == 0;
        }
        cur := FatGet(cur);
        j := j + 1;
      }
      PassedAll(SlotsOf(secs), n);
      return true;
    }

    /** fat.c:558-560: the first byte of a slot becomes the deleted mark. */
    method MarkDeleted(lba: int, off: int, ghost c: int, ghost sx: int)
      requires Mounted() && 2 <= c < g.total + 2 && 0 <= sx < g.spc && lba == g.ClusterToLba(c) + sx
      requires 0 <= off < 512 && off % 32 == 0
      modifies this`disk, sector
      ensures Mounted()
      ensures Rewritten(g, old(V()), c, sx, off / 32, SlotAt(old(V()).clus[c][sx], off / 32)[0 := DELETED], V())
    {
      ClusterInData(g, |disk|, c);
      ReadAbs(lba);
      ghost var sec: Sector := sector[..];
      assert sec == V().clus[c][sx];
      hide View;
      sector[off] := DELETED;
      assert sector[..] == PutSlot(sec, off / 32, SlotAt(sec, off / 32)[0 := DELETED]);
      ViewDataSet(g, disk, c, sx, sector[..], disk[lba := sector[..]]);
      WriteAbs(lba);
    }

    ghost predicate UnlinkRejected(path: seq<Byte>)
      requires Valid()
      reads this
    {
      SoundDir(g, V(), forest, 0, 0, cwd);
      || path == [] || Target(g, V(), forest, cwd, path).None?
      || var e := Target(g, V(), forest, cwd, path).value;
         IsDir(e) && First(e) in forest && !Vacant(Slots(V(), forest, First(e)))
    }

    /** fat.c:522-566.  `cl` is the entry's first cluster, 0 if nothing was removed.  The mounted state
        survives unless the directory removed is the current one. */
    method Unlink(path: seq<Byte>) returns (r: int, cl: int)
      requires Valid() && 0 !in path
      modifies this`disk, this`forest, sector
      ensures Steady() && (r == 0 || r == -1)
      ensures r == -1 <==> old(UnlinkRejected(path))
      ensures r == -1 ==> disk == old(disk) && forest == old(forest) && cl == 0
      ensures r == 0 ==>
                var (p, last) := old(Resolve(g, V(), forest, cwd, path)).value;
                var e := old(Target(g, V(), forest, cwd, path)).value;
                Unlinked(g, old(V()), old(forest), V(), forest, p, Name83(last), e)
      ensures r == 0 ==> cl == First(old(Target(g, V(), forest, cwd, path)).value) && (Valid() <==> cl != cwd)
    {
      hide View, Sound, Name83, SlotsOf, OthersSame, Find, Flat, Resolve, Unlinked, Vacant;
      ghost var v, f := V(), forest;
      SoundDir(g, v, f, 0, 0, cwd);
      if path == [] { return -1, 0; }
      var ok, p, last := ResolveParent(path);
      if !ok || last == [] { return -1, 0; }
      SoundDir(g, v, f, 0, 0, p);
      var found, e, lba, off, k, j, s := DirFind(p, last, f[p].chain);
      if !found { return -1, 0; }
      Name83Start(last);
      LookSound(g, v, f, p, Name83(last), k);
      if IsDir(e) {
        SoundDir(g, v, f, 0, 0, First(e));
        var vacant := IsVacant(First(e), f[First(e)].chain);
        if !vacant { return -1, 0; }
      }
      UnlinkEntry(p, last, e, lba, off, k, j, s);
      UnlinkedSound(g, v, f, V(), forest, p, Name83(last), e);
      r, cl := 0, First(e);
    }

    /** fat.c:555-560, once the entry is found and known to be removable. */
    method UnlinkEntry(p: int, last: seq<Byte>, e: Slot, lba: int, off: int, ghost k: int, ghost j: int, ghost s: int)
      requires Steady() && p in forest && forest[p].isDir && 0 !in last && ChainsOk(V(), forest)
      requires At(g, V(), forest[p].chain, k, j, s, lba, off)
      requires k == Find(SlotsOf(Flat(V().clus, forest[p].chain)), Name83(last), 0) >= 0
      requires e == SlotsOf(Flat(V().clus, forest[p].chain))[k]
      requires IsDir(e) ==> First(e) in forest && Vacant(Slots(V(), forest, First(e)))
      modifies this`disk, this`forest, sector
      ensures Mounted() && Unlinked(g, old(V()), old(forest), V(), forest, p, Name83(last), e)
    {
      hide View, Sound, Name83, SlotsOf, Unlinked, Find, Freed, Flat, Vacant, Ready;
      ghost var v, f := V(), forest;
      Name83Start(last);
      OldReady(g, v, f, p, k, Name83(last), e);
      if First(e) >= 2 { FatFreeChain(First(e)); }
      ghost var v1 := V();
      SlotOnDisk(g, v1, f[p].chain, k, j, s, off / 32);
      MarkDeleted(lba, off, f[p].chain[j], s);
      UnlinkedFrom(g, v, f, v1, p, k, Name83(last), e, j, s, off / 32, V());
      forest := f - Gone(e);
    }

    // ---- fat_chdir ------------------------------------------------------------------------------------

    /** fat.c:329-356 without the displayed path. */
    method Chdir(path: seq<Byte>) returns (r: int)
      requires Valid() && 0 !in path
      modifies this`cwd, sector
      ensures Valid() && (r == 0 || r == -1)
      ensures r == 0 <==> DirTarget(g, V(), forest, old(cwd), path).Some?
      ensures cwd == if r == -1 then old(cwd) else if path == [DOT, DOT] then g.root
                     else DirTarget(g, V(), forest, old(cwd), path).value
    {
      hide View, Sound, Name83, SlotsOf, Find, Flat, Resolve;
      SoundDir(g, V(), forest, 0, 0, cwd);
      var ok, p, last := ResolveParent(path);
      if !ok { return -1; }
      var cl := p;
      if last != [] {
        SoundDir(g, V(), forest, 0, 0, p);
        var found, e, lba, off, k, j, s := DirFind(p, last, forest[p].chain);
        if !found || !IsDir(e) { return -1; }
        Name83Start(last);
        LookSound(g, V(), forest, p, Name83(last), k);
        cl := First(e);
      }
      cwd := if path == [DOT, DOT] then g.root else cl;
      r := 0;
    }
  }
}
