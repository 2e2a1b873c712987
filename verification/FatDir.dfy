/**
  Directory slots and 8.3 names of kernel/fs/fat.c, on plain sequences: what a 32-byte slot
  says, which slot a name finds, and how storing one slot changes what every name finds.
*/
module FatDir {
  import opened Bytes
  import opened FatVolume

  type Slot = s: seq<Byte> | |s| == 32 witness seq(32, _ => 0)
  type Name = s: seq<Byte> | |s| == 11 witness seq(11, _ => 32)

  const SLASH: Byte := 0x2F
  const BACKSLASH: Byte := 0x5C
  const DOT: Byte := 0x2E
  const SPACE: Byte := 0x20
  const DELETED: Byte := 0xE5

  // ---- 8.3 names -------------------------------------------------------------------------

  predicate IsSlash(b: Byte) { b == SLASH || b == BACKSLASH }

  /** How many leading bytes of `a` one of to_83's copy loops takes: at most `max`, up to a
      slash and, in the base name, up to a dot. */
  function Span(a: seq<Byte>, max: nat, dotStops: bool): (n: nat)
    ensures n <= max && n <= |a|
    decreases max
  {
    if max == 0 || a == [] || IsSlash(a[0]) || (dotStops && a[0] == DOT) then 0
    else 1 + Span(a[1..], max - 1, dotStops)
  }

  predicate SpanStops(a: seq<Byte>, i: int, max: int, dotStops: bool)
    requires 0 <= i <= |a|
  {
    max <= 0 || i == |a| || IsSlash(a[i]) || (dotStops && a[i] == DOT)
  }

  /** One round of a copy loop that stands at `a[i]` and may take `max` more bytes. */
  lemma SpanStep(a: seq<Byte>, i: nat, max: nat, dotStops: bool)
    requires i <= |a|
    ensures Span(a[i..], max, dotStops) ==
              if SpanStops(a, i, max, dotStops) then 0 else 1 + Span(a[i + 1..], max - 1, dotStops)
  {
    if i < |a| { assert a[i..][1..] == a[i + 1..]; }
  }

  function Upper(b: Byte): Byte { if 0x61 <= b <= 0x7A then b - 32 else b }

  function Field(a: seq<Byte>, width: nat): (r: seq<Byte>)
    requires |a| <= width
    ensures |r| == width
  {
    seq(width, i requires 0 <= i < width => if i < |a| then Upper(a[i]) else SPACE)
  }

  /** The bytes after the base name, past one separating dot. */
  function Tail83(a: seq<Byte>): seq<Byte> {
    var n := Span(a, 8, true);
    if n < |a| && a[n] == DOT then a[n + 1..] else a[n..]
  }

  function Name83(a: seq<Byte>): (r: Name) {
    var t := Tail83(a);
    Field(a[..Span(a, 8, true)], 8) + Field(t[..Span(t, 3, false)], 3)
  }

  /** A path component without NULs never turns into a name that starts with a dot or a NUL,
      so "." and ".." entries are invisible to dir_find whatever the caller asks for. */
  lemma Name83Start(a: seq<Byte>)
    requires 0 !in a
    ensures Name83(a)[0] != DOT && Name83(a)[0] != 0
    ensures Name83(a)[0] == DELETED <==> a != [] && a[0] == DELETED
  {
    if a != [] { assert a[0] in a; }
  }

  // ---- slots -----------------------------------------------------------------------------

  function SlotAt(sec: Sector, i: int): Slot
    requires 0 <= i < 16
  {
    sec[32 * i..32 * i + 32]
  }

  function SlotsOf(secs: seq<Sector>): (r: seq<Slot>)
    ensures |r| == 16 * |secs|
  {
    seq(16 * |secs|, k requires 0 <= k < 16 * |secs| => SlotAt(secs[k / 16], k % 16))
  }

  predicate IsLabel(s: Slot) { s[11] / 8 % 2 == 1 }
  predicate IsDir(s: Slot) { s[11] / 16 % 2 == 1 }

  function First(s: Slot): (c: int)
    ensures 0 <= c < TWO32
  {
    s[26] as int + 0x100 * s[27] as int + 0x1_0000 * s[20] as int + 0x100_0000 * s[21] as int
  }

  function Size(s: Slot): int { Le32(s, 28) }

  /** The slot that mkdir and write_file build in the sector buffer. */
  function MakeSlot(name: Name, attr: Byte, first: int, size: int): (s: Slot)
    requires 0 <= first < TWO32 && 0 <= size < TWO32
    ensures s[..11] == name && s[11] == attr && First(s) == first && Size(s) == size
  {
    FourBytes(first);
    FourBytes(size);
    var s: Slot := name + [attr, 0, 0, 0, 0, 0, 0, 0, 0, ByteOf(first, 2), ByteOf(first, 3), 0, 0, 0, 0,
                           ByteOf(first, 0), ByteOf(first, 1),
                           ByteOf(size, 0), ByteOf(size, 1), ByteOf(size, 2), ByteOf(size, 3)];
    assert s[..11] == name;
    assert s[20] == ByteOf(first, 2) && s[21] == ByteOf(first, 3);
    assert s[26] == ByteOf(first, 0) && s[27] == ByteOf(first, 1);
    assert s[28] == ByteOf(size, 0) && s[29] == ByteOf(size, 1) && s[30] == ByteOf(size, 2) && s[31] == ByteOf(size, 3);
    s
  }

  /** Where the fields of a slot lie. */
  lemma SlotLayout(name: Name, attr: Byte, first: int, size: int)
    requires 0 <= first < TWO32 && 0 <= size < TWO32
    ensures var s := MakeSlot(name, attr, first, size);
            && s[..11] == name && s[11] == attr
            && s[26] as int + 0x100 * s[27] as int == first % 0x1_0000
            && s[20] as int + 0x100 * s[21] as int == first / 0x1_0000
            && s[28] as int + 0x100 * s[29] as int + 0x1_0000 * s[30] as int + 0x100_0000 * s[31] as int == size
  {
    FourBytes(first);
    FourBytes(size);
  }

  /** Bit 3 of the attributes marks volume labels and parts of long names, bit 4 directories. */
  lemma AttributeBits(s: Slot)
    ensures IsLabel(s) <==> s[11] % 16 >= 8
    ensures IsDir(s) <==> s[11] % 32 >= 16
  {
    HighBit(s[11] as int, 8);
    HighBit(s[11] as int, 16);
  }

  lemma HighBit(x: int, b: int)
    requires 0 <= x && (b == 8 || b == 16)
    ensures x / b % 2 == 1 <==> x % (2 * b) >= b
  {
    var q, r := x / (2 * b), x % (2 * b);
    assert x == 2 * b * q + r;
    if r >= b { assert x / b == 2 * q + 1; } else { assert x / b == 2 * q; }
  }

  /** What dir_find accepts for `name`. */
  predicate Hit(s: Slot, name: Name) { s[0] != 0 && s[0] != DELETED && !IsLabel(s) && s[..11] == name }

  /** A slot that some path can name. */
  predicate Live(s: Slot) { s[0] != 0 && s[0] != DELETED && s[0] != DOT && !IsLabel(s) }

  predicate Askable(name: Name) { name[0] != DOT && name[0] != 0 }

  /** The first slot at or after `i` that `name` hits, or -1. */
  function Find(ss: seq<Slot>, name: Name, i: nat): (r: int)
    requires i <= |ss|
    ensures -1 <= r < |ss|
    ensures 0 <= r ==> i <= r && Hit(ss[r], name)
    ensures forall j :: i <= j < (if r < 0 then |ss| else r) ==> !Hit(ss[j], name)
    decreases |ss| - i
  {
    if i == |ss| then -1 else if Hit(ss[i], name) then i else Find(ss, name, i + 1)
  }

  function Lookup(ss: seq<Slot>, name: Name): (r: Option<Slot>)
    ensures r.Some? ==> Hit(r.value, name) && r.value in ss
    ensures r.None? <==> forall j :: 0 <= j < |ss| ==> !Hit(ss[j], name)
  {
    var k := Find(ss, name, 0);
    if k < 0 then None else Some(ss[k])
  }

  /** The number of slots before the first never-used one. */
  function Used(ss: seq<Slot>, i: nat): (n: nat)
    requires i <= |ss|
    ensures i <= n <= |ss|
    ensures forall x :: i <= x < n ==> ss[x][0] != 0
    ensures n < |ss| ==> ss[n][0] == 0
    decreases |ss| - i
  {
    if i == |ss| || ss[i][0] == 0 then i else Used(ss, i + 1)
  }

  /** After the first never-used slot every slot is never-used. */
  ghost predicate Tidy(ss: seq<Slot>) { forall x :: Used(ss, 0) <= x < |ss| ==> ss[x][0] == 0 }

  ghost predicate UniqueNames(ss: seq<Slot>) {
    forall i, j :: 0 <= i < j < |ss| && Live(ss[i]) && Live(ss[j]) ==> ss[i][..11] != ss[j][..11]
  }

  ghost predicate AllUnused(ss: seq<Slot>) { forall i :: 0 <= i < |ss| ==> ss[i][0] == 0 }

  lemma UsedIs(ss: seq<Slot>, n: nat)
    requires n <= |ss| && (forall x :: 0 <= x < n ==> ss[x][0] != 0) && (n < |ss| ==> ss[n][0] == 0)
    ensures Used(ss, 0) == n
  {
    assert Used(ss, 0) <= n;
  }

  lemma TidyGrow(ss: seq<Slot>, more: seq<Slot>)
    requires Tidy(ss) && UniqueNames(ss) && AllUnused(more)
    ensures Tidy(ss + more) && UniqueNames(ss + more)
  {
    UsedIs(ss + more, Used(ss, 0));
  }

  lemma TidyStore(ss: seq<Slot>, k: int, s: Slot)
    requires Tidy(ss) && UniqueNames(ss) && 0 <= k < |ss|
    requires s[0] != 0 && forall i :: 0 <= i < k ==> ss[i][0] != 0
    requires Live(s) ==> forall i :: 0 <= i < |ss| && i != k ==> !Hit(ss[i], s[..11])
    ensures Tidy(ss[k := s]) && UniqueNames(ss[k := s])
  {
    var ss' := ss[k := s];
    var u := Used(ss, 0);
    UsedIs(ss', if k == u then Used(ss', 0) else u);
    forall i, j | 0 <= i < j < |ss'| && Live(ss'[i]) && Live(ss'[j]) ensures ss'[i][..11] != ss'[j][..11] {
      if i == k { assert !Hit(ss[j], s[..11]); }
      if j == k { assert !Hit(ss[i], s[..11]); }
    }
  }

  /** Storing `s` over slot `k` of a directory that may just have grown by unused slots: `s`'s own
      name now finds `s`, every other name finds what it found before. */
  lemma LookupAfterStore(ss: seq<Slot>, grown: seq<Slot>, k: int, s: Slot, name: Name)
    requires AllUnused(grown) && 0 <= k < |ss| + |grown| && Askable(name)
    requires name != s[..11] || !Live(s) ==> !Hit((ss + grown)[k], name)
    requires name == s[..11] && Live(s) ==> forall j :: 0 <= j < |ss| && j != k ==> !Hit(ss[j], name)
    ensures var ss' := (ss + grown)[k := s];
            Lookup(ss', name) == if name == s[..11] && Live(s) then Some(s) else Lookup(ss, name)
  {
    var all := ss + grown;
    var ss' := all[k := s];
    assert Hit(s, name) <==> name == s[..11] && Live(s);
    if name == s[..11] && Live(s) {
      assert forall j :: 0 <= j < |ss'| && Hit(ss'[j], name) ==> j == k;
      assert Hit(ss'[k], name);
    } else {
      assert forall j :: 0 <= j < |ss'| ==> (Hit(ss'[j], name) <==> j < |ss| && Hit(ss[j], name));
      var r := Find(ss, name, 0);
      if 0 <= r {
        assert ss'[r] == ss[r];
        assert Find(ss', name, 0) == r;
      }
    }
  }

  /** Overwriting slot `i` of sector `q`. */
  function PutSlot(sec: Sector, i: int, s: Slot): (r: Sector)
    requires 0 <= i < 16
    ensures SlotAt(r, i) == s
    ensures forall x :: 0 <= x < 16 && x != i ==> SlotAt(r, x) == SlotAt(sec, x)
  {
    var r: Sector := sec[..32 * i] + s + sec[32 * i + 32..];
    assert forall x :: 0 <= x < 512 && !(32 * i <= x < 32 * i + 32) ==> r[x] == sec[x];
    assert forall x :: 0 <= x < 16 && x != i ==> SlotAt(r, x) == SlotAt(sec, x);
    r
  }

  lemma SlotsAfterPut(secs: seq<Sector>, q: int, i: int, s: Slot)
    requires 0 <= q < |secs| && 0 <= i < 16
    ensures SlotsOf(secs[q := PutSlot(secs[q], i, s)]) == SlotsOf(secs)[16 * q + i := s]
  {
    var secs' := secs[q := PutSlot(secs[q], i, s)];
    forall k | 0 <= k < 16 * |secs|
      ensures SlotsOf(secs')[k] == SlotsOf(secs)[16 * q + i := s][k]
    {
      assert k == 16 * (k / 16) + k % 16;
    }
  }

  lemma SlotsOfConcat(a: seq<Sector>, b: seq<Sector>)
    ensures SlotsOf(a + b) == SlotsOf(a) + SlotsOf(b)
  {
    assert forall k :: 0 <= k < 16 * |b| ==> (16 * |a| + k) / 16 == |a| + k / 16 && (16 * |a| + k) % 16 == k % 16;
  }

  predicate AllZero(s: seq<Byte>) { forall i :: 0 <= i < |s| ==> s[i] == 0 }

  predicate ZeroFrom(secs: seq<Sector>, from: int) {
    forall q :: 0 <= q < |secs| && from <= q ==> AllZero(secs[q])
  }

  lemma ZeroSectorsUnused(secs: seq<Sector>)
    requires ZeroFrom(secs, 0)
    ensures AllUnused(SlotsOf(secs))
  {
  }

  // ---- file bytes ------------------------------------------------------------------------

  function Data(secs: seq<Sector>): (r: seq<Byte>)
    ensures |r| == 512 * |secs|
  {
    seq(512 * |secs|, b requires 0 <= b < 512 * |secs| => secs[b / 512][b % 512])
  }

  function Prefix(s: seq<Byte>, n: int): seq<Byte>
    requires 0 <= n
  {
    if n <= |s| then s[..n] else s
  }

  /** `sec` holds `data` from offset `at` on, padded with zeros. */
  predicate SectorHolds(sec: Sector, data: seq<Byte>, at: int)
    requires 0 <= at
  {
    forall i :: 0 <= i < 512 ==> sec[i] == if at + i < |data| then data[at + i] else 0
  }

  predicate Holds(secs: seq<Sector>, data: seq<Byte>, at: int)
    requires 0 <= at
  {
    forall q :: 0 <= q < |secs| ==> SectorHolds(secs[q], data, at + 512 * q)
  }

  lemma HoldsConcat(a: seq<Sector>, b: seq<Sector>, data: seq<Byte>)
    requires Holds(a, data, 0) && Holds(b, data, 512 * |a|)
    ensures Holds(a + b, data, 0)
  {
    forall q | 0 <= q < |a + b| ensures SectorHolds((a + b)[q], data, 512 * q) {
      if |a| <= q { assert SectorHolds(b[q - |a|], data, 512 * |a| + 512 * (q - |a|)); }
    }
  }

  lemma HoldsData(secs: seq<Sector>, data: seq<Byte>)
    requires Holds(secs, data, 0) && |data| <= 512 * |secs|
    ensures Data(secs)[..|data|] == data
  {
    forall b | 0 <= b < |data| ensures Data(secs)[b] == data[b] {
      assert SectorHolds(secs[b / 512], data, 512 * (b / 512));
    }
  }
}
