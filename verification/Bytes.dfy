/**
  Bytes and the little-endian 32-bit fields that every on-disk structure is made of.
  C's masks and shifts are written as division and remainder, so all the facts are linear.
*/
module Bytes {

  type Byte = b: int | 0 <= b < 256

  const TWO16: int := 0x1_0000
  const TWO32: int := 0x1_0000_0000

  datatype Option<+T> = None | Some(value: T)

  function Min(a: int, b: int): int { if a < b then a else b }

  function Le32(s: seq<Byte>, i: nat): (v: int)
    requires i + 4 <= |s|
    ensures 0 <= v < TWO32
  {
    s[i] as int + 0x100 * s[i + 1] as int + 0x1_0000 * s[i + 2] as int + 0x100_0000 * s[i + 3] as int
  }

  /** Byte `i` of the word `v`. */
  function ByteOf(v: int, i: int): Byte
    requires 0 <= v < TWO32 && 0 <= i < 4
  {
    if i == 0 then v % 0x100 else if i == 1 then v / 0x100 % 0x100 else if i == 2 then v / 0x1_0000 % 0x100
    else v / 0x100_0000
  }

  lemma FourBytes(v: int)
    requires 0 <= v < TWO32
    ensures ByteOf(v, 0) as int + 0x100 * ByteOf(v, 1) as int + 0x1_0000 * ByteOf(v, 2) as int
            + 0x100_0000 * ByteOf(v, 3) as int == v
  {
    var q := v / 0x100;
    var r := q / 0x100;
    assert r == v / 0x1_0000 && r / 0x100 == v / 0x100_0000;
  }

  /** Stores `v` at offset `i`, least significant byte first; no other byte moves. */
  function Put32(s: seq<Byte>, i: nat, v: int): (r: seq<Byte>)
    requires i + 4 <= |s| && 0 <= v < TWO32
    ensures |r| == |s|
    ensures Le32(r, i) == v
    ensures forall k :: 0 <= k < |s| && !(i <= k < i + 4) ==> r[k] == s[k]
  {
    FourBytes(v);
    s[i := ByteOf(v, 0)][i + 1 := ByteOf(v, 1)][i + 2 := ByteOf(v, 2)][i + 3 := ByteOf(v, 3)]
  }

  /** The number of zeros in `s`: free clusters of a FAT, clear bits of a bitmap. */
  function Zeros(s: seq<int>): nat {
    if s == [] then 0 else (if s[|s| - 1] == 0 then 1 else 0) + Zeros(s[..|s| - 1])
  }

  lemma {:induction false} ZerosUpdate(s: seq<int>, i: nat, v: int)
    requires i < |s|
    ensures Zeros(s[i := v]) == Zeros(s) - (if s[i] == 0 then 1 else 0) + (if v == 0 then 1 else 0)
  {
    var n := |s| - 1;
    if i == n {
      assert s[i := v][..n] == s[..n];
    } else {
      ZerosUpdate(s[..n], i, v);
      assert s[i := v][..n] == s[..n][i := v];
    }
  }
}
