/**
  The Internet checksum of kernel/net/net.c and kernel/net/tcp.c: 16-bit big-endian words added in one's
  complement, section 1 of RFC 1071.
*/
module Checksum {
  import opened Bytes

  function Be16(s: seq<Byte>, i: int): (v: int)
    requires 0 <= i && i + 2 <= |s|
    ensures 0 <= v < TWO16
  {
    0x100 * s[i] as int + s[i + 1] as int
  }

  function Put16(s: seq<Byte>, i: int, v: int): (r: seq<Byte>)
    requires 0 <= i && i + 2 <= |s| && 0 <= v < TWO16
    ensures |r| == |s| && Be16(r, i) == v
    ensures forall k :: 0 <= k < |s| && !(i <= k < i + 2) ==> r[k] == s[k]
  {
    s[i := v / 0x100][i + 1 := v % 0x100]
  }

  /** The plain sum of the words; an odd last byte is padded with a zero. */
  function Words(s: seq<Byte>): (w: nat)
    ensures w <= 0xFFFF * ((|s| + 1) / 2)
  {
    if s == [] then 0 else if |s| == 1 then 0x100 * s[0] as int else Be16(s, 0) + Words(s[2..])
  }

  /** One's-complement reduction to 16 bits. */
  function Reduced(x: nat): (r: int)
    ensures 0 <= r < TWO16
  {
    if x == 0 then 0 else 1 + (x - 1) % 0xFFFF
  }

  /** The checksum that makes a sum come out as zero. */
  function Complement(x: nat): int { 0xFFFF - Reduced(x) }

  lemma ReducedStep(x: nat)
    ensures Reduced(x % TWO16 + x / TWO16) == Reduced(x)
  {
    var q, r := x / TWO16, x % TWO16;
    assert x == TWO16 * q + r;
    if x != 0 { ModShift(q + r - 1, q); }
  }

  lemma ModShift(a: int, k: int)
    requires 0 <= a && 0 <= k
    ensures (a + 0xFFFF * k) % 0xFFFF == a % 0xFFFF
  {
  }

  lemma ReducedSmall(x: nat)
    requires x < TWO16
    ensures Reduced(x) == x
  {
  }

  /** The fold loop of net.c:50 and tcp.c:51-52 ends at the one's-complement sum. */
  method Fold(start: nat) returns (sum: int)
    ensures sum == Reduced(start)
  {
    hide Reduced;
    sum := start;
    while sum / TWO16 != 0
      invariant 0 <= sum && Reduced(sum) == Reduced(start)
      decreases sum
    {
      ReducedStep(sum);
      sum := sum % TWO16 + sum / TWO16;
    }
    ReducedSmall(sum);
  }

  lemma WordsTail(s: seq<Byte>, i: int)
    requires 0 <= i && i + 2 <= |s|
    ensures Words(s[i..]) == Be16(s, i) + Words(s[i + 2..])
  {
    assert s[i..][2..] == s[i + 2..];
  }

  /** The accumulation loop shared by both checksums: 32-bit addition does not wrap on
      so few words. */
  method AddWords(data: seq<Byte>, start: nat) returns (sum: nat)
    requires start + 0xFFFF * ((|data| + 1) / 2) < TWO32
    ensures sum == start + Words(data)
  {
    hide Words, Be16;
    sum := start;
    var i := 0;
    WordsAll(data);
    while i + 1 < |data|
      invariant 0 <= i <= |data| && i % 2 == 0 && sum + Words(data[i..]) == start + Words(data)
    {
      WordsTail(data, i);
      SmallSum(sum + Be16(data, i), start + Words(data));
      sum := (sum + Be16(data, i)) % TWO32;
      i := i + 2;
    }
    WordsLast(data, i);
    if |data| % 2 == 1 {
      SmallSum(sum + 0x100 * data[|data| - 1] as int, start + Words(data));
      sum := (sum + 0x100 * data[|data| - 1] as int) % TWO32;
    }
  }

  lemma WordsAll(data: seq<Byte>)
    ensures data[0..] == data
  {
  }

  lemma SmallSum(x: int, y: int)
    requires 0 <= x <= y < TWO32
    ensures x % TWO32 == x
  {
  }

  lemma WordsLast(data: seq<Byte>, i: int)
    requires 0 <= i <= |data| <= i + 1
    ensures Words(data[i..]) == if |data| == i then 0 else 0x100 * data[i] as int
  {
    if i < |data| { assert data[i..] == [data[i]]; }
  }

  /** net.c:42-52. */
  method IpChecksum(data: seq<Byte>) returns (c: int)
    requires |data| <= 131074
    ensures c == Complement(Words(data)) && 0 <= c < TWO16
  {
    var sum := AddWords(data, 0);
    sum := Fold(sum);
    c := 0xFFFF - sum;
  }

  /** The words of the pseudo header in front of a TCP segment. */
  function Pseudo(src: seq<Byte>, dst: seq<Byte>, len: nat): nat
    requires |src| == |dst| == 4
  {
    Be16(src, 0) + Be16(src, 2) + Be16(dst, 0) + Be16(dst, 2) + 6 + len
  }

  /** The pseudo header of section 3.1 of RFC 9293: both addresses, a zero, the protocol number 6 and the length. */
  function PseudoHeader(src: seq<Byte>, dst: seq<Byte>, len: nat): seq<Byte>
    requires |src| == |dst| == 4 && len < 0x1_0000
  {
    src + dst + [0, 6, (len / 0x100) as Byte, (len % 0x100) as Byte]
  }

  lemma {:induction false} WordsConcat(a: seq<Byte>, b: seq<Byte>)
    requires |a| % 2 == 0
    ensures Words(a + b) == Words(a) + Words(b)
  {
    if a == [] {
      assert a + b == b;
    } else {
      WordsConcat(a[2..], b);
      assert (a + b)[2..] == a[2..] + b;
    }
  }

  lemma WordsOfTwo(x: Byte, y: Byte)
    ensures Words([x, y]) == 0x100 * x as int + y as int
  {
    assert [x, y][2..] == [];
  }

  lemma WordsOfFour(s: seq<Byte>)
    requires |s| == 4
    ensures Words(s) == Be16(s, 0) + Be16(s, 2)
  {
    WordsTail(s, 2);
    assert s[4..] == [] && s[0..] == s;
    WordsTail(s, 0);
  }

  lemma HeaderLength(src: seq<Byte>, dst: seq<Byte>, len: nat)
    requires |src| == |dst| == 4 && len < 0x1_0000
    ensures |PseudoHeader(src, dst, len)| == 12
  {
  }

  /** The sum that tcp_checksum starts with is that of the pseudo header. */
  lemma PseudoWords(src: seq<Byte>, dst: seq<Byte>, len: nat)
    requires |src| == |dst| == 4 && len < 0x1_0000
    ensures Pseudo(src, dst, len) == Words(PseudoHeader(src, dst, len))
  {
    var hi, lo := (len / 0x100) as Byte, (len % 0x100) as Byte;
    WordsOfFour(src);
    WordsOfFour(dst);
    WordsOfTwo(0, 6);
    WordsOfTwo(hi, lo);
    WordsConcat([0, 6], [hi, lo]);
    assert [0, 6] + [hi, lo] == [0, 6, hi, lo];
    hide Words;
    WordsConcat(src, dst);
    WordsConcat(src + dst, [0, 6, hi, lo]);
  }

  /** tcp.c:38-54. */
  method TcpChecksum(src: seq<Byte>, dst: seq<Byte>, tcp: seq<Byte>) returns (c: int)
    requires |src| == |dst| == 4 && |tcp| <= 0x1_FFF0
    ensures c == Complement(Pseudo(src, dst, |tcp|) + Words(tcp)) && 0 <= c < TWO16
  {
    var sum := AddWords(tcp, Pseudo(src, dst, |tcp|));
    sum := Fold(sum);
    c := 0xFFFF - sum;
  }

  // ---- verification ------------------------------------------------------------------------------------

  /** Storing a word at an even offset changes the sum by exactly that much. */
  lemma {:induction false} WordsPut(s: seq<Byte>, k: int, v: int)
    requires 0 <= k && k + 2 <= |s| && k % 2 == 0 && 0 <= v < TWO16
    ensures Words(Put16(s, k, v)) == Words(s) - Be16(s, k) + v
    decreases k
  {
    var r := Put16(s, k, v);
    if k == 0 {
      assert r[2..] == s[2..];
    } else {
      WordsPut(s[2..], k - 2, v);
      assert r[2..] == Put16(s[2..], k - 2, v);
    }
  }

  lemma ComplementCancels(x: nat)
    ensures Complement(x + Complement(x)) == 0
  {
    var r := Reduced(x);
    if x == 0 {
      ReducedSmall(0xFFFF);
    } else {
      var q := (x - 1) / 0xFFFF;
      assert x - 1 == 0xFFFF * q + (r - 1);
      assert x + Complement(x) - 1 == 0xFFFE + 0xFFFF * q;
      ModShift(0xFFFE, q);
    }
  }

  /** A packet whose checksum field was zero when its checksum was computed, and then got it, verifies: the
      same computation over it gives zero.  `extra` is the pseudo header, or 0. */
  lemma SelfVerifies(s: seq<Byte>, k: int, extra: nat)
    requires 0 <= k && k + 2 <= |s| && k % 2 == 0 && Be16(s, k) == 0
    ensures Complement(extra + Words(Put16(s, k, Complement(extra + Words(s))))) == 0
  {
    hide Reduced;
    WordsPut(s, k, Complement(extra + Words(s)));
    ComplementCancels(extra + Words(s));
  }

  lemma SameReduced(x: nat, y: nat)
    requires 0 < x && 0 < y && Reduced(x) == Reduced(y)
    ensures (x - y) % 0xFFFF == 0
  {
    var p, q := (x - 1) / 0xFFFF, (y - 1) / 0xFFFF;
    assert x - y == 0xFFFF * (p - q);
  }

  lemma ShiftedZero(x: nat, u: int, v: int)
    requires 0 < x && u <= x && 0 <= u < TWO16 && 0 <= v < TWO16 && u != v && Reduced(x) == 0xFFFF && 0 < x - u
    ensures Reduced(x - u + v) == 0xFFFF <==> (u == 0 && v == 0xFFFF) || (u == 0xFFFF && v == 0)
  {
    var y := x - u + v;
    if Reduced(y) == 0xFFFF {
      SameReduced(x, y);
    } else if u == 0 && v == 0xFFFF {
      ReducedShift(x, y);
    } else if u == 0xFFFF && v == 0 {
      ReducedShift(y, x);
    }
  }

  /** A changed word of a packet that verifies goes unnoticed exactly when it went between the two
      representations of zero. */
  lemma ChangedWord(s: seq<Byte>, k: int, v: int, extra: nat)
    requires 0 <= k && k + 2 <= |s| && k % 2 == 0 && 0 <= v < TWO16 && v != Be16(s, k)
    requires 0 < extra + Words(s) - Be16(s, k) && Complement(extra + Words(s)) == 0
    ensures Complement(extra + Words(Put16(s, k, v))) == 0 <==>
            (Be16(s, k) == 0 && v == 0xFFFF) || (Be16(s, k) == 0xFFFF && v == 0)
  {
    hide Reduced, Words, Be16, Put16;
    WordsPut(s, k, v);
    WordsPut(s, k, 0);
    ShiftedZero(extra + Words(s), Be16(s, k), v);
  }

  lemma ReducedShift(x: nat, y: nat)
    requires 0 < x && y == x + 0xFFFF
    ensures Reduced(x) == Reduced(y)
  {
  }
}
