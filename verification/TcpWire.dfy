/**
  TCP segments on the wire (section 3.1 of RFC 9293), as tcp.c writes and reads them.
*/
module TcpWire {
  import opened Bytes
  import opened Checksum
  import opened Net

  const FIN: int := 0x01
  const SYN_ACK: int := 0x12

  function Be32(s: seq<Byte>, i: int): (v: int)
    requires 0 <= i && i + 4 <= |s|
    ensures 0 <= v < TWO32
  {
    TWO16 * Be16(s, i) + Be16(s, i + 2)
  }

  function Put32Be(s: seq<Byte>, i: int, v: int): (r: seq<Byte>)
    requires 0 <= i && i + 4 <= |s| && 0 <= v < TWO32
    ensures |r| == |s| && Be32(r, i) == v
    ensures forall k :: 0 <= k < |s| && !(i <= k < i + 4) ==> r[k] == s[k]
  {
    Put16(Put16(s, i, v / TWO16), i + 2, v % TWO16)
  }

  datatype Segment = Segment(sport: int, dport: int, seqNo: int, ack: int, flags: Byte, payload: seq<Byte>)

  /** tcp.c:88-105: the fields on_tcp reads, if the header is long enough and lies inside the segment. */
  function Parse(b: seq<Byte>): Option<Segment> {
    if |b| < 20 then None else
    var doff := b[12] as int / 16 * 4;
    if doff < 20 || doff > |b| then None else
    Some(Segment(Be16(b, 0), Be16(b, 2), Be32(b, 4), Be32(b, 8), b[13], b[doff..]))
  }

  predicate HasFin(s: Segment) { s.flags as int % 2 == 1 }

  predicate HasSyn(s: Segment) { s.flags as int / 2 % 2 == 1 }

  /** (flags & 0x12) == 0x12. */
  predicate IsSynAck(s: Segment) { HasSyn(s) && s.flags as int / 16 % 2 == 1 }

  /** The flag bits by their masks. */
  lemma FlagBits(s: Segment)
    ensures HasFin(s) <==> (s.flags as bv8) & 0x01 != 0
    ensures HasSyn(s) <==> (s.flags as bv8) & 0x02 != 0
    ensures IsSynAck(s) <==> (s.flags as bv8) & 0x12 == 0x12
  {
  }

  /** A header of `n` words, options included: the payload starts behind it. */
  lemma ParseOptions(b: seq<Byte>, n: int)
    requires 5 <= n <= 15 && 4 * n <= |b| && b[12] as int / 16 == n
    ensures Parse(b).Some? && Parse(b).value.payload == b[4 * n..] && Parse(b).value.flags == b[13]
  {
  }

  ghost predicate Verifies(src: seq<Byte>, dst: seq<Byte>, b: seq<Byte>)
    requires |src| == |dst| == 4
  {
    Complement(Pseudo(src, dst, |b|) + Words(b)) == 0
  }

  /** A segment verifies exactly when the one's-complement sum over pseudo header and segment is all ones. */
  lemma VerifiesMeans(src: seq<Byte>, dst: seq<Byte>, b: seq<Byte>)
    requires |src| == |dst| == 4 && |b| < 0x1_0000
    ensures Verifies(src, dst, b) <==> Reduced(Words(PseudoHeader(src, dst, |b|) + b)) == 0xFFFF
  {
    hide Words, Reduced, Pseudo, PseudoHeader;
    PseudoWords(src, dst, |b|);
    HeaderLength(src, dst, |b|);
    WordsConcat(PseudoHeader(src, dst, |b|), b);
  }

  /** tcp.c:56-84: the segment that goes out reads back as what was meant, and its checksum verifies. */
  method BuildSegment(me: seq<Byte>, peer: seq<Byte>, s: Segment) returns (r: int, b: seq<Byte>)
    requires |me| == |peer| == 4
    requires 0 <= s.sport < TWO16 && 0 <= s.dport < TWO16 && 0 <= s.seqNo < TWO32 && 0 <= s.ack < TWO32
    ensures r == (if 20 + |s.payload| > 1400 then -1 else 0)
    ensures r == 0 ==> Parse(b) == Some(s) && Verifies(me, peer, b) && Be16(b, 14) == 0x4000
    ensures r == 0 ==> |b| == 20 + |s.payload| && Be16(b, 0) == s.sport && Be16(b, 2) == s.dport
    ensures r == 0 ==> Be32(b, 4) == s.seqNo && Be32(b, 8) == s.ack && b[12] == 0x50 && b[13] == s.flags
  {
    hide Words, Reduced, Be32;
    var total := 20 + |s.payload|;
    if total > 1400 { return -1, []; }
    b := seq(total, _ => 0);
    b := Put16(b, 0, s.sport);
    b := Put16(b, 2, s.dport);
    b := Put32Be(b, 4, s.seqNo);
    ghost var b1 := b;
    b := Put32Be(b, 8, s.ack);
    Be32Same(b1, b, 4);
    ghost var b2 := b;
    b := b[12 := 0x50][13 := s.flags];
    b := Put16(b, 14, 0x4000);
    b := Memcpy(b, 20, s.payload);
    assert b[20..20 + |s.payload|] == b[20..];
    ghost var q := b;
    var c := TcpChecksum(me, peer, b);
    SelfVerifies(b, 16, Pseudo(me, peer, |b|));
    b := Put16(b, 16, c);
    Be32Same(b2, b, 4);
    Be32Same(b2, b, 8);
    assert b[20..] == q[20..];
    r := 0;
  }

  lemma Be32Same(s: seq<Byte>, r: seq<Byte>, i: int)
    requires 0 <= i && i + 4 <= |s| == |r| && forall k :: i <= k < i + 4 ==> r[k] == s[k]
    ensures Be32(r, i) == Be32(s, i)
  {
  }
}
