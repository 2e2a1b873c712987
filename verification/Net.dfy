/**
  The packets that kernel/net/net.c builds: an IPv4 datagram around a payload, and the reply to an ICMP
  echo request.
*/
module Net {
  import opened Bytes
  import opened Checksum

  /** `dst` with `src` written over it from offset `at` on. */
  method Memcpy(dst: seq<Byte>, at: int, src: seq<Byte>) returns (r: seq<Byte>)
    requires 0 <= at && at + |src| <= |dst|
    ensures Copied(dst, at, src, r)
  {
    r := dst;
    var i := 0;
    while i < |src|
      invariant 0 <= i <= |src| && |r| == |dst|
      invariant forall x :: 0 <= x < |dst| && !(at <= x < at + i) ==> r[x] == dst[x]
      invariant forall x :: 0 <= x < i ==> r[at + x] == src[x]
    {
      r := r[at + i := src[i]];
      i := i + 1;
    }
    assert r[at..at + |src|] == src;
  }

  ghost predicate Copied(dst: seq<Byte>, at: int, src: seq<Byte>, r: seq<Byte>) {
    && 0 <= at && at + |src| <= |dst| == |r| && r[at..at + |src|] == src
    && forall x :: 0 <= x < |dst| && !(at <= x < at + |src|) ==> r[x] == dst[x]
  }

  /** What the first twenty bytes of a datagram say (section 3.1 of RFC 791). */
  ghost predicate IpHeader(p: seq<Byte>, id: int, proto: Byte, src: seq<Byte>, dst: seq<Byte>) {
    && 20 <= |p| && |src| == |dst| == 4 && p[0] == 0x45 && Be16(p, 2) == |p| && Be16(p, 4) == id
    && p[8] == 64 && p[9] == proto && p[12..16] == src && p[16..20] == dst
    && Complement(Words(p[..20])) == 0
  }

  /** net.c:203-217 and 135-143: the header is filled in, its checksum last. */
  method FillHeader(buf: seq<Byte>, id: int, proto: Byte, src: seq<Byte>, dst: seq<Byte>) returns (p: seq<Byte>)
    requires 20 <= |buf| < TWO16 && |src| == |dst| == 4 && 0 <= id < TWO16
    ensures IpHeader(p, id, proto, src, dst) && |p| == |buf| && p[20..] == buf[20..]
  {
    hide Words, Reduced;
    p := buf;
    var i := 0;
    while i < 20
      invariant 0 <= i <= 20 && |p| == |buf| && p[20..] == buf[20..]
      invariant forall x :: 0 <= x < i ==> p[x] == 0
    {
      p := p[i := 0];
      i := i + 1;
    }
    p := p[0 := 0x45];
    p := Put16(p, 2, |p|);
    p := Put16(p, 4, id);
    p := p[8 := 64][9 := proto];
    p := Memcpy(p, 12, src);
    p := Memcpy(p, 16, dst);
    assert p[12..16] == src && p[16..20] == dst && Be16(p, 10) == 0;
    var c := IpChecksum(p[..20]);
    SelfVerifies(p[..20], 10, 0);
    ghost var q := p;
    p := Put16(p, 10, c);
    assert p[..20] == Put16(q[..20], 10, c);
    assert p[12..16] == q[12..16] && p[16..20] == q[16..20];
    assert p[20..] == buf[20..];
  }

  /** net.c:199-219: the datagram handed to the network card; none if it would not fit in 1500 bytes. */
  method Ipv4Packet(id: int, src: seq<Byte>, dst: seq<Byte>, proto: Byte, payload: seq<Byte>)
    returns (r: int, p: seq<Byte>)
    requires |src| == |dst| == 4 && 0 <= id < TWO16
    ensures r == (if 20 + |payload| > 1500 then -1 else 0)
    ensures r == 0 ==> IpHeader(p, id, proto, src, dst) && p[20..] == payload
  {
    hide IpHeader;
    var total := 20 + |payload|;
    if total > 1500 { return -1, []; }
    p := seq(total, _ => 0);
    p := FillHeader(p, id, proto, src, dst);
    ghost var h := p;
    p := Memcpy(p, 20, payload);
    HeaderKept(h, p, id, proto, src, dst);
    assert p[20..] == p[20..20 + |payload|];
    r := 0;
  }

  lemma HeaderKept(p: seq<Byte>, q: seq<Byte>, id: int, proto: Byte, src: seq<Byte>, dst: seq<Byte>)
    requires IpHeader(p, id, proto, src, dst) && |q| == |p| && forall x :: 0 <= x < 20 ==> q[x] == p[x]
    ensures IpHeader(q, id, proto, src, dst)
  {
    assert q[..20] == p[..20] && q[12..16] == p[12..16] && q[16..20] == p[16..20];
  }

  /** net.c:130-149: the reply to an echo request is the request with type 0 and a fresh checksum. */
  method EchoReply(me: seq<Byte>, src: seq<Byte>, request: seq<Byte>) returns (r: int, p: seq<Byte>)
    requires |me| == |src| == 4 && 8 <= |request| && request[0] == 8
    ensures r == (if 20 + |request| > 1500 then -1 else 0)
    ensures r == 0 ==> IpHeader(p, 0, 1, me, src) && |p| == 20 + |request| && Complement(Words(p[20..])) == 0
    ensures r == 0 ==> p[20] == 0 && p[21] == request[1] && p[24..] == request[4..]
  {
    hide IpHeader, Words, Reduced;
    var total := 20 + |request|;
    if total > 1500 { return -1, []; }
    p := seq(total, _ => 0);
    p := FillHeader(p, 0, 1, me, src);
    ghost var h := p;
    p := Memcpy(p, 20, request);
    assert p[20..20 + |request|] == request;
    ghost var copied := p;
    p := p[20 := 0][22 := 0][23 := 0];
    var c := IpChecksum(p[20..]);
    SelfVerifies(p[20..], 2, 0);
    ghost var q := p;
    p := Put16(p, 22, c);
    assert p[20..] == Put16(q[20..], 2, c);
    HeaderKept(h, p, 0, 1, me, src);
    assert p[24..] == copied[24..] && request[4..] == copied[20..20 + |request|][4..];
    r := 0;
  }
}
