/**
  kernel/net/tcp.c: one client connection, its receive buffer and its segments.  The network is a list of
  packets per poll; sending is atomic and either always works (`up`) or never does.
*/
module Tcp {
  import opened Bytes
  import opened Checksum
  import opened TcpWire
  import opened TcpStream

  /** What the polls of a loop find: at most one packet each. */
  type Polls = seq<Option<Packet>>

  function Packets(ps: Polls): seq<Packet> {
    if ps == [] then [] else
    var front := Packets(ps[..|ps| - 1]);
    match ps[|ps| - 1]
    case None => front
    case Some(p) => front + [p]
  }

  /** The effect of some polls on a connection that listens or does not. */
  function Polled(c: Conn, hooked: bool, ps: Polls): (c': Conn)
    requires |c.rx| <= BUFFER
    ensures |c'.rx| <= BUFFER
  {
    if hooked then ArrivedAll(c, Packets(ps)) else c
  }

  lemma PolledMore(c: Conn, hooked: bool, ps: Polls, i: int)
    requires |c.rx| <= BUFFER && 0 <= i < |ps|
    ensures Polled(c, hooked, ps[..i + 1]) == match ps[i]
              case None => Polled(c, hooked, ps[..i])
              case Some(p) => if hooked then Arrived(Polled(c, hooked, ps[..i]), p) else Polled(c, hooked, ps[..i])
  {
    assert ps[..i + 1][..i] == ps[..i];
    if ps[i].Some? {
      var front := Packets(ps[..i]);
      assert (front + [ps[i].value])[..|front|] == front;
    }
  }

  /** A segment and the addresses it goes between are in `b`, and its checksum verifies. */
  ghost predicate IsSegment(b: seq<Byte>, me: seq<Byte>, peer: seq<Byte>, s: Segment) {
    |me| == |peer| == 4 && Parse(b) == Some(s) && Verifies(me, peer, b)
  }

  /** Packets do not touch what the sending side keeps, once the connection is established. */
  lemma {:induction false} SenderKept(c: Conn, ps: seq<Packet>)
    requires |c.rx| <= BUFFER && (c.phase == Established || c.phase == CloseWait)
    ensures var c' := ArrivedAll(c, ps);
            && c'.sndNxt == c.sndNxt && c'.localPort == c.localPort && c'.remotePort == c.remotePort
            && c'.remoteIp == c.remoteIp
            && (c'.phase == Established || c'.phase == CloseWait)
  {
    if ps != [] { SenderKept(c, ps[..|ps| - 1]); }
  }

  class Connection {
    const me: seq<Byte>
    const rxData: array<Byte>
    var up: bool
    var hooked: bool
    var phase: Phase
    var remoteIp: seq<Byte>
    var localPort: int
    var remotePort: int
    var sndNxt: int
    var rcvNxt: int
    var rxLen: int
    var gotSynack: bool
    var gotFin: bool
    var isnSeed: int
    var nextPort: int
    var sent: seq<seq<Byte>>

    constructor (ip: seq<Byte>, working: bool)
      requires |ip| == 4
      ensures Valid() && phase == Closed && !hooked && me == ip && up == working && fresh(rxData) && sent == []
    {
      me, rxData, up, hooked := ip, new Byte[8192](_ => 0), working, false;
      phase, remoteIp, localPort, remotePort, sndNxt, rcvNxt := Closed, [0, 0, 0, 0], 0, 0, 0, 0;
      rxLen, gotSynack, gotFin, isnSeed, nextPort, sent := 0, false, false, 0xC0FFEE, 42000, [];
    }

    ghost predicate Valid()
      reads this
    {
      && |me| == |remoteIp| == 4 && rxData.Length == BUFFER && 0 <= rxLen <= BUFFER
      && 0 <= localPort < TWO16 && 0 <= remotePort < TWO16 && 0 <= sndNxt < TWO32 && 0 <= rcvNxt < TWO32
      && 0 <= isnSeed < TWO32 && 42000 <= nextPort < TWO16
    }

    ghost function View(): (c: Conn)
      requires Valid()
      reads this, rxData
      ensures |c.rx| <= BUFFER
    {
      Conn(phase, remoteIp, localPort, remotePort, sndNxt, rcvNxt, rxData[..rxLen], gotSynack, gotFin)
    }

    lemma Fields()
      requires Valid()
      ensures var c := View();
              c.phase == phase && c.remoteIp == remoteIp && c.sndNxt == sndNxt && 0 <= sndNxt < TWO32
    {
    }

    lemma Grown(peer: Peer, c: Conn, p: Packet, k: int)
      requires Valid() && TookIn(peer, c, p, k, View())
      ensures rxData[..rxLen] == View().rx && Parse(p.bytes).Some?
      ensures remoteIp == peer.ip && remotePort == peer.port && localPort == c.localPort && sndNxt == c.sndNxt
      ensures rcvNxt == (peer.irs + 1 + k + |Parse(p.bytes).value.payload|) % TWO32
    {
      hide Parse;
    }

    lemma Says(b: seq<Byte>, s: Segment)
      requires Acknowledged(b) && s == Segment(localPort, remotePort, sndNxt, rcvNxt, 0x10, [])
      ensures IsSegment(b, me, remoteIp, s)
    {
    }

    /** tcp.c:56-85. */
    method SendSegment(flags: Byte, data: seq<Byte>, ack: int) returns (r: int)
      requires Valid() && 0 <= ack < TWO32
      modifies this`sent
      ensures Valid() && r == (if 20 + |data| > 1400 || !up then -1 else 0)
      ensures if r == 0 then |sent| == |old(sent)| + 1 && old(sent) <= sent
                && IsSegment(sent[|sent| - 1], me, remoteIp, Segment(localPort, remotePort, sndNxt, ack, flags, data))
              else sent == old(sent)
    {
      var b;
      r, b := BuildSegment(me, remoteIp, Segment(localPort, remotePort, sndNxt, ack, flags, data));
      if r != 0 { return; }
      if !up { return -1; }
      sent := sent + [b];
    }

    /** tcp.c:126-129: the payload is copied behind what is already there. */
    method Append(payload: seq<Byte>)
      requires Valid()
      modifies this`rxLen, rxData
      ensures Valid() && rxData[..rxLen] == old(rxData[..rxLen]) + payload[..Min(|payload|, BUFFER - old(rxLen))]
    {
      var space := rxData.Length - rxLen;
      var copy := if |payload| < space then |payload| else space;
      var i := 0;
      while i < copy
        invariant 0 <= i <= copy && rxLen == old(rxLen)
        invariant rxData[..rxLen + i] == old(rxData[..rxLen]) + payload[..i]
      {
        rxData[rxLen + i] := payload[i];
        i := i + 1;
      }
      rxLen := rxLen + copy;
    }

    ghost predicate Acknowledged(b: seq<Byte>)
      reads this
    {
      IsSegment(b, me, remoteIp, Segment(localPort, remotePort, sndNxt, rcvNxt, 0x10, []))
    }

    /** tcp.c:109-114. */
    method Establish(s: Segment)
      requires Valid() && 0 <= s.sport < TWO16 && 0 <= s.seqNo < TWO32 && 0 <= s.ack < TWO32
      modifies this`remotePort, this`rcvNxt, this`sndNxt, this`gotSynack, this`phase, this`sent
      ensures Valid()
      ensures View() == old(View()).(remotePort := s.sport, rcvNxt := (s.seqNo + 1) % TWO32, sndNxt := s.ack,
                                     gotSynack := true, phase := Established)
      ensures old(sent) <= sent && |sent| == |old(sent)| + (if up then 1 else 0)
      ensures (up ==> Acknowledged(sent[|sent| - 1]))
    {
      hide IsSegment;
      remotePort := s.sport;
      rcvNxt := (s.seqNo + 1) % TWO32;
      sndNxt := s.ack;
      gotSynack := true;
      phase := Established;
      var _ := SendSegment(0x10, [], rcvNxt);
    }

    /** tcp.c:125-137. */
    method DataPart(s: Segment)
      requires Valid()
      modifies this`rcvNxt, this`rxLen, this`sent, rxData
      ensures Valid() && View() == TakeData(old(View()), s)
      ensures var n := if up && s.payload != [] then 1 else 0;
              old(sent) <= sent && |sent| == |old(sent)| + n && (n == 1 ==> Acknowledged(sent[|sent| - 1]))
    {
      hide IsSegment;
      if |s.payload| > 0 && s.seqNo == rcvNxt {
        Append(s.payload);
        rcvNxt := (rcvNxt + |s.payload|) % TWO32;
        var _ := SendSegment(0x10, [], rcvNxt);
      } else if |s.payload| > 0 {
        var _ := SendSegment(0x10, [], rcvNxt);
      }
    }

    /** tcp.c:139-148. */
    method FinPart(s: Segment)
      requires Valid() && 0 <= s.seqNo < TWO32
      modifies this`rcvNxt, this`gotFin, this`phase, this`sent
      ensures Valid() && View() == TakeFin(old(View()), s) && (!HasFin(s) ==> rcvNxt == old(rcvNxt))
      ensures var n := if up && HasFin(s) then 1 else 0;
              old(sent) <= sent && |sent| == |old(sent)| + n && (n == 1 ==> Acknowledged(sent[|sent| - 1]))
    {
      hide IsSegment;
      if HasFin(s) {
        if s.seqNo == rcvNxt {
          rcvNxt := (s.seqNo + |s.payload| + 1) % TWO32;
        } else if |s.payload| == 0 {
          rcvNxt := (s.seqNo + 1) % TWO32;
        }
        gotFin := true;
        var _ := SendSegment(0x10, [], rcvNxt);
        phase := CloseWait;
      }
    }

    /** tcp.c:87-150: on_tcp. */
    method OnTcp(src: seq<Byte>, tcp: seq<Byte>)
      requires Valid()
      modifies this`remotePort, this`rcvNxt, this`sndNxt, this`gotSynack, this`gotFin, this`phase, this`rxLen,
               this`sent, rxData
      ensures Valid() && View() == Arrived(old(View()), Packet(src, tcp))
      ensures old(sent) <= sent && |sent| == |old(sent)| + if up then Answers(old(View()), Packet(src, tcp)) else 0
      ensures |sent| > |old(sent)| ==> Acknowledged(sent[|sent| - 1])
    {
      hide Parse, IsSegment, TakeData, TakeFin, HasFin, IsSynAck;
      var parsed := Parse(tcp);
      if parsed.None? { return; }
      var s := parsed.value;
      ParsedRange(tcp);
      if src != remoteIp || s.dport != localPort { return; }
      if phase == SynSent {
        if IsSynAck(s) { Establish(s); }
        return;
      }
      if phase != Established && phase != CloseWait { return; }
      if s.sport != remotePort { return; }
      DataPart(s);
      FinPart(s);
    }

    /** One net_poll. */
    method Poll(p: Option<Packet>)
      requires Valid()
      modifies this`remotePort, this`rcvNxt, this`sndNxt, this`gotSynack, this`gotFin, this`phase, this`rxLen,
               this`sent, rxData
      ensures Valid() && old(sent) <= sent
      ensures View() == match p
                case None => old(View())
                case Some(q) => if hooked then Arrived(old(View()), q) else old(View())
      ensures !hooked ==> unchanged(this) && unchanged(rxData)
    {
      hide Arrived;
      if p.Some? && hooked { OnTcp(p.value.src, p.value.bytes); }
    }

    /** tcp.c:30-36. */
    method Settle(ps: Polls)
      requires Valid()
      modifies this`remotePort, this`rcvNxt, this`sndNxt, this`gotSynack, this`gotFin, this`phase, this`rxLen,
               this`sent, rxData
      ensures Valid() && old(sent) <= sent && View() == Polled(old(View()), hooked, ps)
      ensures !hooked ==> unchanged(this) && unchanged(rxData)
    {
      hide Arrived, Polled;
      ghost var c := View();
      var i := 0;
      PolledNone(c, hooked);
      while i < |ps|
        invariant 0 <= i <= |ps| && Valid() && old(sent) <= sent && View() == Polled(c, hooked, ps[..i])
        invariant !hooked ==> unchanged(this) && unchanged(rxData)
      {
        PolledMore(c, hooked, ps, i);
        Poll(ps[i]);
        i := i + 1;
      }
      assert ps[..|ps|] == ps;
    }

    /** tcp.c:213-215: what is left moves to the front. */
    method Shift(n: int)
      requires Valid() && 0 <= n <= rxLen
      modifies this`rxLen, rxData
      ensures Valid() && rxLen == old(rxLen) - n && rxData[..rxLen] == old(rxData[..rxLen])[n..]
    {
      ghost var rx := rxData[..rxLen];
      var j := n;
      while j < rxLen
        modifies rxData
        invariant n <= j <= rxLen
        invariant forall x :: 0 <= x < j - n ==> rxData[x] == rx[n + x]
        invariant forall x :: j <= x < rxLen ==> rxData[x] == rx[x]
      {
        rxData[j - n] := rxData[j];
        j := j + 1;
      }
      rxLen := rxLen - n;
    }

    /** tcp.c:211-216: the first bytes go to the caller. */
    method TakeFront(maxlen: nat) returns (out: seq<Byte>)
      requires Valid()
      modifies this`rxLen, rxData
      ensures Valid() && out == old(View()).rx[..Min(maxlen, old(rxLen))]
      ensures View() == old(View()).(rx := old(View()).rx[|out|..])
    {
      var n := if rxLen < maxlen then rxLen else maxlen;
      out := rxData[..n];
      ghost var rx := rxData[..rxLen];
      assert out == rx[..n];
      Shift(n);
    }

    /** tcp.c:207-227: tcp_recv with as many polls as the timeout allows. */
    method Recv(maxlen: nat, ps: Polls) returns (r: int, out: seq<Byte>, ghost polls: nat)
      requires Valid()
      modifies this`remotePort, this`rcvNxt, this`sndNxt, this`gotSynack, this`gotFin, this`phase, this`rxLen,
               this`sent, rxData
      ensures Valid() && polls <= |ps| && (r == -1 && ps != [] ==> rxLen == 0 && !gotFin)
      ensures var c := Polled(old(View()), hooked, ps[..polls]);
              && |out| <= |c.rx| && View() == c.(rx := c.rx[|out|..])
              && (if r == 0 then 0 < polls && (c.rx != [] || c.gotFin) && out == c.rx[..Min(maxlen, |c.rx|)]
                  else r == -1 && polls == |ps| && out == [])
      ensures forall i :: 0 < i < polls ==> var c := Polled(old(View()), hooked, ps[..i]); c.rx == [] && !c.gotFin
    {
      hide Arrived, Polled;
      ghost var c := View();
      PolledNone(c, hooked);
      var i := 0;
      while i < |ps|
        invariant 0 <= i <= |ps| && Valid() && View() == Polled(c, hooked, ps[..i])
        invariant forall j :: 0 < j <= i ==> var d := Polled(c, hooked, ps[..j]); d.rx == [] && !d.gotFin
      {
        PolledMore(c, hooked, ps, i);
        Poll(ps[i]);
        i := i + 1;
        if rxLen > 0 {
          out := TakeFront(maxlen);
          return 0, out, i;
        }
        if gotFin { return 0, [], i; }
      }
      return -1, [], i;
    }

    /** A segment without data that takes up `n` sequence numbers, and time for answers. */
    method Say(flags: Byte, n: nat, ps: Polls)
      requires Valid() && (phase == Established || phase == CloseWait)
      modifies this`remotePort, this`rcvNxt, this`sndNxt, this`gotSynack, this`gotFin, this`phase, this`rxLen,
               this`sent, rxData
      ensures Valid() && old(sent) <= sent && (phase == Established || phase == CloseWait)
      ensures View() == Polled(old(View()), hooked, ps).(sndNxt := Wrap(old(sndNxt) + n)) && remoteIp == old(remoteIp)
      ensures localPort == old(localPort) && remotePort == old(remotePort)
      ensures up ==>
              && |old(sent)| < |sent|
              && IsSegment(sent[|old(sent)|], me, remoteIp,
                           Segment(old(localPort), old(remotePort), old(sndNxt), old(rcvNxt), flags, []))
    {
      hide Arrived, Polled, IsSegment;
      ghost var c := View();
      var _ := SendSegment(flags, [], rcvNxt);
      sndNxt := (sndNxt + n) % TWO32;
      SenderPolled(View(), hooked, ps);
      SendNumberFree(c, hooked, ps, sndNxt);
      Settle(ps);
    }

    /** tcp.c:231-236: FIN, then RST. */
    method HangUp(ps: Polls, ps': Polls)
      requires Valid() && (phase == Established || phase == CloseWait)
      modifies this`remotePort, this`rcvNxt, this`sndNxt, this`gotSynack, this`gotFin, this`phase, this`rxLen,
               this`sent, rxData
      ensures Valid() && old(sent) <= sent
      ensures up ==>
              && |old(sent)| < |sent| && IsSegment(sent[|old(sent)|], me, remoteIp, FinOf(old(View())))
              && SentAfter(|old(sent)| + 1, sent, me, remoteIp, RstOf(old(View()), hooked, ps))
    {
      hide Arrived, Polled, IsSegment, SentAfter, Wrap;
      ghost var c := View();
      Say(0x11, 1, ps);
      ghost var n := |sent|;
      Say(0x14, 0, ps');
      if up { SentNow(|old(sent)| + 1, sent, me, remoteIp, RstOf(c, hooked, ps), n); }
    }

    /** tcp.c:229-244: tcp_close. */
    method Close(ps: Polls, ps': Polls, ps'': Polls)
      requires Valid()
      modifies this, rxData
      ensures Valid() && phase == Closed && !hooked && rxLen == 0 && !gotFin && !gotSynack
      ensures up == old(up) && isnSeed == old(isnSeed) && nextPort == old(nextPort) && old(sent) <= sent
      ensures old(phase) != Established && old(phase) != CloseWait ==> sent == old(sent)
      ensures up && (old(phase) == Established || old(phase) == CloseWait) ==>
              && |old(sent)| < |sent| && IsSegment(sent[|old(sent)|], me, old(remoteIp), FinOf(old(View())))
              && SentAfter(|old(sent)| + 1, sent, me, old(remoteIp), RstOf(old(View()), old(hooked), ps))
    {
      hide Arrived, Polled, View, IsSegment, SentAfter, FinOf, RstOf;
      if phase == Established || phase == CloseWait { HangUp(ps, ps'); }
      phase, rxLen, gotFin, gotSynack, hooked := Closed, 0, false, false, false;
      Settle(ps'');
    }

    /** tcp.c:161-166: a fresh port and initial sequence number. */
    method Number()
      requires Valid()
      modifies this`localPort, this`sndNxt, this`isnSeed, this`nextPort
      ensures Valid() && localPort == old(nextPort) && sndNxt == isnSeed == (old(isnSeed) * 1103515245 + 12345) % TWO32
      ensures nextPort == (if old(nextPort) == 65535 then 42000 else old(nextPort) + 1)
    {
      localPort := nextPort;
      nextPort := (nextPort + 1) % TWO16;
      if nextPort < 42000 { nextPort := 42000; }
      isnSeed := (isnSeed * 1103515245 + 12345) % TWO32;
      sndNxt := isnSeed;
    }

    /** tcp.c:158-171: everything back to the start. */
    method Reset(ip: seq<Byte>, port: int)
      requires Valid() && |ip| == 4 && 0 <= port < TWO16
      modifies this`hooked, this`phase, this`remoteIp, this`localPort, this`remotePort, this`sndNxt, this`rcvNxt,
               this`rxLen,
               this`gotSynack, this`gotFin, this`isnSeed, this`nextPort
      ensures Valid() && hooked && localPort == old(nextPort) && isnSeed == (old(isnSeed) * 1103515245 + 12345) % TWO32
      ensures nextPort == (if old(nextPort) == 65535 then 42000 else old(nextPort) + 1)
      ensures View() == Conn(SynSent, ip, localPort, port, isnSeed, 0, [], false, false)
    {
      Number();
      hooked, remoteIp, remotePort := true, ip, port;
      rcvNxt, rxLen, gotSynack, gotFin, phase := 0, 0, false, false, SynSent;
    }

    /** tcp.c:158-177: the SYN goes out. */
    method Open(ip: seq<Byte>, port: int) returns (r: int)
      requires Valid() && |ip| == 4 && 0 <= port < TWO16
      modifies this`hooked, this`phase, this`remoteIp, this`localPort, this`remotePort, this`sndNxt, this`rcvNxt,
               this`rxLen,
               this`gotSynack, this`gotFin, this`isnSeed, this`nextPort, this`sent
      ensures Valid() && hooked && r == (if up then 0 else -1)
      ensures localPort == old(nextPort) && isnSeed == (old(isnSeed) * 1103515245 + 12345) % TWO32
      ensures nextPort == (if old(nextPort) == 65535 then 42000 else old(nextPort) + 1)
      ensures r == 0 ==> View() == Opening(ip, port, localPort, isnSeed) && !gotSynack
      ensures r == 0 ==> sndNxt == (isnSeed + 1) % TWO32 && phase == SynSent
      ensures r == 0 ==> |sent| == |old(sent)| + 1 && old(sent) <= sent
      ensures r == 0 ==> IsSegment(sent[|sent| - 1], me, ip, Segment(localPort, port, isnSeed, 0, 0x02, []))
      ensures r == -1 ==> phase == Closed
    {
      hide IsSegment;
      Reset(ip, port);
      r := SendSegment(0x02, [], 0);
      if r == 0 { sndNxt := (sndNxt + 1) % TWO32; } else { phase := Closed; }
    }

    /** tcp.c:152-189: tcp_connect.  `before` is what arrives while an old connection is closed and the line
        settles, `ps` what the (at most 400) polls after the SYN find. */
    method Connect(ip: seq<Byte>, port: int, before: Polls, ps: Polls) returns (r: int, ghost polls: nat)
      requires Valid() && |ip| == 4 && 0 <= port < TWO16 && |ps| <= 400
      modifies this, rxData
      ensures Valid() && polls <= |ps| && up == old(up)
      ensures r == 0 || r == -1
      ensures r == 0 ==>
                hooked && gotSynack && View() == ArrivedAll(Opening(ip, port, localPort, isnSeed), Packets(ps[..polls]))
      ensures r == -1 ==> phase == Closed
      ensures r == -1 && up ==>
                polls == |ps| && !ArrivedAll(Opening(ip, port, old(nextPort), isnSeed), Packets(ps)).gotSynack
      ensures up ==> SentAfter(|old(sent)|, sent, me, ip, Segment(old(nextPort), port, isnSeed, 0, 0x02, []))
    {
      hide Arrived, Polled, IsSegment, ArrivedAll, SentAfter, View, Opening;
      if phase != Closed { Close(before, before, before); }
      Settle(before);
      r := Open(ip, port);
      if r != 0 { return -1, 0; }
      ghost var syn := Segment(localPort, port, isnSeed, 0, 0x02, []);
      SentNow(|old(sent)|, sent, me, ip, syn, |sent| - 1);
      ghost var sent1 := sent;
      ghost var start := View();
      r, polls := Await(ps);
      assert ps[..|ps|] == ps;
      SentStays(|old(sent)|, sent1, sent, me, ip, syn);
      if r != 0 {
        phase := Closed;
        hooked := false;
      }
    }

    /** tcp.c:179-184. */
    method Await(ps: Polls) returns (r: int, ghost polls: nat)
      requires Valid() && hooked && !gotSynack
      modifies this`remotePort, this`rcvNxt, this`sndNxt, this`gotSynack, this`gotFin, this`phase, this`rxLen,
               this`sent, rxData
      ensures Valid() && old(sent) <= sent && polls <= |ps| && (r == 0 || r == -1)
      ensures View() == ArrivedAll(old(View()), Packets(ps[..polls]))
      ensures if r == 0 then gotSynack else polls == |ps| && !gotSynack && !View().gotSynack
    {
      hide Arrived, Polled, ArrivedAll;
      ghost var c := View();
      PolledNone(c, hooked);
      var i := 0;
      while i < |ps|
        invariant 0 <= i <= |ps| && Valid() && View() == Polled(c, true, ps[..i]) && !gotSynack && old(sent) <= sent
      {
        PolledMore(c, hooked, ps, i);
        Poll(ps[i]);
        i := i + 1;
        PolledHooked(c, ps[..i]);
        if gotSynack { return 0, i; }
      }
      PolledHooked(c, ps[..i]);
      return -1, i;
    }

    /** tcp.c:196-202: one chunk of tcp_send; `refuse` says that the layer below turns it down. */
    method SendChunk(piece: seq<Byte>, refuse: bool, ps: Polls) returns (r: int, ghost s: Segment)
      requires Valid() && 0 < |piece| <= 800 && (phase == Established || phase == CloseWait)
      modifies this`remotePort, this`rcvNxt, this`sndNxt, this`gotSynack, this`gotFin, this`phase, this`rxLen,
               this`sent, rxData
      ensures Valid() && old(sent) <= sent && (phase == Established || phase == CloseWait)
      ensures r == (if up && !refuse then 0 else -1) && (r == -1 ==> View() == old(View()) && sent == old(sent))
      ensures s == ChunkOf(old(View()), piece)
      ensures r == 0 ==> |old(sent)| < |sent| && IsSegment(sent[|old(sent)|], me, remoteIp, s)
      ensures r == 0 ==> View() == Polled(old(View()), hooked, ps).(sndNxt := Wrap(old(View()).sndNxt + |piece|))
    {
      hide Arrived, Polled, IsSegment;
      s := Segment(localPort, remotePort, sndNxt, rcvNxt, 0x18, piece);
      if refuse { return -1, s; }
      r := SendSegment(0x18, piece, rcvNxt);
      if r != 0 { return; }
      ghost var c := View();
      sndNxt := (sndNxt + |piece|) % TWO32;
      SenderPolled(View(), hooked, ps);
      SendNumberFree(c, hooked, ps, sndNxt);
      Settle(ps);
    }

    /** tcp.c:191-205: tcp_send.  `refused[i]` says that the layer below turns chunk `i` down, `ps[i]` is what
        arrives while the line settles after it; `chunks` are the segments that carry the first `off` bytes, in
        order, each starting where the one before ended.  A failure midway has sent what came before it. */
    method Send(data: seq<Byte>, refused: seq<bool>, ps: seq<Polls>)
      returns (r: int, off: int, ghost chunks: seq<Segment>)
      requires Valid()
      modifies this`remotePort, this`rcvNxt, this`sndNxt, this`gotSynack, this`gotFin, this`phase, this`rxLen,
               this`sent, rxData
      ensures Valid() && (r == 0 || r == -1)
      ensures old(phase) != Established ==>
                r == -1 && off == 0 && chunks == [] && sent == old(sent) && sndNxt == old(sndNxt)
      ensures old(phase) == Established ==>
              && Sending(chunks, old(sndNxt), data, off, old(sent), sent, me, remoteIp)
              && sndNxt == Wrap(old(sndNxt) + off)
              && (r == 0 <==> off == |data|) && (r == -1 ==> off % 800 == 0 && (!up || Refuses(refused, off / 800)))
              && (0 < off ==> up) && (forall i :: 0 <= i && 800 * i < off ==> !Refuses(refused, i))
              && Marked(chunks, old(View()), hooked, ps)
              && View() == Heard(old(View()), hooked, ps, |chunks|).(sndNxt := Wrap(old(sndNxt) + off))
    {
      hide Arrived, Polled, IsSegment, Refuses, OnItsWay, Running, View, ChunkOf, Sending, Marked, Heard, Wrap;
      off, chunks := 0, [];
      if phase != Established { return -1, 0, chunks; }
      var k := 0;
      ghost var c, sent0 := View(), sent;
      Fields();
      NoneOnItsWay(c, hooked, ps, data, sent0, me);
      while off < |data|
        invariant 0 <= off <= |data| && off == Min(800 * k, |data|) && 0 <= k == |chunks| && Valid()
        invariant OnItsWay(c, hooked, ps, data, off, chunks, sent0, sent, me, View()) && remoteIp == c.remoteIp
        invariant (0 < off ==> up) && forall i :: 0 <= i < k ==> !Refuses(refused, i)
      {
        ghost var v, sent1 := View(), sent;
        OnItsWayOpen(c, hooked, ps, data, off, chunks, sent0, sent, me, v);
        Fields();
        var chunk := if |data| - off > 800 then 800 else |data| - off;
        var ok, s := SendChunk(data[off..off + chunk], Refuses(refused, k), PollsAt(ps, k));
        if ok != 0 {
          OnItsWayMeans(c, hooked, ps, data, off, chunks, sent0, sent, me, View());
          Fields();
          return -1, off, chunks;
        }
        MoreOnItsWay(c, hooked, ps, data, off, off + chunk, chunks, sent0, sent1, sent, me, v, s, View());
        chunks := chunks + [s];
        off, k := off + chunk, k + 1;
      }
      OnItsWayMeans(c, hooked, ps, data, off, chunks, sent0, sent, me, View());
      Fields();
      r := 0;
    }
  }

  /** The first `off` bytes have gone out, and `v` is the connection then. */
  ghost predicate OnItsWay(c: Conn, hooked: bool, ps: seq<Polls>, data: seq<Byte>, off: int, chunks: seq<Segment>,
                           sent0: seq<seq<Byte>>, sent: seq<seq<Byte>>, me: seq<Byte>, v: Conn)
  {
    && |c.rx| <= BUFFER && Running(c) && Sending(chunks, c.sndNxt, data, off, sent0, sent, me, c.remoteIp)
    && Marked(chunks, c, hooked, ps)
    && v == Heard(c, hooked, ps, |chunks|).(sndNxt := Wrap(c.sndNxt + off))
  }

  lemma NoneOnItsWay(c: Conn, hooked: bool, ps: seq<Polls>, data: seq<Byte>, sent: seq<seq<Byte>>, me: seq<Byte>)
    requires |c.rx| <= BUFFER && c.phase == Established && 0 <= c.sndNxt < TWO32
    ensures OnItsWay(c, hooked, ps, data, 0, [], sent, sent, me, c)
  {
    SendingNone(c.sndNxt, data, sent, me, c.remoteIp);
    MarkedNone(c, hooked, ps);
    hide Sending, Marked, Heard;
  }

  lemma OnItsWayOpen(c: Conn, hooked: bool, ps: seq<Polls>, data: seq<Byte>, off: int, chunks: seq<Segment>,
                     sent0: seq<seq<Byte>>, sent: seq<seq<Byte>>, me: seq<Byte>, v: Conn)
    requires OnItsWay(c, hooked, ps, data, off, chunks, sent0, sent, me, v)
    ensures (v.phase == Established || v.phase == CloseWait) && v.remoteIp == c.remoteIp
  {
    hide Sending, Marked, Heard;
    HeardKept(c, hooked, ps, |chunks|);
  }

  lemma OnItsWayMeans(c: Conn, hooked: bool, ps: seq<Polls>, data: seq<Byte>, off: int, chunks: seq<Segment>,
                      sent0: seq<seq<Byte>>, sent: seq<seq<Byte>>, me: seq<Byte>, v: Conn)
    requires OnItsWay(c, hooked, ps, data, off, chunks, sent0, sent, me, v)
    ensures |c.rx| <= BUFFER && Sending(chunks, c.sndNxt, data, off, sent0, sent, me, v.remoteIp)
    ensures Marked(chunks, c, hooked, ps) && v.sndNxt == Wrap(c.sndNxt + off)
    ensures v == Heard(c, hooked, ps, |chunks|).(sndNxt := Wrap(c.sndNxt + off))
  {
    hide Sending, Marked, Heard, Wrap;
    HeardKept(c, hooked, ps, |chunks|);
  }

  lemma MoreOnItsWay(c: Conn, hooked: bool, ps: seq<Polls>, data: seq<Byte>, i: int, j: int, chunks: seq<Segment>,
                     sent0: seq<seq<Byte>>, sent: seq<seq<Byte>>, sent': seq<seq<Byte>>, me: seq<Byte>, v: Conn,
                     s: Segment, v': Conn)
    requires OnItsWay(c, hooked, ps, data, i, chunks, sent0, sent, me, v) && |v.rx| <= BUFFER
    requires 0 <= i < j <= |data| && j - i <= 800 && sent <= sent' && |sent| < |sent'|
    requires s == ChunkOf(v, data[i..j])
    requires IsSegment(sent'[|sent|], me, c.remoteIp, s)
    requires v' == Polled(v, hooked, PollsAt(ps, |chunks|)).(sndNxt := Wrap(v.sndNxt + (j - i)))
    ensures OnItsWay(c, hooked, ps, data, j, chunks + [s], sent0, sent', me, v')
  {
    hide Sending, Marked, Heard, Wrap, IsSegment, Polled, Running;
    HeardKept(c, hooked, ps, |chunks|);
    HeardNext(c, hooked, ps, |chunks|, v.sndNxt);
    SendingMore(chunks, c.sndNxt, data, i, j, sent0, sent, sent', me, c.remoteIp, s);
    MarkedMore(chunks, c, hooked, ps, s);
  }

  /** tcp.c:199: the segment that carries a chunk. */
  function ChunkOf(c: Conn, piece: seq<Byte>): Segment {
    Segment(c.localPort, c.remotePort, c.sndNxt, c.rcvNxt, 0x18, piece)
  }

  /** tcp.c:231 and 235: the segments that end a connection. */
  function FinOf(c: Conn): Segment { Segment(c.localPort, c.remotePort, c.sndNxt, c.rcvNxt, 0x11, []) }

  function RstOf(c: Conn, hooked: bool, ps: Polls): Segment
    requires |c.rx| <= BUFFER
  {
    Segment(c.localPort, c.remotePort, Wrap(c.sndNxt + 1), Polled(c, hooked, ps).rcvNxt, 0x14, [])
  }

  function PollsAt(ps: seq<Polls>, i: nat): Polls { if i < |ps| then ps[i] else [] }

  /** What the line brings while the first `k` chunks go out. */
  function Heard(c: Conn, hooked: bool, ps: seq<Polls>, k: nat): (c': Conn)
    requires |c.rx| <= BUFFER
    ensures |c'.rx| <= BUFFER
  {
    if k == 0 then c else Polled(Heard(c, hooked, ps, k - 1), hooked, PollsAt(ps, k - 1))
  }

  /** Every chunk goes between the connection's ports, says PSH and ACK, and acknowledges what has been heard so far. */
  ghost predicate Marked(ss: seq<Segment>, c: Conn, hooked: bool, ps: seq<Polls>)
    requires |c.rx| <= BUFFER
  {
    forall i :: 0 <= i < |ss| ==>
      && ss[i].sport == c.localPort && ss[i].dport == c.remotePort && ss[i].flags == 0x18
      && ss[i].ack == Heard(c, hooked, ps, i).rcvNxt
  }

  lemma MarkedNone(c: Conn, hooked: bool, ps: seq<Polls>)
    requires |c.rx| <= BUFFER
    ensures Marked([], c, hooked, ps) && Heard(c, hooked, ps, 0) == c
  {
  }

  lemma MarkedMore(ss: seq<Segment>, c: Conn, hooked: bool, ps: seq<Polls>, s: Segment)
    requires |c.rx| <= BUFFER && Marked(ss, c, hooked, ps) && s.sport == c.localPort && s.dport == c.remotePort
    requires s.flags == 0x18 && s.ack == Heard(c, hooked, ps, |ss|).rcvNxt
    ensures Marked(ss + [s], c, hooked, ps)
  {
    hide Heard;
  }

  predicate Running(c: Conn) { c.phase == Established || c.phase == CloseWait }

  lemma {:induction false} HeardKept(c: Conn, hooked: bool, ps: seq<Polls>, k: nat)
    requires |c.rx| <= BUFFER && Running(c)
    ensures var c' := Heard(c, hooked, ps, k);
            && Running(c') && c'.localPort == c.localPort && c'.remotePort == c.remotePort && c'.remoteIp == c.remoteIp
            && c'.sndNxt == c.sndNxt
  {
    hide Polled;
    if 0 < k {
      HeardKept(c, hooked, ps, k - 1);
      SenderPolled(Heard(c, hooked, ps, k - 1), hooked, PollsAt(ps, k - 1));
    }
  }

  /** On an open connection the number of the next byte to send plays no part in what arrives. */
  lemma {:induction false} SendNumberApart(c: Conn, ps: seq<Packet>, n: int)
    requires |c.rx| <= BUFFER && Running(c)
    ensures ArrivedAll(c.(sndNxt := n), ps) == ArrivedAll(c, ps).(sndNxt := n)
  {
    hide Arrived;
    if ps != [] {
      SendNumberApart(c, ps[..|ps| - 1], n);
      SenderKept(c, ps[..|ps| - 1]);
      NumberApart(ArrivedAll(c, ps[..|ps| - 1]), ps[|ps| - 1], n);
    }
  }

  lemma NumberApart(c: Conn, p: Packet, n: int)
    requires |c.rx| <= BUFFER && Running(c)
    ensures Arrived(c.(sndNxt := n), p) == Arrived(c, p).(sndNxt := n)
  {
    hide Parse, HasFin, TakeFin, TakeData;
    if Parse(p.bytes).Some? { TakingApart(c, Parse(p.bytes).value, n); }
  }

  lemma TakingApart(c: Conn, s: Segment, n: int)
    requires |c.rx| <= BUFFER
    ensures TakeFin(TakeData(c.(sndNxt := n), s), s) == TakeFin(TakeData(c, s), s).(sndNxt := n)
  {
    hide HasFin;
  }

  lemma SendNumberFree(c: Conn, hooked: bool, ps: Polls, n: int)
    requires |c.rx| <= BUFFER && Running(c)
    ensures Polled(c.(sndNxt := n), hooked, ps) == Polled(c, hooked, ps).(sndNxt := n)
  {
    hide ArrivedAll;
    SendNumberApart(c, Packets(ps), n);
  }

  lemma HeardNext(c: Conn, hooked: bool, ps: seq<Polls>, k: nat, n: int)
    requires |c.rx| <= BUFFER && Running(c)
    ensures Polled(Heard(c, hooked, ps, k).(sndNxt := n), hooked, PollsAt(ps, k)) ==
            Heard(c, hooked, ps, k + 1).(sndNxt := n)
  {
    hide Polled;
    HeardKept(c, hooked, ps, k);
    SendNumberFree(Heard(c, hooked, ps, k), hooked, PollsAt(ps, k), n);
  }

  predicate Refuses(refused: seq<bool>, i: int) { 0 <= i < |refused| && refused[i] }

  lemma PolledNone(c: Conn, hooked: bool)
    requires |c.rx| <= BUFFER
    ensures forall ps: Polls :: Polled(c, hooked, ps[..0]) == c
    ensures Polled(c, hooked, []) == c
  {
  }

  lemma PolledHooked(c: Conn, ps: Polls)
    requires |c.rx| <= BUFFER
    ensures Polled(c, true, ps) == ArrivedAll(c, Packets(ps))
  {
  }

  lemma SenderPolled(c: Conn, hooked: bool, ps: Polls)
    requires |c.rx| <= BUFFER && (c.phase == Established || c.phase == CloseWait)
    ensures var c' := Polled(c, hooked, ps);
            && c'.sndNxt == c.sndNxt && c'.remoteIp == c.remoteIp && (c'.phase == Established || c'.phase == CloseWait)
            && c'.localPort == c.localPort && c'.remotePort == c.remotePort
  {
    hide ArrivedAll;
    SenderKept(c, Packets(ps));
  }

  /** The state of a connection whose SYN has gone out. */
  function Opening(ip: seq<Byte>, port: int, localPort: int, isn: int): Conn {
    Conn(SynSent, ip, localPort, port, (isn + 1) % TWO32, 0, [], false, false)
  }

  /** A 32-bit sequence number. */
  function Wrap(x: int): int { x % TWO32 }

  lemma WrapAdd(x: int, y: int)
    ensures Wrap(Wrap(x) + y) == Wrap(x + y)
  {
  }

  function Payloads(ss: seq<Segment>): seq<Byte> {
    if ss == [] then [] else Payloads(ss[..|ss| - 1]) + ss[|ss| - 1].payload
  }

  /** The segments are non-empty pieces of `data`, in order and with consecutive sequence numbers. */
  ghost predicate Carry(ss: seq<Segment>, first: int, data: seq<Byte>)
    decreases |ss|
  {
    if ss == [] then data == [] else
    var s := ss[|ss| - 1];
    && 0 < |s.payload| <= 800 && |s.payload| <= |data| && s.payload == data[|data| - |s.payload|..]
    && s.seqNo == Wrap(first + |data| - |s.payload|) && Carry(ss[..|ss| - 1], first, data[..|data| - |s.payload|])
  }

  lemma {:induction false} CarryPayloads(ss: seq<Segment>, first: int, data: seq<Byte>)
    requires Carry(ss, first, data)
    ensures Payloads(ss) == data
    decreases |ss|
  {
    if ss != [] {
      var n := |data| - |ss[|ss| - 1].payload|;
      CarryPayloads(ss[..|ss| - 1], first, data[..n]);
      assert data[..n] + data[n..] == data;
    }
  }

  lemma CarryNone(first: int, data: seq<Byte>)
    ensures Carry([], first, data[..0])
  {
  }

  lemma CarryNext(ss: seq<Segment>, first: int, data: seq<Byte>, i: int, j: int, s: Segment)
    requires 0 <= i < j <= |data| && j - i <= 800 && Carry(ss, first, data[..i])
    requires s.payload == data[i..j] && s.seqNo == Wrap(first + i)
    ensures Carry(ss + [s], first, data[..j])
  {
    CarryMore(ss, first, data[..i], s);
    assert data[..i] + data[i..j] == data[..j];
  }

  ghost predicate AllSent(lo: int, sent: seq<seq<Byte>>, me: seq<Byte>, peer: seq<Byte>, ss: seq<Segment>) {
    forall i :: 0 <= i < |ss| ==> SentAfter(lo, sent, me, peer, ss[i])
  }

  lemma AllSentMore(lo: int, sent: seq<seq<Byte>>, sent': seq<seq<Byte>>, me: seq<Byte>, peer: seq<Byte>,
                    ss: seq<Segment>, s: Segment)
    requires AllSent(lo, sent, me, peer, ss) && sent <= sent' && 0 <= lo <= |sent| < |sent'|
    requires IsSegment(sent'[|sent|], me, peer, s)
    ensures AllSent(lo, sent', me, peer, ss + [s])
  {
    hide SentAfter, IsSegment;
    SentNow(lo, sent', me, peer, s, |sent|);
    forall i | 0 <= i < |ss| ensures SentAfter(lo, sent', me, peer, ss[i]) {
      SentStays(lo, sent, sent', me, peer, ss[i]);
    }
  }

  lemma CarryMore(ss: seq<Segment>, first: int, data: seq<Byte>, s: Segment)
    requires Carry(ss, first, data) && 0 < |s.payload| <= 800 && s.seqNo == Wrap(first + |data|)
    ensures Carry(ss + [s], first, data + s.payload)
  {
    var all := data + s.payload;
    assert (ss + [s])[..|ss|] == ss && all[..|data|] == data && all[|data|..] == s.payload;
  }

  /** Segment `s` is among those sent from position `lo` on. */
  ghost predicate SentAfter(lo: int, sent: seq<seq<Byte>>, me: seq<Byte>, peer: seq<Byte>, s: Segment) {
    exists j :: 0 <= lo <= j < |sent| && IsSegment(sent[j], me, peer, s)
  }

  lemma SentNow(lo: int, sent: seq<seq<Byte>>, me: seq<Byte>, peer: seq<Byte>, s: Segment, j: int)
    requires 0 <= lo <= j < |sent| && IsSegment(sent[j], me, peer, s)
    ensures SentAfter(lo, sent, me, peer, s)
  {
  }

  lemma SentStays(lo: int, sent: seq<seq<Byte>>, sent': seq<seq<Byte>>, me: seq<Byte>, peer: seq<Byte>, s: Segment)
    requires SentAfter(lo, sent, me, peer, s) && sent <= sent'
    ensures SentAfter(lo, sent', me, peer, s)
  {
    var j :| 0 <= lo <= j < |sent| && IsSegment(sent[j], me, peer, s);
    assert sent'[j] == sent[j];
  }

  /** The chunks sent so far carry the first `off` bytes and are all on the wire. */
  ghost predicate Sending(ss: seq<Segment>, first: int, data: seq<Byte>, off: int, sent0: seq<seq<Byte>>,
                          sent: seq<seq<Byte>>, me: seq<Byte>, peer: seq<Byte>) {
    0 <= off <= |data| && Carry(ss, first, data[..off]) && sent0 <= sent && AllSent(|sent0|, sent, me, peer, ss)
  }

  lemma SendingNone(first: int, data: seq<Byte>, sent: seq<seq<Byte>>, me: seq<Byte>, peer: seq<Byte>)
    ensures Sending([], first, data, 0, sent, sent, me, peer) && (0 <= first < TWO32 ==> first == Wrap(first + 0))
  {
    CarryNone(first, data);
  }

  lemma SendingMore(ss: seq<Segment>, first: int, data: seq<Byte>, i: int, j: int, sent0: seq<seq<Byte>>,
                    sent: seq<seq<Byte>>,
                    sent': seq<seq<Byte>>, me: seq<Byte>, peer: seq<Byte>, s: Segment)
    requires Sending(ss, first, data, i, sent0, sent, me, peer) && i < j <= |data| && j - i <= 800
    requires sent <= sent' && |sent| < |sent'| && IsSegment(sent'[|sent|], me, peer, s)
    requires s.payload == data[i..j] && s.seqNo == Wrap(first + i)
    ensures Sending(ss + [s], first, data, j, sent0, sent', me, peer)
    ensures Wrap(Wrap(first + i) + (j - i)) == Wrap(first + j)
  {
    hide Carry, AllSent, IsSegment;
    CarryNext(ss, first, data, i, j, s);
    AllSentMore(|sent0|, sent, sent', me, peer, ss, s);
    WrapAdd(first + i, j - i);
  }

  lemma ParsedRange(b: seq<Byte>)
    ensures Parse(b).Some? ==>
              var s := Parse(b).value;
              0 <= s.sport < TWO16 && 0 <= s.dport < TWO16 && 0 <= s.seqNo < TWO32 && 0 <= s.ack < TWO32
  {
  }

  // ---- a whole session ------------------------------------------------------------------------------------

  lemma AfterMore(w: World, es: seq<Event>, i: int)
    requires |w.c.rx| <= BUFFER && 0 <= i < |es|
    ensures After(w, es[..i + 1]) == Next(After(w, es[..i]), es[i])
  {
    assert es[..i + 1][..i] == es[..i];
  }

  /** A run of the connection, packets and reads in any order: it does what the steps of TcpStream do, so an
      honest peer's bytes come out in order while nothing overflows. */
  method Session(c: Connection, es: seq<Event>, ghost peer: Peer) returns (delivered: seq<Byte>)
    requires c.Valid() && c.hooked
    modifies c, c.rxData
    ensures c.Valid() && World(c.View(), delivered) == After(World(old(c.View()), []), es)
    ensures var v := old(c.View());
            Legal(peer) && InOrder(peer, v, []) && AllHonest(peer, old(c.localPort), es) && Calm(World(v, []), es) ==>
              && InOrder(peer, c.View(), delivered)
              && Tallies(World(c.View(), delivered), Got(peer, old(c.localPort), Heads(v), es))
  {
    hide Arrived, InOrder, Calm, Polled, Got, AllHonest;
    delivered := [];
    ghost var w := World(c.View(), []);
    var i := 0;
    while i < |es|
      invariant 0 <= i <= |es| && c.Valid() && c.hooked && World(c.View(), delivered) == After(w, es[..i])
    {
      AfterMore(w, es, i);
      match es[i] {
        case Arrive(p) => c.OnTcp(p.src, p.bytes);
        case Take(n) =>
          PolledIdle(c.View(), c.hooked);
          var _, out, _ := c.Recv(n, [None]);
          delivered := delivered + out;
      }
      i := i + 1;
    }
    assert es[..|es|] == es;
    if Legal(peer) && InOrder(peer, w.c, []) && AllHonest(peer, w.c.localPort, es) && Calm(w, es) {
      RunProgress(peer, w, es, Heads(w.c));
    }
  }

  /** How much of the stream a connection has when nothing has been delivered yet. */
  function Heads(c: Conn): int { if c.phase == SynSent then -1 else |c.rx| }

  /** The peer's next bytes, if they fit: they are buffered behind what is there, and the answer acknowledges exactly
      them. */
  method Hear(c: Connection, p: Packet, ghost peer: Peer, ghost delivered: seq<Byte>, ghost k: int)
    requires c.Valid() && c.phase == Established && Legal(peer) && InOrder(peer, c.View(), delivered)
    requires k == |delivered| + c.rxLen && DataFrom(peer, c.localPort, p, k)
    requires var s := Parse(p.bytes).value; !HasFin(s) && |s.payload| <= 8192 - c.rxLen
    modifies c, c.rxData
    ensures var n := k + |Parse(p.bytes).value.payload|;
            && c.Valid() && n <= |peer.data| && delivered + c.rxData[..c.rxLen] == peer.data[..n]
            && (c.up ==>
                  && |c.sent| == |old(c.sent)| + 1
                  && IsSegment(c.sent[|c.sent| - 1], c.me, peer.ip,
                               Segment(old(c.localPort), peer.port, old(c.sndNxt), (peer.irs + 1 + n) % TWO32,
                                       0x10, [])))
  {
    ghost var v := c.View();
    assert v.localPort == c.localPort && v.sndNxt == c.sndNxt;
    Grows(peer, v, delivered, p, k);
    hide *;
    c.OnTcp(p.src, p.bytes);
    c.Grown(peer, v, p, k);
    if c.up {
      ghost var n := k + |Parse(p.bytes).value.payload|;
      c.Says(c.sent[|c.sent| - 1],
             Segment(old(c.localPort), peer.port, old(c.sndNxt), (peer.irs + 1 + n) % TWO32, 0x10, []));
    }
  }

  /** What such a packet does to the connection. */
  lemma Grows(peer: Peer, c: Conn, delivered: seq<Byte>, p: Packet, k: int)
    requires |c.rx| <= BUFFER && c.phase == Established && Legal(peer) && InOrder(peer, c, delivered)
    requires k == |delivered| + |c.rx| && DataFrom(peer, c.localPort, p, k)
    requires var s := Parse(p.bytes).value; !HasFin(s) && |s.payload| <= 8192 - |c.rx|
    ensures Answers(c, p) == 1 && TookIn(peer, c, p, k, Arrived(c, p))
    ensures var n := k + |Parse(p.bytes).value.payload|;
            n <= |peer.data| && delivered + Arrived(c, p).rx == peer.data[..n]
  {
    var s := Parse(p.bytes).value;
    hide Parse;
    OverNext(c, s);
    PrefixGrows(peer.data, k, s.payload);
    assert delivered + (c.rx + s.payload) == (delivered + c.rx) + s.payload;
    NextSeq(peer, k, |s.payload|);
    hide TakeData, TakeFin;
  }

  ghost predicate TookIn(peer: Peer, c: Conn, p: Packet, k: int, c': Conn) {
    && Parse(p.bytes).Some? && c.remoteIp == peer.ip && c.remotePort == peer.port
    && var s := Parse(p.bytes).value;
    c' == c.(rx := c.rx + s.payload, rcvNxt := (peer.irs + 1 + k + |s.payload|) % TWO32)
  }

  lemma PolledIdle(c: Conn, hooked: bool)
    requires |c.rx| <= BUFFER
    ensures forall n :: 0 <= n <= 1 ==> Polled(c, hooked, [None][..n]) == c
  {
    var ps: Polls := [None];
    PolledMore(c, hooked, ps, 0);
    PolledNone(c, hooked);
    assert ps[..1] == ps;
    forall n | 0 <= n <= 1 ensures Polled(c, hooked, ps[..n]) == c {
      assert ps[..n] == if n == 0 then [] else ps;
    }
  }

  /** A freshly opened connection is in order, whatever the peer will send. */
  lemma OpeningInOrder(peer: Peer, port: int, localPort: int, isn: int)
    ensures InOrder(peer, Opening(peer.ip, port, localPort, isn), [])
  {
  }

  function Arrivals(ps: seq<Packet>): seq<Event> { seq(|ps|, i requires 0 <= i < |ps| => Arrive(ps[i])) }

  lemma {:induction false} ArrivalsAfter(c: Conn, ps: seq<Packet>)
    requires |c.rx| <= BUFFER
    ensures After(World(c, []), Arrivals(ps)) == World(ArrivedAll(c, ps), [])
  {
    hide Arrived;
    if ps != [] {
      var n := |ps| - 1;
      ArrivalsAfter(c, ps[..n]);
      assert Arrivals(ps)[..n] == Arrivals(ps[..n]) && Arrivals(ps)[n] == Arrive(ps[n]);
    }
  }

  lemma {:induction false} AfterConcat(w: World, a: seq<Event>, b: seq<Event>)
    requires |w.c.rx| <= BUFFER
    ensures After(w, a + b) == After(After(w, a), b)
  {
    hide Next;
    if b == [] {
      assert a + b == a;
    } else {
      var n := |b| - 1;
      AfterConcat(w, a, b[..n]);
      assert (a + b)[..|a| + n] == a + b[..n] && (a + b)[|a| + n] == b[n];
    }
  }

  /** A whole connection, from tcp_connect on: `heard` arrives while it waits for the answer to its SYN, `es` are
      the packets and reads after that.  An honest peer's bytes come out in order at every point if and only if
      nothing overflows. */
  method Converse(c: Connection, ip: seq<Byte>, port: int, before: Polls, ps: Polls, es: seq<Event>, ghost peer: Peer)
    returns (r: int, delivered: seq<Byte>, ghost start: Conn, ghost heard: seq<Packet>)
    requires c.Valid() && |ip| == 4 && 0 <= port < TWO16 && |ps| <= 400
    modifies c, c.rxData
    ensures c.Valid() && (r == 0 || r == -1) && (r == -1 ==> delivered == [])
    ensures start.phase == SynSent && start.remoteIp == ip && start.rx == []
    ensures r == 0 ==> World(c.View(), delivered) == After(World(start, []), Arrivals(heard) + es)
    ensures var all := Arrivals(heard) + es;
            r == 0 && Legal(peer) && peer.ip == ip && AllHonest(peer, start.localPort, all) ==>
              (AlwaysInOrder(peer, World(start, []), all) <==> Calm(World(start, []), all))
    ensures var all := Arrivals(heard) + es;
            r == 0 && Legal(peer) && peer.ip == ip && AllHonest(peer, start.localPort, all)
            && Calm(World(start, []), all) ==>
              Tallies(World(c.View(), delivered), Got(peer, start.localPort, -1, all))
  {
    hide Got, Tallies, Arrived, InOrder, Calm, Polled, AllHonest, AlwaysInOrder, Next, After, Legal;
    delivered, start, heard := [], Opening(ip, port, 0, 0), [];
    ghost var polls;
    r, polls := c.Connect(ip, port, before, ps);
    if r != 0 { return; }
    ghost var isn := c.isnSeed;
    start, heard := Opening(ip, port, c.localPort, isn), Packets(ps[..polls]);
    ghost var all := Arrivals(heard) + es;
    ArrivalsAfter(start, heard);
    AfterConcat(World(start, []), Arrivals(heard), es);
    delivered := Session(c, es, peer);
    if Legal(peer) && peer.ip == ip && AllHonest(peer, start.localPort, all) {
      OpeningInOrder(peer, port, start.localPort, isn);
      RunInOrder(peer, World(start, []), all);
      if Calm(World(start, []), all) {
        StartTallies(start);
        RunProgress(peer, World(start, []), all, -1);
      }
    }
  }

  lemma StartTallies(c: Conn)
    requires c.phase == SynSent
    ensures Tallies(World(c, []), -1)
  {
  }
}
