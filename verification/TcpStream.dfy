/**
  The receiving side of tcp.c as steps on a value, and the order in which it delivers the bytes of a peer
  over a network that loses, repeats and reorders segments (section 3.4 of RFC 9293).
*/
module TcpStream {
  import opened Bytes
  import opened TcpWire

  const BUFFER: int := 8192

  datatype Phase = Closed | SynSent | Established | CloseWait

  datatype Conn = Conn(phase: Phase, remoteIp: seq<Byte>, localPort: int, remotePort: int, sndNxt: int, rcvNxt: int,
                       rx: seq<Byte>, gotSynack: bool, gotFin: bool)

  datatype Packet = Packet(src: seq<Byte>, bytes: seq<Byte>)

  /** tcp.c:125-137: the next bytes in order are kept as far as there is room, and all are acknowledged. */
  function TakeData(c: Conn, s: Segment): (c': Conn)
    requires |c.rx| <= BUFFER
    ensures |c'.rx| <= BUFFER
  {
    if s.payload != [] && s.seqNo == c.rcvNxt then
      var kept := s.payload[..Min(|s.payload|, BUFFER - |c.rx|)];
      c.(rx := c.rx + kept, rcvNxt := (c.rcvNxt + |s.payload|) % TWO32)
    else c
  }

  /** tcp.c:139-148. */
  function TakeFin(c: Conn, s: Segment): Conn {
    if !HasFin(s) then c else
    var next := if s.seqNo == c.rcvNxt then (s.seqNo + |s.payload| + 1) % TWO32
                else if s.payload == [] then (s.seqNo + 1) % TWO32 else c.rcvNxt;
    c.(rcvNxt := next, gotFin := true, phase := CloseWait)
  }

  /** on_tcp: what one packet does to the connection. */
  function Arrived(c: Conn, p: Packet): (c': Conn)
    requires |c.rx| <= BUFFER
    ensures |c'.rx| <= BUFFER
  {
    match Parse(p.bytes)
    case None => c
    case Some(s) =>
      if p.src != c.remoteIp || s.dport != c.localPort then c
      else match c.phase
        case SynSent =>
          if IsSynAck(s) then
            c.(remotePort := s.sport, rcvNxt := (s.seqNo + 1) % TWO32, sndNxt := s.ack, gotSynack := true,
               phase := Established)
          else c
        case Closed => c
        case _ => if s.sport != c.remotePort then c else TakeFin(TakeData(c, s), s)
  }

  /** The packets on_tcp answers with an acknowledgement of its new rcv_nxt, and how many times. */
  function Answers(c: Conn, p: Packet): nat {
    match Parse(p.bytes)
    case None => 0
    case Some(s) =>
      if p.src != c.remoteIp || s.dport != c.localPort then 0
      else match c.phase
        case SynSent => if IsSynAck(s) then 1 else 0
        case Closed => 0
        case _ =>
          if s.sport != c.remotePort then 0 else (if s.payload != [] then 1 else 0) + (if HasFin(s) then 1 else 0)
  }

  function ArrivedAll(c: Conn, ps: seq<Packet>): (c': Conn)
    requires |c.rx| <= BUFFER
    ensures |c'.rx| <= BUFFER
  {
    if ps == [] then c else Arrived(ArrivedAll(c, ps[..|ps| - 1]), ps[|ps| - 1])
  }

  // ---- an honest peer -----------------------------------------------------------------------------------

  /** The other end: its address, its initial sequence number and everything it will ever send. */
  datatype Peer = Peer(ip: seq<Byte>, port: int, irs: int, data: seq<Byte>)

  ghost predicate Legal(peer: Peer) { 0 <= peer.irs < TWO32 && |peer.data| < TWO32 }

  function SeqAt(peer: Peer, k: int): int { (peer.irs + 1 + k) % TWO32 }

  /** The segment carries the peer's bytes from `k` on. */
  predicate CarriesAt(peer: Peer, s: Segment, k: int) {
    0 <= k && k + |s.payload| <= |peer.data| && s.payload == peer.data[k..k + |s.payload|] && s.seqNo == SeqAt(peer, k)
  }

  /** A segment the peer may send at any time, any number of times, before it closes. */
  ghost predicate FromPeer(peer: Peer, s: Segment) {
    && s.sport == peer.port && !HasFin(s)
    && (if HasSyn(s) then s.seqNo == peer.irs && s.payload == [] else exists k :: CarriesAt(peer, s, k))
  }

  /** What comes from the peer's address to this port and says it is from the peer's port, or answers the SYN, is the
      peer's; anything else may arrive too. */
  ghost predicate Honest(peer: Peer, port: int, p: Packet) {
    match Parse(p.bytes)
    case None => true
    case Some(s) =>
      p.src == peer.ip && s.dport == port && (s.sport == peer.port || IsSynAck(s)) ==> FromPeer(peer, s)
  }

  /** The bytes handed to the application, followed by those waiting for it, are the first bytes of the
      peer's stream, and rcv_nxt says how many. */
  ghost predicate InOrder(peer: Peer, c: Conn, delivered: seq<Byte>) {
    && c.remoteIp == peer.ip && !c.gotFin
    && var n := |delivered| + |c.rx|;
       (c.phase == SynSent && n == 0) ||
       (c.phase == Established && c.remotePort == peer.port && n <= |peer.data|
        && delivered + c.rx == peer.data[..n] && c.rcvNxt == SeqAt(peer, n))
  }

  /** The next bytes in order do not fit: they are acknowledged but not kept. */
  ghost predicate Overflows(c: Conn, p: Packet) {
    match Parse(p.bytes)
    case None => false
    case Some(s) =>
      p.src == c.remoteIp && s.dport == c.localPort && c.phase == Established && s.sport == c.remotePort
      && s.seqNo == c.rcvNxt && |s.payload| > BUFFER - |c.rx|
  }

  lemma SameOffset(peer: Peer, j: int, k: int)
    requires Legal(peer) && 0 <= j < TWO32 && 0 <= k < TWO32 && SeqAt(peer, j) == SeqAt(peer, k)
    ensures j == k
  {
  }

  lemma NextSeq(peer: Peer, n: int, len: int)
    requires 0 <= n && 0 <= len && 0 <= peer.irs
    ensures (SeqAt(peer, n) + len) % TWO32 == SeqAt(peer, n + len)
  {
  }

  /** The position of the next byte can be read off rcv_nxt, across any wrap of the sequence numbers. */
  lemma CountFromRcvNxt(peer: Peer, c: Conn, delivered: seq<Byte>)
    requires Legal(peer) && InOrder(peer, c, delivered) && c.phase == Established
    ensures |delivered| + |c.rx| == (c.rcvNxt - peer.irs - 1) % TWO32
  {
    var n := |delivered| + |c.rx|;
    assert (c.rcvNxt - peer.irs - 1 - n) % TWO32 == 0;
  }

  lemma PrefixGrows(data: seq<Byte>, n: int, more: seq<Byte>)
    requires 0 <= n && n + |more| <= |data| && more == data[n..n + |more|]
    ensures data[..n] + more == data[..n + |more|]
  {
  }

  /** In-order data from the peer extends the stream exactly when it fits into the buffer. */
  lemma DataStep(peer: Peer, c: Conn, delivered: seq<Byte>, s: Segment)
    requires Legal(peer) && InOrder(peer, c, delivered) && c.phase == Established && FromPeer(peer, s)
    requires s.sport == c.remotePort && |c.rx| <= BUFFER
    ensures var c' := TakeFin(TakeData(c, s), s);
            InOrder(peer, c', delivered) <==> !(s.seqNo == c.rcvNxt && |s.payload| > BUFFER - |c.rx|)
  {
    hide SeqAt, HasFin, HasSyn, TakeData;
    var n := |delivered| + |c.rx|;
    NoData(c, s);
    if s.payload != [] && s.seqNo == c.rcvNxt {
      var k :| CarriesAt(peer, s, k);
      SameOffset(peer, n, k);
      NextSeq(peer, n, |s.payload|);
      if |s.payload| <= BUFFER - |c.rx| {
        Fitting(peer, c, delivered, s, n);
      } else {
        Short(peer, c, delivered, s, n);
      }
    }
  }

  lemma NoData(c: Conn, s: Segment)
    requires |c.rx| <= BUFFER && !HasFin(s)
    ensures s.payload == [] || s.seqNo != c.rcvNxt ==> TakeFin(TakeData(c, s), s) == c
  {
  }

  lemma Fitting(peer: Peer, c: Conn, delivered: seq<Byte>, s: Segment, n: int)
    requires InOrder(peer, c, delivered) && c.phase == Established && n == |delivered| + |c.rx| && CarriesAt(peer, s, n)
    requires s.payload != [] && s.seqNo == c.rcvNxt && |s.payload| <= BUFFER - |c.rx| && !HasFin(s)
    requires (c.rcvNxt + |s.payload|) % TWO32 == SeqAt(peer, n + |s.payload|)
    ensures InOrder(peer, TakeFin(TakeData(c, s), s), delivered)
  {
    hide SeqAt, HasFin;
    PrefixGrows(peer.data, n, s.payload);
    assert s.payload[..|s.payload|] == s.payload;
    assert delivered + (c.rx + s.payload) == (delivered + c.rx) + s.payload;
  }

  lemma Short(peer: Peer, c: Conn, delivered: seq<Byte>, s: Segment, n: int)
    requires Legal(peer) && n == |delivered| + |c.rx| && 0 <= n + |s.payload| <= |peer.data| && |c.rx| <= BUFFER
    requires s.payload != [] && s.seqNo == c.rcvNxt && |s.payload| > BUFFER - |c.rx| && c.phase == Established
    requires !HasFin(s)
    requires (c.rcvNxt + |s.payload|) % TWO32 == SeqAt(peer, n + |s.payload|)
    ensures !InOrder(peer, TakeFin(TakeData(c, s), s), delivered)
  {
    hide SeqAt;
    var c' := TakeData(c, s);
    var n' := |delivered| + |c'.rx|;
    if c'.rcvNxt == SeqAt(peer, n') { SameOffset(peer, n', n + |s.payload|); }
  }

  /** One packet, whatever it is: the order is kept exactly when the packet does not overflow the buffer. */
  lemma ArriveStep(peer: Peer, c: Conn, delivered: seq<Byte>, p: Packet)
    requires Legal(peer) && InOrder(peer, c, delivered) && Honest(peer, c.localPort, p) && |c.rx| <= BUFFER
    ensures InOrder(peer, Arrived(c, p), delivered) <==> !Overflows(c, p)
    ensures Arrived(c, p).localPort == c.localPort
  {
    hide Parse, SeqAt, CarriesAt;
    match Parse(p.bytes) {
      case None =>
      case Some(s) =>
        if p.src == c.remoteIp && s.dport == c.localPort {
          if c.phase == Established && s.sport == c.remotePort {
            DataStep(peer, c, delivered, s);
          } else if c.phase == SynSent && IsSynAck(s) {
            HandshakeStep(peer, c, delivered, s);
          }
        }
    }
  }

  lemma HandshakeStep(peer: Peer, c: Conn, delivered: seq<Byte>, s: Segment)
    requires Legal(peer) && InOrder(peer, c, delivered) && FromPeer(peer, s) && c.phase == SynSent && IsSynAck(s)
    ensures InOrder(peer, c.(remotePort := s.sport, rcvNxt := (s.seqNo + 1) % TWO32, sndNxt := s.ack, gotSynack := true,
                             phase := Established), delivered)
  {
    assert delivered == [] && c.rx == [];
  }

  // ---- whole runs -----------------------------------------------------------------------------------------

  /** A packet arrives, or the application takes up to `n` bytes. */
  datatype Event = Arrive(p: Packet) | Take(n: nat)

  /** The connection and everything the application has received. */
  datatype World = World(c: Conn, delivered: seq<Byte>)

  function Next(w: World, e: Event): (w': World)
    requires |w.c.rx| <= BUFFER
    ensures |w'.c.rx| <= BUFFER
  {
    match e
    case Arrive(p) => World(Arrived(w.c, p), w.delivered)
    case Take(n) =>
      var k := Min(n, |w.c.rx|);
      World(w.c.(rx := w.c.rx[k..]), w.delivered + w.c.rx[..k])
  }

  function After(w: World, es: seq<Event>): (w': World)
    requires |w.c.rx| <= BUFFER
    ensures |w'.c.rx| <= BUFFER
  {
    if es == [] then w else Next(After(w, es[..|es| - 1]), es[|es| - 1])
  }

  ghost predicate AllHonest(peer: Peer, port: int, es: seq<Event>) {
    forall i :: 0 <= i < |es| && es[i].Arrive? ==> Honest(peer, port, es[i].p)
  }

  /** No packet of the run overflows the buffer. */
  ghost predicate Calm(w: World, es: seq<Event>)
    requires |w.c.rx| <= BUFFER
  {
    es == [] || (var n := |es| - 1; Calm(w, es[..n]) && (es[n].Arrive? ==> !Overflows(After(w, es[..n]).c, es[n].p)))
  }

  ghost predicate AlwaysInOrder(peer: Peer, w: World, es: seq<Event>)
    requires |w.c.rx| <= BUFFER
  {
    && InOrder(peer, After(w, es).c, After(w, es).delivered)
    && (es == [] || AlwaysInOrder(peer, w, es[..|es| - 1]))
  }

  lemma TakeStep(peer: Peer, w: World, n: nat)
    requires InOrder(peer, w.c, w.delivered) && |w.c.rx| <= BUFFER
    ensures var w' := Next(w, Take(n)); InOrder(peer, w'.c, w'.delivered) && w'.c.localPort == w.c.localPort
  {
    hide SeqAt;
    var w' := Next(w, Take(n));
    assert w'.delivered + w'.c.rx == w.delivered + w.c.rx;
  }

  /** In every run of packets and reads the application gets the peer's bytes in order, without loss or
      repetition, at every point, exactly when no packet overflowed the buffer. */
  lemma {:induction false} RunInOrder(peer: Peer, w: World, es: seq<Event>)
    requires Legal(peer) && |w.c.rx| <= BUFFER && InOrder(peer, w.c, w.delivered) && AllHonest(peer, w.c.localPort, es)
    ensures AlwaysInOrder(peer, w, es) <==> Calm(w, es)
    ensures Calm(w, es) ==> After(w, es).c.localPort == w.c.localPort
  {
    hide Arrived, InOrder, Overflows, Honest;
    if es != [] {
      var n := |es| - 1;
      RunInOrder(peer, w, es[..n]);
      if Calm(w, es[..n]) {
        var v := After(w, es[..n]);
        match es[n] {
          case Arrive(p) => ArriveStep(peer, v.c, v.delivered, p);
          case Take(k) => TakeStep(peer, v, k);
        }
      }
    }
  }

  // ---- progress -------------------------------------------------------------------------------------------

  /** How much of the peer's stream a run has brought, counted in bytes of the stream alone: -1 before the
      handshake, 0 after it, and then more by every segment that starts exactly where the count is. */
  ghost function Got(peer: Peer, port: int, n: int, es: seq<Event>): int {
    if es == [] then n else GotNext(peer, port, Got(peer, port, n, es[..|es| - 1]), es[|es| - 1])
  }

  ghost function GotNext(peer: Peer, port: int, n: int, e: Event): int {
    if e.Take? || Parse(e.p.bytes).None? || e.p.src != peer.ip then n else
    var s := Parse(e.p.bytes).value;
    if s.dport != port then n
    else if n < 0 then (if IsSynAck(s) then 0 else n)
    else if s.sport == peer.port && CarriesAt(peer, s, n) then n + |s.payload| else n
  }

  /** What is delivered and buffered is what the count says. */
  ghost predicate Tallies(w: World, n: int) {
    if w.c.phase == SynSent then n == -1 else n == |w.delivered| + |w.c.rx|
  }

  lemma OverNext(c: Conn, s: Segment)
    requires |c.rx| <= 8192 && 0 < |s.payload| <= 8192 - |c.rx| && s.seqNo == c.rcvNxt && !HasFin(s)
    ensures var c' := TakeFin(TakeData(c, s), s);
            c' == c.(rx := c.rx + s.payload, rcvNxt := (c.rcvNxt + |s.payload|) % TWO32)
  {
    assert s.payload[..|s.payload|] == s.payload;
  }

  lemma DataTallies(peer: Peer, c: Conn, delivered: seq<Byte>, s: Segment)
    requires Legal(peer) && InOrder(peer, c, delivered) && c.phase == Established && FromPeer(peer, s)
    requires s.sport == c.remotePort && |c.rx| <= BUFFER && !(s.seqNo == c.rcvNxt && |s.payload| > BUFFER - |c.rx|)
    ensures var c', n := TakeFin(TakeData(c, s), s), |delivered| + |c.rx|;
            |delivered| + |c'.rx| == if CarriesAt(peer, s, n) then n + |s.payload| else n
  {
    hide SeqAt, HasFin, HasSyn, TakeData, TakeFin;
    var n := |delivered| + |c.rx|;
    NoData(c, s);
    if s.payload != [] && s.seqNo == c.rcvNxt {
      OverNext(c, s);
      var k :| CarriesAt(peer, s, k);
      SameOffset(peer, n, k);
    }
  }

  lemma NextTallies(peer: Peer, w: World, e: Event, n: int)
    requires Legal(peer) && InOrder(peer, w.c, w.delivered) && |w.c.rx| <= BUFFER && Tallies(w, n)
    requires e.Arrive? ==> Honest(peer, w.c.localPort, e.p) && !Overflows(w.c, e.p)
    ensures Tallies(Next(w, e), GotNext(peer, w.c.localPort, n, e))
  {
    hide Parse, SeqAt, CarriesAt, TakeData, TakeFin;
    if e.Arrive? && Parse(e.p.bytes).Some? {
      var s := Parse(e.p.bytes).value;
      if e.p.src == peer.ip && s.dport == w.c.localPort && w.c.phase == Established && s.sport == peer.port {
        DataTallies(peer, w.c, w.delivered, s);
        FinKeepsPhase(w.c, s);
      }
    }
  }

  lemma FinKeepsPhase(c: Conn, s: Segment)
    requires |c.rx| <= BUFFER && !HasFin(s)
    ensures TakeFin(TakeData(c, s), s).phase == c.phase
  {
  }

  /** In every run without overflow the bytes delivered and buffered are the peer's stream up to exactly where its
      segments have brought it, no more and no less. */
  lemma {:induction false} RunProgress(peer: Peer, w: World, es: seq<Event>, n: int)
    requires Legal(peer) && |w.c.rx| <= BUFFER && InOrder(peer, w.c, w.delivered) && AllHonest(peer, w.c.localPort, es)
    requires Calm(w, es) && Tallies(w, n)
    ensures var w', n' := After(w, es), Got(peer, w.c.localPort, n, es);
            && Tallies(w', n') && InOrder(peer, w'.c, w'.delivered) && w'.c.localPort == w.c.localPort
            && (0 <= n' ==> n' <= |peer.data| && w'.delivered + w'.c.rx == peer.data[..n'])
  {
    hide Arrived, Overflows, Honest, GotNext, Tallies, SeqAt;
    RunInOrder(peer, w, es);
    if es != [] {
      var k := |es| - 1;
      RunProgress(peer, w, es[..k], n);
      hide InOrder;
      var v := After(w, es[..k]);
      NextTallies(peer, v, es[k], Got(peer, w.c.localPort, n, es[..k]));
    }
    TallyInOrder(peer, After(w, es), Got(peer, w.c.localPort, n, es));
  }

  lemma TallyInOrder(peer: Peer, w: World, n: int)
    requires InOrder(peer, w.c, w.delivered) && Tallies(w, n)
    ensures 0 <= n ==> n <= |peer.data| && w.delivered + w.c.rx == peer.data[..n]
  {
    hide SeqAt;
  }

  /** The peer cuts its stream once: every segment of it that arrives runs from one cut to the next. */
  ghost predicate CutOnce(peer: Peer, port: int, es: seq<Event>, cuts: seq<nat>) {
    && (forall i, j :: 0 <= i < j < |cuts| ==> cuts[i] < cuts[j])
    && forall i, k :: 0 <= i < |es| && es[i].Arrive? && DataFrom(peer, port, es[i].p, k) ==>
         exists j :: 0 <= j < |cuts| - 1 && cuts[j] == k && cuts[j + 1] == k + |Parse(es[i].p.bytes).value.payload|
  }

  /** A segment that carries bytes of the stream from `k` on. */
  ghost predicate DataFrom(peer: Peer, port: int, p: Packet, k: int) {
    && p.src == peer.ip && Parse(p.bytes).Some?
    && var s := Parse(p.bytes).value;
    s.dport == port && s.sport == peer.port && s.payload != [] && CarriesAt(peer, s, k)
  }

  /** The segments up to cut `m` have arrived in order, whatever came between them: segment `j` at `at[j]`. */
  ghost predicate InTurn(peer: Peer, port: int, es: seq<Event>, cuts: seq<nat>, at: seq<nat>) {
    && |at| < |cuts| && (forall i, j :: 0 <= i < j < |at| ==> at[i] < at[j])
    && forall j :: 0 <= j < |at| ==> at[j] < |es| && es[at[j]].Arrive? && DataFrom(peer, port, es[at[j]].p, cuts[j])
  }

  lemma {:induction false} GotGrows(peer: Peer, port: int, n: int, es: seq<Event>, i: nat, k: nat)
    requires 0 <= n && i <= k <= |es|
    ensures n <= Got(peer, port, n, es[..i]) <= Got(peer, port, n, es[..k])
    decreases k
  {
    hide GotNext;
    if 0 < k {
      assert es[..k][..k - 1] == es[..k - 1];
      GotGrows(peer, port, n, es, if i < k then i else k - 1, k - 1);
      NextGrows(peer, port, Got(peer, port, n, es[..k - 1]), es[k - 1]);
    }
  }

  lemma NextGrows(peer: Peer, port: int, n: int, e: Event)
    requires 0 <= n
    ensures n <= GotNext(peer, port, n, e)
  {
    hide Parse, CarriesAt;
  }

  /** The count is at a cut whenever a segment has been counted. */
  lemma {:induction false} GotAtCut(peer: Peer, port: int, es: seq<Event>, cuts: seq<nat>, k: nat) returns (j: nat)
    requires CutOnce(peer, port, es, cuts) && cuts != [] && k <= |es|
    ensures j < |cuts| && Got(peer, port, cuts[0], es[..k]) == cuts[j]
    decreases k
  {
    hide Parse, CarriesAt;
    j := 0;
    if 0 < k {
      assert es[..k][..k - 1] == es[..k - 1];
      j := GotAtCut(peer, port, es, cuts, k - 1);
      var e := es[k - 1];
      if GotNext(peer, port, cuts[j], e) != cuts[j] {
        assert DataFrom(peer, port, e.p, cuts[j]);
        j := j + 1;
      }
    }
  }

  lemma {:induction false} TurnsGot(peer: Peer, port: int, es: seq<Event>, cuts: seq<nat>, at: seq<nat>, m: nat)
    requires CutOnce(peer, port, es, cuts) && InTurn(peer, port, es, cuts, at) && m < |at|
    ensures Got(peer, port, cuts[0], es[..at[m] + 1]) >= cuts[m + 1]
    decreases m
  {
    hide Parse, CarriesAt, DataFrom, CutOnce;
    var k := at[m];
    if 0 < m {
      TurnsGot(peer, port, es, cuts, at, m - 1);
      GotGrows(peer, port, cuts[0], es, at[m - 1] + 1, k);
    } else {
      GotGrows(peer, port, cuts[0], es, k, k);
    }
    TurnGot(peer, port, es, cuts, m, k);
  }

  lemma TurnGot(peer: Peer, port: int, es: seq<Event>, cuts: seq<nat>, m: nat, k: nat)
    requires CutOnce(peer, port, es, cuts) && m + 1 < |cuts| && k < |es| && es[k].Arrive?
    requires DataFrom(peer, port, es[k].p, cuts[m]) && Got(peer, port, cuts[0], es[..k]) >= cuts[m]
    ensures Got(peer, port, cuts[0], es[..k + 1]) >= cuts[m + 1]
  {
    hide Parse, CarriesAt;
    assert es[..k + 1][..k] == es[..k];
    var j := GotAtCut(peer, port, es, cuts, k);
    NextGrows(peer, port, cuts[j], es[k]);
  }

  /** The peer's segments, once they have arrived in order, whatever came in between, are there to the last byte: none
      is left out or taken back. */
  lemma ArrivedInTurn(peer: Peer, w: World, es: seq<Event>, cuts: seq<nat>, at: seq<nat>)
    requires Legal(peer) && |w.c.rx| <= BUFFER && InOrder(peer, w.c, w.delivered) && AllHonest(peer, w.c.localPort, es)
    requires Calm(w, es) && w.c.phase == Established && CutOnce(peer, w.c.localPort, es, cuts)
    requires InTurn(peer, w.c.localPort, es, cuts, at) && cuts[0] == |w.delivered| + |w.c.rx|
    ensures var w' := After(w, es); cuts[|at|] <= |w'.delivered + w'.c.rx| <= |peer.data|
    ensures var w' := After(w, es); (w'.delivered + w'.c.rx)[..cuts[|at|]] == peer.data[..cuts[|at|]]
  {
    var port := w.c.localPort;
    hide Calm, AllHonest, InOrder, CutOnce, After;
    RunProgress(peer, w, es, cuts[0]);
    assert es[..|es|] == es;
    if at != [] {
      var m := |at| - 1;
      TurnsGot(peer, port, es, cuts, at, m);
      GotGrows(peer, port, cuts[0], es, at[m] + 1, |es|);
    } else {
      GotGrows(peer, port, cuts[0], es, 0, |es|);
    }
    StillOpen(peer, w, es, cuts[0]);
  }

  lemma StillOpen(peer: Peer, w: World, es: seq<Event>, n: int)
    requires |w.c.rx| <= BUFFER && Tallies(After(w, es), Got(peer, w.c.localPort, n, es))
    requires 0 <= Got(peer, w.c.localPort, n, es)
    ensures Got(peer, w.c.localPort, n, es) == |After(w, es).delivered| + |After(w, es).c.rx|
  {
    hide After, Got;
  }

  /** A segment cut anew that reaches back behind the count is not taken, even if it holds the next bytes too. */
  lemma RecutIsDropped(peer: Peer, port: int, p: Packet, n: int, k: int)
    requires Legal(peer) && DataFrom(peer, port, p, k) && 0 <= k < n <= |peer.data|
    ensures GotNext(peer, port, n, Arrive(p)) == n
  {
    hide Parse;
    var s := Parse(p.bytes).value;
    if s.seqNo == SeqAt(peer, n) { SameOffset(peer, n, k); }
  }

  // ---- the end of the stream --------------------------------------------------------------------------------

  /** The peer's last segment: it ends where the stream ends. */
  predicate LastFrom(peer: Peer, s: Segment, k: int) {
    HasFin(s) && CarriesAt(peer, s, k) && k + |s.payload| == |peer.data|
  }

  /** tcp.c:125-148: the peer's FIN ends the stream and is counted exactly when it comes without data.  With data it is
      not, so the peer never sees it acknowledged. */
  lemma FinStep(peer: Peer, c: Conn, delivered: seq<Byte>, s: Segment, k: int)
    requires Legal(peer) && |peer.data| + 1 < TWO32 && InOrder(peer, c, delivered) && c.phase == Established
    requires |c.rx| <= BUFFER && LastFrom(peer, s, k)
    ensures var c', n := TakeFin(TakeData(c, s), s), |delivered| + |c.rx|;
            && c'.gotFin && c'.phase == CloseWait
            && c'.rx == c.rx + (if k == n then s.payload[..Min(|s.payload|, BUFFER - |c.rx|)] else [])
            && (c'.rcvNxt == (peer.irs + 1 + |peer.data| + 1) % TWO32 <==> s.payload == [])
  {
    hide HasFin;
    var n := |delivered| + |c.rx|;
    if s.seqNo == c.rcvNxt { SameOffset(peer, n, k); }
    if s.payload != [] {
      NextSeq(peer, n, |s.payload|);
      if SeqAt(peer, n) == SeqAt(peer, |peer.data| + 1) { SameOffset(peer, n, |peer.data| + 1); }
      if SeqAt(peer, |peer.data|) == SeqAt(peer, |peer.data| + 1) {
        SameOffset(peer, |peer.data|, |peer.data| + 1);
      }
    } else {
      NextSeq(peer, k, 1);
    }
  }

  /** A FIN without data that overtakes data loses it: no later segment of the stream is taken. */
  lemma FinOvertakes(peer: Peer, c: Conn, delivered: seq<Byte>, s: Segment, late: Segment, j: int)
    requires Legal(peer) && |peer.data| + 1 < TWO32 && InOrder(peer, c, delivered) && c.phase == Established
    requires |c.rx| <= BUFFER && LastFrom(peer, s, |peer.data|) && late.payload != [] && CarriesAt(peer, late, j)
    ensures var c' := TakeFin(TakeData(c, s), s); |c'.rx| <= BUFFER && TakeData(c', late) == c'
  {
    FinStep(peer, c, delivered, s, |peer.data|);
    hide HasFin, TakeFin;
    var c' := TakeFin(TakeData(c, s), s);
    assert s.payload == [];
    if late.seqNo == c'.rcvNxt { SameOffset(peer, j, |peer.data| + 1); }
  }

  /** The window that every segment advertises (tcp.c:76-77) is twice the buffer, so a peer that respects it
      can still overflow it. */
  lemma WindowTooWide()
    ensures exists peer, c, s :: Legal(peer) && InOrder(peer, c, []) && c.phase == Established && FromPeer(peer, s)
              && |c.rx| <= BUFFER && |c.rx| + |s.payload| <= 0x4000 && !InOrder(peer, TakeFin(TakeData(c, s), s), [])
  {
    hide SeqAt, HasFin, HasSyn;
    var zero: Byte := 0;
    var data := seq(BUFFER + 1, _ => zero);
    var peer := Peer([10, 0, 2, 2], 80, 7, data);
    var c := Conn(Established, peer.ip, 42000, 80, 0, SeqAt(peer, BUFFER), data[..BUFFER], true, false);
    var s := Segment(80, 42000, SeqAt(peer, BUFFER), 0, 0x10, data[BUFFER..]);
    AckOnly(s);
    assert CarriesAt(peer, s, BUFFER);
    assert [] + c.rx == data[..BUFFER];
    DataStep(peer, c, [], s);
  }

  lemma AckOnly(s: Segment)
    requires s.flags == 0x10
    ensures !HasFin(s) && !HasSyn(s)
  {
  }
}
