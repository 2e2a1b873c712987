/**
  A submission and a completion queue in memory, shared by the driver of kernel/drivers/nvme.c and an
  asynchronous controller (section 4.6 of the NVM Express Base Specification 1.4).  Ghost counters and
  histories say which command each entry belongs to.
*/
module NvmeQueue {
  import opened Bytes
  import opened NvmeDrive

  const QDEPTH: int := 16

  /** The fields of a completion entry's last dword: command identifier, phase bit, status. */
  function Dword3(cid: int, phase: int, status: int): int { cid + TWO16 * phase + 2 * TWO16 * status }

  function CidOf(dw3: int): int { dw3 % TWO16 }

  function PhaseOf(dw3: int): int { dw3 / TWO16 % 2 }

  function StatusOf(dw3: int): int { dw3 / (2 * TWO16) % 0x8000 }

  lemma Dword3Decodes(cid: int, phase: int, status: int)
    requires 0 <= cid < TWO16 && 0 <= phase < 2 && 0 <= status < 0x8000
    ensures var d := Dword3(cid, phase, status); CidOf(d) == cid && PhaseOf(d) == phase && StatusOf(d) == status
  {
    var d := Dword3(cid, phase, status);
    assert d / TWO16 == phase + 2 * status;
    assert d / (2 * TWO16) == status;
  }

  /** The phase bit of lap `n` is 1 on the first lap, 0 on the second, and so on. */
  function LapPhase(n: int): int { if n % 2 == 0 then 1 else 0 }

  /** How often slot `i` has been written when `d` entries have been posted. */
  function Visits(d: nat, i: nat): nat
    requires i < QDEPTH
  {
    (d + QDEPTH - 1 - i) / QDEPTH
  }

  lemma VisitsNext(d: nat, i: nat)
    requires i < QDEPTH
    ensures Visits(d + 1, i) == Visits(d, i) + if i == d % QDEPTH then 1 else 0
    ensures Visits(d, d % QDEPTH) == d / QDEPTH
  {
    var q, r := d / QDEPTH, d % QDEPTH;
    assert d == QDEPTH * q + r;
    assert Visits(d, i) == q + (r + QDEPTH - 1 - i) / QDEPTH;
    assert Visits(d + 1, i) == q + (r + QDEPTH - i) / QDEPTH;
  }

  lemma LapNext(d: nat)
    ensures (d + 1) % QDEPTH == (d % QDEPTH + 1) % QDEPTH
    ensures (d + 1) / QDEPTH == d / QDEPTH + if (d + 1) % QDEPTH == 0 then 1 else 0
  {
  }

  /** Everything about a queue pair, its two ends, and its history. */
  datatype Pair = Pair(sq: seq<seq<int>>, cq: seq<seq<int>>, tail: int, head: int, phase: int,
                       sqHead: int, cqTail: int, ctlPhase: int, sqDoorbell: int, cqDoorbell: int,
                       placed: seq<seq<int>>, taken: seq<seq<int>>, posted: seq<int>, consumed: nat,
                       store: Store, pageAddr: int, moved: nat, carried: seq<nat>, before: Store)

  ghost predicate Shape(q: Pair) {
    && |q.store.page| == |q.before.page| == 4096
    && |q.sq| == |q.cq| == QDEPTH && (forall i :: 0 <= i < QDEPTH ==> |q.sq[i]| == 16)
    && (forall i :: 0 <= i < QDEPTH ==> |q.cq[i]| == 4)
    && (forall j :: 0 <= j < |q.placed| ==> |q.placed[j]| == 16 && 0 <= q.placed[j][0] / TWO16 < TWO16)
    && forall j :: 0 <= j < |q.posted| ==> 0 <= q.posted[j] < 0x8000
  }

  /** Host and controller count the same way. */
  ghost predicate Counters(q: Pair) {
    && q.consumed <= |q.posted| <= |q.taken| <= |q.placed| <= q.consumed + 1
    && q.tail == q.sqDoorbell == |q.placed| % QDEPTH && q.sqHead == |q.taken| % QDEPTH && |q.carried| == |q.posted|
    && q.head == q.cqDoorbell == q.consumed % QDEPTH && q.phase == LapPhase(q.consumed / QDEPTH)
    && q.cqTail == |q.posted| % QDEPTH && q.ctlPhase == LapPhase(|q.posted| / QDEPTH)
  }

  /** The phase bit of every completion slot tells its lap. */
  ghost predicate Phases(q: Pair)
    requires Shape(q)
  {
    forall i :: 0 <= i < QDEPTH ==> PhaseOf(q.cq[i][3]) == Visits(|q.posted|, i) % 2
  }

  /** Unread entries belong to the commands that were placed at the same count. */
  ghost predicate Entries(q: Pair)
    requires Shape(q)
  {
    && (forall j :: q.consumed <= j < |q.posted| && j < |q.placed| ==>
          StatusOf(q.cq[j % QDEPTH][3]) == q.posted[j] && CidOf(q.cq[j % QDEPTH][3]) == q.placed[j][0] / TWO16)
    && forall j :: q.consumed <= j < |q.placed| ==> q.sq[j % QDEPTH] == q.placed[j]
  }

  /** The controller has fetched the commands that were placed. */
  ghost predicate Fetched(q: Pair) {
    |q.taken| <= |q.placed| && forall j :: 0 <= j < |q.taken| ==> q.taken[j] == q.placed[j]
  }

  /** The store is what it was when the outstanding command was placed, but for the sectors moved so far,
      and success was posted only for a command carried out in full. */
  ghost predicate Effects(q: Pair)
    requires Shape(q) && Counters(q)
  {
    if |q.posted| == |q.placed| then
      && q.moved == 0
      && (q.consumed < |q.placed| ==> var cmd, k := q.placed[|q.placed| - 1], q.carried[|q.posted| - 1];
            && k <= Sectors(cmd, q.pageAddr) && q.store == Partial(q.before, cmd, k)
            && (q.posted[|q.posted| - 1] == 0 ==> k == Sectors(cmd, q.pageAddr)))
    else
      var cmd := q.placed[|q.placed| - 1];
      && q.moved <= Sectors(cmd, q.pageAddr) && q.store == Partial(q.before, cmd, q.moved)
      && (|q.taken| < |q.placed| ==> q.moved == 0)
  }

  ghost predicate Sound(q: Pair) { Shape(q) && Counters(q) && Phases(q) && Entries(q) && Fetched(q) && Effects(q) }

  /** nvme.c:176-184. */
  function Fresh(pageAddr: int, store: Store): Pair {
    Pair(seq(QDEPTH, _ => seq(16, _ => 0)), seq(QDEPTH, _ => seq(4, _ => 0)), 0, 0, 1, 0, 0, 1, 0, 0, [], [], [], 0,
         store, pageAddr, 0, [], store)
  }

  lemma FreshSound(pageAddr: int, store: Store)
    requires |store.page| == 4096
    ensures Sound(Fresh(pageAddr, store))
  {
    forall i | 0 <= i < QDEPTH ensures Visits(0, i) == 0 { }
  }

  predicate Fetches(q: Pair) { forall j :: 0 <= j < |q.taken| ==> |q.taken[j]| == 16 }

  // ---- the controller -----------------------------------------------------------------------------------

  /** What the controller may do between two looks of the host. */
  datatype Move = Idle | Fetch | Transfer | Post(status: int)

  /** It fetches a command the doorbell announced, moves the next sector of the oldest fetched command, or
      posts the completion of that command in the next slot, with its phase bit: success only when all its
      sectors have been moved.  A move it cannot make is skipped. */
  function Controller(q: Pair, m: Move): Pair
    requires Shape(q) && 0 <= q.cqTail < QDEPTH && 0 <= q.sqHead < QDEPTH && Fetches(q)
  {
    match m
    case Idle => q
    case Fetch =>
      if q.sqHead == q.sqDoorbell then q
      else q.(taken := q.taken + [q.sq[q.sqHead]], sqHead := (q.sqHead + 1) % QDEPTH)
    case Transfer =>
      if |q.posted| >= |q.taken| || q.moved >= Sectors(q.taken[|q.posted|], q.pageAddr) then q
      else q.(store := OneSector(q.store, q.taken[|q.posted|], q.moved), moved := q.moved + 1)
    case Post(status) =>
      if |q.posted| >= |q.taken| || !(0 <= status < 0x8000) || (q.cqTail + 1) % QDEPTH == q.cqDoorbell then q
      else if status == 0 && q.moved < Sectors(q.taken[|q.posted|], q.pageAddr) then q
      else
        var cid := q.taken[|q.posted|][0] / TWO16;
        var entry := q.cq[q.cqTail][3 := Dword3(cid, q.ctlPhase, status)];
        var next := (q.cqTail + 1) % QDEPTH;
        q.(cq := q.cq[q.cqTail := entry], posted := q.posted + [status], cqTail := next,
           ctlPhase := if next == 0 then 1 - q.ctlPhase else q.ctlPhase, carried := q.carried + [q.moved], moved := 0)
  }

  lemma FetchSound(q: Pair)
    requires Sound(q)
    ensures Sound(Controller(q, Fetch))
  {
    LapNext(|q.taken|);
    if q.sqHead != q.sqDoorbell { assert |q.taken| < |q.placed|; }
  }

  lemma TransferSound(q: Pair)
    requires Sound(q)
    ensures Sound(Controller(q, Transfer))
  {
    hide OneSector, Partial, Sectors, PhaseOf, StatusOf, CidOf, LapPhase, Visits;
    var q' := Controller(q, Transfer);
    if q' != q { PartialNext(q.before, q.taken[|q.posted|], q.moved); }
  }

  lemma PostSound(q: Pair, status: int)
    requires Sound(q)
    ensures Sound(Controller(q, Post(status)))
    ensures |Controller(q, Post(status)).posted| > |q.posted| ==>
              Controller(q, Post(status)).posted == q.posted + [status]
  {
    var q' := Controller(q, Post(status));
    if q' != q {
      PostPhases(q, q', status);
      PostEntries(q, q', status);
      hide Shape, Counters, Phases, Entries, Fetched, Effects;
    }
  }

  lemma PostEntries(q: Pair, q': Pair, status: int)
    requires Sound(q) && q' == Controller(q, Post(status)) && |q'.posted| == |q.posted| + 1 && 0 <= status < 0x8000
    requires Shape(q')
    ensures Counters(q') && Entries(q') && Fetched(q') && Effects(q')
  {
    var d := |q.posted|;
    LapNext(d);
    LapBit(d / QDEPTH);
    Dword3Decodes(q.placed[d][0] / TWO16, q.ctlPhase, status);
    hide Visits, PhaseOf, Dword3, LapPhase, StatusOf, CidOf, Phases, Partial, Sectors;
    assert q.consumed == d;
  }

  lemma NewPhase(d: nat, i: nat)
    requires i < QDEPTH
    ensures i == d % QDEPTH ==> LapPhase(d / QDEPTH) == Visits(d + 1, i) % 2
    ensures i != d % QDEPTH ==> Visits(d + 1, i) == Visits(d, i)
  {
    VisitsNext(d, i);
  }

  lemma PostPhases(q: Pair, q': Pair, status: int)
    requires Sound(q) && q' == Controller(q, Post(status)) && |q'.posted| == |q.posted| + 1 && 0 <= status < 0x8000
    ensures Shape(q') && Phases(q')
  {
    var d := |q.posted|;
    hide Visits, PhaseOf, Dword3, Entries, LapPhase;
    LapBit(d / QDEPTH);
    Dword3Decodes(q.placed[d][0] / TWO16, q.ctlPhase, status);
    forall i | 0 <= i < QDEPTH ensures PhaseOf(q'.cq[i][3]) == Visits(d + 1, i) % 2 {
      NewPhase(d, i);
      assert PhaseOf(q.cq[i][3]) == Visits(d, i) % 2;
    }
  }

  lemma LapBit(n: int)
    ensures 0 <= LapPhase(n) < 2 && LapPhase(n + 1) == 1 - LapPhase(n)
  {
  }

  lemma SoundShape(q: Pair)
    requires Sound(q)
    ensures Shape(q) && 0 <= q.cqTail < QDEPTH && 0 <= q.head < QDEPTH && 0 <= q.tail < QDEPTH
    ensures 0 <= q.sqHead < QDEPTH && Fetches(q)
  {
  }

  lemma ControllerSound(q: Pair, m: Move)
    requires Sound(q)
    ensures var q' := Controller(q, m);
            Sound(q') && q'.placed == q.placed && q'.consumed == q.consumed && q.posted <= q'.posted
            && q'.head == q.head && q'.phase == q.phase && q'.tail == q.tail
            && q'.before == q.before && q'.pageAddr == q.pageAddr
  {
    SoundShape(q);
    hide Sound, Sectors, OneSector, Dword3, Shape;
    match m {
      case Idle =>
      case Fetch => FetchSound(q);
      case Transfer => TransferSound(q);
      case Post(status) => PostSound(q, status);
    }
  }

  // ---- how far the controller gets ----------------------------------------------------------------------------

  /** The pair after some moves of the controller. */
  ghost function Ran(q: Pair, ms: seq<Move>): (r: Pair)
    requires Sound(q)
    ensures Sound(r) && r.placed == q.placed && r.consumed == q.consumed && q.posted <= r.posted
  {
    if ms == [] then q else
    var p := Ran(q, ms[..|ms| - 1]);
    SoundShape(p);
    ControllerSound(p, ms[|ms| - 1]);
    Controller(p, ms[|ms| - 1])
  }

  /** The outstanding command has been answered by then. */
  ghost predicate Answered(q: Pair, ms: seq<Move>)
    requires Sound(q)
  {
    q.consumed < |Ran(q, ms).posted|
  }

  lemma RanMore(q: Pair, ms: seq<Move>, k: nat)
    requires Sound(q) && k < |ms|
    ensures var p := Ran(q, ms[..k]);
            && Shape(p) && 0 <= p.cqTail < QDEPTH && 0 <= p.sqHead < QDEPTH && Fetches(p)
            && Ran(q, ms[..k + 1]) == Controller(p, ms[k])
  {
    assert ms[..k + 1][..k] == ms[..k];
    SoundShape(Ran(q, ms[..k]));
  }

  /** What becomes of one command, as the moves alone decide: fetched or not, so many sectors moved, or answered. */
  datatype Progress = Waiting | Working(moved: nat) | Over(status: int)

  function Onward(sectors: nat, p: Progress, m: Move): Progress {
    match p
    case Waiting => if m == Fetch then Working(0) else p
    case Working(k) =>
      if m == Transfer then Working(if k < sectors then k + 1 else k)
      else if m.Post? && 0 <= m.status < 0x8000 && (m.status != 0 || k >= sectors) then Over(m.status)
      else p
    case Over(_) => p
  }

  function Outcome(sectors: nat, p: Progress, ms: seq<Move>): Progress {
    if ms == [] then p else Onward(sectors, Outcome(sectors, p, ms[..|ms| - 1]), ms[|ms| - 1])
  }

  /** The pair is that far with the command placed last. */
  ghost predicate Stands(q: Pair, p: Progress) {
    && |q.placed| == q.consumed + 1
    && match p
       case Waiting => |q.taken| == |q.posted| == q.consumed
       case Working(k) => |q.taken| == q.consumed + 1 && |q.posted| == q.consumed && q.moved == k
       case Over(s) => |q.taken| == |q.posted| == q.consumed + 1 && q.posted[q.consumed] == s
  }

  ghost function SectorsOf(q: Pair): nat
    requires Shape(q) && q.placed != []
  {
    Sectors(q.placed[|q.placed| - 1], q.pageAddr)
  }

  /** The same, for a command of `n` sectors. */
  ghost predicate StandsAt(q: Pair, n: nat, p: Progress) {
    Shape(q) && Stands(q, p) && SectorsOf(q) == n
  }

  lemma StandsNext(q: Pair, n: nat, p: Progress, m: Move)
    requires Sound(q) && StandsAt(q, n, p)
    ensures 0 <= q.cqTail < QDEPTH && 0 <= q.sqHead < QDEPTH && Fetches(q)
    ensures StandsAt(Controller(q, m), n, Onward(n, p, m))
  {
    SoundShape(q);
    Outstanding(q, p);
    ControllerSound(q, m);
    SoundShape(Controller(q, m));
    hide Sound, Sectors, Dword3, OneSector, Shape;
  }

  lemma Outstanding(q: Pair, p: Progress)
    requires Sound(q) && Stands(q, p)
    ensures q.sqHead == q.sqDoorbell <==> !p.Waiting?
    ensures !p.Waiting? ==> |q.taken| == |q.placed| && q.taken[q.consumed] == q.placed[|q.placed| - 1]
    ensures p.Waiting? ==> q.moved == 0
    ensures !p.Over? ==> (q.cqTail + 1) % QDEPTH != q.cqDoorbell
  {
    hide Phases, Entries, Sectors, Partial, LapPhase;
    NotFull(q.consumed);
    LapNext(q.consumed);
  }

  lemma {:induction false} RanStands(q: Pair, n: nat, p: Progress, ms: seq<Move>)
    requires Sound(q) && StandsAt(q, n, p)
    ensures StandsAt(Ran(q, ms), n, Outcome(n, p, ms))
  {
    hide Sound, StandsAt, Onward, Shape;
    if ms == [] { return; }
    var k := |ms| - 1;
    RanStands(q, n, p, ms[..k]);
    StandsNext(Ran(q, ms[..k]), n, Outcome(n, p, ms[..k]), ms[k]);
  }

  /** A command just placed is waiting. */
  lemma PlacedWaits(q: Pair, cmd: seq<int>)
    requires Sound(q) && AtRest(q) && |cmd| == 16 && 0 <= cmd[0] / TWO16 < TWO16 && Sound(Place(q, cmd))
    ensures StandsAt(Place(q, cmd), Sectors(cmd, q.pageAddr), Waiting)
  {
    hide Phases, Entries, Effects, Sectors, Partial, LapPhase;
  }

  /** How many of the moves are transfers. */
  function Transfers(ms: seq<Move>): nat {
    if ms == [] then 0 else Transfers(ms[..|ms| - 1]) + if ms[|ms| - 1] == Transfer then 1 else 0
  }

  predicate Refuses(m: Move) { m.Post? && 0 < m.status < 0x8000 }

  lemma {:induction false} OutcomeConcat(n: nat, p: Progress, a: seq<Move>, b: seq<Move>)
    ensures Outcome(n, p, a + b) == Outcome(n, Outcome(n, p, a), b)
  {
    if b == [] {
      assert a + b == a;
    } else {
      assert (a + b)[..|a| + |b| - 1] == a + b[..|b| - 1];
      OutcomeConcat(n, p, a, b[..|b| - 1]);
    }
  }

  lemma {:induction false} NotRefused(n: nat, p: Progress, ms: seq<Move>)
    requires (forall i :: 0 <= i < |ms| ==> !Refuses(ms[i])) && !(p.Over? && p.status != 0)
    ensures var r := Outcome(n, p, ms); !(r.Over? && r.status != 0)
    ensures p.Over? ==> Outcome(n, p, ms) == p
    ensures p.Working? ==> var r, k := Outcome(n, p, ms), p.moved + Transfers(ms);
              r == Over(0) || (r.Working? && r.moved >= if k < n then k else n)
  {
    if ms != [] { NotRefused(n, p, ms[..|ms| - 1]); }
  }

  /** A controller that fetches the command, moves all its sectors and then posts success, and refuses nothing before
      that, has answered with success. */
  lemma Prompt(n: nat, a: seq<Move>, b: seq<Move>, c: seq<Move>)
    requires forall i :: 0 <= i < |a| ==> !Refuses(a[i])
    requires forall i :: 0 <= i < |b| ==> !Refuses(b[i])
    requires Transfers(b) >= n
    ensures Outcome(n, Waiting, a + [Fetch] + b + [Post(0)] + c) == Over(0)
  {
    var p1 := Outcome(n, Waiting, a);
    NotRefused(n, Waiting, a);
    OutcomeConcat(n, Waiting, a, [Fetch]);
    var p2 := Outcome(n, Waiting, a + [Fetch]);
    assert [Fetch][..0] == [];
    assert p2 == Onward(n, p1, Fetch);
    NotRefused(n, p2, b);
    OutcomeConcat(n, Waiting, a + [Fetch], b);
    var p3 := Outcome(n, Waiting, a + [Fetch] + b);
    OutcomeConcat(n, Waiting, a + [Fetch] + b, [Post(0)]);
    assert [Post(0)][..0] == [];
    var p4 := Outcome(n, Waiting, a + [Fetch] + b + [Post(0)]);
    assert p4 == Onward(n, p3, Post(0)) == Over(0);
    OutcomeConcat(n, Waiting, a + [Fetch] + b + [Post(0)], c);
    OverStays(n, 0, c);
  }

  lemma {:induction false} OverStays(n: nat, s: int, ms: seq<Move>)
    ensures Outcome(n, Over(s), ms) == Over(s)
  {
    if ms != [] { OverStays(n, s, ms[..|ms| - 1]); }
  }

  // ---- the host ---------------------------------------------------------------------------------------------

  /** nvme.c:82-89: the command goes into the tail slot and the doorbell is rung. */
  function Place(q: Pair, cmd: seq<int>): Pair
    requires Shape(q) && 0 <= q.tail < QDEPTH
  {
    var next := (q.tail + 1) % QDEPTH;
    q.(sq := q.sq[q.tail := cmd], placed := q.placed + [cmd], tail := next, sqDoorbell := next, before := q.store)
  }

  /** nvme.c:63-66: the entry at the head has the expected phase. */
  predicate Ready(q: Pair)
    requires Shape(q) && 0 <= q.head < QDEPTH
  {
    PhaseOf(q.cq[q.head][3]) == q.phase
  }

  /** nvme.c:69-71. */
  function Consume(q: Pair): Pair {
    var next := (q.head + 1) % QDEPTH;
    q.(head := next, phase := if next == 0 then 1 - q.phase else q.phase, cqDoorbell := next,
       consumed := q.consumed + 1)
  }

  /** All commands have been answered and all answers read. */
  predicate AtRest(q: Pair) { |q.placed| == q.consumed }

  lemma PlaceSound(q: Pair, cmd: seq<int>)
    requires Sound(q) && AtRest(q) && |cmd| == 16 && 0 <= cmd[0] / TWO16 < TWO16
    ensures Sound(Place(q, cmd))
  {
    LapNext(|q.placed|);
    hide Visits, PhaseOf, StatusOf, CidOf, LapPhase;
  }

  /** The host takes an entry for new exactly when the controller has posted one it has not read: an entry
      left from an earlier lap never passes. */
  lemma ReadyExactly(q: Pair)
    requires Sound(q)
    ensures 0 <= q.head < QDEPTH && (Ready(q) <==> q.consumed < |q.posted|)
  {
    var k := q.consumed;
    NewPhase(k, k % QDEPTH);
    VisitsNext(k, k % QDEPTH);
    assert |q.posted| == k || |q.posted| == k + 1;
    hide PhaseOf;
  }

  /** Reading the new entry gives the status of the command placed last, and its identifier; the store has
      changed by some of that command's sectors, by all of them if the status is success. */
  lemma ConsumeSound(q: Pair)
    requires Sound(q) && q.consumed < |q.posted|
    ensures Sound(Consume(q)) && AtRest(Consume(q))
    ensures var dw3 := q.cq[q.head][3];
            && StatusOf(dw3) == q.posted[|q.placed| - 1] && CidOf(dw3) == q.placed[|q.placed| - 1][0] / TWO16
            && |q.posted| == |q.placed|
    ensures var cmd, k := q.placed[|q.placed| - 1], q.carried[|q.posted| - 1];
            && k <= Sectors(cmd, q.pageAddr) && q.store == Partial(q.before, cmd, k)
            && (q.posted[|q.posted| - 1] == 0 ==> k == Sectors(cmd, q.pageAddr))
  {
    ConsumeCounters(q);
    hide Visits, PhaseOf, StatusOf, CidOf, LapPhase, Partial, Sectors, Counters;
  }

  lemma ConsumeCounters(q: Pair)
    requires Sound(q) && q.consumed < |q.posted|
    ensures Counters(Consume(q)) && |q.posted| == |q.placed| == |q.taken| == q.consumed + 1 == |q.carried|
    ensures q.moved == 0
    ensures q.head == q.consumed % QDEPTH
  {
    LapNext(q.consumed);
    LapBit(q.consumed / QDEPTH);
    hide Visits, PhaseOf, StatusOf, CidOf, LapPhase, Partial, Sectors, Phases, Entries, Fetched;
  }

  /** After a timeout the promise is gone: the late answer to the earlier command is read as the answer to
      the next one, of which nothing has been carried out. */
  lemma LateAnswer(q: Pair, cmd: seq<int>, status: int)
    requires Sound(q) && |q.placed| == q.consumed + 1 && |q.taken| == |q.placed| && |q.posted| == q.consumed
    requires |cmd| == 16 && 0 <= cmd[0] / TWO16 < TWO16 && 0 <= status < 0x8000
    requires status == 0 ==> q.moved == Sectors(q.placed[|q.placed| - 1], q.pageAddr)
    ensures var q2 := Controller(Place(q, cmd), Post(status));
            && Shape(q2) && Ready(q2) && StatusOf(q2.cq[q2.head][3]) == status
            && CidOf(q2.cq[q2.head][3]) == q.placed[|q.placed| - 1][0] / TWO16 && q2.store == q2.before
  {
    var cid := q.placed[|q.placed| - 1][0] / TWO16;
    LapBit(q.consumed / QDEPTH);
    Dword3Decodes(cid, q.ctlPhase, status);
    hide Visits, PhaseOf, StatusOf, CidOf, LapPhase, Dword3, Phases, Entries;
    NotFull(q.consumed);
  }

  lemma NotFull(k: nat)
    ensures (k % QDEPTH + 1) % QDEPTH != k % QDEPTH
  {
  }
}
