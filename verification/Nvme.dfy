/**
  kernel/drivers/nvme.c: commands are placed one at a time and their answers polled for, while the
  controller moves on its own between any two looks: it fetches, transfers sector by sector between the
  drive and the bounce page, and answers.
*/
module Nvme {
  import opened Bytes
  import opened NvmeDrive
  import opened NvmeQueue

  /** The controller's end of a queue pair, its store, and the history of both ends. */
  datatype Device = Device(sqHead: int, cqTail: int, ctlPhase: int, sqDoorbell: int, cqDoorbell: int,
                           placed: seq<seq<int>>, taken: seq<seq<int>>, posted: seq<int>, consumed: nat,
                           store: Store, moved: nat, carried: seq<nat>, before: Store)

  /** nvme.c:84-86: the command with its identifier in the upper half of dword 0. */
  function Tagged(sqe: seq<int>, cid: int): (c: seq<int>)
    requires |sqe| == 16 && 0 <= sqe[0] && 0 <= cid < 0x1_0000
    ensures |c| == 16 && c[0] / 0x1_0000 == cid && c[0] % 0x1_0000 == sqe[0] % 0x1_0000 && c[1..] == sqe[1..]
  {
    sqe[0 := sqe[0] % 0x1_0000 + 0x1_0000 * cid]
  }

  class QueuePair {
    var sq: seq<seq<int>>
    var cq: seq<seq<int>>
    var tail: int
    var head: int
    var phase: int
    var dev: Device
    const pageAddr: int

    constructor (addr: int, store: Store)
      requires |store.page| == 4096
      ensures View() == Fresh(addr, store) && Valid() && AtRest(View()) && pageAddr == addr
    {
      sq, cq := seq(QDEPTH, _ => seq(16, _ => 0)), seq(QDEPTH, _ => seq(4, _ => 0));
      tail, head, phase, pageAddr := 0, 0, 1, addr;
      dev := Device(0, 0, 1, 0, 0, [], [], [], 0, store, 0, [], store);
      new;
      FreshSound(addr, store);
      assert View() == Fresh(addr, store);
    }

    function View(): Pair
      reads this
    {
      Pair(sq, cq, tail, head, phase, dev.sqHead, dev.cqTail, dev.ctlPhase, dev.sqDoorbell, dev.cqDoorbell,
           dev.placed, dev.taken, dev.posted, dev.consumed, dev.store, pageAddr, dev.moved, dev.carried, dev.before)
    }

    ghost predicate Valid()
      reads this
    {
      Sound(View())
    }

    /** The controller makes a move. */
    method Step(m: Move)
      requires Valid()
      modifies this`cq, this`dev
      ensures Valid() && View() == Controller(old(View()), m)
    {
      hide Sound, Controller;
      ghost var q0 := View();
      ControllerSound(q0, m);
      SoundShape(q0);
      var q := Controller(View(), m);
      OnlyController(q0, m);
      cq := q.cq;
      dev := Device(q.sqHead, q.cqTail, q.ctlPhase, q.sqDoorbell, q.cqDoorbell, q.placed, q.taken, q.posted, q.consumed,
                    q.store, q.moved, q.carried, q.before);
      assert View() == q;
    }

    /** nvme.c:60-77: as many looks as the spin limit allows, the controller moving before each.  It gives up exactly
        if no look finds an answer, and otherwise takes the first one. */
    method PollCq(moves: seq<Move>) returns (r: int, status: int, ghost moved: nat, ghost looks: nat)
      requires Valid() && |dev.placed| == dev.consumed + 1 && |dev.posted| == dev.consumed
      modifies this`cq, this`dev, this`head, this`phase
      ensures Valid() && dev.placed == old(dev.placed) && (r == 0 || r == -1 || r == -2)
      ensures r == -2 ==> |dev.placed| == dev.consumed + 1 && dev.consumed == |dev.posted| == old(dev.consumed)
      ensures r != -2 ==> AtRest(View()) && |dev.posted| == |dev.placed| && status == dev.posted[|dev.posted| - 1]
      ensures r != -2 ==> (r == 0 <==> status == 0)
      ensures old(dev.posted) <= dev.posted && dev.before == old(dev.before)
      ensures Done(View(), moved) && (r == 0 ==> moved == Sectors(dev.placed[|dev.placed| - 1], pageAddr))
      ensures looks <= |moves| && (forall k :: 0 <= k < looks ==> !Answered(old(View()), moves[..k]))
      ensures if r == -2 then looks == |moves| && !Answered(old(View()), moves) && View() == Ran(old(View()), moves)
              else Answered(old(View()), moves[..looks]) && View() == Consume(Ran(old(View()), moves[..looks]))
    {
      hide Sound, Controller, StatusOf, PhaseOf, CidOf, Partial, Sectors, Ran;
      status := 0;
      var spin := 0;
      ghost var q0 := View();
      NoneRan(q0, moves);
      while spin < |moves|
        invariant 0 <= spin <= |moves| && Valid() && dev.placed == old(dev.placed) && dev.consumed == old(dev.consumed)
        invariant |dev.placed| == dev.consumed + 1 && head == old(head) && phase == old(phase)
        invariant old(dev.posted) <= dev.posted
        invariant dev.consumed == |dev.posted| && dev.before == old(dev.before)
        invariant View() == Ran(q0, moves[..spin]) && forall k :: 0 <= k <= spin ==> !Answered(q0, moves[..k])
      {
        ghost var q := View();
        RanMore(q0, moves, spin);
        ControllerSound(q, moves[spin]);
        Step(moves[spin]);
        SoundShape(View());
        ReadyExactly(View());
        var dw3 := cq[head][3];
        if PhaseOf(dw3) == phase {
          ConsumeSound(View());
          SoundCounts(View());
          status := StatusOf(dw3);
          moved := dev.carried[|dev.posted| - 1];
          Advance();
          r, looks := if status == 0 then 0 else -1, spin + 1;
          return;
        }
        SoundCounts(View());
        spin := spin + 1;
      }
      assert moves[..|moves|] == moves;
      r, moved, looks := -2, dev.moved, spin;
      SoundEffects(View());
    }

    /** nvme.c:69-71: the head moves on, its phase flips at the end of a lap, and the doorbell is rung. */
    method Advance()
      modifies this`head, this`phase, this`dev
      ensures View() == Consume(old(View()))
    {
      head := (head + 1) % QDEPTH;
      if head == 0 { phase := 1 - phase; }
      dev := dev.(cqDoorbell := head, consumed := dev.consumed + 1);
    }

    /** nvme.c:82-89. */
    method PlaceCommand(sqe: seq<int>, cid: int)
      requires Shape(View()) && 0 <= tail < QDEPTH && |sqe| == 16 && 0 <= sqe[0] && 0 <= cid < 0x1_0000
      modifies this`sq, this`tail, this`dev
      ensures View() == Place(old(View()), Tagged(sqe, cid))
    {
      var t := tail;
      var i := 0;
      while i < 16
        modifies this`sq
        invariant 0 <= i <= 16 && |sq| == QDEPTH && |sq[t]| == 16
        invariant (forall x :: 0 <= x < QDEPTH && x != t ==> sq[x] == old(sq)[x]) && sq[t][..i] == sqe[..i]
      {
        sq := sq[t := sq[t][i := sqe[i]]];
        i := i + 1;
      }
      assert sq[t] == sqe;
      sq := sq[t := sq[t][0 := sq[t][0] % 0x1_0000 + 0x1_0000 * cid]];
      assert sq == old(sq)[t := Tagged(sqe, cid)];
      tail := (t + 1) % QDEPTH;
      dev := dev.(sqDoorbell := tail, placed := dev.placed + [sq[t]], before := dev.store);
    }

    /** nvme.c:79-109: submit.  Unless it times out, it returns the status of the very command it placed. */
    method Submit(sqe: seq<int>, cid: int, moves: seq<Move>) returns (r: int, timeout: bool, ghost moved: nat)
      requires Valid() && AtRest(View()) && |sqe| == 16 && 0 <= sqe[0] && 0 <= cid < 0x1_0000
      modifies this
      ensures Valid() && dev.placed == old(dev.placed) + [Tagged(sqe, cid)] && old(dev.posted) <= dev.posted
      ensures !timeout ==> AtRest(View()) && |dev.posted| == |dev.placed|
      ensures !timeout ==> r == (if dev.posted[|dev.placed| - 1] == 0 then 0 else -1)
      ensures timeout ==> r == -1 && |dev.posted| == |old(dev.posted)| && |dev.placed| == dev.consumed + 1
      ensures moved <= Sectors(Tagged(sqe, cid), pageAddr)
      ensures dev.store == Partial(old(dev.store), Tagged(sqe, cid), moved)
      ensures r == 0 ==> moved == Sectors(Tagged(sqe, cid), pageAddr)
      ensures var end := Outcome(Sectors(Tagged(sqe, cid), pageAddr), Waiting, moves);
              (timeout <==> !end.Over?) && (r == 0 <==> end == Over(0))
    {
      hide Sound, Tagged, Partial, Sectors, Ran, Outcome, Answered;
      ghost var cmd := Tagged(sqe, cid);
      SoundShape(View());
      SoundCounts(View());
      PlaceSound(View(), cmd);
      PlacedWaits(View(), cmd);
      PlaceCommand(sqe, cid);
      ghost var q := View();
      var status;
      ghost var looks;
      r, status, moved, looks := PollCq(moves);
      Decided(q, Sectors(cmd, pageAddr), moves, looks, r, status, View());
      timeout := r == -2;
      if r != 0 { r := -1; }
    }

    /** One command after another, up to the first timeout: each result is the status the controller gave to that
        very command, the store changes by the commands in order, by all of one that succeeded, and after k
        completions the head is k modulo 16 and the phase that of lap k / 16. */
    method SubmitAll(sqes: seq<seq<int>>, cids: seq<int>, moves: seq<seq<Move>>)
      returns (results: seq<int>, timeout: bool, ghost moved: seq<nat>, ghost stores: seq<Store>)
      requires Valid() && AtRest(View()) && |sqes| == |cids| == |moves|
      requires forall i :: 0 <= i < |sqes| ==> Proper(sqes[i], cids[i])
      modifies this
      ensures Valid() && |results| <= |sqes| && (!timeout ==> |results| == |sqes|)
      ensures !timeout ==> AtRest(View()) && dev.consumed == old(dev.consumed) + |results|
      ensures |dev.posted| == |old(dev.posted)| + |results|
      ensures |old(dev.posted)| == |old(dev.placed)| == old(dev.consumed)
      ensures |dev.placed| == |old(dev.placed)| + |results| + if timeout then 1 else 0
      ensures forall i :: 0 <= i < |results| ==>
                Proper(sqes[i], cids[i]) && dev.placed[|old(dev.placed)| + i] == Tagged(sqes[i], cids[i])
      ensures forall i :: 0 <= i < |results| ==> results[i] == if dev.posted[|old(dev.posted)| + i] == 0 then 0 else -1
      ensures Carried(sqes, cids, results, moved, stores, pageAddr) && stores[0] == old(dev.store)
      ensures !timeout ==> stores[|results|] == dev.store
      ensures head == dev.consumed % QDEPTH && phase == LapPhase(dev.consumed / QDEPTH)
      ensures forall i :: 0 <= i < |results| ==> var end := EndOf(sqes[i], cids[i], pageAddr, moves[i]);
                end.Over? && (results[i] == 0 <==> end == Over(0))
      ensures timeout ==> var k := |results|; k < |sqes| && !EndOf(sqes[k], cids[k], pageAddr, moves[k]).Over?
    {
      hide Sound, Tagged, LapPhase, Carried, Partial, Sectors, Outcome;
      results, timeout, moved, stores := [], false, [], [dev.store];
      var k := 0;
      SoundCounts(View());
      SoundShape(View());
      NoneCarried(sqes, cids, dev.store, pageAddr);
      ghost var n := |dev.posted|;
      while k < |sqes|
        invariant 0 <= k == |results| <= |sqes| && Valid() && AtRest(View()) && |dev.posted| == n + k == |dev.placed|
        invariant |dev.posted| == dev.consumed && |stores| == k + 1
        invariant stores[0] == old(dev.store) && stores[k] == dev.store
        invariant forall i :: 0 <= i < k ==> results[i] == if dev.posted[n + i] == 0 then 0 else -1
        invariant forall i :: 0 <= i < k ==> Proper(sqes[i], cids[i]) && dev.placed[n + i] == Tagged(sqes[i], cids[i])
        invariant Carried(sqes, cids, results, moved, stores, pageAddr) && |dev.store.page| == 4096
        invariant forall i :: 0 <= i < k ==> var end := EndOf(sqes[i], cids[i], pageAddr, moves[i]);
                    end.Over? && (results[i] == 0 <==> end == Over(0))
      {
        var r;
        ghost var more;
        ghost var store := dev.store;
        r, timeout, more := Submit(sqes[k], cids[k], moves[k]);
        SoundCounts(View());
        if timeout {
          SoundHead(View());
          return;
        }
        CarriedMore(sqes, cids, results, moved, stores, pageAddr, r, more, dev.store);
        results, moved, stores := results + [r], moved + [more], stores + [dev.store];
        k := k + 1;
      }
      SoundHead(View());
    }
  }

  /** A command as the driver builds it, and its identifier. */
  predicate Proper(sqe: seq<int>, cid: int) { |sqe| == 16 && 0 <= sqe[0] && 0 <= cid < 0x1_0000 }

  /** What becomes of a command while the controller makes these moves. */
  function EndOf(sqe: seq<int>, cid: int, pageAddr: int, moves: seq<Move>): Progress
    requires Proper(sqe, cid)
  {
    Outcome(Sectors(Tagged(sqe, cid), pageAddr), Waiting, moves)
  }

  lemma NoneRan(q: Pair, moves: seq<Move>)
    requires Sound(q) && |q.posted| == q.consumed
    ensures Ran(q, moves[..0]) == q && !Answered(q, moves[..0])
  {
  }

  /** What polling reports is what the moves decide. */
  lemma Decided(q: Pair, n: nat, moves: seq<Move>, looks: nat, r: int, status: int, q': Pair)
    requires Sound(q) && StandsAt(q, n, Waiting) && looks <= |moves| && |q.posted| == q.consumed
    requires if r == -2 then !Answered(q, moves)
             else Answered(q, moves[..looks]) && q' == Consume(Ran(q, moves[..looks]))
    requires r != -2 ==> q'.posted != [] && status == q'.posted[|q'.posted| - 1] && (r == 0 <==> status == 0)
    requires r == 0 || r == -1 || r == -2
    ensures var end := Outcome(n, Waiting, moves); (r == -2 <==> !end.Over?) && (r == 0 <==> end == Over(0))
  {
    hide Sound, Ran, Outcome, Shape, SectorsOf;
    RanStands(q, n, Waiting, moves);
    RanStands(q, n, Waiting, moves[..looks]);
    assert moves[..looks] + moves[looks..] == moves;
    OutcomeConcat(n, Waiting, moves[..looks], moves[looks..]);
    var end := Outcome(n, Waiting, moves[..looks]);
    if end.Over? { OverStays(n, end.status, moves[looks..]); }
  }

  /** The store before and after each command: `moved[i]` sectors of command `i` were transferred, all of them if it
      succeeded. */
  ghost predicate Carried(sqes: seq<seq<int>>, cids: seq<int>, results: seq<int>, moved: seq<nat>, stores: seq<Store>,
                          pageAddr: int) {
    && |moved| == |results| <= |sqes| == |cids| && |stores| == |results| + 1
    && (forall i :: 0 <= i < |sqes| ==> Proper(sqes[i], cids[i]))
    && (forall i :: 0 <= i < |stores| ==> |stores[i].page| == 4096)
    && forall i :: 0 <= i < |results| ==>
         var cmd := Tagged(sqes[i], cids[i]);
         && moved[i] <= Sectors(cmd, pageAddr) && (results[i] == 0 ==> moved[i] == Sectors(cmd, pageAddr))
         && stores[i + 1] == Partial(stores[i], cmd, moved[i])
  }

  lemma NoneCarried(sqes: seq<seq<int>>, cids: seq<int>, s: Store, pageAddr: int)
    requires |sqes| == |cids| && |s.page| == 4096 && forall i :: 0 <= i < |sqes| ==> Proper(sqes[i], cids[i])
    ensures Carried(sqes, cids, [], [], [s], pageAddr)
  {
  }

  lemma CarriedMore(sqes: seq<seq<int>>, cids: seq<int>, results: seq<int>, moved: seq<nat>, stores: seq<Store>,
                    pageAddr: int, r: int, more: nat, s: Store)
    requires Carried(sqes, cids, results, moved, stores, pageAddr) && |results| < |sqes|
    requires var k := |results|;
             && more <= Sectors(Tagged(sqes[k], cids[k]), pageAddr)
             && s == Partial(stores[k], Tagged(sqes[k], cids[k]), more)
             && (r == 0 ==> more == Sectors(Tagged(sqes[k], cids[k]), pageAddr))
    ensures Carried(sqes, cids, results + [r], moved + [more], stores + [s], pageAddr) && |s.page| == 4096
  {
    hide Sectors, Partial, Tagged;
  }

  lemma SoundHead(q: Pair)
    requires Sound(q)
    ensures q.head == q.consumed % QDEPTH && q.phase == LapPhase(q.consumed / QDEPTH)
  {
  }

  lemma SoundCounts(q: Pair)
    requires Sound(q)
    ensures q.consumed <= |q.posted| <= |q.placed| <= q.consumed + 1 && |q.carried| == |q.posted|
  {
  }

  /** Some sectors of the command placed last have been moved, and nothing else has changed the store. */
  ghost predicate Done(q: Pair, moved: nat) {
    && q.placed != [] && |q.placed[|q.placed| - 1]| == 16 && |q.before.page| == 4096
    && moved <= Sectors(q.placed[|q.placed| - 1], q.pageAddr)
    && q.store == Partial(q.before, q.placed[|q.placed| - 1], moved)
  }

  lemma SoundEffects(q: Pair)
    requires Sound(q) && |q.placed| == q.consumed + 1 && |q.posted| == q.consumed
    ensures Done(q, q.moved)
  {
  }

  lemma OnlyController(q: Pair, m: Move)
    requires Shape(q) && 0 <= q.cqTail < QDEPTH && 0 <= q.sqHead < QDEPTH && Fetches(q)
    ensures var q' := Controller(q, m);
            q'.pageAddr == q.pageAddr && q'.sq == q.sq && q'.tail == q.tail && q'.head == q.head && q'.phase == q.phase
  {
  }

  lemma TaggedSectors(lba: int, count: int, isWrite: bool, prp: int, cid: int)
    requires 0 <= lba && 0 < prp && 0 < count <= 8 && 0 <= cid < 0x1_0000
    ensures var cmd := Tagged(RwCommand(lba, count, isWrite, prp), cid);
            Sectors(cmd, prp) == count && Lba(cmd) == lba && IsWrite(cmd) == isWrite
  {
  }

  class Driver {
    const io: QueuePair
    var nextCid: int
    var present: bool

    constructor (addr: int, d: Drive)
      requires 0 < addr < TWO32 * TWO32
      ensures Valid() && present && OnDrive() == d && io.pageAddr == addr && fresh(io)
    {
      io := new QueuePair(addr, Store(d, seq(4096, _ => 0)));
      nextCid, present := 1, true;
    }

    /** No command has timed out so far. */
    ghost predicate Valid()
      reads this, io
    {
      && io.Valid() && AtRest(io.View()) && |io.dev.store.page| == 4096 && 0 < io.pageAddr < TWO32 * TWO32
      && 1 <= nextCid < 0x1_0000
    }

    function OnDrive(): Drive
      reads this, io
    {
      io.dev.store.drive
    }

    /** nvme.c:86-87: identifiers run from 1 to 65535 and start over. */
    method NextCid() returns (cid: int)
      requires 1 <= nextCid < 0x1_0000
      modifies this`nextCid
      ensures cid == old(nextCid) && nextCid == (if cid == 0xFFFF then 1 else cid + 1)
    {
      cid := nextCid;
      nextCid := (nextCid + 1) % 0x1_0000;
      if nextCid == 0 { nextCid := 1; }
    }

    /** nvme.c:255-257: a byte loop into the bounce page, which the controller does not touch at rest. */
    method CopyIn(data: seq<Byte>)
      requires Valid() && |data| <= 4096
      modifies io`dev
      ensures Valid() && io.dev.store == old(io.dev.store).(page := Overlay(old(io.dev.store.page), data))
    {
      hide Sound;
      ghost var q := io.View();
      var page := io.dev.store.page;
      var i := 0;
      while i < |data|
        invariant 0 <= i <= |data| && |page| == 4096 && page[..i] == data[..i]
        invariant page[|data|..] == old(io.dev.store.page)[|data|..]
      {
        page := page[i := data[i]];
        i := i + 1;
      }
      assert page == Overlay(old(io.dev.store.page), data);
      io.dev := io.dev.(store := io.dev.store.(page := page));
      RestSound(q, page);
    }

    /** nvme.c:251-276: do_rw.  `buf` is the data to write; `out` is what a read delivers.  A command that
        fails or is not answered in time may have been carried out in part. */
    method DoRw(lba: int, count: int, buf: seq<Byte>, isWrite: bool, moves: seq<Move>)
      returns (r: int, out: seq<Byte>, timeout: bool, ghost moved: nat)
      requires Valid() && 0 <= lba < TWO32 * TWO32 && 0 <= count && (isWrite ==> |buf| == 512 * count)
      modifies this, io
      ensures (r == 0 || r == -1) && (!timeout ==> Valid()) && (timeout ==> r == -1) && present == old(present)
      ensures r == 0 ==> present && 0 < count <= 8 && moved == count
      ensures moved <= count && (!isWrite ==> OnDrive() == old(OnDrive()))
      ensures isWrite ==> OnDrive() == WriteSectors(old(OnDrive()), lba, moved, buf[..512 * moved])
      ensures out == if r == 0 && !isWrite then ReadSectors(OnDrive(), lba, count) else []
      ensures !present || count == 0 || count > 8 ==> r == -1 && !timeout && moved == 0
      ensures present && 0 < count <= 8 ==> var end := Outcome(count, Waiting, moves);
                (timeout <==> !end.Over?) && (r == 0 <==> end == Over(0))
    {
      hide Sound, AtRest, WriteSectors, ReadSectors, Partial, Sectors, Lba, RwCommand, Tagged, IsWrite, Outcome;
      out, timeout, moved := [], false, 0;
      NothingWritten(OnDrive(), lba);
      if !present || count == 0 || count > 8 { return -1, [], false, 0; }
      var n := count * 512;
      if isWrite { CopyIn(buf); }
      ghost var s := io.dev.store;
      var cmd := RwCommand(lba, count, isWrite, io.pageAddr);
      var cid := NextCid();
      TaggedSectors(lba, count, isWrite, io.pageAddr, cid);
      r, timeout, moved := io.Submit(cmd, cid, moves);
      PartialIs(s, Tagged(cmd, cid), moved);
      if isWrite { OverlayPrefix(old(io.dev.store.page), buf, moved); }
      if r != 0 { return -1, [], timeout, moved; }
      if !isWrite { out := io.dev.store.page[..n]; }
    }

    /** What was written is what is read, whatever else the drive holds. */
    method WriteThenRead(lba: int, count: int, buf: seq<Byte>, moves: seq<Move>, moves': seq<Move>)
      returns (ok: bool, out: seq<Byte>)
      requires Valid() && 0 <= lba < TWO32 * TWO32 && 0 <= count && |buf| == 512 * count
      modifies this, io
      ensures ok <==> && old(present) && 0 < count <= 8 && Outcome(count, Waiting, moves) == Over(0)
                      && Outcome(count, Waiting, moves') == Over(0)
      ensures ok ==> out == buf
      ensures ok ==> forall l :: !(lba <= l < lba + count) ==> SectorAt(OnDrive(), l) == SectorAt(old(OnDrive()), l)
    {
      hide Sound, AtRest, WriteSectors, ReadSectors, SectorAt, Outcome;
      ghost var moved;
      var r, _, _, _ := DoRw(lba, count, buf, true, moves);
      if r != 0 { return false, []; }
      assert buf[..512 * count] == buf;
      var late;
      r, out, late, moved := DoRw(lba, count, [], false, moves');
      ok := r == 0;
      if ok {
        ReadWritten(old(OnDrive()), lba, count, buf);
        forall l | !(lba <= l < lba + count) ensures SectorAt(OnDrive(), l) == SectorAt(old(OnDrive()), l) {
          WrittenElsewhere(old(OnDrive()), lba, count, buf, l);
        }
      }
    }
  }

  lemma NothingWritten(d: Drive, lba: int)
    ensures WriteSectors(d, lba, 0, []) == d
  {
  }

  lemma PartialIs(s: Store, cmd: seq<int>, k: nat)
    requires |cmd| == 16 && |s.page| == 4096 && k <= 8
    ensures var p := Partial(s, cmd, k);
            if IsWrite(cmd) then p.drive == WriteSectors(s.drive, Lba(cmd), k, s.page[..512 * k])
            else p.drive == s.drive && p.page[..512 * k] == ReadSectors(s.drive, Lba(cmd), k)
  {
  }

  lemma OverlayPrefix(page: seq<Byte>, data: seq<Byte>, k: nat)
    requires |data| <= |page| && 512 * k <= |data|
    ensures Overlay(page, data)[..512 * k] == data[..512 * k]
  {
    hide Overlay;
    assert Overlay(page, data)[..|data|][..512 * k] == Overlay(page, data)[..512 * k];
  }

  /** At rest the page belongs to the host. */
  lemma RestSound(q: Pair, page: seq<Byte>)
    requires Sound(q) && AtRest(q) && |page| == 4096
    ensures Sound(q.(store := q.store.(page := page)))
  {
  }
}
