/**
  Callers of the driver: a write read back through its own path, and arbitrary sequences of calls.
*/
module FatSession {
  import opened Bytes
  import opened FatVolume
  import opened FatDir
  import opened FatChain
  import opened FatForest
  import opened FatPath
  import opened FatEffect
  import opened FatOps
  import opened FatTheorems
  import opened FatDriver

  /** The self-test of the boot sequence, for every path and all data: if the write reports success,
      reading the same path back delivers exactly the data, unless the last component starts with the
      byte 0xE5, in which case the file cannot be found. */
  method WriteThenRead(d: Driver, path: seq<Byte>, data: seq<Byte>, maxlen: int)
    returns (w: int, r: int, out: seq<Byte>, ghost last: seq<Byte>)
    requires d.Valid() && 0 !in path && |data| <= maxlen
    modifies d`disk, d`forest, d.sector
    ensures w == |data| ==> last != [] && old(d.Resolved(path)).Some? && last == old(d.Resolved(path)).value.1
    ensures w == |data| && last[0] != DELETED ==> r == |data| && out == data
    ensures w == |data| && last[0] == DELETED ==> r == -1
  {
    hide Sound, View, Name83, SlotsOf, Look, Resolve, OthersSame, Written;
    ghost var g, v, f, cwd := d.g, d.V(), d.forest, d.cwd;
    ResolveDir(g, v, f, cwd, path);
    r, out, last := -1, [], [];
    ghost var extra;
    var cl;
    w, cl, extra := d.WriteFile(path, data);
    if w != |data| { return; }
    last := Resolve(g, v, f, cwd, path).value.1;
    SoundDir(g, d.V(), d.forest, 0, 0, d.cwd);
    assert !old(d.WriteRejected(path, data));
    RoundTrip(g, v, f, d.V(), d.forest, cwd, path, data, extra);
    r, out := d.ReadFile(path, maxlen);
  }

  datatype Call =
    | Mkdir(path: seq<Byte>)
    | Write(path: seq<Byte>, data: seq<Byte>)
    | Unlink(path: seq<Byte>)
    | Chdir(path: seq<Byte>)

  // ---- what a call does, in terms of the call ------------------------------------------------------------

  /** A volume, its forest, and the current directory. */
  datatype State = State(v: Vol, f: Forest, cwd: int)

  ghost predicate Usable(g: Geometry, s: State) {
    Sound(g, s.v, s.f, 0, 0) && s.cwd in s.f && s.f[s.cwd].isDir
  }

  lemma UsableRoot(g: Geometry, s: State)
    requires Usable(g, s)
    ensures ChainsOk(s.v, s.f) && g.root in s.f && Shape(g, s.v)
  {
  }

  /** Where the call's path leads: a directory, and the name of an entry in it. */
  ghost function Entry(g: Geometry, s: State, call: Call): Option<(int, seq<Byte>)>
    requires Usable(g, s)
  {
    UsableRoot(g, s);
    Resolve(g, s.v, s.f, s.cwd, call.path)
  }

  /** What is turned down before anything is written. */
  ghost predicate Refused(g: Geometry, s: State, call: Call)
    requires Usable(g, s)
  {
    UsableRoot(g, s);
    if call.Chdir? then DirTarget(g, s.v, s.f, s.cwd, call.path).None?
    else
      || call.path == [] || Entry(g, s, call).None?
      || var (p, last) := Entry(g, s, call).value;
         || last == [] || p !in s.f
         || var e := Look(s.v, s.f, p, Name83(last));
            match call
            case Mkdir(_) => e.Some?
            case Write(_, data) => |data| > 512 * 64 || (e.Some? && IsDir(e.value))
            case Unlink(_) =>
              e.None? || (IsDir(e.value) && First(e.value) in s.f && !Vacant(Slots(s.v, s.f, First(e.value))))
            case Chdir(_) => false
  }

  /** There is room for what the call is to store. */
  ghost predicate Fits(g: Geometry, s: State, call: Call)
    requires Usable(g, s) && !Refused(g, s, call)
  {
    UsableRoot(g, s);
    match call
    case Mkdir(_) => |s.v.fat| >= 3 && EnoughDir(s.v, s.f, Entry(g, s, call).value.0)
    case Write(_, data) =>
      var (p, last) := Entry(g, s, call).value;
      |s.v.fat| >= 3 && 0 < g.spc && Enough(g, s.v, s.f, p, Name83(last), |data|)
    case _ => true
  }

  /** The result the call returns. */
  ghost function Result(g: Geometry, s: State, call: Call): int
    requires Usable(g, s)
  {
    if Refused(g, s, call) || !Fits(g, s, call) then -1 else if call.Write? then |call.data| else 0
  }

  /** The event is the call's own: its entry is where the call's path leads, its kind and data are the call's, and
      it is an aborted one exactly when there was no room. */
  ghost predicate About(g: Geometry, s: State, call: Call, ev: Event)
    requires Usable(g, s) && !Refused(g, s, call) && !call.Chdir?
  {
    UsableRoot(g, s);
    var (p, last) := Entry(g, s, call).value;
    && ev.p == p && ev.name == Name83(last) && (ev.Aborted? <==> !Fits(g, s, call))
    && (ev.Wrote? ==> call.Write? && ev.data == call.data) && (ev.NewDir? ==> call.Mkdir?)
    && (ev.Removed? ==> call.Unlink? && Look(s.v, s.f, p, ev.name) == Some(ev.e))
  }

  /** One call from `s` to `s'`, with its result and its effect on the volume.  A call that is refused changes
      nothing; chdir changes the current directory; any other is one event, about the call's own entry. */
  ghost predicate Does(g: Geometry, s: State, call: Call, r: int, evs: seq<Event>, s': State) {
    && Usable(g, s) && Usable(g, s') && r == Result(g, s, call)
    && if Refused(g, s, call) then evs == [] && s' == s
       else if call.Chdir? then
         && evs == [] && s'.v == s.v && s'.f == s.f
         && s'.cwd == (if call.path == [DOT, DOT] then g.root else DirTarget(g, s.v, s.f, s.cwd, call.path).value)
       else
         && |evs| == 1 && About(g, s, call, evs[0]) && s'.cwd == s.cwd
         && Happens(g, Snap(s.v, s.f), evs[0], Snap(s'.v, s'.f))
  }

  ghost function Now(d: Driver): State
    requires d.Mounted()
    reads d
  {
    State(d.V(), d.forest, d.cwd)
  }

  /** The calls that take the mounted state away: removing the current directory, and failing to replace a file
      that begins at cluster 2. */
  ghost predicate Loses(g: Geometry, s: State, call: Call)
    requires Usable(g, s)
  {
    UsableRoot(g, s);
    && !Refused(g, s, call) && (call.Unlink? || (call.Write? && !Fits(g, s, call)))
    && var e := Target(g, s.v, s.f, s.cwd, call.path);
       e.Some? && First(e.value) == if call.Write? then 2 else s.cwd
  }

  method PerformMkdir(d: Driver, path: seq<Byte>) returns (r: int, ghost evs: seq<Event>)
    requires d.Valid() && 0 !in path
    modifies d`disk, d`forest, d.sector
    ensures d.Valid() && Does(d.g, old(Now(d)), Mkdir(path), r, evs, Now(d))
  {
    hide Sound, View, Name83, SlotsOf, Look, Resolve, OthersSame, MadeDir, EnoughDir, Drained;
    ghost var g, s, call := d.g, Now(d), Mkdir(path);
    ResolveDir(g, s.v, s.f, s.cwd, path);
    UsableRoot(g, s);
    ghost var c, extra;
    r, c, extra := d.Mkdir(path);
    evs := [];
    if !Refused(g, s, call) {
      ghost var (p, last) := Entry(g, s, call).value;
      evs := if r == 0 then [NewDir(p, Name83(last), c, extra)] else [Aborted(p, Name83(last))];
    }
  }

  method PerformWrite(d: Driver, path: seq<Byte>, data: seq<Byte>) returns (r: int, usable: bool, ghost evs: seq<Event>)
    requires d.Valid() && 0 !in path
    modifies d`disk, d`forest, d.sector
    ensures d.Mounted() && (usable <==> d.Valid()) && (usable <==> !Loses(d.g, old(Now(d)), Write(path, data)))
    ensures r == Result(d.g, old(Now(d)), Write(path, data))
    ensures usable ==> Does(d.g, old(Now(d)), Write(path, data), r, evs, Now(d))
  {
    hide Sound, View, Name83, SlotsOf, Look, Resolve, OthersSame, Written, Enough, Drained, Dangling;
    ghost var g, s, call := d.g, Now(d), Write(path, data);
    ResolveDir(g, s.v, s.f, s.cwd, path);
    UsableRoot(g, s);
    var cl;
    ghost var extra;
    r, cl, extra := d.WriteFile(path, data);
    usable, evs := r != -1 || cl != 2, [];
    if !Refused(g, s, call) {
      ghost var (p, last) := Entry(g, s, call).value;
      evs := if r != -1 then [Wrote(p, Name83(last), data, extra)] else [Aborted(p, Name83(last))];
    }
  }

  method PerformUnlink(d: Driver, path: seq<Byte>) returns (r: int, usable: bool, ghost evs: seq<Event>)
    requires d.Valid() && 0 !in path
    modifies d`disk, d`forest, d.sector
    ensures d.Mounted() && (usable <==> d.Valid()) && (usable <==> !Loses(d.g, old(Now(d)), Unlink(path)))
    ensures r == Result(d.g, old(Now(d)), Unlink(path))
    ensures usable ==> Does(d.g, old(Now(d)), Unlink(path), r, evs, Now(d))
  {
    hide Sound, View, Name83, SlotsOf, Look, Resolve, OthersSame, Unlinked, Vacant;
    ghost var g, s, call := d.g, Now(d), Unlink(path);
    ResolveDir(g, s.v, s.f, s.cwd, path);
    UsableRoot(g, s);
    var cl;
    r, cl := d.Unlink(path);
    usable, evs := r == -1 || cl != d.cwd, [];
    if !Refused(g, s, call) {
      ghost var (p, last) := Entry(g, s, call).value;
      Name83Start(last);
      evs := [Removed(p, Name83(last), Look(s.v, s.f, p, Name83(last)).value)];
    }
  }

  method PerformChdir(d: Driver, path: seq<Byte>) returns (r: int)
    requires d.Valid() && 0 !in path
    modifies d`cwd, d.sector
    ensures d.Valid() && Does(d.g, old(Now(d)), Chdir(path), r, [], Now(d))
  {
    hide Sound, View, Name83, SlotsOf, Look, Resolve, DirTarget;
    UsableRoot(d.g, Now(d));
    r := d.Chdir(path);
  }

  /** One call: its result is the one the abstract state decides, and it does to that state what `Does` says,
      unless it is one of the two that take the mounted state away. */
  method Perform(d: Driver, call: Call) returns (r: int, usable: bool, ghost evs: seq<Event>)
    requires d.Valid() && 0 !in call.path
    modifies d`disk, d`forest, d`cwd, d.sector
    ensures d.Mounted() && (usable <==> d.Valid()) && (usable <==> !Loses(d.g, old(Now(d)), call))
    ensures r == Result(d.g, old(Now(d)), call)
    ensures usable ==> Does(d.g, old(Now(d)), call, r, evs, Now(d))
  {
    hide Sound, View, Result, Refused, Fits, About;
    usable, evs := true, [];
    match call
    case Mkdir(path) => r, evs := PerformMkdir(d, path);
    case Write(path, data) => r, usable, evs := PerformWrite(d, path, data);
    case Unlink(path) => r, usable, evs := PerformUnlink(d, path);
    case Chdir(path) => r := PerformChdir(d, path);
  }

  // ---- sessions ---------------------------------------------------------------------------------------------

  /** The states between the calls, and what each call did. */
  datatype Trace = Trace(states: seq<State>, evs: seq<seq<Event>>)

  ghost predicate Traced(g: Geometry, calls: seq<Call>, rs: seq<int>, tr: Trace) {
    && |rs| <= |calls| && |tr.states| == |rs| + 1 && |tr.evs| == |rs| && Usable(g, tr.states[0])
    && forall i :: 0 <= i < |rs| ==> Does(g, tr.states[i], calls[i], rs[i], tr.evs[i], tr.states[i + 1])
  }

  /** Any sequence of calls, up to one that takes the mounted state away: each is carried out in turn and does
      exactly what `Does` says. */
  method Session(d: Driver, calls: seq<Call>) returns (rs: seq<int>, ghost tr: Trace)
    requires d.Valid() && forall i :: 0 <= i < |calls| ==> 0 !in calls[i].path
    modifies d`disk, d`forest, d`cwd, d.sector
    ensures Traced(d.g, calls, rs, tr) && tr.states[0] == old(Now(d))
    ensures |rs| == |calls| ==> d.Valid() && tr.states[|rs|] == Now(d)
    ensures |rs| < |calls| ==> Usable(d.g, tr.states[|rs|]) && Loses(d.g, tr.states[|rs|], calls[|rs|])
  {
    hide Sound, View, Does, Loses, Result;
    rs, tr := [], Trace([Now(d)], []);
    while |rs| < |calls|
      invariant |rs| <= |calls| && d.Valid() && Traced(d.g, calls, rs, tr)
      invariant tr.states[0] == old(Now(d)) && tr.states[|rs|] == Now(d)
      decreases |calls| - |rs|
    {
      var r, usable; ghost var ev;
      r, usable, ev := Perform(d, calls[|rs|]);
      if !usable { return; }
      rs, tr := rs + [r], Trace(tr.states + [Now(d)], tr.evs + [ev]);
    }
  }

  lemma TracedPrefix(g: Geometry, calls: seq<Call>, rs: seq<int>, tr: Trace, n: nat)
    requires Traced(g, calls, rs, tr) && n <= |rs|
    ensures Traced(g, calls, rs[..n], Trace(tr.states[..n + 1], tr.evs[..n]))
  {
    hide Does, Usable;
  }

  function Joined(evs: seq<seq<Event>>): seq<Event> {
    if evs == [] then [] else Joined(evs[..|evs| - 1]) + evs[|evs| - 1]
  }

  function SnapOf(s: State): Snap { Snap(s.v, s.f) }

  /** The events of a session, one after the other, are a run, so that what is proved of runs holds of it. */
  lemma {:induction false} SessionRuns(g: Geometry, calls: seq<Call>, rs: seq<int>, tr: Trace)
    returns (snaps: seq<Snap>)
    requires Traced(g, calls, rs, tr)
    ensures IsRun(g, snaps, Joined(tr.evs)) && snaps[0] == SnapOf(tr.states[0])
    ensures snaps[|Joined(tr.evs)|] == SnapOf(tr.states[|rs|])
    decreases |rs|
  {
    hide Does, Usable, Happens, IsRun;
    if rs == [] {
      RunStarts(g, tr.states[0]);
      snaps := [SnapOf(tr.states[0])];
    } else {
      var m := |rs| - 1;
      TracedPrefix(g, calls, rs, tr, m);
      var before := SessionRuns(g, calls, rs[..m], Trace(tr.states[..m + 1], tr.evs[..m]));
      var s, s', ev := tr.states[m], tr.states[m + 1], tr.evs[m];
      CallRuns(g, s, calls[m], rs[m], ev, s');
      RunLength(g, before, Joined(tr.evs[..m]));
      snaps := before;
      if ev == [] {
        assert Joined(tr.evs) == Joined(tr.evs[..m]);
      } else {
        assert Joined(tr.evs) == Joined(tr.evs[..m]) + [ev[0]];
        RunExtends(g, before, Joined(tr.evs[..m]), ev[0], SnapOf(s'));
        snaps := before + [SnapOf(s')];
      }
    }
  }

  lemma RunStarts(g: Geometry, s: State)
    requires Usable(g, s)
    ensures IsRun(g, [SnapOf(s)], [])
  {
  }

  lemma RunLength(g: Geometry, snaps: seq<Snap>, evs: seq<Event>)
    requires IsRun(g, snaps, evs)
    ensures |snaps| == |evs| + 1
  {
  }

  lemma CallRuns(g: Geometry, s: State, call: Call, r: int, evs: seq<Event>, s': State)
    requires Does(g, s, call, r, evs, s')
    ensures |evs| <= 1 && (evs == [] ==> SnapOf(s') == SnapOf(s)) && Sound(g, s'.v, s'.f, 0, 0)
    ensures evs != [] ==> evs == [evs[0]] && Happens(g, SnapOf(s), evs[0], SnapOf(s'))
  {
    hide Happens, Sound;
  }

  lemma RunExtends(g: Geometry, snaps: seq<Snap>, evs: seq<Event>, ev: Event, next: Snap)
    requires IsRun(g, snaps, evs) && Happens(g, snaps[|evs|], ev, next) && Sound(g, next.v, next.f, 0, 0)
    ensures IsRun(g, snaps + [next], evs + [ev])
  {
    hide Sound, Happens;
    var s', e' := snaps + [next], evs + [ev];
    forall i | 0 <= i < |e'| ensures Happens(g, s'[i], e'[i], s'[i + 1]) { }
  }

  /** The call is not about entry `n` of directory `h`, and does not remove `h`. */
  ghost predicate Elsewhere(g: Geometry, s: State, call: Call, h: int, n: Name)
    requires Usable(g, s)
  {
    UsableRoot(g, s);
    call.Chdir? || Entry(g, s, call).None? ||
      var (p, last) := Entry(g, s, call).value;
      && (p, Name83(last)) != (h, n)
      && (call.Unlink? && p in s.f && Look(s.v, s.f, p, Name83(last)).Some? ==>
            h !in Gone(Look(s.v, s.f, p, Name83(last)).value))
  }

  lemma CallSpares(g: Geometry, s: State, call: Call, r: int, evs: seq<Event>, s': State, h: int, n: Name)
    requires Does(g, s, call, r, evs, s') && Elsewhere(g, s, call, h, n) && Askable(n) && h in s.f && s.f[h].isDir
    ensures ChainsOk(s.v, s.f) && ChainsOk(s'.v, s'.f) && h in s'.f && s'.f[h].isDir
    ensures Look(s'.v, s'.f, h, n) == Look(s.v, s.f, h, n)
    ensures var e := Look(s.v, s.f, h, n);
            e.Some? && !IsDir(e.value) ==> FileBytes(s'.v, s'.f, e.value) == FileBytes(s.v, s.f, e.value)
  {
    hide Sound, SlotsOf, Look, Resolve, Name83, Happens, Result, FileBytes, Fits;
    UsableRoot(g, s);
    UsableRoot(g, s');
    if evs != [] { EventSpares(g, Snap(s.v, s.f), evs[0], Snap(s'.v, s'.f), h, n); }
  }

  /** Over every session, an entry to which no call's path leads is found as before, with the same bytes. */
  lemma {:induction false} SessionSpares(g: Geometry, calls: seq<Call>, rs: seq<int>, tr: Trace, h: int, n: Name)
    requires Traced(g, calls, rs, tr) && Askable(n) && h in tr.states[0].f && tr.states[0].f[h].isDir
    requires forall i :: 0 <= i < |rs| ==> Usable(g, tr.states[i]) && Elsewhere(g, tr.states[i], calls[i], h, n)
    ensures var a, b := tr.states[0], tr.states[|rs|];
            && ChainsOk(a.v, a.f) && ChainsOk(b.v, b.f) && h in b.f && b.f[h].isDir
            && Look(b.v, b.f, h, n) == Look(a.v, a.f, h, n)
            && var e := Look(a.v, a.f, h, n);
               e.Some? && !IsDir(e.value) ==> FileBytes(b.v, b.f, e.value) == FileBytes(a.v, a.f, e.value)
    decreases |rs|
  {
    hide Does, Usable, Look, FileBytes, Elsewhere;
    UsableRoot(g, tr.states[0]);
    if rs != [] {
      var m := |rs| - 1;
      TracedPrefix(g, calls, rs, tr, m);
      SessionSpares(g, calls, rs[..m], Trace(tr.states[..m + 1], tr.evs[..m]), h, n);
      CallSpares(g, tr.states[m], calls[m], rs[m], tr.evs[m], tr.states[m + 1], h, n);
    }
  }

  /** The clusters a call takes from the free ones, decided by the state it finds. */
  ghost function Cost(g: Geometry, s: State, call: Call): int
    requires Usable(g, s)
  {
    UsableRoot(g, s);
    if Refused(g, s, call) || call.Chdir? || |s.v.fat| < 3 then 0 else
    var (p, last) := Entry(g, s, call).value;
    var e := Look(s.v, s.f, p, Name83(last));
    if !Fits(g, s, call) then Spare(s.v.fat) - TwoOf(s.f, e)
    else match call
      case Mkdir(_) => 1 + if Full(Slots(s.v, s.f, p)) then 1 else 0
      case Write(_, data) => ClustersFor(g, |data|) + ExtraFor(s.v, s.f, p, Name83(last)) - Holding(s.f, e)
      case Unlink(_) => -Holding(s.f, e)
      case Chdir(_) => 0
  }

  ghost function TotalCost(g: Geometry, calls: seq<Call>, states: seq<State>): int
    requires |states| <= |calls| && forall i :: 0 <= i < |states| ==> Usable(g, states[i])
  {
    if states == [] then 0 else
    var m := |states| - 1;
    TotalCost(g, calls, states[..m]) + Cost(g, states[m], calls[m])
  }

  lemma CallConserves(g: Geometry, s: State, call: Call, r: int, evs: seq<Event>, s': State)
    requires Does(g, s, call, r, evs, s')
    ensures Zeros(s'.v.fat) == Zeros(s.v.fat) - Cost(g, s, call)
  {
    hide Sound, SlotsOf, Look, Resolve, Name83, Result, FileBytes, Zeros, OthersSame, Full, Enough, EnoughDir;
    UsableRoot(g, s);
    if evs != [] { EventConserves(g, Snap(s.v, s.f), evs[0], Snap(s'.v, s'.f)); }
  }

  /** Over every session, failing calls included, the free clusters are accounted for by the calls themselves. */
  lemma {:induction false} SessionConserves(g: Geometry, calls: seq<Call>, rs: seq<int>, tr: Trace)
    requires Traced(g, calls, rs, tr)
    ensures forall i :: 0 <= i < |rs| ==> Usable(g, tr.states[i])
    ensures Zeros(tr.states[|rs|].v.fat) == Zeros(tr.states[0].v.fat) - TotalCost(g, calls, tr.states[..|rs|])
    decreases |rs|
  {
    hide Usable, Cost, Zeros;
    forall i | 0 <= i < |rs| ensures Usable(g, tr.states[i]) {
      assert Does(g, tr.states[i], calls[i], rs[i], tr.evs[i], tr.states[i + 1]);
    }
    hide Does;
    if rs != [] {
      var m := |rs| - 1;
      TracedPrefix(g, calls, rs, tr, m);
      SessionConserves(g, calls, rs[..m], Trace(tr.states[..m + 1], tr.evs[..m]));
      CallConserves(g, tr.states[m], calls[m], rs[m], tr.evs[m], tr.states[m + 1]);
      assert tr.states[..m + 1][..m] == tr.states[..|rs|][..m];
    }
  }
}
