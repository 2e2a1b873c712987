/**
  What the operations mean for whole paths and whole runs.
*/
module FatTheorems {
  import opened Bytes
  import opened FatVolume
  import opened FatDir
  import opened FatChain
  import opened FatForest
  import opened FatPath
  import opened FatEffect
  import opened FatOps

  // ---- paths ---------------------------------------------------------------------------------------

  predicate IsDots(part: seq<Byte>) { part == [DOT] || part == [DOT, DOT] }

  /** The walk along `parts` uses entry `name` of directory `p` as an intermediate component. */
  ghost predicate Passes(g: Geometry, v: Vol, f: Forest, cl: int, parts: seq<seq<Byte>>, p: int, name: Name)
    requires ChainsOk(v, f) && cl in f
    decreases |parts|
  {
    |parts| > 1
    && ((cl == p && !IsDots(parts[0]) && Name83(parts[0]) == name)
        || (var s := Step(g, v, f, cl, parts[0]);
            s.Some? && s.value in f && Passes(g, v, f, s.value, parts[1..], p, name)))
  }

  /** What may be gone: the chain of the entry itself. */
  ghost predicate OnlyItsOwn(v: Vol, f: Forest, p: int, name: Name, gone: set<int>)
    requires ChainsOk(v, f) && p in f
  {
    forall h :: h in gone ==> Look(v, f, p, name).Some? && First(Look(v, f, p, name).value) == h >= 2
  }

  /** A directory is found under one name only. */
  lemma OnlyUnder(g: Geometry, v: Vol, f: Forest, p: int, name: Name, h: int, n: Name)
    requires Sound(g, v, f, 0, 0) && p in f && f[p].isDir && h in f && f[h].isDir && Askable(name) && Askable(n)
    requires Look(v, f, p, name).Some? && Look(v, f, h, n).Some?
    requires First(Look(v, f, p, name).value) == First(Look(v, f, h, n).value) >= 2
    ensures h == p && n == name
  {
    hide SlotsOf, Sound;
    SoundRoot(g, v, f, 0, 0);
    LookSound(g, v, f, p, name, Find(Slots(v, f, p), name, 0));
    LookSound(g, v, f, h, n, Find(Slots(v, f, h), n, 0));
  }

  lemma StepSpared(g: Geometry, v: Vol, f: Forest, v': Vol, f': Forest, p: int, name: Name, gone: set<int>, cl: int,
                   part: seq<Byte>)
    requires Sound(g, v, f, 0, 0) && Sound(g, v', f', 0, 0) && OthersSame(v, f, v', f', p, name, gone)
    requires (gone != {} ==> Askable(name))
    requires p in f && f[p].isDir && OnlyItsOwn(v, f, p, name, gone) && cl in f && f[cl].isDir && cl !in gone
    requires 0 !in part
    requires !(cl == p && !IsDots(part) && Name83(part) == name) && Step(g, v, f, cl, part).Some?
    ensures cl in f' && f'[cl].isDir && Step(g, v', f', cl, part) == Step(g, v, f, cl, part)
    ensures Step(g, v, f, cl, part).value !in gone
  {
    hide Name83, SlotsOf, Sound, Look;
    SoundRoot(g, v, f, 0, 0);
    SoundRoot(g, v', f', 0, 0);
    StillThere(v, f, v', f', p, name, gone, cl);
    Name83Start(part);
    RootStays(g, v, f, p, name, gone);
    if !IsDots(part) && Step(g, v, f, cl, part).value in gone { OnlyUnder(g, v, f, p, name, cl, Name83(part)); }
  }

  lemma RootStays(g: Geometry, v: Vol, f: Forest, p: int, name: Name, gone: set<int>)
    requires Sound(g, v, f, 0, 0) && p in f && f[p].isDir && (gone != {} ==> Askable(name))
    requires OnlyItsOwn(v, f, p, name, gone)
    ensures g.root !in gone
  {
    hide SlotsOf, Sound;
    SoundRoot(g, v, f, 0, 0);
    var k := Find(Slots(v, f, p), name, 0);
    if 0 <= k && gone != {} { LookSound(g, v, f, p, name, k); }
  }

  /** A path that resolved still resolves to the same place, unless it leads through the changed entry. */
  lemma {:induction false} ResolveSpared(g: Geometry, v: Vol, f: Forest, v': Vol, f': Forest, p: int, name: Name,
                                         gone: set<int>,
                                         cl: int, parts: seq<seq<Byte>>)
    requires Sound(g, v, f, 0, 0) && Sound(g, v', f', 0, 0) && OthersSame(v, f, v', f', p, name, gone)
    requires (gone != {} ==> Askable(name))
    requires p in f && f[p].isDir && OnlyItsOwn(v, f, p, name, gone) && cl in f && f[cl].isDir && cl !in gone
    requires (forall t :: t in parts ==> 0 !in t) && !Passes(g, v, f, cl, parts, p, name)
    requires ResolveFrom(g, v, f, cl, parts).Some?
    ensures cl in f' && ResolveFrom(g, v', f', cl, parts) == ResolveFrom(g, v, f, cl, parts)
    ensures ResolveFrom(g, v, f, cl, parts).value.0 !in gone
    decreases |parts|
  {
    hide Name83, SlotsOf, Sound, Look, OthersSame, Step, OnlyItsOwn;
    SoundRoot(g, v, f, 0, 0);
    SoundRoot(g, v', f', 0, 0);
    StillThere(v, f, v', f', p, name, gone, cl);
    if |parts| > 1 {
      assert parts[0] in parts;
      StepSound(g, v, f, cl, parts[0]);
      StepSpared(g, v, f, v', f', p, name, gone, cl, parts[0]);
      var next := Step(g, v, f, cl, parts[0]).value;
      StillThere(v, f, v', f', p, name, gone, next);
      ResolveSpared(g, v, f, v', f', p, name, gone, next, parts[1..]);
    }
  }

  function Start(g: Geometry, cwd: int, path: seq<Byte>): int { if path != [] && IsSlash(path[0]) then g.root else cwd }

  /** After any call, removals of directories included, a path that resolved still resolves to the same directory
      and last component, unless it leads through the entry that the call is about. */
  lemma PathSpared(g: Geometry, v: Vol, f: Forest, v': Vol, f': Forest, p: int, name: Name, gone: set<int>, cwd: int,
                   path: seq<Byte>)
    requires Sound(g, v, f, 0, 0) && Sound(g, v', f', 0, 0) && OthersSame(v, f, v', f', p, name, gone)
    requires (gone != {} ==> Askable(name))
    requires p in f && f[p].isDir && OnlyItsOwn(v, f, p, name, gone) && cwd in f && f[cwd].isDir && cwd !in gone
    requires 0 !in path
    requires g.root in f && !Passes(g, v, f, Start(g, cwd, path), Tokens(path), p, name)
    requires Resolve(g, v, f, cwd, path).Some?
    ensures cwd in f' && f'[cwd].isDir && g.root in f' && Resolve(g, v', f', cwd, path) == Resolve(g, v, f, cwd, path)
    ensures var r := Resolve(g, v, f, cwd, path).value;
            r.0 in f && f[r.0].isDir && r.0 in f' && f'[r.0].isDir && 0 !in r.1
  {
    hide Name83, SlotsOf, Sound, Look, OthersSame, ResolveFrom, Tokens, OnlyItsOwn, Passes;
    SoundRoot(g, v, f, 0, 0);
    SoundRoot(g, v', f', 0, 0);
    RootStays(g, v, f, p, name, gone);
    TokensNoNul(path);
    ResolveSound(g, v, f, Start(g, cwd, path), Tokens(path));
    ResolveSpared(g, v, f, v', f', p, name, gone, Start(g, cwd, path), Tokens(path));
    StillThere(v, f, v', f', p, name, gone, cwd);
    StillThere(v, f, v', f', p, name, gone, Resolve(g, v, f, cwd, path).value.0);
  }

  /** `name` in `p` was not a directory, so no path that resolved led through it. */
  ghost predicate NoWayThrough(v: Vol, f: Forest, p: int, name: Name)
    requires ChainsOk(v, f)
  {
    p in f && f[p].isDir && (Look(v, f, p, name).Some? ==> !IsDir(Look(v, f, p, name).value))
  }

  lemma {:induction false} NotThrough(g: Geometry, v: Vol, f: Forest, p: int, name: Name, cl: int,
                                      parts: seq<seq<Byte>>)
    requires ChainsOk(v, f) && NoWayThrough(v, f, p, name) && cl in f && ResolveFrom(g, v, f, cl, parts).Some?
    ensures !Passes(g, v, f, cl, parts, p, name)
    decreases |parts|
  {
    hide Name83, SlotsOf, Look;
    if |parts| > 1 { NotThrough(g, v, f, p, name, Step(g, v, f, cl, parts[0]).value, parts[1..]); }
  }

  lemma PathKept(g: Geometry, v: Vol, f: Forest, v': Vol, f': Forest, p: int, name: Name, cwd: int, path: seq<Byte>)
    requires Sound(g, v, f, 0, 0) && Sound(g, v', f', 0, 0) && OthersSame(v, f, v', f', p, name, {})
    requires NoWayThrough(v, f, p, name) && cwd in f && f[cwd].isDir && 0 !in path
    requires Resolve(g, v, f, cwd, path).Some?
    ensures cwd in f' && f'[cwd].isDir && Resolve(g, v', f', cwd, path) == Resolve(g, v, f, cwd, path)
    ensures var r := Resolve(g, v, f, cwd, path).value;
            r.0 in f && f[r.0].isDir && r.0 in f' && f'[r.0].isDir && 0 !in r.1
  {
    hide Name83, SlotsOf, Sound, Look, OthersSame, ResolveFrom, Tokens, Passes;
    SoundRoot(g, v, f, 0, 0);
    NotThrough(g, v, f, p, name, Start(g, cwd, path), Tokens(path));
    PathSpared(g, v, f, v', f', p, name, {}, cwd, path);
  }

  /** Write, then look the same path up: it names the new file, whose bytes are the data written.
      The one exception is a name whose first byte is the deleted mark 0xE5. */
  lemma RoundTrip(g: Geometry, v: Vol, f: Forest, v': Vol, f': Forest, cwd: int, path: seq<Byte>, data: seq<Byte>,
                  extra: int)
    requires Sound(g, v, f, 0, 0) && cwd in f && f[cwd].isDir && 0 !in path
    requires Resolve(g, v, f, cwd, path).Some?
    requires var (p, last) := Resolve(g, v, f, cwd, path).value;
             && last != [] && NoWayThrough(v, f, p, Name83(last))
             && Written(g, v, f, v', f', p, Name83(last), data, extra)
    ensures cwd in f' && ChainsOk(v', f') && g.root in f'
    ensures var last := Resolve(g, v, f, cwd, path).value.1;
            var t := Target(g, v', f', cwd, path);
            && (t.Some? <==> last[0] != DELETED)
            && (t.Some? ==> !IsDir(t.value) && Size(t.value) == |data| && FileBytes(v', f', t.value) == data)
  {
    hide Name83, SlotsOf, Sound, Look, Resolve, OthersSame;
    SoundRoot(g, v, f, 0, 0);
    SoundRoot(g, v', f', 0, 0);
    var (p, last) := Resolve(g, v, f, cwd, path).value;
    PathKept(g, v, f, v', f', p, Name83(last), cwd, path);
    Name83Start(last);
  }

  /** A path that names a file under another entry still names it, with the same bytes. */
  lemma OtherPathKept(g: Geometry, v: Vol, f: Forest, v': Vol, f': Forest, p: int, name: Name, cwd: int,
                      path: seq<Byte>)
    requires Sound(g, v, f, 0, 0) && Sound(g, v', f', 0, 0) && OthersSame(v, f, v', f', p, name, {})
    requires NoWayThrough(v, f, p, name) && cwd in f && f[cwd].isDir && 0 !in path
    requires Target(g, v, f, cwd, path).Some? && !IsDir(Target(g, v, f, cwd, path).value)
    requires var (q, last) := Resolve(g, v, f, cwd, path).value; (q, Name83(last)) != (p, name)
    ensures cwd in f' && Target(g, v', f', cwd, path) == Target(g, v, f, cwd, path)
    ensures FileBytes(v', f', Target(g, v, f, cwd, path).value) == FileBytes(v, f, Target(g, v, f, cwd, path).value)
  {
    hide Name83, SlotsOf, Sound, Look, Resolve;
    SoundRoot(g, v, f, 0, 0);
    SoundRoot(g, v', f', 0, 0);
    var (q, last) := Resolve(g, v, f, cwd, path).value;
    PathKept(g, v, f, v', f', p, name, cwd, path);
    Name83Start(last);
  }

  const DOTS: seq<Byte> := [DOT, DOT]

  /** The path ".." is one component, and its 8.3 form is that of no ".." slot: eight spaces, then a dot. */
  lemma DotsName()
    ensures Tokens(DOTS) == [DOTS] && Name83(DOTS) == [32, 32, 32, 32, 32, 32, 32, 32, DOT, 32, 32]
  {
    var dots: seq<Byte> := [DOT, DOT];
    assert dots[1..] == [DOT] && [DOT][1..] == [];
    assert SkipSlashes(dots) == dots && Span(dots, 15, false) == 2;
    assert dots[..2] == dots && dots[2..] == [];
    assert Span(dots, 8, true) == 0 && Tail83(dots) == [DOT] && Span([DOT], 3, false) == 1;
  }

  /** chdir("..") goes through exactly when the current directory has a subdirectory of that odd name; the
      ".." slot that mkdir writes is never looked at. */
  lemma WayUp(g: Geometry, v: Vol, f: Forest, cwd: int)
    requires Sound(g, v, f, 0, 0) && cwd in f && f[cwd].isDir
    ensures ChainsOk(v, f) && g.root in f
    ensures var e := Look(v, f, cwd, Name83(DOTS));
            DirTarget(g, v, f, cwd, DOTS).Some? <==> e.Some? && IsDir(e.value)
  {
    hide Name83, SlotsOf, Tokens;
    SoundRoot(g, v, f, 0, 0);
    DotsName();
  }

  /** In a directory that mkdir has just made there is no such entry, so changing to ".." fails there. */
  lemma NoWayUp(g: Geometry, v: Vol, f: Forest, v': Vol, f': Forest, p: int, name: Name, c: int, extra: int)
    requires MadeDir(g, v, f, v', f', p, name, c, extra)
    ensures DirTarget(g, v', f', c, DOTS).None?
  {
    Name83Start(DOTS);
    hide Name83, SlotsOf, Tokens;
    WayUp(g, v', f', c);
  }

  /** mkdir("..") makes the entry, and chdir("..") works from then on. */
  lemma MkdirOpensWayUp(g: Geometry, v: Vol, f: Forest, v': Vol, f': Forest, cwd: int, c: int, extra: int)
    requires MadeDir(g, v, f, v', f', cwd, Name83(DOTS), c, extra) && f[cwd].isDir
    ensures DirTarget(g, v', f', cwd, DOTS).Some?
  {
    Name83Start(DOTS);
    DotsName();
    hide Name83, SlotsOf, Tokens;
    WayUp(g, v', f', cwd);
  }

  // ---- runs ----------------------------------------------------------------------------------------

  datatype Snap = Snap(v: Vol, f: Forest)

  /** What one call did to the volume: `Aborted` is a call that failed after it had begun to write. */
  datatype Event =
    | Wrote(p: int, name: Name, data: seq<Byte>, extra: int)
    | NewDir(p: int, name: Name, c: int, extra: int)
    | Removed(p: int, name: Name, e: Slot)
    | Aborted(p: int, name: Name)

  ghost predicate Happens(g: Geometry, s: Snap, ev: Event, s': Snap) {
    && ev.p in s.f && s.f[ev.p].isDir
    && match ev
    case Wrote(p, name, data, extra) => Written(g, s.v, s.f, s'.v, s'.f, p, name, data, extra)
    case NewDir(p, name, c, extra) => MadeDir(g, s.v, s.f, s'.v, s'.f, p, name, c, extra)
    case Removed(p, name, e) => Unlinked(g, s.v, s.f, s'.v, s'.f, p, name, e) && Askable(name)
    case Aborted(p, name) =>
      && Sound(g, s.v, s.f, 0, 0) && Sound(g, s'.v, s'.f, 0, 0)
      && OthersSame(s.v, s.f, s'.v, s'.f, p, name, {}) && Drained(s.v, s.f, p, name, s'.v)
  }

  ghost predicate IsRun(g: Geometry, snaps: seq<Snap>, evs: seq<Event>) {
    && |snaps| == |evs| + 1
    && (forall i :: 0 <= i < |snaps| ==> Sound(g, snaps[i].v, snaps[i].f, 0, 0))
    && forall i :: 0 <= i < |evs| ==> Happens(g, snaps[i], evs[i], snaps[i + 1])
  }

  /** No event of the run is about entry `n` of directory `h`, or removes `h`. */
  ghost predicate Spared(evs: seq<Event>, h: int, n: Name) {
    forall i :: 0 <= i < |evs| ==> (evs[i].p != h || evs[i].name != n) && (evs[i].Removed? ==> h !in Gone(evs[i].e))
  }

  lemma EventSpares(g: Geometry, s: Snap, ev: Event, s': Snap, h: int, n: Name)
    requires Sound(g, s.v, s.f, 0, 0) && Sound(g, s'.v, s'.f, 0, 0) && Happens(g, s, ev, s')
    requires h in s.f && s.f[h].isDir && Askable(n)
    requires (ev.p != h || ev.name != n) && (ev.Removed? ==> h !in Gone(ev.e))
    ensures h in s'.f && s'.f[h].isDir && Look(s'.v, s'.f, h, n) == Look(s.v, s.f, h, n)
    ensures var e := Look(s.v, s.f, h, n);
            e.Some? && !IsDir(e.value) ==> FileBytes(s'.v, s'.f, e.value) == FileBytes(s.v, s.f, e.value)
  {
    hide SlotsOf, Sound;
    SoundRoot(g, s.v, s.f, 0, 0);
    SoundRoot(g, s'.v, s'.f, 0, 0);
    var found := Look(s.v, s.f, h, n);
  }

  /** Over every run, an entry that no call names is found as before, with the same bytes. */
  lemma {:induction false} RunSpares(g: Geometry, snaps: seq<Snap>, evs: seq<Event>, h: int, n: Name)
    requires IsRun(g, snaps, evs) && Spared(evs, h, n) && Askable(n)
    requires h in snaps[0].f && snaps[0].f[h].isDir
    ensures var a, b := snaps[0], snaps[|evs|];
            && h in b.f && b.f[h].isDir && ChainsOk(a.v, a.f) && ChainsOk(b.v, b.f)
            && Look(b.v, b.f, h, n) == Look(a.v, a.f, h, n)
            && var e := Look(a.v, a.f, h, n);
               e.Some? && !IsDir(e.value) ==> FileBytes(b.v, b.f, e.value) == FileBytes(a.v, a.f, e.value)
    decreases |evs|
  {
    hide SlotsOf, Sound, Happens, Look, FileBytes;
    SoundRoot(g, snaps[0].v, snaps[0].f, 0, 0);
    if evs != [] {
      var m := |evs| - 1;
      assert IsRun(g, snaps[..m + 1], evs[..m]);
      RunSpares(g, snaps[..m + 1], evs[..m], h, n);
      SoundRoot(g, snaps[m + 1].v, snaps[m + 1].f, 0, 0);
      EventSpares(g, snaps[m], evs[m], snaps[m + 1], h, n);
    }
  }

  /** What an event removes. */
  ghost function GoneWith(ev: Event): set<int> { if ev.Removed? then Gone(ev.e) else {} }

  /** Over every run, a path that resolved from directory `dir` still resolves to the same place, if no event was
      about an entry that it led through, or removed `dir`. */
  lemma {:induction false} RunPathSpared(g: Geometry, snaps: seq<Snap>, evs: seq<Event>, dir: int, path: seq<Byte>)
    requires IsRun(g, snaps, evs) && dir in snaps[0].f && snaps[0].f[dir].isDir && 0 !in path
    requires ChainsOk(snaps[0].v, snaps[0].f)
    requires g.root in snaps[0].f && Resolve(g, snaps[0].v, snaps[0].f, dir, path).Some?
    requires forall i :: 0 <= i < |evs| ==> dir !in GoneWith(evs[i])
    requires forall i :: 0 <= i < |evs| ==> AvoidedBy(g, snaps[i], evs[i], dir, path)
    ensures var a, b := snaps[0], snaps[|evs|];
            && ChainsOk(b.v, b.f) && dir in b.f && b.f[dir].isDir && g.root in b.f
            && Resolve(g, b.v, b.f, dir, path) == Resolve(g, a.v, a.f, dir, path)
    decreases |evs|
  {
    hide SlotsOf, Sound, Happens, Look, Resolve, AvoidedBy, GoneWith;
    SoundRoot(g, snaps[0].v, snaps[0].f, 0, 0);
    if evs != [] {
      var m := |evs| - 1;
      assert IsRun(g, snaps[..m + 1], evs[..m]);
      RunPathSpared(g, snaps[..m + 1], evs[..m], dir, path);
      EventPathSpared(g, snaps[m], evs[m], snaps[m + 1], dir, path);
    }
  }

  /** The path, as it resolves in this snapshot, does not lead through the entry of the event. */
  ghost predicate AvoidedBy(g: Geometry, s: Snap, ev: Event, dir: int, path: seq<Byte>) {
    ChainsOk(s.v, s.f) && Start(g, dir, path) in s.f ==>
      !Passes(g, s.v, s.f, Start(g, dir, path), Tokens(path), ev.p, ev.name)
  }

  lemma EventPathSpared(g: Geometry, s: Snap, ev: Event, s': Snap, dir: int, path: seq<Byte>)
    requires Sound(g, s.v, s.f, 0, 0) && Sound(g, s'.v, s'.f, 0, 0) && Happens(g, s, ev, s') && 0 !in path
    requires dir in s.f && s.f[dir].isDir && dir !in GoneWith(ev) && AvoidedBy(g, s, ev, dir, path)
    requires ChainsOk(s.v, s.f) && g.root in s.f && Resolve(g, s.v, s.f, dir, path).Some?
    ensures ChainsOk(s'.v, s'.f) && dir in s'.f && s'.f[dir].isDir && g.root in s'.f
    ensures Resolve(g, s'.v, s'.f, dir, path) == Resolve(g, s.v, s.f, dir, path)
  {
    hide SlotsOf, Sound, Look, Resolve, Passes, OthersSame;
    SoundRoot(g, s.v, s.f, 0, 0);
    SoundRoot(g, s'.v, s'.f, 0, 0);
    PathSpared(g, s.v, s.f, s'.v, s'.f, ev.p, ev.name, GoneWith(ev), dir, path);
  }

  /** Clusters that a call takes from the free ones (or, if negative, gives back). */
  ghost function ClustersTaken(g: Geometry, s: Snap, ev: Event): int
    requires ChainsOk(s.v, s.f) && ev.p in s.f && 0 < g.spc && |s.v.fat| >= 3
  {
    match ev
    case Wrote(p, name, data, extra) => ClustersFor(g, |data|) + extra - Holding(s.f, Look(s.v, s.f, p, name))
    case NewDir(p, name, c, extra) => 1 + extra
    case Removed(p, name, e) => -Holding(s.f, Some(e))
    case Aborted(p, name) => Spare(s.v.fat) - TwoOf(s.f, Look(s.v, s.f, p, name))
  }

  ghost function TotalTaken(g: Geometry, snaps: seq<Snap>, evs: seq<Event>): int
    requires |snaps| == |evs| + 1 && 0 < g.spc
    requires forall i :: 0 <= i < |evs| ==>
               ChainsOk(snaps[i].v, snaps[i].f) && evs[i].p in snaps[i].f && |snaps[i].v.fat| >= 3
  {
    if evs == [] then 0 else
    var m := |evs| - 1;
    TotalTaken(g, snaps[..m + 1], evs[..m]) + ClustersTaken(g, snaps[m], evs[m])
  }

  lemma SoundSpc(g: Geometry, s: Snap)
    requires Sound(g, s.v, s.f, 0, 0)
    ensures 0 < g.spc
  {
  }

  lemma EventConserves(g: Geometry, s: Snap, ev: Event, s': Snap)
    requires Happens(g, s, ev, s')
    ensures 0 < g.spc && ChainsOk(s.v, s.f) && ev.p in s.f && |s.v.fat| >= 3
    ensures Zeros(s'.v.fat) == Zeros(s.v.fat) - ClustersTaken(g, s, ev)
  {
    hide SlotsOf, OthersSame;
  }

  /** Over every run, aborted calls included, the free clusters are exactly accounted for. */
  lemma {:induction false} RunConserves(g: Geometry, snaps: seq<Snap>, evs: seq<Event>)
    requires IsRun(g, snaps, evs)
    ensures 0 < g.spc
    ensures forall i :: 0 <= i < |evs| ==>
              ChainsOk(snaps[i].v, snaps[i].f) && evs[i].p in snaps[i].f && |snaps[i].v.fat| >= 3
    ensures Zeros(snaps[|evs|].v.fat) == Zeros(snaps[0].v.fat) - TotalTaken(g, snaps, evs)
    decreases |evs|
  {
    SoundSpc(g, snaps[0]);
    hide Happens, ChainsOk, ClustersTaken, Zeros, Sound;
    if evs != [] {
      var m := |evs| - 1;
      RunConserves(g, snaps[..m + 1], evs[..m]);
      EventConserves(g, snaps[m], evs[m], snaps[m + 1]);
      forall i | 0 <= i < |evs|
        ensures ChainsOk(snaps[i].v, snaps[i].f) && evs[i].p in snaps[i].f && |snaps[i].v.fat| >= 3
      {
        if i < m { assert snaps[i] == snaps[..m + 1][i] && evs[i] == evs[..m][i]; }
      }
    }
  }
}
