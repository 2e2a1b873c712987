/**
  Paths of kernel/fs/fat.c:182-247: how a path splits into components, and what it resolves to
  in a sound volume.
*/
module FatPath {
  import opened Bytes
  import opened FatVolume
  import opened FatDir
  import opened FatForest

  function SkipSlashes(p: seq<Byte>): (r: seq<Byte>)
    ensures |r| <= |p| && (r != [] ==> !IsSlash(r[0]))
    ensures forall b :: b in r ==> b in p
  {
    if p != [] && IsSlash(p[0]) then SkipSlashes(p[1..]) else p
  }

  /** The components of a path, as resolve_parent's loop cuts them: at slashes, and after 15 bytes
      even without one. */
  function Tokens(p: seq<Byte>): (r: seq<seq<Byte>>)
    ensures forall i :: 0 <= i < |r| ==> r[i] != []
    ensures r == [] <==> SkipSlashes(p) == []
    decreases |p|
  {
    var q := SkipSlashes(p);
    if q == [] then [] else
    var n := Span(q, 15, false);
    [q[..n]] + Tokens(q[n..])
  }

  lemma {:induction false} TokensNoNul(p: seq<Byte>)
    requires 0 !in p
    ensures forall t :: t in Tokens(p) ==> 0 !in t
    decreases |p|
  {
    var q := SkipSlashes(p);
    if q != [] {
      var n := Span(q, 15, false);
      assert forall b :: b in q[n..] ==> b in q;
      assert forall b :: b in q[..n] ==> b in q;
      TokensNoNul(q[n..]);
    }
  }

  /** What a name finds in directory `h`. */
  ghost function Look(v: Vol, f: Forest, h: int, name: Name): Option<Slot>
    requires ChainsOk(v, f) && h in f
  {
    Lookup(Slots(v, f, h), name)
  }

  /** One intermediate component: "." stays, ".." goes to the root, a name must find a directory. */
  ghost function Step(g: Geometry, v: Vol, f: Forest, cl: int, part: seq<Byte>): Option<int>
    requires ChainsOk(v, f) && cl in f
  {
    if part == [DOT] then Some(cl)
    else if part == [DOT, DOT] then Some(g.root)
    else match Look(v, f, cl, Name83(part))
      case None => None
      case Some(e) => if IsDir(e) then Some(First(e)) else None
  }

  ghost function ResolveFrom(g: Geometry, v: Vol, f: Forest, cl: int, parts: seq<seq<Byte>>): Option<(int, seq<Byte>)>
    requires ChainsOk(v, f) && cl in f
    decreases |parts|
  {
    if parts == [] then Some((cl, []))
    else if |parts| == 1 then Some((cl, parts[0]))
    else match Step(g, v, f, cl, parts[0])
      case None => None
      case Some(c) => if c in f then ResolveFrom(g, v, f, c, parts[1..]) else None
  }

  /** resolve_parent: the directory that holds the last component, and that component. */
  ghost function Resolve(g: Geometry, v: Vol, f: Forest, cwd: int, path: seq<Byte>): Option<(int, seq<Byte>)>
    requires ChainsOk(v, f) && cwd in f && g.root in f
  {
    ResolveFrom(g, v, f, if path != [] && IsSlash(path[0]) then g.root else cwd, Tokens(path))
  }

  /** The slot a name finds in a sound directory is the one its chain knows as its owner. */
  lemma LookSound(g: Geometry, v: Vol, f: Forest, h: int, name: Name, k: int)
    requires Sound(g, v, f, 0, 0) && h in f && f[h].isDir && Askable(name)
    requires k == Find(Slots(v, f, h), name, 0) >= 0
    ensures var e := Slots(v, f, h)[k];
            && Look(v, f, h, name) == Some(e) && Live(e)
            && (IsDir(e) ==> First(e) >= 2)
            && (First(e) >= 2 ==> First(e) in f && f[First(e)].isDir == IsDir(e) && f[First(e)].dir == h
                                  && f[First(e)].slot == k && First(e) != g.root && f[First(e)].depth > f[h].depth)
  {
    var ss := Slots(v, f, h);
    assert DirOk(f, h, ss, 0, 0);
    assert h == f[h].chain[0] >= 2;
    assert ss[k][0] == ss[k][..11][0];
    assert RefOk(f, h, k, ss[k]);
  }

  lemma StepSound(g: Geometry, v: Vol, f: Forest, cl: int, part: seq<Byte>)
    requires Sound(g, v, f, 0, 0) && cl in f && f[cl].isDir && 0 !in part
    ensures var r := Step(g, v, f, cl, part);
            r.Some? ==> r.value in f && f[r.value].isDir
  {
    Name83Start(part);
    var k := Find(Slots(v, f, cl), Name83(part), 0);
    if 0 <= k { LookSound(g, v, f, cl, Name83(part), k); }
  }

  /** A path that resolves at all resolves to a directory of the forest. */
  lemma {:induction false} ResolveSound(g: Geometry, v: Vol, f: Forest, cl: int, parts: seq<seq<Byte>>)
    requires Sound(g, v, f, 0, 0) && cl in f && f[cl].isDir && forall t :: t in parts ==> 0 !in t
    ensures var r := ResolveFrom(g, v, f, cl, parts);
            r.Some? ==> r.value.0 in f && f[r.value.0].isDir && 0 !in r.value.1
    decreases |parts|
  {
    if |parts| > 1 {
      assert parts[0] in parts;
      StepSound(g, v, f, cl, parts[0]);
      var s := Step(g, v, f, cl, parts[0]);
      if s.Some? { ResolveSound(g, v, f, s.value, parts[1..]); }
    } else if |parts| == 1 {
      assert parts[0] in parts;
    }
  }

  lemma ResolveDir(g: Geometry, v: Vol, f: Forest, cwd: int, path: seq<Byte>)
    requires Sound(g, v, f, 0, 0) && cwd in f && f[cwd].isDir && 0 !in path
    ensures ChainsOk(v, f) && g.root in f
    ensures var r := Resolve(g, v, f, cwd, path);
            r.Some? ==> r.value.0 in f && f[r.value.0].isDir && 0 !in r.value.1
  {
    TokensNoNul(path);
    ResolveSound(g, v, f, if path != [] && IsSlash(path[0]) then g.root else cwd, Tokens(path));
  }
}
