/**
  The RAM file system of kernel/vfs/vfs.c as a value: nodes linked by first child and next sibling, the
  tree they form, and the way a path leads through it.
*/
module RamTree {
  import opened Bytes
  import opened Links

  const MAX_NODES: int := 128
  const NAME_MAX: int := 64
  const PATH_MAX: int := 256

  datatype Kind = Gone | Dir | File

  datatype Node = Node(name: string, kind: Kind, parent: int, child: int, sibling: int,
                       data: seq<Byte>, size: int, capacity: int)

  // ---- the tree ---------------------------------------------------------------------------------------

  predicate IsSep(c: char) { c == '/' || c == '\\' }

  predicate Plain(s: string) { forall i :: 0 <= i < |s| ==> !IsSep(s[i]) }

  /** What a node below the root may be called. */
  predicate NameOk(s: string) { 0 < |s| < NAME_MAX && Plain(s) && s != "." && s != ".." }

  /** `c` is the `j`-th child of `i`. */
  ghost predicate ChildOk(ns: seq<Node>, kids: seq<seq<int>>, i: int, j: int)
    requires 0 <= i < |kids| && 0 <= j < |kids[i]|
  {
    var c := kids[i][j];
    && 0 <= i < c < |ns| && ns[c].parent == i && ns[c].kind != Gone && ns[c].sibling == At(kids[i], j + 1)
    && NameOk(ns[c].name)
  }

  ghost predicate NodeOk(ns: seq<Node>, kids: seq<seq<int>>, i: int)
    requires 0 <= i < |ns| == |kids|
  {
    && ns[i].child == At(kids[i], 0) && (kids[i] != [] ==> ns[i].kind == Dir) && Distinct(kids[i])
    && (forall j :: 0 <= j < |kids[i]| ==> ChildOk(ns, kids, i, j))
    && (0 < i ==> 0 <= ns[i].parent < i && (ns[i].kind != Gone ==> i in kids[ns[i].parent]))
    && (ns[i].kind == Gone ==> ns[i].name == "")
  }

  /** The live nodes form a tree whose links are the children lists `kids`, first child first. */
  ghost predicate Tree(ns: seq<Node>, kids: seq<seq<int>>)
    ensures Tree(ns, kids) ==> 1 <= |ns| == |kids| <= MAX_NODES
  {
    && 1 <= |ns| == |kids| <= MAX_NODES && ns[0].kind == Dir && ns[0].parent == NIL && ns[0].name == ""
    && forall i :: 0 <= i < |ns| ==> NodeOk(ns, kids, i)
  }

  /** No two children of a directory have the same name. */
  ghost predicate UniqueIn(ns: seq<Node>, ks: seq<int>) {
    && (forall j :: 0 <= j < |ks| ==> 0 <= ks[j] < |ns|)
    && forall j, k :: 0 <= j < k < |ks| ==> ns[ks[j]].name != ns[ks[k]].name
  }

  ghost predicate Unique(ns: seq<Node>, kids: seq<seq<int>>) { forall i :: 0 <= i < |kids| ==> UniqueIn(ns, kids[i]) }

  predicate Live(ns: seq<Node>, i: int) { 0 <= i < |ns| && ns[i].kind != Gone }

  // ---- paths ------------------------------------------------------------------------------------------

  /** The length of the first part: up to 63 characters that are no separators. */
  function Cut(path: string, i: nat): (k: nat)
    requires i <= |path| && i < NAME_MAX
    ensures i <= k <= |path| && k < NAME_MAX
    ensures forall x :: i <= x < k ==> !IsSep(path[x])
    ensures k == |path| || IsSep(path[k]) || k == NAME_MAX - 1
    decreases |path| - i
  {
    if i == |path| || IsSep(path[i]) || i + 1 == NAME_MAX then i else Cut(path, i + 1)
  }

  function Skip(path: string): (r: string)
    ensures |r| <= |path| && (path != [] && IsSep(path[0]) ==> |r| < |path|)
    ensures r == [] || !IsSep(r[0])
  {
    if path != [] && IsSep(path[0]) then Skip(path[1..]) else path
  }

  /** The parts that lookup_rel walks along.  A longer name than 63 characters is walked as several parts. */
  function Parts(path: string): seq<string>
    decreases |path|
  {
    if path == [] then [] else
    var k := Cut(path, 0);
    [path[..k]] + Parts(Skip(path[k..]))
  }

  predicate HasDriveC(path: string) { |path| >= 2 && (path[0] == 'C' || path[0] == 'c') && path[1] == ':' }

  /** vfs.c:68-73. */
  function StripC(path: string): string { Skip(if HasDriveC(path) then path[2..] else path) }

  /** The first child in the list with that name. */
  function FindName(ns: seq<Node>, ks: seq<int>, name: string): (c: int)
    requires forall j :: 0 <= j < |ks| ==> 0 <= ks[j] < |ns|
    ensures c != NIL ==> c in ks && 0 <= c < |ns| && ns[c].name == name
    ensures c == NIL ==> forall j :: 0 <= j < |ks| ==> ns[ks[j]].name != name
  {
    if ks == [] then NIL
    else if ns[ks[0]].name == name then ks[0]
    else
      var c := FindName(ns, ks[1..], name);
      assert forall j :: 1 <= j < |ks| ==> ks[j] == ks[1..][j - 1];
      c
  }

  ghost predicate InRange(ns: seq<Node>, kids: seq<seq<int>>) {
    && 1 <= |ns| == |kids| && (forall i, j :: 0 <= i < |kids| && 0 <= j < |kids[i]| ==> 0 <= kids[i][j] < |ns|)
    && forall i :: 0 <= i < |ns| ==> NIL <= ns[i].parent < |ns|
  }

  lemma TreeInRange(ns: seq<Node>, kids: seq<seq<int>>)
    requires Tree(ns, kids)
    ensures InRange(ns, kids)
  {
    forall i, j | 0 <= i < |kids| && 0 <= j < |kids[i]| ensures 0 <= kids[i][j] < |ns| {
      assert NodeOk(ns, kids, i) && ChildOk(ns, kids, i, j);
    }
    forall i | 0 <= i < |ns| ensures NIL <= ns[i].parent < |ns| { assert NodeOk(ns, kids, i); }
  }

  /** vfs.c:86-95: one part. */
  ghost function Enter(ns: seq<Node>, kids: seq<seq<int>>, cur: int, part: string): (c: int)
    requires InRange(ns, kids) && 0 <= cur < |ns|
    ensures c == NIL || 0 <= c < |ns|
  {
    if part == "" || part == "." then cur
    else if part == ".." then (if ns[cur].parent != NIL then ns[cur].parent else cur)
    else if ns[cur].kind != Dir then NIL
    else FindName(ns, kids[cur], part)
  }

  ghost function WalkParts(ns: seq<Node>, kids: seq<seq<int>>, cur: int, parts: seq<string>): (c: int)
    requires InRange(ns, kids) && 0 <= cur < |ns|
    ensures c == NIL || 0 <= c < |ns|
    decreases |parts|
  {
    if parts == [] then cur else
    var next := Enter(ns, kids, cur, parts[0]);
    if next == NIL then NIL else WalkParts(ns, kids, next, parts[1..])
  }

  /** lookup_rel. */
  ghost function LookupRel(ns: seq<Node>, kids: seq<seq<int>>, base: int, path: string): (c: int)
    requires InRange(ns, kids) && 0 <= base < |ns|
    ensures c == NIL || 0 <= c < |ns|
  {
    if path == [] then base else WalkParts(ns, kids, base, Parts(StripC(path)))
  }

  // ---- from a node to its path and back -------------------------------------------------------------------

  /** The names on the way from the root to a live node. */
  ghost function PathTo(ns: seq<Node>, kids: seq<seq<int>>, i: int): (p: seq<string>)
    requires Tree(ns, kids) && Live(ns, i)
    ensures forall k :: 0 <= k < |p| ==> NameOk(p[k])
    decreases i
  {
    if i == 0 then [] else
    LiveParent(ns, kids, i);
    PathTo(ns, kids, ns[i].parent) + [ns[i].name]
  }

  lemma LiveParent(ns: seq<Node>, kids: seq<seq<int>>, i: int)
    requires Tree(ns, kids) && Live(ns, i) && 0 < i
    ensures 0 <= ns[i].parent < i && ns[ns[i].parent].kind == Dir && i in kids[ns[i].parent] && NameOk(ns[i].name)
  {
    var p := ns[i].parent;
    assert NodeOk(ns, kids, i) && NodeOk(ns, kids, p);
    var j :| 0 <= j < |kids[p]| && kids[p][j] == i;
    assert ChildOk(ns, kids, p, j);
  }

  lemma {:induction false} FindUnique(ns: seq<Node>, ks: seq<int>, c: int)
    requires UniqueIn(ns, ks) && c in ks
    ensures FindName(ns, ks, ns[c].name) == c
  {
    var j :| 0 <= j < |ks| && ks[j] == c;
    if 0 < j {
      assert ks[1..][j - 1] == c;
      assert UniqueIn(ns, ks[1..]) by {
        var r := ks[1..];
        forall a, b | 0 <= a < b < |r| ensures ns[r[a]].name != ns[r[b]].name {
          assert r[a] == ks[a + 1] && r[b] == ks[b + 1];
        }
      }
      FindUnique(ns, ks[1..], c);
    }
  }

  lemma {:induction false} WalkConcat(ns: seq<Node>, kids: seq<seq<int>>, cur: int, a: seq<string>, b: seq<string>)
    requires InRange(ns, kids) && 0 <= cur < |ns|
    ensures var mid := WalkParts(ns, kids, cur, a);
            WalkParts(ns, kids, cur, a + b) == if mid == NIL then NIL else WalkParts(ns, kids, mid, b)
    decreases |a|
  {
    if a == [] {
      assert a + b == b;
    } else {
      assert (a + b)[1..] == a[1..] + b;
      var next := Enter(ns, kids, cur, a[0]);
      if next != NIL { WalkConcat(ns, kids, next, a[1..], b); }
    }
  }

  /** The names on the way to a node lead to it. */
  lemma {:induction false} PathLeads(ns: seq<Node>, kids: seq<seq<int>>, i: int)
    requires Tree(ns, kids) && Unique(ns, kids) && InRange(ns, kids) && Live(ns, i)
    ensures WalkParts(ns, kids, 0, PathTo(ns, kids, i)) == i
    decreases i
  {
    hide Tree, Unique;
    if 0 < i {
      LiveParent(ns, kids, i);
      var p := ns[i].parent;
      PathLeads(ns, kids, p);
      WalkConcat(ns, kids, 0, PathTo(ns, kids, p), [ns[i].name]);
      UniqueKids(ns, kids, p);
      FindUnique(ns, kids[p], i);
      assert [ns[i].name][1..] == [];
    }
  }

  lemma UniqueKids(ns: seq<Node>, kids: seq<seq<int>>, p: int)
    requires Unique(ns, kids) && 0 <= p < |kids|
    ensures UniqueIn(ns, kids[p])
  {
  }

  function Join(names: seq<string>): string {
    if names == [] then "" else if |names| == 1 then names[0] else names[0] + "/" + Join(names[1..])
  }

  lemma CutName(name: string, rest: string, i: nat)
    requires Plain(name) && 0 < |name| < NAME_MAX && i <= |name| && (rest == [] || IsSep(rest[0]))
    ensures Cut(name + rest, i) == |name|
    decreases |name| - i
  {
    if i < |name| {
      if i + 1 < NAME_MAX { CutName(name, rest, i + 1); }
    }
  }

  lemma SkipOne(rest: string)
    requires rest == [] || !IsSep(rest[0])
    ensures Skip("/" + rest) == rest
  {
    assert ("/" + rest)[1..] == rest;
    assert Skip(rest) == rest;
  }

  /** Splitting a joined path gives its names. */
  lemma {:induction false} PartsOfJoin(names: seq<string>)
    requires forall k :: 0 <= k < |names| ==> Plain(names[k]) && 0 < |names[k]| < NAME_MAX
    ensures Parts(Join(names)) == names && (names != [] ==> Join(names) != [] && !IsSep(Join(names)[0]))
  {
    if |names| == 1 {
      CutName(names[0], "", 0);
      assert names[0] + "" == names[0];
      assert names[0][|names[0]|..] == "";
    } else if |names| > 1 {
      var n, rest := names[0], Join(names[1..]);
      PartsOfJoin(names[1..]);
      var s := n + ("/" + rest);
      assert Join(names) == s;
      CutName(n, "/" + rest, 0);
      assert s[..|n|] == n && s[|n|..] == "/" + rest;
      SkipOne(rest);
    }
  }

  /** What getcwd prints for a node of depth at most eight, given room, leads back to the node. */
  lemma PrintedPathLeads(ns: seq<Node>, kids: seq<seq<int>>, i: int)
    requires Tree(ns, kids) && Unique(ns, kids) && InRange(ns, kids) && Live(ns, i)
    ensures LookupRel(ns, kids, 0, "C:/" + Join(PathTo(ns, kids, i))) == i
  {
    var names := PathTo(ns, kids, i);
    var s := "C:/" + Join(names);
    PartsOfJoin(names);
    PathLeads(ns, kids, i);
    assert s[2..] == "/" + Join(names);
    SkipOne(Join(names));
  }

  // ---- growing and cutting --------------------------------------------------------------------------------

  /** alloc_node on the value: the new node becomes the first child of `par`. */
  function Grown(ns: seq<Node>, par: int, node: Node): (r: seq<Node>)
    requires 0 <= par < |ns|
    ensures |r| == |ns| + 1 && r[|ns|] == node && r[par] == ns[par].(child := |ns|)
    ensures forall i :: 0 <= i < |ns| && i != par ==> r[i] == ns[i]
  {
    ns[par := ns[par].(child := |ns|)] + [node]
  }

  function GrownKids(kids: seq<seq<int>>, par: int): (r: seq<seq<int>>)
    requires 0 <= par < |kids|
    ensures |r| == |kids| + 1 && r[|kids|] == [] && r[par] == [|kids|] + kids[par]
    ensures forall i :: 0 <= i < |kids| && i != par ==> r[i] == kids[i]
  {
    kids[par := [|kids|] + kids[par]] + [[]]
  }

  predicate NewNode(ns: seq<Node>, par: int, node: Node) {
    && 0 <= par < |ns| && node.kind != Gone && node.parent == par && node.child == NIL && node.sibling == ns[par].child
    && NameOk(node.name)
  }

  lemma GrowNode(ns: seq<Node>, kids: seq<seq<int>>, par: int, node: Node, i: int)
    requires Tree(ns, kids) && NewNode(ns, par, node) && ns[par].kind == Dir && 0 <= i <= |ns|
    ensures NodeOk(Grown(ns, par, node), GrownKids(kids, par), i)
  {
    var n := |ns|;
    var ns', kids' := Grown(ns, par, node), GrownKids(kids, par);
    assert NodeOk(ns, kids, par);
    if i == n { return; }
    assert NodeOk(ns, kids, i);
    forall j | 0 <= j < |kids'[i]| ensures ChildOk(ns', kids', i, j) && (j > 0 || i != par ==> kids'[i][j] != n) {
      if i == par {
        if j > 0 { assert ChildOk(ns, kids, par, j - 1); }
      } else {
        assert ChildOk(ns, kids, i, j);
      }
    }
    if 0 < i && ns[i].kind != Gone { GrownIn(kids, par, ns[i].parent, i); }
  }

  lemma GrownIn(kids: seq<seq<int>>, par: int, p: int, i: int)
    requires 0 <= par < |kids| && 0 <= p < |kids| && i in kids[p]
    ensures i in GrownKids(kids, par)[p]
  {
  }

  lemma GrowTree(ns: seq<Node>, kids: seq<seq<int>>, par: int, node: Node)
    requires Tree(ns, kids) && NewNode(ns, par, node) && ns[par].kind == Dir && |ns| < MAX_NODES
    ensures Tree(Grown(ns, par, node), GrownKids(kids, par))
  {
    hide NodeOk, Grown, GrownKids;
    var ns', kids' := Grown(ns, par, node), GrownKids(kids, par);
    forall i | 0 <= i < |ns'| ensures NodeOk(ns', kids', i) { GrowNode(ns, kids, par, node, i); }
  }

  lemma KidsInRange(ns: seq<Node>, kids: seq<seq<int>>, i: int)
    requires Tree(ns, kids) && 0 <= i < |ns|
    ensures forall j :: 0 <= j < |kids[i]| ==> i < kids[i][j] < |ns|
  {
    assert NodeOk(ns, kids, i);
    forall j | 0 <= j < |kids[i]| ensures i < kids[i][j] < |ns| { assert ChildOk(ns, kids, i, j); }
  }

  /** Some child in the list has that name. */
  ghost predicate Clashes(ns: seq<Node>, ks: seq<int>, name: string) {
    exists j :: 0 <= j < |ks| && 0 <= ks[j] < |ns| && ns[ks[j]].name == name
  }

  /** Names stay unique exactly when no child of the directory has the new name. */
  lemma GrowUnique(ns: seq<Node>, kids: seq<seq<int>>, par: int, node: Node)
    requires Tree(ns, kids) && Unique(ns, kids) && NewNode(ns, par, node)
    ensures Unique(Grown(ns, par, node), GrownKids(kids, par)) <==> !Clashes(ns, kids[par], node.name)
  {
    var ns', kids' := Grown(ns, par, node), GrownKids(kids, par);
    if Clashes(ns, kids[par], node.name) {
      var j :| 0 <= j < |kids[par]| && 0 <= kids[par][j] < |ns| && ns[kids[par][j]].name == node.name;
      NotUnique(ns', kids'[par], 0, j + 1);
      assert !UniqueIn(ns', kids'[par]);
    } else {
      forall i | 0 <= i < |kids'| ensures UniqueIn(ns', kids'[i]) {
        if i < |kids| { KidsInRange(ns, kids, i); UniqueKids(ns, kids, i); }
        StaysUnique(ns, ns', kids, par, i);
      }
    }
  }

  lemma NotUnique(ns: seq<Node>, ks: seq<int>, j: int, k: int)
    requires 0 <= j < k < |ks| && 0 <= ks[j] < |ns| && 0 <= ks[k] < |ns| && ns[ks[j]].name == ns[ks[k]].name
    ensures !UniqueIn(ns, ks)
  {
  }

  lemma StaysUnique(ns: seq<Node>, ns': seq<Node>, kids: seq<seq<int>>, par: int, i: int)
    requires 0 <= par < |ns| == |kids| && |ns'| == |ns| + 1 && 0 <= i <= |kids|
    requires (i < |kids| ==> UniqueIn(ns, kids[i]))
    requires (forall x :: 0 <= x < |ns| ==> ns'[x].name == ns[x].name) && !Clashes(ns, kids[par], ns'[|ns|].name)
    ensures UniqueIn(ns', GrownKids(kids, par)[i])
  {
    var ks := GrownKids(kids, par)[i];
    hide GrownKids;
    if i == par {
      var was := kids[par];
      assert ks == [|ns|] + was;
      forall j, k | 0 <= j < k < |ks| ensures ns'[ks[j]].name != ns'[ks[k]].name {
        assert ks[k] == was[k - 1];
        if j > 0 { assert ks[j] == was[j - 1]; }
      }
    }
  }

  // ---- cutting off a leaf --------------------------------------------------------------------------------

  function Without(ks: seq<int>, j: int): (r: seq<int>)
    requires 0 <= j < |ks|
    ensures |r| == |ks| - 1 && (forall x :: 0 <= x < j ==> r[x] == ks[x])
    ensures (forall x :: j <= x < |r| ==> r[x] == ks[x + 1])
  {
    ks[..j] + ks[j + 1..]
  }

  /** vfs.c:301-307 on the value: the link that led to the `j`-th child of `par` now leads to the next one. */
  function Unlinked(ns: seq<Node>, ks: seq<int>, par: int, j: int): (r: seq<Node>)
    requires 0 <= par < |ns| && 0 <= j < |ks| && 0 <= ks[j] < |ns| && (0 < j ==> 0 <= ks[j - 1] < |ns|)
    ensures |r| == |ns|
  {
    var n := ks[j];
    var a := if j == 0 then ns[par := ns[par].(child := ns[n].sibling)]
             else ns[ks[j - 1] := ns[ks[j - 1]].(sibling := ns[n].sibling)];
    a[n := a[n].(kind := Gone, name := "")]
  }

  lemma UnlinkNode(ns: seq<Node>, kids: seq<seq<int>>, par: int, j: int, i: int)
    requires Tree(ns, kids) && 0 <= par < |ns| && 0 <= j < |kids[par]| && 0 <= i < |ns|
    requires forall x :: 0 <= x < |kids[par]| ==> par < kids[par][x] < |ns|
    requires kids[kids[par][j]] == []
    ensures NodeOk(Unlinked(ns, kids[par], par, j), kids[par := Without(kids[par], j)], i)
  {
    var ks := kids[par];
    var n := ks[j];
    var ns', kids' := Unlinked(ns, ks, par, j), kids[par := Without(ks, j)];
    assert NodeOk(ns, kids, par) && NodeOk(ns, kids, i) && ChildOk(ns, kids, par, j);
    if 0 < j { assert ChildOk(ns, kids, par, j - 1); }
    forall x | 0 <= x < |kids'[i]| ensures ChildOk(ns', kids', i, x) {
      if i == par {
        var y := if x < j then x else x + 1;
        assert ChildOk(ns, kids, par, y);
        assert kids'[par][x] == ks[y];
        assert ks[y] != n && (0 < j && y != j - 1 ==> ks[y] != ks[j - 1]);
      } else {
        assert ChildOk(ns, kids, i, x);
      }
    }
    if 0 < i && ns'[i].kind != Gone { StillIn(ks, j, i); }
    WithoutDistinct(ks, j);
  }

  lemma StillIn(ks: seq<int>, j: int, i: int)
    requires 0 <= j < |ks| && i != ks[j]
    ensures i in ks <==> i in Without(ks, j)
  {
    if i in ks { var x :| 0 <= x < |ks| && ks[x] == i; assert Without(ks, j)[if x < j then x else x - 1] == i; }
  }

  lemma WithoutDistinct(ks: seq<int>, j: int)
    requires Distinct(ks) && 0 <= j < |ks|
    ensures Distinct(Without(ks, j))
  {
  }

  lemma UnlinkTree(ns: seq<Node>, kids: seq<seq<int>>, par: int, j: int)
    requires Tree(ns, kids) && 0 <= par < |ns| && 0 <= j < |kids[par]| && 0 <= kids[par][j] < |ns|
    requires kids[kids[par][j]] == []
    requires 0 < j ==> 0 <= kids[par][j - 1] < |ns|
    ensures Tree(Unlinked(ns, kids[par], par, j), kids[par := Without(kids[par], j)])
    ensures par < kids[par][j]
  {
    KidsInRange(ns, kids, par);
    var ns', kids' := Unlinked(ns, kids[par], par, j), kids[par := Without(kids[par], j)];
    hide NodeOk;
    forall i | 0 <= i < |ns'| ensures NodeOk(ns', kids', i) { UnlinkNode(ns, kids, par, j, i); }
  }

  lemma UnlinkUnique(ns: seq<Node>, kids: seq<seq<int>>, par: int, j: int)
    requires Tree(ns, kids) && Unique(ns, kids) && 0 <= par < |ns| && 0 <= j < |kids[par]| && 0 <= kids[par][j] < |ns|
    requires 0 < j ==> 0 <= kids[par][j - 1] < |ns|
    ensures Unique(Unlinked(ns, kids[par], par, j), kids[par := Without(kids[par], j)])
  {
    var ks, n := kids[par], kids[par][j];
    var ns', kids' := Unlinked(ns, ks, par, j), kids[par := Without(ks, j)];
    forall i | 0 <= i < |kids'| ensures UniqueIn(ns', kids'[i]) {
      UniqueKids(ns, kids, i);
      UnlinkedNames(ns, kids, par, j, i);
    }
  }

  /** Every remaining child keeps its name. */
  lemma UnlinkedNames(ns: seq<Node>, kids: seq<seq<int>>, par: int, j: int, i: int)
    requires Tree(ns, kids) && 0 <= par < |ns| && 0 <= j < |kids[par]| && 0 <= kids[par][j] < |ns| && 0 <= i < |ns|
    requires UniqueIn(ns, kids[i])
    requires 0 < j ==> 0 <= kids[par][j - 1] < |ns|
    ensures UniqueIn(Unlinked(ns, kids[par], par, j), kids[par := Without(kids[par], j)][i])
  {
    var ks, n := kids[par], kids[par][j];
    var ns' := Unlinked(ns, ks, par, j);
    var ks' := kids[par := Without(ks, j)][i];
    assert NodeOk(ns, kids, par) && NodeOk(ns, kids, i) && ChildOk(ns, kids, par, j);
    forall x | 0 <= x < |ks'| ensures 0 <= ks'[x] < |ns| && ks'[x] != n && ns'[ks'[x]].name == ns[ks'[x]].name {
      var y := if i == par && x >= j then x + 1 else x;
      assert ks'[x] == kids[i][y];
      assert ChildOk(ns, kids, i, y);
    }
    forall x, z | 0 <= x < z < |ks'| ensures ns'[ks'[x]].name != ns'[ks'[z]].name {
      var y, w := if i == par && x >= j then x + 1 else x, if i == par && z >= j then z + 1 else z;
      assert ks'[x] == kids[i][y] && ks'[z] == kids[i][w];
    }
  }

  // ---- other nodes keep their place ------------------------------------------------------------------------

  /** Live nodes keep their name, their parent and their life. */
  ghost predicate Steady(ns: seq<Node>, ns': seq<Node>, except: int) {
    |ns| <= |ns'| && forall i :: 0 <= i < |ns| && i != except ==>
      ns'[i].name == ns[i].name && ns'[i].parent == ns[i].parent && ns'[i].kind == ns[i].kind
  }

  /** A node that a change leaves alone is found under the same path as before, provided no directory on the
      way was the one removed. */
  lemma {:induction false} PathStays(ns: seq<Node>, kids: seq<seq<int>>, ns': seq<Node>, kids': seq<seq<int>>, i: int,
                                     except: int)
    requires Tree(ns, kids) && Tree(ns', kids') && Steady(ns, ns', except) && Live(ns, i) && i != except
    requires 0 < except < |ns| ==> kids[except] == []
    requires except != 0
    ensures Live(ns', i) && PathTo(ns', kids', i) == PathTo(ns, kids, i)
    decreases i
  {
    hide Tree;
    if 0 < i {
      LiveParent(ns, kids, i);
      PathStays(ns, kids, ns', kids', ns[i].parent, except);
    }
  }

  // ---- the path that getcwd prints ----------------------------------------------------------------------------

  /** vfs.c:118-127: the names met going up from `p`, at most `n` of them; nameless nodes are passed over. */
  function Climb(ns: seq<Node>, p: int, n: nat): seq<string>
    requires forall i :: 0 <= i < |ns| ==> NIL <= ns[i].parent < i || ns[i].parent == NIL
    requires p == NIL || 0 <= p < |ns|
    decreases p
  {
    if p == NIL || n == 0 then []
    else if ns[p].name != "" then [ns[p].name] + Climb(ns, ns[p].parent, n - 1)
    else Climb(ns, ns[p].parent, n)
  }

  lemma ParentsBelow(ns: seq<Node>, kids: seq<seq<int>>)
    requires Tree(ns, kids)
    ensures forall i :: 0 <= i < |ns| ==> NIL <= ns[i].parent < i || ns[i].parent == NIL
  {
    forall i | 0 <= i < |ns| ensures NIL <= ns[i].parent < i || ns[i].parent == NIL { assert NodeOk(ns, kids, i); }
  }

  function Reversed(names: seq<string>): seq<string> {
    if names == [] then [] else Reversed(names[1..]) + [names[0]]
  }

  /** Names joined back to front. */
  function JoinBack(names: seq<string>): string {
    if names == [] then "" else if |names| == 1 then names[0] else JoinBack(names[1..]) + "/" + names[0]
  }

  lemma {:induction false} JoinSnoc(names: seq<string>, last: string)
    requires names != []
    ensures Join(names + [last]) == Join(names) + "/" + last
  {
    if |names| == 1 {
      assert (names + [last])[1..] == [last];
    } else {
      JoinSnoc(names[1..], last);
      assert (names + [last])[1..] == names[1..] + [last];
    }
  }

  lemma {:induction false} JoinReversed(names: seq<string>)
    ensures JoinBack(names) == Join(Reversed(names)) && (names != [] ==> Reversed(names) != [])
  {
    if |names| == 1 {
      assert names[1..] == [];
    } else if |names| > 1 {
      JoinReversed(names[1..]);
      JoinSnoc(Reversed(names[1..]), names[0]);
    }
  }

  /** From a node of depth at most `n` the climb meets the whole path. */
  lemma {:induction false} ClimbIsPath(ns: seq<Node>, kids: seq<seq<int>>, i: int, n: nat)
    requires Tree(ns, kids) && Live(ns, i) && |PathTo(ns, kids, i)| <= n
    requires forall k :: 0 <= k < |ns| ==> NIL <= ns[k].parent < k || ns[k].parent == NIL
    ensures Reversed(Climb(ns, i, n)) == PathTo(ns, kids, i)
    decreases i
  {
    if 0 < i {
      LiveParent(ns, kids, i);
      hide Tree;
      ClimbIsPath(ns, kids, ns[i].parent, n - 1);
      var rest := Climb(ns, ns[i].parent, n - 1);
      assert ([ns[i].name] + rest)[1..] == rest;
    }
  }

  // ---- looking up a single name ---------------------------------------------------------------------------

  lemma PartsOfName(name: string)
    requires Plain(name) && 0 < |name| < NAME_MAX
    ensures Parts(name) == [name]
  {
    CutName(name, "", 0);
    assert name + "" == name && name[|name|..] == "";
  }

  lemma LookupName(ns: seq<Node>, kids: seq<seq<int>>, dir: int, name: string)
    requires InRange(ns, kids) && 0 <= dir < |ns| && Plain(name) && 0 < |name| < NAME_MAX && !HasDriveC(name)
    ensures LookupRel(ns, kids, dir, name) == Enter(ns, kids, dir, name)
  {
    assert StripC(name) == name;
    PartsOfName(name);
    var next, rest := Enter(ns, kids, dir, name), [name][1..];
    assert rest == [];
    if next != NIL { assert WalkParts(ns, kids, next, rest) == next; }
  }

  /** A name that is not there yet is a proper name, and clashes with no sibling unless it starts with C: */
  lemma AbsentName(ns: seq<Node>, kids: seq<seq<int>>, dir: int, name: string)
    requires InRange(ns, kids) && 0 <= dir < |ns| && ns[dir].kind == Dir && Plain(name) && 0 < |name| < NAME_MAX
    requires LookupRel(ns, kids, dir, name) == NIL
    ensures NameOk(name) && (!HasDriveC(name) ==> !Clashes(ns, kids[dir], name))
  {
    if !HasDriveC(name) { LookupName(ns, kids, dir, name); }
  }

  /** The new node is what its name leads to. */
  lemma NewIsFound(ns: seq<Node>, kids: seq<seq<int>>, par: int, node: Node)
    requires InRange(ns, kids) && NewNode(ns, par, node) && ns[par].kind == Dir && !HasDriveC(node.name)
    requires InRange(Grown(ns, par, node), GrownKids(kids, par))
    ensures LookupRel(Grown(ns, par, node), GrownKids(kids, par), par, node.name) == |ns|
  {
    LookupName(Grown(ns, par, node), GrownKids(kids, par), par, node.name);
  }

  /** Lookup sees names, kinds and parents only. */
  ghost predicate Alike(ns: seq<Node>, ns': seq<Node>) {
    && |ns| == |ns'|
    && forall i :: 0 <= i < |ns| ==>
         ns'[i].name == ns[i].name && ns'[i].kind == ns[i].kind && ns'[i].parent == ns[i].parent
  }

  lemma {:induction false} FindAlike(ns: seq<Node>, ns': seq<Node>, ks: seq<int>, name: string)
    requires Alike(ns, ns') && forall j :: 0 <= j < |ks| ==> 0 <= ks[j] < |ns|
    ensures FindName(ns', ks, name) == FindName(ns, ks, name)
  {
    if ks != [] { FindAlike(ns, ns', ks[1..], name); }
  }

  lemma {:induction false} WalkAlike(ns: seq<Node>, ns': seq<Node>, kids: seq<seq<int>>, cur: int, parts: seq<string>)
    requires Alike(ns, ns') && InRange(ns, kids) && InRange(ns', kids) && 0 <= cur < |ns|
    ensures WalkParts(ns', kids, cur, parts) == WalkParts(ns, kids, cur, parts)
    decreases |parts|
  {
    if parts != [] {
      FindAlike(ns, ns', kids[cur], parts[0]);
      var next := Enter(ns, kids, cur, parts[0]);
      if next != NIL { WalkAlike(ns, ns', kids, next, parts[1..]); }
    }
  }

  /** `ns'` differs from `ns` in the contents of files only. */
  ghost predicate SameLinks(ns: seq<Node>, ns': seq<Node>) {
    |ns| == |ns'| && forall i :: 0 <= i < |ns| ==>
      ns'[i].(data := [], size := 0, capacity := 0) == ns[i].(data := [], size := 0, capacity := 0)
  }

  lemma SameLinksAt(ns: seq<Node>, ns': seq<Node>, i: int)
    requires SameLinks(ns, ns') && 0 <= i < |ns|
    ensures ns'[i].name == ns[i].name && ns'[i].kind == ns[i].kind && ns'[i].parent == ns[i].parent
    ensures ns'[i].child == ns[i].child && ns'[i].sibling == ns[i].sibling
  {
    assert ns'[i].(data := [], size := 0, capacity := 0) == ns[i].(data := [], size := 0, capacity := 0);
  }

  lemma SameTree(ns: seq<Node>, ns': seq<Node>, kids: seq<seq<int>>)
    requires Tree(ns, kids) && SameLinks(ns, ns')
    ensures Tree(ns', kids) && Alike(ns, ns') && (Unique(ns, kids) ==> Unique(ns', kids))
  {
    forall i | 0 <= i < |ns| ensures NodeOk(ns', kids, i) {
      assert NodeOk(ns, kids, i);
      SameLinksAt(ns, ns', i);
      forall j | 0 <= j < |kids[i]| ensures ChildOk(ns', kids, i, j) {
        assert ChildOk(ns, kids, i, j);
        SameLinksAt(ns, ns', kids[i][j]);
      }
    }
    SameLinksAt(ns, ns', 0);
    hide Tree, NodeOk;
    forall i | 0 <= i < |ns|
      ensures ns'[i].name == ns[i].name && ns'[i].kind == ns[i].kind && ns'[i].parent == ns[i].parent
    {
      SameLinksAt(ns, ns', i);
    }
    if Unique(ns, kids) {
      forall i | 0 <= i < |kids| ensures UniqueIn(ns', kids[i]) { UniqueKids(ns, kids, i); }
    }
  }

  // ---- looking up in a grown tree -----------------------------------------------------------------------------

  /** `ns'` and `kids'` are the tree with one more file in `par`. */
  ghost predicate OneMore(ns: seq<Node>, kids: seq<seq<int>>, par: int, ns': seq<Node>, kids': seq<seq<int>>) {
    && Tree(ns, kids) && InRange(ns, kids) && InRange(ns', kids') && 0 <= par < |ns| && ns[par].kind == Dir
    && |ns'| == |ns| + 1 && ns' == Grown(ns, par, ns'[|ns|]) && kids' == GrownKids(kids, par)
    && ns'[|ns|].kind == File && ns'[|ns|].parent == par && NameOk(ns'[|ns|].name)
  }

  lemma {:induction false} FindGrown(ns: seq<Node>, ns': seq<Node>, ks: seq<int>, name: string)
    requires forall j :: 0 <= j < |ks| ==> 0 <= ks[j] < |ns|
    requires |ns| <= |ns'| && forall i :: 0 <= i < |ns| ==> ns'[i].name == ns[i].name
    ensures FindName(ns', ks, name) == FindName(ns, ks, name)
  {
    if ks != [] { FindGrown(ns, ns', ks[1..], name); }
  }

  /** A step from an old node leads where it led before, or to the new one. */
  lemma EnterGrown(ns: seq<Node>, kids: seq<seq<int>>, par: int, ns': seq<Node>, kids': seq<seq<int>>, cur: int,
                   part: string)
    requires OneMore(ns, kids, par, ns', kids') && 0 <= cur < |ns|
    ensures Enter(ns', kids', cur, part) ==
            if cur == par && part == ns'[|ns|].name then |ns| else Enter(ns, kids, cur, part)
  {
    hide Tree;
    if cur == par { assert kids'[par][1..] == kids[par]; }
    FindGrown(ns, ns', kids[cur], part);
  }

  /** A path without separators leads where it led before, or to nothing, the new file or its directory. */
  lemma {:induction false} PlainGrown(ns: seq<Node>, kids: seq<seq<int>>, par: int, ns': seq<Node>,
                                      kids': seq<seq<int>>, cur: int, s: string)
    requires OneMore(ns, kids, par, ns', kids') && 0 <= cur < |ns| && Plain(s)
    ensures var c := WalkParts(ns', kids', cur, Parts(s));
            c == NIL || c == |ns| || c == par || c == WalkParts(ns, kids, cur, Parts(s))
    decreases |s|
  {
    if s != [] {
      var k := Cut(s, 0);
      PlainRest(s);
      assert Parts(s)[1..] == Parts(s[k..]);
      EnterGrown(ns, kids, par, ns', kids', cur, s[..k]);
      hide OneMore, InRange;
      var next := Enter(ns', kids', cur, s[..k]);
      if next == |ns| {
        PlainFromFile(ns, kids, par, ns', kids', s[k..]);
      } else if next != NIL {
        PlainGrown(ns, kids, par, ns', kids', next, s[k..]);
      }
    }
  }

  lemma PlainRest(s: string)
    requires Plain(s) && s != []
    ensures 0 < Cut(s, 0) && Skip(s[Cut(s, 0)..]) == s[Cut(s, 0)..] && Plain(s[Cut(s, 0)..])
  {
  }

  /** From the new file such a path leads to the file, its directory or nothing. */
  lemma PlainFromFile(ns: seq<Node>, kids: seq<seq<int>>, par: int, ns': seq<Node>, kids': seq<seq<int>>, s: string)
    requires OneMore(ns, kids, par, ns', kids') && Plain(s)
    ensures WalkParts(ns', kids', |ns|, Parts(s)) in {NIL, |ns|, par}
  {
    if s != [] {
      var k := Cut(s, 0);
      PlainRest(s);
      assert Parts(s)[1..] == Parts(s[k..]);
      if k < |s| { assert |s[..k]| == NAME_MAX - 1; }
    }
  }

  /** A path that leads to `par` still does, or to nothing: where it passed a child of `par` with the name of the
      new file, it now passes that file. */
  lemma {:induction false} PrefixGrown(ns: seq<Node>, kids: seq<seq<int>>, par: int, ns': seq<Node>,
                                       kids': seq<seq<int>>, cur: int, at: int, parts: seq<string>)
    requires OneMore(ns, kids, par, ns', kids') && 0 <= cur < |ns| && WalkParts(ns, kids, cur, parts) == par
    requires at == cur || (at == |ns| && ns[cur].parent == par && 0 < cur)
    ensures WalkParts(ns', kids', at, parts) in {NIL, par}
    decreases |parts|
  {
    if parts == [] {
      assert NodeOk(ns, kids, cur);
    } else {
      EnterGrown(ns, kids, par, ns', kids', cur, parts[0]);
      var next, next' := Enter(ns, kids, cur, parts[0]), Enter(ns', kids', at, parts[0]);
      ChildOf(ns, kids, par, parts[0]);
      hide Tree;
      if next' != NIL { PrefixGrown(ns, kids, par, ns', kids', next, next', parts[1..]); }
    }
  }

  lemma ChildOf(ns: seq<Node>, kids: seq<seq<int>>, par: int, name: string)
    requires Tree(ns, kids) && InRange(ns, kids) && 0 <= par < |ns|
    ensures var c := FindName(ns, kids[par], name); c != NIL ==> 0 < c < |ns| && ns[c].parent == par
  {
    var c := FindName(ns, kids[par], name);
    if c != NIL {
      var j :| 0 <= j < |kids[par]| && kids[par][j] == c;
      assert NodeOk(ns, kids, par) && ChildOk(ns, kids, par, j);
    }
  }

  /** The parts before and after a separator. */
  lemma {:induction false} PartsSplit(p: string, sep: char, t: string)
    requires IsSep(sep) && Plain(t) && t != []
    ensures Parts(Skip(p + [sep] + t)) == Parts(Skip(p)) + Parts(t)
    decreases |p|
  {
    var s := p + [sep] + t;
    if p == [] {
      assert s[1..] == t;
    } else if IsSep(p[0]) {
      assert s[1..] == p[1..] + [sep] + t;
      PartsSplit(p[1..], sep, t);
    } else {
      var k := Cut(p, 0);
      CutPrefix(p, [sep] + t, 0);
      assert s == p + ([sep] + t);
      assert s[..k] == p[..k] && s[k..] == p[k..] + [sep] + t;
      PartsSplit(p[k..], sep, t);
      hide Cut;
      assert Skip(s) == s && Skip(p) == p;
      hide Skip;
    }
  }

  lemma {:induction false} CutPrefix(p: string, rest: string, i: nat)
    requires i <= |p| && i < NAME_MAX && rest != [] && IsSep(rest[0])
    ensures Cut(p + rest, i) == Cut(p, i)
    decreases |p| - i
  {
    if i < |p| && !IsSep(p[i]) && i + 1 < NAME_MAX { CutPrefix(p, rest, i + 1); }
  }

  lemma UnlinkSteady(ns: seq<Node>, ks: seq<int>, par: int, j: int)
    requires 0 <= par < |ns| && 0 <= j < |ks| && 0 <= ks[j] < |ns| && par != ks[j] && (0 < j ==> 0 <= ks[j - 1] < |ns|)
    ensures var ns' := Unlinked(ns, ks, par, j);
            && Steady(ns, ns', ks[j]) && ns'[ks[j]].kind == Gone
            && forall i :: 0 <= i < |ns| && i != ks[j] ==>
                 ns'[i].data == ns[i].data && ns'[i].size == ns[i].size && ns'[i].capacity == ns[i].capacity
  {
  }
}
