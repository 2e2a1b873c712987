/**
  kernel/vfs/vfs.c, the C: drive: path lookup, the current directory, and the calls that create, change
  and remove nodes.  A call that belongs to the FAT drive says so (`fat`) and does nothing here.
*/
module RamFs {
  import opened Bytes
  import opened Links
  import opened RamTree

  const MAX_FILE: int := 16384

  /** The part of a name buffer that strcpy_l fills. */
  function Clip(s: string, max: int): (r: string)
    requires 0 < max
    ensures |r| < max
  {
    if |s| < max then s else s[..max - 1]
  }

  predicate HasDriveD(path: string) { |path| >= 2 && (path[0] == 'D' || path[0] == 'd') && path[1] == ':' }

  /** parse_drive: does the call go to the FAT drive? */
  predicate ForD(path: string, onC: bool) { if HasDriveC(path) then false else if HasDriveD(path) then true else !onC }

  /** vfs_lookup. */
  ghost function Lookup(ns: seq<Node>, kids: seq<seq<int>>, cwd: int, onC: bool, path: string): (n: int)
    requires InRange(ns, kids) && 0 <= cwd < |ns|
    ensures n == NIL || 0 <= n < |ns|
  {
    if path == [] then cwd
    else if ForD(path, onC) then NIL
    else if HasDriveC(path) || IsSep(path[0]) then LookupRel(ns, kids, 0, path)
    else if !onC then NIL
    else LookupRel(ns, kids, cwd, path)
  }

  /** The position of the last separator, -1 for none. */
  function LastSep(s: string): (k: int)
    ensures -1 <= k < |s| && (0 <= k ==> IsSep(s[k])) && forall i :: k < i < |s| ==> !IsSep(s[i])
  {
    if s == [] then -1 else if IsSep(s[|s| - 1]) then |s| - 1 else LastSep(s[..|s| - 1])
  }

  /** split_parent. */
  function ParentPart(path: string): string {
    var t := Clip(path, PATH_MAX);
    if LastSep(t) < 0 then "" else t[..LastSep(t)]
  }

  function NamePart(path: string): (s: string)
    ensures |s| < NAME_MAX && Plain(s)
  {
    var t := Clip(path, PATH_MAX);
    Clip(t[LastSep(t) + 1..], NAME_MAX)
  }

  /** A file that was created while kmalloc failed: empty, with a capacity but without a buffer. */
  predicate Hollow(n: Node) { n.kind == File && n.size == 0 && n.capacity == 512 && n.data == [] }

  ghost predicate FileOk(n: Node) {
    n.kind == File ==> Hollow(n) || (0 <= n.size <= n.capacity <= MAX_FILE && |n.data| == n.capacity)
  }

  class Ram {
    var nodes: seq<Node>
    var cwd: int
    var onC: bool
    ghost var kids: seq<seq<int>>

    /** vfs.c:353-358. */
    constructor ()
      ensures Valid() && Unique(nodes, kids) && cwd == 0 && onC
      ensures nodes == [Node("", Dir, NIL, NIL, NIL, [], 0, 0)] && kids == [[]]
    {
      nodes, cwd, onC := [Node("", Dir, NIL, NIL, NIL, [], 0, 0)], 0, true;
      kids := [[]];
    }

    ghost predicate Valid()
      reads this
    {
      && Tree(nodes, kids) && InRange(nodes, kids) && 0 <= cwd < |nodes|
      && forall i :: 0 <= i < |nodes| ==> FileOk(nodes[i])
    }

    /** vfs.c:82-84. */
    method TakePart(path: string, pos: nat) returns (part: string, next: nat)
      requires pos <= |path|
      ensures pos <= next <= |path| && next == pos + Cut(path[pos..], 0) && part == path[pos..next]
    {
      var s := path[pos..];
      var i := 0;
      part := "";
      next := pos;
      while next < |path| && !IsSep(path[next]) && i + 1 < NAME_MAX
        invariant 0 <= i < NAME_MAX && next == pos + i <= |path| && part == path[pos..next] && Cut(s, 0) == Cut(s, i)
      {
        assert s[i] == path[next];
        part := part + [path[next]];
        i, next := i + 1, next + 1;
      }
      assert next < |path| ==> s[i] == path[next];
    }

    /** The loops that step over separators. */
    method SkipSeps(path: string, pos: nat) returns (next: nat)
      requires pos <= |path|
      ensures pos <= next <= |path| && path[next..] == Skip(path[pos..])
    {
      next := pos;
      while next < |path| && IsSep(path[next])
        invariant pos <= next <= |path| && Skip(path[next..]) == Skip(path[pos..])
      {
        assert path[next..][1..] == path[next + 1..] && path[next..][0] == path[next];
        next := next + 1;
      }
      assert next < |path| ==> path[next..][0] == path[next];
    }

    /** vfs.c:92-94. */
    method FindChild(dir: int, part: string) returns (c: int)
      requires Valid() && 0 <= dir < |nodes|
      ensures c == FindName(nodes, kids[dir], part)
    {
      hide Tree;
      ChildStart(nodes, kids, dir);
      c := nodes[dir].child;
      ghost var ks, j := kids[dir], 0;
      assert ks[0..] == ks;
      while c != NIL && nodes[c].name != part
        invariant 0 <= j <= |ks| && c == At(ks, j) && FindName(nodes, ks, part) == FindName(nodes, ks[j..], part)
        decreases |ks| - j
      {
        ChildNext(nodes, kids, dir, j);
        assert ks[j..][0] == ks[j] && ks[j..][1..] == ks[j + 1..];
        c := nodes[c].sibling;
        j := j + 1;
      }
      if j < |ks| {
        ChildNext(nodes, kids, dir, j);
        assert ks[j..][0] == ks[j];
      }
    }

    /** vfs.c:75-98: lookup_rel. */
    method LookupFrom(base: int, path: string) returns (n: int)
      requires Valid() && 0 <= base < |nodes|
      ensures n == LookupRel(nodes, kids, base, path)
    {
      hide Tree, FindName;
      if path == [] { return base; }
      var pos := if HasDriveC(path) then 2 else 0;
      pos := SkipSeps(path, pos);
      n := base;
      ghost var goal := LookupRel(nodes, kids, base, path);
      assert path[pos..] == StripC(path) by { assert path[0..] == path; }
      while pos < |path|
        invariant 0 <= pos <= |path| && 0 <= n < |nodes| && goal == WalkParts(nodes, kids, n, Parts(path[pos..]))
        decreases |path| - pos
      {
        ghost var here := pos;
        var part;
        part, pos := TakePart(path, pos);
        ghost var cut := pos;
        pos := SkipSeps(path, pos);
        NextPart(path, here, cut, pos);
        if part == "" || part == "." { continue; }
        if part == ".." {
          if nodes[n].parent != NIL { n := nodes[n].parent; }
          continue;
        }
        if nodes[n].kind != Dir { return NIL; }
        var c := FindChild(n, part);
        if c == NIL { return NIL; }
        n := c;
      }
    }

    /** vfs.c:140-153: vfs_lookup. */
    method VfsLookup(path: string) returns (n: int)
      requires Valid()
      ensures n == Lookup(nodes, kids, cwd, onC, path)
    {
      hide Tree, LookupRel;
      if path == [] { return cwd; }
      if ForD(path, onC) { return NIL; }
      if HasDriveC(path) || IsSep(path[0]) {
        n := LookupFrom(0, path);
        return;
      }
      if !onC { return NIL; }
      n := LookupFrom(cwd, path);
    }

    /** A loop of vfs.c:134: characters are added while there is room for one more and the end mark. */
    method AppendTo(buf: string, s: string, maxlen: nat) returns (r: string)
      requires 0 < maxlen && |buf| < maxlen
      ensures r == Clip(buf + s, maxlen)
    {
      r := buf;
      var j := 0;
      while j < |s| && |r| + 1 < maxlen
        invariant 0 <= j <= |s| && |r| < maxlen && r == buf + s[..j]
      {
        r := r + [s[j]];
        j := j + 1;
      }
      if j == |s| { assert s[..j] == s; } else { assert buf + s[..j] == (buf + s)[..maxlen - 1]; }
    }

    /** vfs.c:119-127. */
    method CollectNames() returns (parts: seq<string>)
      requires Valid() && forall i :: 0 <= i < |nodes| ==> NIL <= nodes[i].parent < i || nodes[i].parent == NIL
      ensures parts == Climb(nodes, cwd, 8)
    {
      hide Tree;
      parts := [];
      var p := cwd;
      while p != NIL && |parts| < 8
        invariant (p == NIL || 0 <= p < |nodes|) && |parts| <= 8
        invariant Climb(nodes, cwd, 8) == parts + Climb(nodes, p, 8 - |parts|)
        decreases p
      {
        if nodes[p].name != "" { parts := parts + [nodes[p].name]; }
        p := nodes[p].parent;
      }
    }

    /** vfs.c:104-138: vfs_getcwd on C:. */
    method GetCwd(maxlen: nat) returns (buf: string)
      requires Valid() && 0 < maxlen && forall i :: 0 <= i < |nodes| ==>
                 NIL <= nodes[i].parent < i || nodes[i].parent == NIL
      ensures buf == Clip("C:/" + JoinBack(Climb(nodes, cwd, 8)), maxlen)
    {
      hide Tree;
      var parts := CollectNames();
      buf := AppendTo("", "C:/", maxlen);
      TextEnds(parts);
      hide Clip, Text, JoinBack, Climb;
      var k := |parts|;
      while k > 0
        invariant 0 <= k <= |parts| && |buf| < maxlen && buf == Clip(Text(parts, k), maxlen)
      {
        k := k - 1;
        TextStep(parts, k);
        ghost var text := Text(parts, k + 1);
        buf := AppendTo(buf, parts[k], maxlen);
        ClipConcat(text, parts[k], maxlen);
        if k > 0 {
          buf := AppendTo(buf, "/", maxlen);
          ClipConcat(text + parts[k], "/", maxlen);
        }
      }
    }

    /** vfs.c:155-185: vfs_chdir; `fatOk` is what fat_chdir answers. */
    method Chdir(path: string, fatOk: bool) returns (r: int)
      requires Valid()
      modifies this`cwd, this`onC
      ensures Valid() && (r == 0 || r == -1)
      ensures ForD(path, old(onC)) ==> cwd == old(cwd) && (r == 0 <==> fatOk) && onC == (old(onC) && !fatOk)
      ensures r == -1 ==> cwd == old(cwd) && onC == old(onC)
      ensures !ForD(path, old(onC)) ==>
              var n := Lookup(nodes, kids, old(cwd), old(onC), path);
              if n != NIL && nodes[n].kind == Dir then r == 0 && cwd == n && onC else r == -1
    {
      hide Tree, LookupRel;
      if ForD(path, onC) {
        if !fatOk { return -1; }
        onC := false;
        return 0;
      }
      var n := VfsLookup(path);
      if n == NIL || nodes[n].kind != Dir { return -1; }
      cwd := n;
      onC := true;
      return 0;
    }

    /** Printing the current directory and changing to what was printed leads back to it, from anywhere, for
        directories of depth at most eight whose path fits the buffer. */
    method PrintAndReturn(maxlen: nat, detour: string) returns (ok: bool)
      requires Valid() && Unique(nodes, kids) && onC && Live(nodes, cwd) && nodes[cwd].kind == Dir && 0 < maxlen
      modifies this`cwd, this`onC
      ensures Valid()
      ensures |PathTo(nodes, kids, old(cwd))| <= 8 && |Join(PathTo(nodes, kids, old(cwd)))| + 3 < maxlen ==>
                ok && cwd == old(cwd) && onC
    {
      ParentsBelow(nodes, kids);
      ghost var here := cwd;
      if |PathTo(nodes, kids, here)| <= 8 { ClimbIsPath(nodes, kids, here, 8); }
      JoinReversed(Climb(nodes, here, 8));
      PrintedPathLeads(nodes, kids, here);
      hide Tree, LookupRel, PathTo, Climb, Join;
      var buf := GetCwd(maxlen);
      var _ := Chdir(detour, true);
      var r := Chdir(buf, true);
      ok := r == 0;
    }

    /** vfs.c:187-202: split_parent. */
    method SplitParent(path: string) returns (parent: string, name: string)
      ensures parent == ParentPart(path) && name == NamePart(path)
    {
      var tmp := Clip(path, PATH_MAX);
      var last := -1;
      var i := 0;
      while i < |tmp|
        invariant 0 <= i <= |tmp| && last == LastSep(tmp[..i])
      {
        assert tmp[..i + 1][..i] == tmp[..i];
        if IsSep(tmp[i]) { last := i; }
        i := i + 1;
      }
      assert tmp[..i] == tmp;
      if last < 0 {
        assert tmp[0..] == tmp;
        return "", Clip(tmp, NAME_MAX);
      }
      return tmp[..last], Clip(tmp[last + 1..], NAME_MAX);
    }

    /** vfs.c:35-47: alloc_node. */
    method AllocNode(name: string, kind: Kind, par: int) returns (n: int)
      requires Valid() && 0 <= par < |nodes| && nodes[par].kind == Dir && NameOk(name) && kind != Gone
      modifies this`nodes, this`kids
      ensures Valid()
      ensures if |old(nodes)| >= 128 then n == NIL && nodes == old(nodes) && kids == old(kids)
              else && n == |old(nodes)| && kids == GrownKids(old(kids), par)
                   && nodes == Grown(old(nodes), par, FreshNode(old(nodes), name, kind, par))
    {
      hide Tree, InRange;
      if |nodes| >= MAX_NODES { return NIL; }
      n := |nodes|;
      var node := FreshNode(nodes, name, kind, par);
      GrowTree(nodes, kids, par, node);
      nodes := nodes[par := nodes[par].(child := n)] + [node];
      kids := GrownKids(kids, par);
      TreeInRange(nodes, kids);
    }

    /** vfs.c:204-220: vfs_mkdir. */
    method Mkdir(path: string) returns (r: int, fat: bool)
      requires Valid()
      modifies this`nodes, this`kids
      ensures Valid() && fat == (ForD(path, onC) || !onC)
      ensures !fat ==> r == (if CanMake(old(nodes), old(kids), cwd, onC, path) then 0 else -1)
      ensures fat || r == -1 ==> nodes == old(nodes) && kids == old(kids)
      ensures !fat && r == 0 ==> MadeAt(old(nodes), old(kids), cwd, onC, path, Dir, [], nodes, kids)
    {
      hide Tree, InRange, LookupRel, Made, Lookup, NamePart, ParentPart;
      r, fat := -1, ForD(path, onC) || !onC;
      if fat { return; }
      var n, _ := MakeNode(path, Dir);
      if n != NIL { r := 0; }
    }

    /** vfs.c:213-218 and 229-235, shared by mkdir and create. */
    method MakeNode(path: string, kind: Kind) returns (n: int, ghost par: int)
      requires Valid() && kind != Gone
      modifies this`nodes, this`kids
      ensures Valid() && par == ParentDir(old(nodes), old(kids), cwd, onC, path)
      ensures n != NIL <==> CanMake(old(nodes), old(kids), cwd, onC, path)
      ensures n == NIL ==> nodes == old(nodes) && kids == old(kids)
      ensures n != NIL ==> n == |old(nodes)| && par != NIL
      ensures n != NIL ==>
                Made(old(nodes), old(kids), par, FreshNode(old(nodes), NamePart(path), kind, par), nodes, kids)
    {
      hide Tree, InRange, LookupRel, Made, Lookup, NamePart, ParentPart;
      par := ParentDir(nodes, kids, cwd, onC, path);
      var parent, name := SplitParent(path);
      if name == "" { return NIL, par; }
      var dir := cwd;
      if parent != "" { dir := VfsLookup(parent); }
      if dir == NIL || nodes[dir].kind != Dir { return NIL, par; }
      var there := LookupFrom(dir, name);
      if there != NIL { return NIL, par; }
      MadeNow(nodes, kids, dir, name, kind);
      n := AllocNode(name, kind, dir);
    }

    /** vfs.c:222-241: vfs_create_file; `buffer` is what kmalloc gives, [] for nothing.  Without a buffer the call
        fails but leaves a hollow file behind. */
    method CreateFile(path: string, buffer: seq<Byte>) returns (r: int, fat: bool, ghost made: bool)
      requires Valid() && (buffer == [] || |buffer| == 512)
      modifies this`nodes, this`kids
      ensures fat == (ForD(path, onC) || !onC) && made == (!fat && CanMake(old(nodes), old(kids), cwd, onC, path))
      ensures !fat ==> r == (if made && buffer != [] then 0 else -1)
      ensures !made ==> nodes == old(nodes) && kids == old(kids)
      ensures Valid() && (made ==> |nodes| == |old(nodes)| + 1 && (buffer == [] <==> Hollow(nodes[|old(nodes)|])))
      ensures made ==> MadeAt(old(nodes), old(kids), cwd, onC, path, File, buffer, nodes, kids)
      ensures |nodes| >= |old(nodes)| && forall i :: 0 <= i < |old(nodes)| ==> SameFile(old(nodes)[i], nodes[i])
      ensures Steady(old(nodes), nodes, NIL)
      ensures (Unique(old(nodes), old(kids)) && !HasDriveC(NamePart(path)) ==> Unique(nodes, kids))
    {
      hide Tree, InRange, LookupRel, Made, Lookup, NamePart, ParentPart, Steady, Unique;
      r, fat, made := -1, ForD(path, onC) || !onC, false;
      SteadyRefl(nodes, NIL);
      if fat { return; }
      var n, par := MakeNode(path, File);
      if n == NIL { return; }
      made := true;
      ghost var ns := nodes;
      MadeFile(old(nodes), old(kids), par, FreshNode(old(nodes), NamePart(path), File, par), ns, kids, buffer);
      MadeLast(old(nodes), old(kids), par, FreshNode(old(nodes), NamePart(path), File, par), ns, kids);
      nodes := nodes[n := nodes[n].(capacity := 512, data := buffer)];
      MadeSteady(old(nodes), old(kids), par, ns[n].(capacity := 512, data := buffer), nodes, kids);
      if buffer == [] { return; }
      r := 0;
    }

    /** vfs.c:257-269: the bytes go into the file's buffer, or into a new one (`bigger`, [] if kmalloc fails) when
        they do not fit.  Bytes for a hollow file that fit its capacity go through a null pointer: a fault. */
    method Store(n: int, src: seq<Byte>, bigger: seq<Byte>) returns (r: int, fault: bool)
      requires Valid() && 0 <= n < |nodes| && nodes[n].kind == File && (bigger == [] || |bigger| == MAX_FILE)
      modifies this`nodes
      ensures Valid() && Alike(old(nodes), nodes) && forall i :: 0 <= i < |nodes| && i != n ==>
                nodes[i] == old(nodes)[i]
      ensures (fault <==> Hollow(old(nodes)[n]) && 0 < |src| <= 512) && (fault ==> r == -1)
      ensures r == -1 ==> nodes == old(nodes) && (bigger == [] || fault)
      ensures nodes[n].kind == File
      ensures r != -1 ==> r == Min(|src|, 16384) && nodes[n].size == r
      ensures r != -1 ==> r <= |nodes[n].data| && nodes[n].data[..r] == src[..r]
      ensures r == -1 <==> NoRoom(old(nodes)[n], |src|, bigger)
      ensures r != -1 ==> nodes[n].capacity == if r <= old(nodes)[n].capacity then old(nodes)[n].capacity
                                               else Min(r + 256, MAX_FILE)
      ensures r != -1 ==> Stored(old(nodes), n, src[..r], nodes)
      ensures Unique(old(nodes), kids) ==> Unique(nodes, kids)
    {
      hide Tree, InRange, SameLinks, Unique;
      AlikeRefl(nodes);
      fault := false;
      var len := Min(|src|, MAX_FILE);
      var data, capacity := nodes[n].data, nodes[n].capacity;
      if len > capacity {
        var nc := len + 256;
        if nc > MAX_FILE { nc := MAX_FILE; }
        if bigger == [] { return -1, false; }
        var nd := bigger[..nc];
        var i := 0;
        while i < nodes[n].size
          invariant 0 <= i && |nd| == nc
        {
          nd := nd[i := data[i]];
          i := i + 1;
        }
        data, capacity := nd, nc;
      }
      if 0 < len && data == [] { return -1, true; }
      var i := 0;
      while i < len
        invariant 0 <= i <= len <= |data| && (|data| == capacity || (data == [] && capacity == 512))
        invariant data[..i] == src[..i]
      {
        data := data[i := src[i]];
        i := i + 1;
      }
      nodes := nodes[n := nodes[n].(data := data, size := len, capacity := capacity)];
      OneFile(old(nodes), nodes, kids, n);
      r := len;
    }

    /** vfs.c:243-271: vfs_write. */
    method Write(path: string, buf: seq<Byte>, buffer: seq<Byte>, bigger: seq<Byte>)
      returns (r: int, fat: bool, fault: bool)
      requires Valid() && (buffer == [] || |buffer| == 512) && (bigger == [] || |bigger| == MAX_FILE)
      modifies this`nodes, this`kids
      ensures fat == (HasDriveD(path) || (!onC && !HasDriveC(path)))
      ensures fat ==> nodes == old(nodes) && kids == old(kids)
      ensures Valid() && (!fat && NullWrite(old(nodes), old(kids), cwd, onC, path, |buf|) ==> fault)
      ensures fault ==> !fat && r == -1 && NullWrite(nodes, kids, cwd, onC, path, |buf|)
      ensures fault <==> !fat && var (ns, ks) := Opened(old(nodes), old(kids), cwd, onC, path, buffer);
                         NullWrite(ns, ks, cwd, onC, path, |buf|)
      ensures !fat ==> Wrote(old(nodes), old(kids), cwd, onC, path, buf, buffer, bigger, r, nodes, kids)
      ensures |path| < PATH_MAX ==> (fault <==> !fat && NullWrite(old(nodes), old(kids), cwd, onC, path, |buf|))
      ensures !fat && r != -1 ==>
                r == Min(|buf|, 16384) && Contains(nodes, Lookup(nodes, kids, cwd, onC, path), buf[..r])
      ensures |old(nodes)| <= |nodes| && Steady(old(nodes), nodes, NIL)
      ensures Unique(old(nodes), old(kids)) && !HasDriveC(NamePart(path)) ==> Unique(nodes, kids)
      ensures !fat && r != -1 ==>
                var n := Lookup(nodes, kids, cwd, onC, path);
                forall i :: 0 <= i < |old(nodes)| && i != n ==> SameFile(old(nodes)[i], nodes[i])
    {
      hide Tree, InRange, LookupRel, Lookup, Made, NamePart, ParentPart, FileOk, Steady, Unique, Alike;
      r, fat, fault := -1, HasDriveD(path) || (!onC && !HasDriveC(path)), false;
      SteadyRefl(nodes, NIL);
      if |path| < PATH_MAX { OpenedNull(nodes, kids, cwd, onC, path, buffer, |buf|); }
      if fat { return; }
      var n := VfsLookup(path);
      if n == NIL {
        var c, other, made := CreateFile(path, buffer);
        if made { MadeOpens(old(nodes), old(kids), cwd, onC, path, buffer, nodes, kids); }
        if other || c != 0 { return; }
        n := VfsLookup(path);
      }
      if n == NIL || nodes[n].kind != File { return; }
      ghost var before := nodes;
      r, fault := Store(n, buf, bigger);
      AlikeSize(before, nodes);
      SteadyAlike(old(nodes), before, nodes);
      LookupAlike(before, nodes, kids, cwd, onC, path);
    }

    /** vfs.c:273-288: vfs_read. */
    method Read(path: string, maxlen: nat) returns (r: int, fat: bool, out: seq<Byte>)
      requires Valid()
      ensures fat == (HasDriveD(path) || (!onC && !HasDriveC(path)))
      ensures !fat ==> var n := Lookup(nodes, kids, cwd, onC, path);
              if n == NIL || nodes[n].kind != File then r == -1 && out == []
              else r == Min(nodes[n].size, maxlen) && |nodes[n].data| >= r && out == nodes[n].data[..r]
    {
      hide Tree, InRange, LookupRel, Lookup;
      r, fat, out := -1, HasDriveD(path) || (!onC && !HasDriveC(path)), [];
      if fat { return; }
      var n := VfsLookup(path);
      if n == NIL || nodes[n].kind != File { return; }
      assert FileOk(nodes[n]);
      var count := Min(nodes[n].size, maxlen);
      var i := 0;
      while i < count
        invariant 0 <= i <= count && out == nodes[n].data[..i]
      {
        out := out + [nodes[n].data[i]];
        i := i + 1;
      }
      r := count;
    }

    /** What was written is read back, up to the largest file size. */
    method WriteThenRead(path: string, buf: seq<Byte>, buffer: seq<Byte>, bigger: seq<Byte>, maxlen: nat)
      returns (ok: bool, out: seq<Byte>)
      requires Valid() && (buffer == [] || |buffer| == 512) && (bigger == [] || |bigger| == MAX_FILE)
      modifies this`nodes, this`kids
      ensures ok && |buf| <= maxlen ==> out == buf[..Min(|buf|, 16384)]
    {
      hide Tree, InRange, LookupRel, Lookup;
      var r, fat, fault := Write(path, buf, buffer, bigger);
      if fat || r == -1 { return false, []; }
      var r', fat', got := Read(path, maxlen);
      return true, got;
    }

    /** vfs.c:303-304: the node whose sibling link leads to `n`, NIL for the parent's child link. */
    method FindLink(par: int, n: int) returns (prev: int, found: bool, ghost j: int)
      requires Valid() && 0 <= par < |nodes|
      ensures found <==> n in kids[par]
      ensures found ==> 0 <= j < |kids[par]| && kids[par][j] == n && prev == At(kids[par], j - 1)
    {
      hide Tree;
      ChildStart(nodes, kids, par);
      ghost var ks := kids[par];
      var c := nodes[par].child;
      prev, j := NIL, 0;
      while c != NIL && c != n
        invariant 0 <= j <= |ks| && c == At(ks, j) && prev == At(ks, j - 1) && n !in ks[..j]
        decreases |ks| - j
      {
        ChildNext(nodes, kids, par, j);
        prev := c;
        c := nodes[c].sibling;
        j := j + 1;
      }
      found := c != NIL;
      if !found { assert ks[..j] == ks; }
    }

    /** vfs.c:290-309: vfs_unlink. */
    method Unlink(path: string) returns (r: int, fat: bool, ghost n: int)
      requires Valid()
      modifies this`nodes, this`kids
      ensures Valid() && fat == (HasDriveD(path) || (!onC && !HasDriveC(path)))
      ensures n == Lookup(old(nodes), old(kids), cwd, onC, path)
      ensures !fat ==> r == (if n == NIL || n == 0 || (old(nodes)[n].kind == Dir && old(kids)[n] != []) then -1 else 0)
      ensures fat || r == -1 ==> nodes == old(nodes) && kids == old(kids)
      ensures !fat && r == 0 ==> n != NIL && |nodes| == |old(nodes)| && nodes[n].kind == Gone
      ensures !fat && r == 0 ==> Steady(old(nodes), nodes, n) && old(kids)[n] == []
      ensures forall i :: 0 <= i < |nodes| && i < |old(nodes)| && i != n ==>
                nodes[i].data == old(nodes)[i].data && nodes[i].size == old(nodes)[i].size
      ensures !fat && r == 0 && Live(old(nodes), cwd) ==> (Live(nodes, cwd) <==> cwd != n)
      ensures Unique(old(nodes), old(kids)) ==> Unique(nodes, kids)
    {
      hide Tree, InRange, LookupRel, Lookup, Unique;
      r, fat := -1, HasDriveD(path) || (!onC && !HasDriveC(path));
      n := Lookup(nodes, kids, cwd, onC, path);
      if fat { return; }
      var at := VfsLookup(path);
      if at == NIL || at == 0 { return; }
      ChildStart(nodes, kids, at);
      if nodes[at].kind == Dir && nodes[at].child != NIL { return; }
      var par := nodes[at].parent;
      LeafFacts(nodes, kids, at);
      Detach(par, at);
      r := 0;
    }

    /** vfs.c:303-307: the link to the node is led past it, and its slot is marked. */
    method Detach(par: int, at: int)
      requires Valid() && 0 <= par < at < |nodes| && par == nodes[at].parent && kids[at] == []
      modifies this`nodes, this`kids
      ensures Valid() && |nodes| == |old(nodes)| && nodes[at].kind == Gone && Steady(old(nodes), nodes, at)
      ensures forall i :: 0 <= i < |nodes| && i != at ==>
                nodes[i].data == old(nodes)[i].data && nodes[i].size == old(nodes)[i].size
      ensures Unique(old(nodes), old(kids)) ==> Unique(nodes, kids)
    {
      hide Tree, InRange, Unique, Without, Steady;
      LeafFacts(nodes, kids, at);
      ChildStart(nodes, kids, par);
      var prev, found, j := FindLink(par, at);
      ghost var ns, ks := nodes, kids[par];
      if found {
        if prev == NIL {
          nodes := nodes[par := nodes[par].(child := nodes[at].sibling)];
        } else {
          nodes := nodes[prev := nodes[prev].(sibling := nodes[at].sibling)];
        }
      }
      nodes := nodes[at := nodes[at].(kind := Gone, name := "")];
      if found {
        UnlinkTree(ns, kids, par, j);
        assert nodes == Unlinked(ns, ks, par, j);
        if Unique(ns, kids) { UnlinkUnique(ns, kids, par, j); }
        UnlinkSteady(ns, ks, par, j);
        kids := kids[par := Without(ks, j)];
        TreeInRange(nodes, kids);
      } else {
        assert nodes == ns;
        SteadyRefl(ns, at);
      }
    }
  }

  /** A zeroed node with a name, a type and its links. */
  function FreshNode(ns: seq<Node>, name: string, kind: Kind, par: int): Node
    requires 0 <= par < |ns|
  {
    Node(Clip(name, NAME_MAX), kind, par, NIL, ns[par].child, [], 0, 0)
  }

  /** The directory a new node goes into. */
  ghost function ParentDir(ns: seq<Node>, kids: seq<seq<int>>, cwd: int, onC: bool, path: string): (n: int)
    requires InRange(ns, kids) && 0 <= cwd < |ns|
    ensures n == NIL || 0 <= n < |ns|
  {
    if ParentPart(path) != "" then Lookup(ns, kids, cwd, onC, ParentPart(path)) else cwd
  }

  /** vfs.c:213-218: the path names a new node in an existing directory, and there is a free slot. */
  ghost predicate CanMake(ns: seq<Node>, kids: seq<seq<int>>, cwd: int, onC: bool, path: string)
    requires InRange(ns, kids) && 0 <= cwd < |ns|
  {
    var par := ParentDir(ns, kids, cwd, onC, path);
    && NamePart(path) != "" && par != NIL && ns[par].kind == Dir
    && LookupRel(ns, kids, par, NamePart(path)) == NIL && |ns| < MAX_NODES
  }

  /** `node` is the new first child of `par`; nothing else has changed.  Names stay unique unless this one was
      already taken, which only a name that starts with C: can escape notice. */
  ghost predicate Made(ns: seq<Node>, kids: seq<seq<int>>, par: int, node: Node, ns': seq<Node>, kids': seq<seq<int>>) {
    && 0 <= par < |ns| == |kids| && ns' == Grown(ns, par, node) && kids' == GrownKids(kids, par)
    && (Unique(ns, kids) ==> (Unique(ns', kids') <==> !Clashes(ns, kids[par], node.name)))
    && (!HasDriveC(node.name) ==> !Clashes(ns, kids[par], node.name))
  }

  lemma MadeNow(ns: seq<Node>, kids: seq<seq<int>>, par: int, name: string, kind: Kind)
    requires Tree(ns, kids) && InRange(ns, kids) && 0 <= par < |ns| && ns[par].kind == Dir && kind != Gone
    requires Plain(name) && 0 < |name| < NAME_MAX && LookupRel(ns, kids, par, name) == NIL
    ensures NameOk(name)
    ensures var node := FreshNode(ns, name, kind, par);
            Made(ns, kids, par, node, Grown(ns, par, node), GrownKids(kids, par))
  {
    AbsentName(ns, kids, par, name);
    hide LookupRel;
    if Unique(ns, kids) { GrowUnique(ns, kids, par, FreshNode(ns, name, kind, par)); }
  }

  /** The same with a buffer in the new node. */
  lemma MadeFile(ns: seq<Node>, kids: seq<seq<int>>, par: int, node: Node, ns': seq<Node>, kids': seq<seq<int>>,
                 buffer: seq<Byte>)
    requires Made(ns, kids, par, node, ns', kids') && Tree(ns', kids')
    ensures |ns'| == |ns| + 1
    ensures var full := node.(capacity := 512, data := buffer); Made(ns, kids, par, full, ns'[|ns| := full], kids')
    ensures forall i :: 0 <= i < |ns| ==> SameFile(ns[i], ns'[i])
    ensures Tree(ns'[|ns| := node.(capacity := 512, data := buffer)], kids')
    ensures InRange(ns'[|ns| := node.(capacity := 512, data := buffer)], kids')
  {
    var full := node.(capacity := 512, data := buffer);
    var ns2 := ns'[|ns| := full];
    assert ns2 == Grown(ns, par, full);
    OneFile(ns', ns2, kids', |ns|);
    OneFile(ns2, ns', kids', |ns|);
  }

  /** Changing the contents of one file keeps the tree. */
  lemma OneFile(ns: seq<Node>, ns': seq<Node>, kids: seq<seq<int>>, n: int)
    requires Tree(ns, kids) && 0 <= n < |ns| == |ns'| && (forall i :: 0 <= i < |ns| && i != n ==> ns'[i] == ns[i])
    requires ns'[n] == ns[n].(data := ns'[n].data, size := ns'[n].size, capacity := ns'[n].capacity)
    ensures SameLinks(ns, ns') && Tree(ns', kids) && InRange(ns', kids) && Alike(ns, ns')
    ensures (Unique(ns, kids) ==> Unique(ns', kids))
  {
    assert SameLinks(ns, ns');
    hide SameLinks, Tree;
    SameTree(ns, ns', kids);
    TreeInRange(ns', kids);
  }

  /** The path leads to a hollow file, and there are bytes for it that fit its capacity. */
  ghost predicate NullWrite(ns: seq<Node>, kids: seq<seq<int>>, cwd: int, onC: bool, path: string, len: int)
    requires InRange(ns, kids) && 0 <= cwd < |ns|
  {
    var n := Lookup(ns, kids, cwd, onC, path);
    0 <= n < |ns| && Hollow(ns[n]) && 0 < len <= 512
  }

  lemma GrownRange(ns: seq<Node>, kids: seq<seq<int>>, par: int, node: Node)
    requires InRange(ns, kids) && 0 <= par < |ns| && node.parent == par
    ensures InRange(Grown(ns, par, node), GrownKids(kids, par))
  {
    var kids' := GrownKids(kids, par);
    forall i, j | 0 <= i < |kids'| && 0 <= j < |kids'[i]| ensures 0 <= kids'[i][j] <= |ns| {
      if i == par && 0 < j { assert kids'[i][j] == kids[i][j - 1]; }
    }
  }

  /** The tree after vfs_create_file, if a write calls it: `buffer` is what kmalloc gives. */
  ghost function Created(ns: seq<Node>, kids: seq<seq<int>>, cwd: int, onC: bool, path: string, buffer: seq<Byte>):
    (r: (seq<Node>, seq<seq<int>>))
    requires InRange(ns, kids) && 0 <= cwd < |ns|
    ensures InRange(r.0, r.1) && |ns| <= |r.0|
  {
    var par := ParentDir(ns, kids, cwd, onC, path);
    if Lookup(ns, kids, cwd, onC, path) == NIL && onC && CanMake(ns, kids, cwd, onC, path) then
      var node := FreshNode(ns, NamePart(path), File, par).(capacity := 512, data := buffer);
      GrownRange(ns, kids, par, node);
      (Grown(ns, par, node), GrownKids(kids, par))
    else (ns, kids)
  }

  /** vfs.c:253-257: the tree that a write looks its file up in for good. */
  ghost function Opened(ns: seq<Node>, kids: seq<seq<int>>, cwd: int, onC: bool, path: string, buffer: seq<Byte>):
    (r: (seq<Node>, seq<seq<int>>))
    requires InRange(ns, kids) && 0 <= cwd < |ns|
    ensures InRange(r.0, r.1) && |ns| <= |r.0|
  {
    if buffer == [] then (ns, kids) else Created(ns, kids, cwd, onC, path, buffer)
  }

  /** `len` bytes do not go into the file: there is no memory for a larger buffer, or none was there before. */
  predicate NoRoom(file: Node, len: nat, bigger: seq<Byte>) {
    if Min(len, MAX_FILE) > file.capacity then bigger == [] else Hollow(file) && 0 < len
  }

  /** The path leads to no file, or to one that the bytes do not go into. */
  ghost predicate Fails(ns: seq<Node>, kids: seq<seq<int>>, cwd: int, onC: bool, path: string, len: nat,
                        bigger: seq<Byte>)
    requires InRange(ns, kids) && 0 <= cwd < |ns|
  {
    var n := Lookup(ns, kids, cwd, onC, path);
    n == NIL || ns[n].kind != File || NoRoom(ns[n], len, bigger)
  }

  /** The two differ in the contents of file `n`, which are now these bytes. */
  ghost predicate Stored(ns: seq<Node>, n: int, bytes: seq<Byte>, ns': seq<Node>) {
    && |ns'| == |ns| && (forall i :: 0 <= i < |ns| && i != n ==> ns'[i] == ns[i]) && Contains(ns', n, bytes)
    && ns'[n] == ns[n].(data := ns'[n].data, size := ns'[n].size, capacity := ns'[n].capacity)
  }

  /** vfs.c:243-271: the result of a write on C:, and the tree after it. */
  ghost predicate Wrote(ns: seq<Node>, kids: seq<seq<int>>, cwd: int, onC: bool, path: string, bytes: seq<Byte>,
                        buffer: seq<Byte>, bigger: seq<Byte>, r: int, ns': seq<Node>, kids': seq<seq<int>>)
    requires InRange(ns, kids) && 0 <= cwd < |ns|
  {
    var (ms, ks) := Opened(ns, kids, cwd, onC, path, buffer);
    if Fails(ms, ks, cwd, onC, path, |bytes|, bigger) then
      r == -1 && (ns', kids') == Created(ns, kids, cwd, onC, path, buffer)
    else
      r == Min(|bytes|, MAX_FILE) && kids' == ks && Stored(ms, Lookup(ms, ks, cwd, onC, path), bytes[..r], ns')
  }

  /** A path that vfs_create_file does not cut off leads to nothing, the new file or its directory. */
  lemma OpenedLookup(ns: seq<Node>, kids: seq<seq<int>>, cwd: int, path: string, ns': seq<Node>,
                     kids': seq<seq<int>>)
    requires Tree(ns, kids) && InRange(ns, kids) && 0 <= cwd < |ns| && |path| < PATH_MAX
    requires Lookup(ns, kids, cwd, true, path) == NIL && CanMake(ns, kids, cwd, true, path)
    requires OneMore(ns, kids, ParentDir(ns, kids, cwd, true, path), ns', kids')
    ensures Lookup(ns', kids', cwd, true, path) in {NIL, |ns|, ParentDir(ns, kids, cwd, true, path)}
  {
    var par, p, t := ParentDir(ns, kids, cwd, true, path), ParentPart(path), path[LastSep(path) + 1..];
    SplitFacts(path);
    hide Tree, OneMore, ParentPart, NamePart, LastSep, LookupRel, InRange, CanMake, StartOf, HasDriveC, HasDriveD;
    OneMoreRange(ns, kids, par, ns', kids');
    if ForD(path, true) { return; }
    LookupStart(ns, kids, cwd, path);
    LookupStart(ns', kids', cwd, path);
    if p == [] {
      PlainTail(path);
      LookupWalk(ns, kids, StartOf(cwd, path), path);
      LookupWalk(ns', kids', StartOf(cwd, path), path);
      PlainGrown(ns, kids, par, ns', kids', StartOf(cwd, path), StripC(path));
    } else {
      LookupStart(ns, kids, cwd, p);
      hide Lookup;
      TailGrown(ns, kids, cwd, par, p, path[|p|], t, ns', kids');
    }
  }

  lemma SplitFacts(path: string)
    requires |path| < PATH_MAX
    ensures var p, t := ParentPart(path), path[LastSep(path) + 1..];
            && Plain(t) && (if p == [] then LastSep(path) <= 0
                            else |p| < |path| && IsSep(path[|p|]) && path == p + [path[|p|]] + t)
    ensures ForD(ParentPart(path), true) ==> ForD(path, true)
    ensures path[LastSep(path) + 1..] == [] ==> NamePart(path) == []
  {
    var k := LastSep(path);
    hide LastSep;
    assert Clip(path, PATH_MAX) == path;
    assert ParentPart(path) == if k < 0 then "" else path[..k];
    assert NamePart(path) == Clip(path[k + 1..], NAME_MAX);
    hide NamePart, ParentPart;
    if 0 <= k { CutAt(path, k); }
  }

  lemma CutAt(path: string, k: int)
    requires 0 <= k < |path|
    ensures path == path[..k] + [path[k]] + path[k + 1..]
  {
  }

  lemma OneMoreRange(ns: seq<Node>, kids: seq<seq<int>>, par: int, ns': seq<Node>, kids': seq<seq<int>>)
    requires OneMore(ns, kids, par, ns', kids')
    ensures InRange(ns, kids) && InRange(ns', kids') && 0 <= par < |ns| < |ns'|
  {
  }

  lemma LookupStart(ns: seq<Node>, kids: seq<seq<int>>, cwd: int, path: string)
    requires InRange(ns, kids) && 0 <= cwd < |ns| && !ForD(path, true)
    ensures 0 <= StartOf(cwd, path) < |ns|
    ensures Lookup(ns, kids, cwd, true, path) == LookupRel(ns, kids, StartOf(cwd, path), path)
  {
  }

  lemma LookupWalk(ns: seq<Node>, kids: seq<seq<int>>, base: int, path: string)
    requires InRange(ns, kids) && 0 <= base < |ns|
    ensures LookupRel(ns, kids, base, path) == WalkParts(ns, kids, base, Parts(StripC(path)))
  {
  }

  /** Where vfs_lookup starts on the C: drive. */
  function StartOf(cwd: int, path: string): int {
    if path != [] && (HasDriveC(path) || IsSep(path[0])) then 0 else cwd
  }

  lemma TailGrown(ns: seq<Node>, kids: seq<seq<int>>, cwd: int, par: int, p: string, sep: char, t: string,
                  ns': seq<Node>, kids': seq<seq<int>>)
    requires OneMore(ns, kids, par, ns', kids') && InRange(ns, kids) && 0 <= cwd < |ns|
    requires InRange(ns', kids') && 0 <= par < |ns| < |ns'|
    requires p != [] && IsSep(sep) && Plain(t) && t != [] && LookupRel(ns, kids, StartOf(cwd, p), p) == par
    ensures StartOf(cwd, p + [sep] + t) == StartOf(cwd, p)
    ensures var c := LookupRel(ns', kids', StartOf(cwd, p), p + [sep] + t);
            c == NIL || c == |ns| || c == par || c == LookupRel(ns, kids, StartOf(cwd, p), p + [sep] + t)
  {
    var base, a, b := StartOf(cwd, p), Parts(StripC(p)), Parts(t);
    assert HasDriveC(p + [sep] + t) == HasDriveC(p);
    PartsOfTail(p, sep, t);
    hide OneMore, InRange, WalkParts, Parts, StripC;
    WalkConcat(ns, kids, base, a, b);
    WalkConcat(ns', kids', base, a, b);
    PrefixGrown(ns, kids, par, ns', kids', base, base, a);
    if WalkParts(ns', kids', base, a) != NIL { PlainGrown(ns, kids, par, ns', kids', par, t); }
  }

  lemma PlainTail(path: string)
    requires LastSep(path) <= 0
    ensures Plain(StripC(path))
  {
    if LastSep(path) == 0 { assert Skip(path[1..]) == path[1..]; }
  }

  lemma PartsOfTail(p: string, sep: char, t: string)
    requires p != [] && IsSep(sep) && Plain(t) && t != []
    ensures Parts(StripC(p + [sep] + t)) == Parts(StripC(p)) + Parts(t)
  {
    var s := p + [sep] + t;
    if HasDriveC(p) {
      assert s[2..] == p[2..] + [sep] + t;
      PartsSplit(p[2..], sep, t);
    } else {
      PartsSplit(p, sep, t);
    }
  }

  /** For such a path a write goes through a null pointer exactly if it leads to a hollow file before the call. */
  lemma OpenedNull(ns: seq<Node>, kids: seq<seq<int>>, cwd: int, onC: bool, path: string, buffer: seq<Byte>, len: int)
    requires Tree(ns, kids) && InRange(ns, kids) && 0 <= cwd < |ns| && |path| < PATH_MAX
    ensures var (ns', kids') := Opened(ns, kids, cwd, onC, path, buffer);
            NullWrite(ns', kids', cwd, onC, path, len) <==> NullWrite(ns, kids, cwd, onC, path, len)
  {
    var n, par := Lookup(ns, kids, cwd, onC, path), ParentDir(ns, kids, cwd, onC, path);
    hide Lookup, Tree, InRange, LookupRel, NamePart, ParentPart;
    if n == NIL && onC && CanMake(ns, kids, cwd, onC, path) && buffer != [] {
      OpenedMore(ns, kids, par, NamePart(path), buffer);
      var (ns', kids') := Opened(ns, kids, cwd, onC, path, buffer);
      OneMoreRange(ns, kids, par, ns', kids');
      OpenedLookup(ns, kids, cwd, path, ns', kids');
    }
  }

  lemma MadeOpens(ns: seq<Node>, kids: seq<seq<int>>, cwd: int, onC: bool, path: string, buffer: seq<Byte>,
                  ns': seq<Node>, kids': seq<seq<int>>)
    requires InRange(ns, kids) && 0 <= cwd < |ns| && Lookup(ns, kids, cwd, onC, path) == NIL
    requires onC && CanMake(ns, kids, cwd, onC, path)
    requires MadeAt(ns, kids, cwd, onC, path, File, buffer, ns', kids')
    ensures Created(ns, kids, cwd, onC, path, buffer) == (ns', kids')
  {
    hide Lookup, LookupRel, NamePart, ParentPart, InRange, Unique, Clashes;
  }

  lemma OpenedMore(ns: seq<Node>, kids: seq<seq<int>>, par: int, name: string, buffer: seq<Byte>)
    requires Tree(ns, kids) && InRange(ns, kids) && 0 <= par < |ns| < MAX_NODES && ns[par].kind == Dir
    requires Plain(name) && 0 < |name| < NAME_MAX && LookupRel(ns, kids, par, name) == NIL
    ensures var node := FreshNode(ns, name, File, par).(capacity := 512, data := buffer);
            OneMore(ns, kids, par, Grown(ns, par, node), GrownKids(kids, par))
  {
    AbsentName(ns, kids, par, name);
    hide Tree, InRange, LookupRel;
    var node := FreshNode(ns, name, File, par).(capacity := 512, data := buffer);
    GrowTree(ns, kids, par, node);
    TreeInRange(Grown(ns, par, node), GrownKids(kids, par));
  }

  /** Node `n` is a file with exactly these bytes. */
  ghost predicate Contains(ns: seq<Node>, n: int, bytes: seq<Byte>) {
    0 <= n < |ns| && ns[n].kind == File && ns[n].size == |bytes| <= |ns[n].data| && ns[n].data[..|bytes|] == bytes
  }

  predicate SameFile(a: Node, b: Node) { a.data == b.data && a.size == b.size && a.kind == b.kind && a.name == b.name }

  lemma AlikeRefl(ns: seq<Node>)
    ensures Alike(ns, ns)
  {
  }

  lemma LookupAlike(ns: seq<Node>, ns': seq<Node>, kids: seq<seq<int>>, cwd: int, onC: bool, path: string)
    requires Alike(ns, ns') && InRange(ns, kids) && InRange(ns', kids) && 0 <= cwd < |ns|
    ensures Lookup(ns', kids, cwd, onC, path) == Lookup(ns, kids, cwd, onC, path)
  {
    hide Alike, InRange;
    AlikeSize(ns, ns');
    WalkAlike(ns, ns', kids, 0, Parts(StripC(path)));
    WalkAlike(ns, ns', kids, cwd, Parts(StripC(path)));
  }

  lemma SteadyAlike(ns: seq<Node>, ns1: seq<Node>, ns2: seq<Node>)
    requires Steady(ns, ns1, NIL) && Alike(ns1, ns2)
    ensures Steady(ns, ns2, NIL)
  {
  }

  lemma AlikeSize(ns: seq<Node>, ns': seq<Node>)
    requires Alike(ns, ns')
    ensures |ns| == |ns'|
  {
  }

  /** Making a node leaves every other one in its place, and names unique if the new one does not start with C: */
  lemma MadeSteady(ns: seq<Node>, kids: seq<seq<int>>, par: int, node: Node, ns': seq<Node>, kids': seq<seq<int>>)
    requires Made(ns, kids, par, node, ns', kids')
    ensures Steady(ns, ns', NIL) && (Unique(ns, kids) && !HasDriveC(node.name) ==> Unique(ns', kids'))
  {
  }

  lemma MadeLast(ns: seq<Node>, kids: seq<seq<int>>, par: int, node: Node, ns': seq<Node>, kids': seq<seq<int>>)
    requires Made(ns, kids, par, node, ns', kids')
    ensures |ns'| == |ns| + 1 && ns'[|ns|] == node
  {
  }

  /** The node that the path names has been made in the directory that the path leads to. */
  ghost predicate MadeAt(ns: seq<Node>, kids: seq<seq<int>>, cwd: int, onC: bool, path: string, kind: Kind,
                         buffer: seq<Byte>, ns': seq<Node>, kids': seq<seq<int>>)
    requires InRange(ns, kids) && 0 <= cwd < |ns|
  {
    var par := ParentDir(ns, kids, cwd, onC, path);
    par != NIL &&
    var node := FreshNode(ns, NamePart(path), kind, par);
    Made(ns, kids, par, if kind == File then node.(capacity := 512, data := buffer) else node, ns', kids')
  }

  lemma LeafFacts(ns: seq<Node>, kids: seq<seq<int>>, n: int)
    requires Tree(ns, kids) && 0 < n < |ns|
    ensures 0 <= ns[n].parent < n && (ns[n].kind != Gone <==> n in kids[ns[n].parent])
    ensures (ns[n].kind != Dir ==> kids[n] == [])
    ensures ns[n].child == NIL <==> kids[n] == []
    ensures ns[n].kind == Gone ==> ns[n].name == ""
  {
    var par := ns[n].parent;
    assert NodeOk(ns, kids, n) && NodeOk(ns, kids, par);
    if kids[n] != [] { assert ChildOk(ns, kids, n, 0); }
    if n in kids[par] {
      var j :| 0 <= j < |kids[par]| && kids[par][j] == n;
      assert ChildOk(ns, kids, par, j);
    }
  }

  lemma SteadyRefl(ns: seq<Node>, except: int)
    ensures Steady(ns, ns, except)
  {
  }

  lemma ClipConcat(a: string, b: string, max: int)
    requires 0 < max
    ensures Clip(Clip(a, max) + b, max) == Clip(a + b, max)
  {
    if |a| >= max { assert (a[..max - 1] + b)[..max - 1] == (a + b)[..max - 1]; }
  }

  /** What is printed when the names from `k` on are done, last one first. */
  function Text(parts: seq<string>, k: nat): string
    requires k <= |parts|
  {
    "C:/" + JoinBack(parts[k..]) + if 0 < k < |parts| then "/" else ""
  }

  lemma TextEnds(parts: seq<string>)
    ensures Text(parts, |parts|) == "" + "C:/" && Text(parts, 0) == "C:/" + JoinBack(parts)
  {
    assert parts[0..] == parts && parts[|parts|..] == [];
  }

  lemma TextStep(parts: seq<string>, k: nat)
    requires k < |parts|
    ensures Text(parts, k) == if k > 0 then Text(parts, k + 1) + parts[k] + "/" else Text(parts, k + 1) + parts[k]
  {
    assert parts[k..][1..] == parts[k + 1..];
  }

  lemma ChildStart(ns: seq<Node>, kids: seq<seq<int>>, i: int)
    requires Tree(ns, kids) && 0 <= i < |ns|
    ensures ns[i].child == At(kids[i], 0) && forall j :: 0 <= j < |kids[i]| ==> 0 <= kids[i][j] < |ns|
  {
    assert NodeOk(ns, kids, i);
    KidsInRange(ns, kids, i);
  }

  lemma ChildNext(ns: seq<Node>, kids: seq<seq<int>>, i: int, j: int)
    requires Tree(ns, kids) && 0 <= i < |ns| && 0 <= j < |kids[i]|
    ensures 0 <= kids[i][j] < |ns| && ns[kids[i][j]].sibling == At(kids[i], j + 1)
  {
    assert NodeOk(ns, kids, i) && ChildOk(ns, kids, i, j);
  }

  /** One turn of the lookup loop takes off one part and makes progress. */
  lemma NextPart(path: string, here: nat, cut: nat, pos: nat)
    requires here < |path| && here <= cut <= pos <= |path| && cut == here + Cut(path[here..], 0)
    requires path[pos..] == Skip(path[cut..])
    ensures here < pos && Parts(path[here..]) == [path[here..cut]] + Parts(path[pos..])
  {
    var s := path[here..];
    var k := Cut(s, 0);
    assert s[..k] == path[here..cut] && s[k..] == path[cut..];
    if k == 0 { assert IsSep(s[0]); }
  }

  // ---- what goes wrong --------------------------------------------------------------------------------------

  /** Every name that starts with C:, such as C:a, can be given twice: it is looked up without its first two
      characters. */
  method DriveNameTwice(name: string) returns (fs: Ram)
    requires HasDriveC(name) && NameOk(name) && NameOk(name[2..])
    ensures fs.Valid() && !Unique(fs.nodes, fs.kids)
    ensures |fs.nodes| == 3 && fs.nodes[1].name == fs.nodes[2].name == name
  {
    fs := new Ram();
    ghost var ns, kids := fs.nodes, fs.kids;
    assert ns[0].kind == Dir;
    hide *;
    MakeUnseen(fs, name);
    ghost var ns1, kids1 := fs.nodes, fs.kids;
    OneDir(ns, kids, ns1, kids1, name);
    MakeUnseen(fs, name);
    Twice(ns1, kids1, name, fs.nodes, fs.kids);
  }

  method MakeUnseen(fs: Ram, name: string)
    requires fs.Valid() && fs.onC && fs.cwd == 0 && |fs.nodes| < MAX_NODES && fs.nodes[0].kind == Dir
    requires HasDriveC(name) && NameOk(name) && NameOk(name[2..])
    requires forall j :: 0 <= j < |fs.kids[0]| ==> fs.nodes[fs.kids[0][j]].name == name
    modifies fs`nodes, fs`kids
    ensures fs.Valid() && |old(fs.nodes)| == |old(fs.kids)| && 0 < |old(fs.nodes)|
    ensures var node := FreshNode(old(fs.nodes), name, Dir, 0);
            Made(old(fs.nodes), old(fs.kids), 0, node, fs.nodes, fs.kids) && node.name == name
  {
    ghost var ns, kids := fs.nodes, fs.kids;
    Unseen(ns, kids, name);
    hide *;
    var r, fat := fs.Mkdir(name);
    DirMade(ns, kids, name, fs.nodes, fs.kids);
  }

  /** Such a name is looked up in the root without its first two characters. */
  lemma Unseen(ns: seq<Node>, kids: seq<seq<int>>, name: string)
    requires InRange(ns, kids) && |ns| < MAX_NODES && ns[0].kind == Dir
    requires HasDriveC(name) && NameOk(name) && NameOk(name[2..])
    requires forall j :: 0 <= j < |kids[0]| ==> ns[kids[0][j]].name == name
    ensures CanMake(ns, kids, 0, true, name) && !ForD(name, true)
  {
    PlainSplit(name);
    var rest := name[2..];
    assert StripC(name) == rest;
    PartsOfName(rest);
    assert rest != name && FindName(ns, kids[0], rest) == NIL;
    assert LookupRel(ns, kids, 0, name) == NIL;
    hide LookupRel, NamePart, ParentPart, InRange;
  }

  lemma DirMade(ns: seq<Node>, kids: seq<seq<int>>, name: string, ns': seq<Node>, kids': seq<seq<int>>)
    requires InRange(ns, kids) && MadeAt(ns, kids, 0, true, name, Dir, [], ns', kids') && NameOk(name)
    ensures Made(ns, kids, 0, FreshNode(ns, name, Dir, 0), ns', kids') && FreshNode(ns, name, Dir, 0).name == name
  {
    PlainSplit(name);
    hide LookupRel, NamePart, ParentPart, InRange, Made;
  }

  lemma OneDir(ns: seq<Node>, kids: seq<seq<int>>, ns': seq<Node>, kids': seq<seq<int>>, name: string)
    requires |ns| == 1 && kids == [[]] && Made(ns, kids, 0, FreshNode(ns, name, Dir, 0), ns', kids')
    requires ns[0].kind == Dir && FreshNode(ns, name, Dir, 0).name == name
    ensures |ns'| == 2 && kids' == [[1], []] && ns'[0].kind == Dir && ns'[1].name == name
    ensures Unique(ns', kids')
  {
    FirstMade(ns, kids, FreshNode(ns, name, Dir, 0), ns', kids');
    hide Made;
  }

  lemma Twice(ns: seq<Node>, kids: seq<seq<int>>, name: string, ns': seq<Node>, kids': seq<seq<int>>)
    requires |ns| == 2 && kids == [[1], []] && ns[1].name == name && Unique(ns, kids)
    requires Made(ns, kids, 0, FreshNode(ns, name, Dir, 0), ns', kids') && FreshNode(ns, name, Dir, 0).name == name
    ensures !Unique(ns', kids') && |ns'| == 3 && ns'[1].name == ns'[2].name == name
  {
    hide Unique;
    assert ns[kids[0][0]].name == name;
    assert Clashes(ns, kids[0], name);
  }

  /** A file that was created without memory takes no bytes: the next short write to it faults. */
  method HollowFaults(fs: Ram, name: string, bytes: seq<Byte>, buffer: seq<Byte>, bigger: seq<Byte>)
    returns (fault: bool)
    requires fs.Valid() && fs.onC && NameOk(name) && !HasDriveC(name) && !HasDriveD(name)
    requires CanMake(fs.nodes, fs.kids, fs.cwd, fs.onC, name) && 0 < |bytes| <= 512
    requires (buffer == [] || |buffer| == 512) && (bigger == [] || |bigger| == MAX_FILE)
    modifies fs`nodes, fs`kids
    ensures fault
  {
    ghost var ns, kids := fs.nodes, fs.kids;
    assert !ForD(name, true) && |name| < PATH_MAX;
    hide *;
    var r, fat, made := fs.CreateFile(name, []);
    HollowFound(ns, kids, fs.cwd, name, fs.nodes, fs.kids, |bytes|);
    r, fat, fault := fs.Write(name, bytes, buffer, bigger);
  }

  lemma HollowFound(ns: seq<Node>, kids: seq<seq<int>>, cwd: int, name: string, ns': seq<Node>,
                    kids': seq<seq<int>>, len: int)
    requires InRange(ns, kids) && InRange(ns', kids') && 0 <= cwd < |ns| && CanMake(ns, kids, cwd, true, name)
    requires MadeAt(ns, kids, cwd, true, name, File, [], ns', kids') && NameOk(name)
    requires !HasDriveC(name) && !HasDriveD(name) && 0 < len <= 512
    ensures cwd < |ns'| && NullWrite(ns', kids', cwd, true, name, len)
  {
    PlainSplit(name);
    hide LookupRel, InRange, NamePart, ParentPart, Made;
    var node := FreshNode(ns, name, File, cwd).(capacity := 512, data := []);
    MadeLast(ns, kids, cwd, node, ns', kids');
    MadeFound(ns, kids, cwd, node, ns', kids');
  }

  /** A path that vfs_create_file cuts off after 255 characters can lead to a hollow file only once the file named
      at the cut is there: it led nowhere before the call that faults. */
  method CutPathFaults(bytes: seq<Byte>, buffer: seq<Byte>, bigger: seq<Byte>) returns (ghost led: int, fault: bool)
    requires 0 < |bytes| <= 512 == |buffer| && (bigger == [] || |bigger| == MAX_FILE)
    ensures led == NIL && fault
  {
    var path := LongPath("n", "h");
    var fs := OneHollow("h");
    hide *;
    LongWrite(fs.nodes, fs.kids, "n", "h", buffer, |bytes|);
    led := Lookup(fs.nodes, fs.kids, 0, true, path);
    var r, fat;
    r, fat, fault := fs.Write(path, bytes, buffer, bigger);
  }

  /** The root and in it one file, which was created without memory. */
  method OneHollow(name: string) returns (fs: Ram)
    requires NameOk(name) && !HasDriveC(name) && !HasDriveD(name)
    ensures fresh(fs) && fs.Valid() && fs.onC && fs.cwd == 0 && LoneHollow(fs.nodes, fs.kids, name)
  {
    fs := new Ram();
    ghost var ns, kids := fs.nodes, fs.kids;
    FirstName(ns, kids, name);
    assert ns[0].kind == Dir && ns[0].parent == NIL;
    hide *;
    var r, fat, made := fs.CreateFile(name, []);
    FirstFile(ns, kids, name, fs.nodes, fs.kids);
  }

  ghost predicate LoneHollow(ns: seq<Node>, kids: seq<seq<int>>, name: string) {
    && |ns| == 2 && kids == [[1], []] && ns[0].kind == Dir && ns[0].parent == NIL
    && Hollow(ns[1]) && ns[1].name == name
  }

  lemma FirstName(ns: seq<Node>, kids: seq<seq<int>>, name: string)
    requires InRange(ns, kids) && |ns| == 1 && ns[0].kind == Dir && kids == [[]]
    requires NameOk(name) && !HasDriveC(name) && !HasDriveD(name)
    ensures CanMake(ns, kids, 0, true, name) && !ForD(name, true)
  {
    PlainSplit(name);
    LookupName(ns, kids, 0, name);
    hide LookupRel, NamePart, ParentPart, InRange;
  }

  lemma FirstFile(ns: seq<Node>, kids: seq<seq<int>>, name: string, ns': seq<Node>, kids': seq<seq<int>>)
    requires InRange(ns, kids) && |ns| == 1 && ns[0].kind == Dir && ns[0].parent == NIL && kids == [[]]
    requires NameOk(name) && MadeAt(ns, kids, 0, true, name, File, [], ns', kids')
    ensures LoneHollow(ns', kids', name)
  {
    PlainSplit(name);
    hide LookupRel, NamePart, ParentPart, InRange, Made;
    FirstMade(ns, kids, FreshNode(ns, name, File, 0).(capacity := 512, data := []), ns', kids');
  }

  lemma FirstMade(ns: seq<Node>, kids: seq<seq<int>>, node: Node, ns': seq<Node>, kids': seq<seq<int>>)
    requires |ns| == 1 && kids == [[]] && Made(ns, kids, 0, node, ns', kids')
    ensures ns' == [ns[0].(child := 1), node] && kids' == [[1], []]
  {
    hide Clashes, Unique;
    assert [1] + kids[0] == [1];
  }

  /** 254 slashes, a name, the way up and another name: only the first name is within the 255 characters. */
  function LongPath(a: string, b: string): string { seq(PATH_MAX - 2, _ => '/') + (a + "/" + (".." + "/" + b)) }

  lemma LongWrite(ns: seq<Node>, kids: seq<seq<int>>, a: string, b: string, buffer: seq<Byte>, len: int)
    requires InRange(ns, kids) && LoneHollow(ns, kids, b) && buffer != [] && 0 < len <= 512
    requires |a| == 1 && NameOk(a) && NameOk(b) && a != b
    ensures Lookup(ns, kids, 0, true, LongPath(a, b)) == NIL
    ensures var (ns', kids') := Opened(ns, kids, 0, true, LongPath(a, b), buffer);
            NullWrite(ns', kids', 0, true, LongPath(a, b), len)
  {
    var path, parts := LongPath(a, b), [a, "..", b];
    LongSplit(a, b);
    LongParts(a, "..", b);
    LookupName(ns, kids, 0, a);
    assert kids[0][1..] == [];
    assert Enter(ns, kids, 0, a) == NIL;
    hide LookupRel, NamePart, ParentPart, InRange, Parts, StripC, LongPath, Enter;
    LookupWalk(ns, kids, 0, path);
    LookupWalk(ns, kids, 0, ParentPart(path));
    assert CanMake(ns, kids, 0, true, path);
    var (ns', kids') := Opened(ns, kids, 0, true, path, buffer);
    LookupWalk(ns', kids', 0, path);
    LongEnter(ns', kids', a, b);
    assert parts[1..] == ["..", b] && ["..", b][1..] == [b] && [b][1..] == [];
    assert WalkParts(ns', kids', 0, [b]) == 1;
    assert WalkParts(ns', kids', 2, ["..", b]) == 1;
    assert WalkParts(ns', kids', 0, parts) == 1;
  }

  lemma LongEnter(ns: seq<Node>, kids: seq<seq<int>>, a: string, b: string)
    requires InRange(ns, kids) && |ns| == 3 && |kids[0]| == 2 && kids[0][0] == 2 && kids[0][1] == 1
    requires ns[0].kind == Dir && ns[2].parent == 0 && ns[2].name == a && ns[1].name == b
    requires NameOk(a) && NameOk(b) && a != b
    ensures Enter(ns, kids, 0, a) == 2 && Enter(ns, kids, 2, "..") == 0 && Enter(ns, kids, 0, b) == 1
  {
    assert kids[0][1..][0] == 1;
  }

  lemma LongParts(a: string, up: string, b: string)
    requires Plain(a) && Plain(up) && Plain(b)
    requires 0 < |a| < NAME_MAX && 0 < |up| < NAME_MAX && 0 < |b| < NAME_MAX
    ensures Parts(a + "/" + (up + "/" + b)) == [a, up, b]
  {
    PartsOfJoin([a, up, b]);
    hide Parts, Plain;
    JoinThree(a, up, b);
  }

  lemma JoinThree(a: string, b: string, c: string)
    ensures Join([a, b, c]) == a + "/" + (b + "/" + c)
  {
    assert [a, b, c][1..] == [b, c] && [b, c][1..] == [c];
    assert Join([b, c]) == b + "/" + Join([c]);
  }

  lemma LongSplit(a: string, b: string)
    requires |a| == 1 && Plain(a)
    ensures var path := LongPath(a, b);
            && path[0] == path[1] == '/' && NamePart(path) == a && StripC(path) == a + "/" + (".." + "/" + b)
            && var up := ParentPart(path); |up| > 1 && up[0] == up[1] == '/' && StripC(up) == ""
  {
    var path, rest := LongPath(a, b), a + "/" + (".." + "/" + b);
    SlashesSkipped(PATH_MAX - 2, rest);
    SlashesSkipped(PATH_MAX - 3, "");
    var t := Clip(path, PATH_MAX);
    assert t == path[..PATH_MAX - 1];
    assert LastSep(t) == PATH_MAX - 3;
    var up := t[..PATH_MAX - 3];
    assert up == seq(PATH_MAX - 3, _ => '/') + "";
    assert t[PATH_MAX - 2..] == a;
    assert !HasDriveC(path) && !HasDriveC(up);
    hide Skip, LastSep;
  }

  lemma {:induction false} SlashesSkipped(n: nat, rest: string)
    requires rest == [] || !IsSep(rest[0])
    ensures Skip(seq(n, _ => '/') + rest) == rest
  {
    var s := seq(n, _ => '/') + rest;
    if n == 0 {
      assert s == rest;
    } else {
      SlashesSkipped(n - 1, rest);
      assert s[1..] == seq(n - 1, _ => '/') + rest;
    }
  }

  lemma PlainSplit(name: string)
    requires Plain(name) && |name| < NAME_MAX
    ensures ParentPart(name) == "" && NamePart(name) == name
  {
  }

  /** A new file is found under its name in the directory it was made in. */
  lemma MadeFound(ns: seq<Node>, kids: seq<seq<int>>, cwd: int, node: Node, ns': seq<Node>, kids': seq<seq<int>>)
    requires InRange(ns, kids) && InRange(ns', kids') && 0 <= cwd < |ns| && ns[cwd].kind == Dir
    requires Made(ns, kids, cwd, node, ns', kids') && NameOk(node.name)
    requires !HasDriveC(node.name) && !HasDriveD(node.name)
    ensures Lookup(ns', kids', cwd, true, node.name) == |ns|
  {
    hide Unique, Clashes;
    LookupName(ns', kids', cwd, node.name);
    hide LookupRel;
  }

  // ---- whole runs -------------------------------------------------------------------------------------------

  /** A call, a write with what kmalloc gave: a buffer for a new file and one for a file that grows, each [] if
      there was no memory. */
  datatype Call =
    | MakeDir(path: string)
    | Put(path: string, bytes: seq<Byte>, buffer: seq<Byte>, bigger: seq<Byte>)
    | Remove(path: string)
    | Go(path: string)

  /** The name of a new node does not start with C:, and the call stays on the C: drive. */
  predicate Polite(c: Call) {
    && !HasDriveD(c.path) && (c.MakeDir? || c.Put? ==> !HasDriveC(NamePart(c.path)))
    && (c.Put? ==> (c.buffer == [] || |c.buffer| == 512) && (c.bigger == [] || |c.bigger| == MAX_FILE))
  }

  /** The file system while the C: drive is the current one. */
  datatype Snap = Snap(nodes: seq<Node>, kids: seq<seq<int>>, cwd: int)

  ghost function SnapOf(fs: Ram): Snap
    reads fs
  {
    Snap(fs.nodes, fs.kids, fs.cwd)
  }

  ghost predicate Good(s: Snap) {
    Tree(s.nodes, s.kids) && InRange(s.nodes, s.kids) && Unique(s.nodes, s.kids) && 0 <= s.cwd < |s.nodes|
  }

  /** Where a path leads. */
  ghost function Found(s: Snap, path: string): (n: int)
    requires Good(s)
    ensures n == NIL || 0 <= n < |s.nodes|
  {
    Lookup(s.nodes, s.kids, s.cwd, true, path)
  }

  /** The node that the call writes or removes, NIL for none. */
  ghost function Hit(s: Snap, c: Call): int
    requires Good(s)
  {
    match c
    case Put(path, _, buffer, _) =>
      var (ns, kids) := Opened(s.nodes, s.kids, s.cwd, true, path, buffer);
      Lookup(ns, kids, s.cwd, true, path)
    case Remove(path) => Found(s, path)
    case _ => NIL
  }

  /** The call writes through the null pointer of a hollow file. */
  ghost predicate Faults(s: Snap, c: Call)
    requires Good(s)
  {
    c.Put? &&
    var (ns, kids) := Opened(s.nodes, s.kids, s.cwd, true, c.path, c.buffer);
    NullWrite(ns, kids, s.cwd, true, c.path, |c.bytes|)
  }

  /** Node `n` is gone, and the others are what and where they were. */
  ghost predicate Dropped(ns: seq<Node>, kids: seq<seq<int>>, n: int, ns': seq<Node>) {
    && 0 < n < |ns| == |ns'| == |kids| && kids[n] == [] && ns'[n].kind == Gone && Steady(ns, ns', n)
    && forall i :: 0 <= i < |ns| && i != n ==> ns'[i].data == ns[i].data && ns'[i].size == ns[i].size
  }

  /** What a call returns and leaves behind. */
  ghost predicate Does(s: Snap, c: Call, r: int, s': Snap)
    requires Good(s)
  {
    match c
    case MakeDir(path) =>
      s'.cwd == s.cwd &&
      if CanMake(s.nodes, s.kids, s.cwd, true, path) then
        r == 0 && MadeAt(s.nodes, s.kids, s.cwd, true, path, Dir, [], s'.nodes, s'.kids)
      else r == -1 && s' == s
    case Put(path, bytes, buffer, bigger) =>
      && s'.cwd == s.cwd
      && Wrote(s.nodes, s.kids, s.cwd, true, path, bytes, buffer, bigger, r, s'.nodes, s'.kids)
    case Remove(path) =>
      var n := Found(s, path);
      s'.cwd == s.cwd &&
      if n == NIL || n == 0 || (s.nodes[n].kind == Dir && s.kids[n] != []) then r == -1 && s' == s
      else r == 0 && Dropped(s.nodes, s.kids, n, s'.nodes)
    case Go(path) =>
      var n := Found(s, path);
      if n != NIL && s.nodes[n].kind == Dir then r == 0 && s' == s.(cwd := n) else r == -1 && s' == s
  }

  ghost predicate Home(ns: seq<Node>, cwd: int) { 0 <= cwd < |ns| && ns[cwd].kind == Dir }

  method Step(fs: Ram, c: Call) returns (r: int, fault: bool)
    requires fs.Valid() && Unique(fs.nodes, fs.kids) && fs.onC && Polite(c)
    modifies fs
    ensures fs.Valid() && Unique(fs.nodes, fs.kids) && fs.onC && Good(old(SnapOf(fs)))
    ensures Does(old(SnapOf(fs)), c, r, SnapOf(fs)) && (fault <==> Faults(old(SnapOf(fs)), c))
  {
    fault := false;
    hide Tree, InRange, LookupRel, Lookup, NamePart, ParentPart, FileOk, Steady, Unique, Wrote, Opened, CanMake,
         NullWrite, Made;
    match c {
      case MakeDir(path) =>
        ghost var ns, kids, par := fs.nodes, fs.kids, ParentDir(fs.nodes, fs.kids, fs.cwd, fs.onC, path);
        var fat;
        r, fat := fs.Mkdir(path);
        if r == 0 {
          MadeSteady(ns, kids, par, FreshNode(ns, NamePart(path), Dir, par), fs.nodes, fs.kids);
          FreshName(ns, NamePart(path), Dir, par);
        }
      case Put(path, bytes, buffer, bigger) =>
        var fat;
        r, fat, fault := fs.Write(path, bytes, buffer, bigger);
      case Remove(path) =>
        var fat;
        ghost var n;
        r, fat, n := fs.Unlink(path);
      case Go(path) =>
        r := fs.Chdir(path, false);
    }
  }

  /** A run: each call leads from one state to the next and gives its result, and none faults. */
  ghost predicate Traced(calls: seq<Call>, rs: seq<int>, states: seq<Snap>) {
    && |calls| == |rs| == |states| - 1 && (forall i :: 0 <= i < |states| ==> Good(states[i]))
    && forall i :: 0 <= i < |calls| ==>
         Does(states[i], calls[i], rs[i], states[i + 1]) && !Faults(states[i], calls[i])
  }

  /** Any run of polite calls, whether or not there is memory, up to the first that faults: the nodes stay a tree
      with unique names, and the results and states are those of the calls. */
  method Session(fs: Ram, calls: seq<Call>) returns (rs: seq<int>, ghost states: seq<Snap>)
    requires fs.Valid() && Unique(fs.nodes, fs.kids) && fs.onC
    requires forall i :: 0 <= i < |calls| ==> Polite(calls[i])
    modifies fs
    ensures fs.Valid() && Unique(fs.nodes, fs.kids) && fs.onC
    ensures |rs| <= |calls| && Traced(calls[..|rs|], rs, states) && states[0] == old(SnapOf(fs))
    ensures if |rs| < |calls| then Faults(states[|rs|], calls[|rs|]) else states[|rs|] == SnapOf(fs)
  {
    hide Tree, InRange, FileOk, Unique, Polite, Does, Faults, Good;
    rs, states := [], [SnapOf(fs)];
    GoodNow(fs);
    while |rs| < |calls|
      invariant fs.Valid() && Unique(fs.nodes, fs.kids) && fs.onC
      invariant |rs| <= |calls| && Traced(calls[..|rs|], rs, states) && states[0] == old(SnapOf(fs))
      invariant states[|rs|] == SnapOf(fs)
      decreases |calls| - |rs|
    {
      var c := calls[|rs|];
      var r, fault := Step(fs, c);
      if fault { return; }
      GoodNow(fs);
      TraceGrows(calls[..|rs|], rs, states, c, r, SnapOf(fs));
      assert calls[..|rs| + 1] == calls[..|rs|] + [c];
      rs, states := rs + [r], states + [SnapOf(fs)];
    }
  }

  lemma GoodNow(fs: Ram)
    requires fs.Valid() && Unique(fs.nodes, fs.kids)
    ensures Good(SnapOf(fs))
  {
  }

  lemma TraceGrows(calls: seq<Call>, rs: seq<int>, states: seq<Snap>, c: Call, r: int, s: Snap)
    requires Traced(calls, rs, states) && Good(s)
    requires Does(states[|calls|], c, r, s) && !Faults(states[|calls|], c)
    ensures Traced(calls + [c], rs + [r], states + [s])
  {
    hide Does, Faults, Good;
  }

  lemma WroteSteady(ns: seq<Node>, kids: seq<seq<int>>, cwd: int, path: string, bytes: seq<Byte>, buffer: seq<Byte>,
                    bigger: seq<Byte>, r: int, ns': seq<Node>, kids': seq<seq<int>>, i: int)
    requires InRange(ns, kids) && 0 <= cwd < |ns| && 0 <= i < |ns|
    requires Wrote(ns, kids, cwd, true, path, bytes, buffer, bigger, r, ns', kids')
    ensures Steady(ns, ns', NIL)
    ensures var (ms, ks) := Opened(ns, kids, cwd, true, path, buffer);
            i == Lookup(ms, ks, cwd, true, path) || SameFile(ns[i], ns'[i])
  {
    hide InRange, Lookup, Fails, ParentPart, NamePart, CanMake;
  }

  /** A call leaves the name, the parent and the kind of every node alone but of the one it removes, and the bytes
      of every node but the one it writes or removes. */
  lemma CallSteady(s: Snap, c: Call, r: int, s': Snap, i: int) returns (except: int)
    requires Good(s) && Good(s') && Does(s, c, r, s') && 0 <= i < |s.nodes|
    ensures except == (if c.Remove? && r == 0 then Hit(s, c) else NIL) && Steady(s.nodes, s'.nodes, except)
    ensures 0 < except < |s.nodes| ==> s.kids[except] == [] && s'.nodes[except].kind == Gone
    ensures except != 0 && (i != Hit(s, c) ==> SameFile(s.nodes[i], s'.nodes[i]))
  {
    hide Tree, InRange, Lookup, LookupRel, NamePart, ParentPart, Unique, Wrote, Opened, CanMake;
    except := if c.Remove? && r == 0 then Hit(s, c) else NIL;
    if c.Put? {
      WroteSteady(s.nodes, s.kids, s.cwd, c.path, c.bytes, c.buffer, c.bigger, r, s'.nodes, s'.kids, i);
    }
  }

  /** A call leaves a node that it neither writes nor removes what and where it was. */
  lemma CallSpares(s: Snap, c: Call, r: int, s': Snap, i: int)
    requires Good(s) && Good(s') && Does(s, c, r, s') && Live(s.nodes, i) && i != Hit(s, c)
    ensures Live(s'.nodes, i) && SameFile(s.nodes[i], s'.nodes[i])
    ensures PathTo(s'.nodes, s'.kids, i) == PathTo(s.nodes, s.kids, i)
  {
    var except := CallSteady(s, c, r, s', i);
    hide Tree, Does, Hit, PathTo;
    PathStays(s.nodes, s.kids, s'.nodes, s'.kids, i, except);
  }

  /** A file that no call of a run writes or removes is found under its path at the end, with its bytes. */
  lemma SessionSpares(calls: seq<Call>, rs: seq<int>, states: seq<Snap>, i: int)
    requires Traced(calls, rs, states) && Live(states[0].nodes, i)
    requires forall k :: 0 <= k < |calls| ==> i != Hit(states[k], calls[k])
    ensures Live(states[|calls|].nodes, i) && SameFile(states[0].nodes[i], states[|calls|].nodes[i])
    ensures Found(states[|calls|], "C:/" + Join(PathTo(states[0].nodes, states[0].kids, i))) == i
  {
    hide Does, Faults, Hit;
    SparedUpTo(calls, rs, states, i, |calls|);
    var s := states[|calls|];
    PrintedPathLeads(s.nodes, s.kids, i);
    hide LookupRel, Tree, Unique, InRange;
    assert Found(s, "C:/" + Join(PathTo(s.nodes, s.kids, i))) ==
           LookupRel(s.nodes, s.kids, 0, "C:/" + Join(PathTo(s.nodes, s.kids, i)));
  }

  lemma {:induction false} SparedUpTo(calls: seq<Call>, rs: seq<int>, states: seq<Snap>, i: int, k: nat)
    requires Traced(calls, rs, states) && Live(states[0].nodes, i) && k <= |calls|
    requires forall x :: 0 <= x < |calls| ==> i != Hit(states[x], calls[x])
    ensures Live(states[k].nodes, i) && SameFile(states[0].nodes[i], states[k].nodes[i])
    ensures PathTo(states[k].nodes, states[k].kids, i) == PathTo(states[0].nodes, states[0].kids, i)
  {
    hide Does, Faults, Hit, PathTo;
    if 0 < k {
      SparedUpTo(calls, rs, states, i, k - 1);
      CallSpares(states[k - 1], calls[k - 1], rs[k - 1], states[k], i);
    }
  }

  /** The current directory stays one of the tree's directories unless the call removes it; then it does not. */
  lemma CallHome(s: Snap, c: Call, r: int, s': Snap)
    requires Good(s) && Good(s') && Does(s, c, r, s') && Home(s.nodes, s.cwd)
    ensures Home(s'.nodes, s'.cwd) <==> !(c.Remove? && r == 0 && Found(s, c.path) == s.cwd)
  {
    var except := CallSteady(s, c, r, s', s.cwd);
    hide Tree, InRange, Lookup, LookupRel, NamePart, ParentPart, Unique, Wrote, Opened, CanMake;
  }

  /** Over a run that never removes its current directory, PrintAndReturn applies at the end. */
  lemma {:induction false} SessionHome(calls: seq<Call>, rs: seq<int>, states: seq<Snap>, k: nat)
    requires Traced(calls, rs, states) && k <= |calls| && Home(states[0].nodes, states[0].cwd)
    requires forall i :: 0 <= i < k ==>
               !(calls[i].Remove? && rs[i] == 0 && Found(states[i], calls[i].path) == states[i].cwd)
    ensures Home(states[k].nodes, states[k].cwd)
  {
    hide Does, Faults;
    if 0 < k {
      SessionHome(calls, rs, states, k - 1);
      CallHome(states[k - 1], calls[k - 1], rs[k - 1], states[k]);
    }
  }

  lemma FreshName(ns: seq<Node>, name: string, kind: Kind, par: int)
    requires 0 <= par < |ns| && |name| < NAME_MAX
    ensures FreshNode(ns, name, kind, par).name == name
  {
  }
}
