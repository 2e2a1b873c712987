/**
  Page tables in physical memory and the hardware's walk through them: 4-level paging, section 4.5 of
  the Intel SDM volume 3A.  Masks and shifts of 64-bit entries are written as division and remainder.
*/
module PageTables {
  import Pmm

  const FRAMES: int := Pmm.MAX_PAGES
  const WORDS: int := FRAMES * 512
  const LARGE: int := 0x20_0000
  const TWO48: int := 0x1_0000_0000_0000
  const TWO64: int := Pmm.TWO64

  /** PTE_P | PTE_W | PTE_U, and the same with PTE_PS. */
  const FLAGS: int := 7
  const LEAF_FLAGS: int := 0x87

  // ---- addresses --------------------------------------------------------------------------------------

  /** The three table indices of an address. */
  datatype Path = Path(i4: int, i3: int, i2: int)

  function PathOf(va: int): (p: Path)
    requires 0 <= va
    ensures InRange(p)
  {
    Path(va / 0x80_0000_0000 % 512, va / 0x4000_0000 % 512, va / LARGE % 512)
  }

  predicate InRange(p: Path) { 0 <= p.i4 < 512 && 0 <= p.i3 < 512 && 0 <= p.i2 < 512 }

  /** The lowest address with these indices. */
  function Base(p: Path): int { p.i4 * 0x80_0000_0000 + p.i3 * 0x4000_0000 + p.i2 * LARGE }

  lemma Digits(va: int)
    requires 0 <= va
    ensures va / 0x4000_0000 == va / LARGE / 512 && va / 0x80_0000_0000 == va / LARGE / 512 / 512
  {
  }

  lemma Modulo48(w: int, r: int)
    requires 0 <= r < TWO48
    ensures (w * TWO48 + r) % TWO48 == r
  {
  }

  /** The indices of an address lead back to it, exactly below 2^48. */
  lemma PathIdentity(va: int)
    requires 0 <= va
    ensures Base(PathOf(va)) + va % LARGE == va % TWO48
    ensures Base(PathOf(va)) + va % LARGE == va <==> va < TWO48
  {
    Digits(va);
    var x := va / LARGE;
    var y := x / 512;
    var z := y / 512;
    var w := z / 512;
    var low := Base(PathOf(va)) + va % LARGE;
    Recompose(va, x, y, z, w);
    Modulo48(w, low);
  }

  lemma Recompose(va: int, x: int, y: int, z: int, w: int)
    requires 0 <= va && x == va / LARGE && y == x / 512 && z == y / 512 && w == z / 512
    ensures 0 <= w
    ensures va == w * TWO48 + (z % 512) * 0x80_0000_0000 + (y % 512) * 0x4000_0000 + (x % 512) * LARGE + va % LARGE
  {
    assert va == LARGE * x + va % LARGE;
    assert x == 512 * y + x % 512;
    assert y == 512 * z + y % 512;
    assert z == 512 * w + z % 512;
  }

  lemma PathOfBase(p: Path, off: int)
    requires InRange(p) && 0 <= off < LARGE
    ensures PathOf(Base(p) + off) == p && (Base(p) + off) % LARGE == off && 0 <= Base(p) + off < TWO48
  {
    var va := Base(p) + off;
    assert va / LARGE == p.i4 * 0x4_0000 + p.i3 * 512 + p.i2;
    assert va / 0x4000_0000 == p.i4 * 512 + p.i3;
    assert va / 0x80_0000_0000 == p.i4;
  }

  // ---- the walk ---------------------------------------------------------------------------------------

  /** Entry `i` of the table in frame `f`. */
  function Entry(m: seq<int>, f: int, i: int): int
    requires |m| == WORDS && 0 <= f < FRAMES && 0 <= i < 512
  {
    m[f * 512 + i]
  }

  predicate Present(e: int) { e % 2 == 1 }

  function FrameOf(e: int): int { e / 4096 }

  predicate IsLarge(e: int) { e / 0x80 % 2 == 1 }

  /** Bits 1 and 2: writing, and access from user mode, are allowed. */
  predicate Grants(e: int) { e / 2 % 2 == 1 && e / 4 % 2 == 1 }

  /** Wild stands for a walk that leaves memory, meets a page size the kernel never uses, or is not allowed to write
      from user mode. */
  datatype Outcome = Unmapped | Mapped(pa: int) | Wild

  predicate Points(e: int) { 0 <= FrameOf(e) < FRAMES && !IsLarge(e) }

  function Walk(m: seq<int>, root: int, va: int): Outcome
    requires |m| == WORDS && 0 <= root < FRAMES && 0 <= va
  {
    var p := PathOf(va);
    var e4 := Entry(m, root, p.i4);
    if !Present(e4) then Unmapped else if !Points(e4) || !Grants(e4) then Wild else
    var e3 := Entry(m, FrameOf(e4), p.i3);
    if !Present(e3) then Unmapped else if !Points(e3) || !Grants(e3) then Wild else
    var e2 := Entry(m, FrameOf(e3), p.i2);
    if !Present(e2) then Unmapped else if !IsLarge(e2) || !Grants(e2) then Wild else
    Mapped(e2 / LARGE * LARGE + va % LARGE)
  }

  // ---- the tree the kernel builds -----------------------------------------------------------------------

  /** What a frame is used for. */
  datatype Role = Root | Upper(i4: int) | Lower(j4: int, i3: int)

  function TableEntry(f: int): int { f * 4096 + FLAGS }

  function LeafEntry(p: Path): int { Base(p) + LEAF_FLAGS }

  /** Entry `i` of frame `f` is empty or what its place calls for. */
  ghost predicate EntryOk(m: seq<int>, role: map<int, Role>, f: int, i: int)
    requires |m| == WORDS && 0 <= f < FRAMES && 0 <= i < 512 && f in role
  {
    var e := Entry(m, f, i);
    e == 0 || match role[f]
      case Root => Leads(role, e, Upper(i))
      case Upper(i4) => Leads(role, e, Lower(i4, i))
      case Lower(i4, i3) => e == LeafEntry(Path(i4, i3, i))
  }

  /** `e` is the entry of a table with that role. */
  ghost predicate Leads(role: map<int, Role>, e: int, r: Role) {
    var f := FrameOf(e);
    f in role && role[f] == r && e == TableEntry(f)
  }

  predicate RoleOk(r: Role) {
    match r
    case Root => true
    case Upper(i4) => 0 <= i4 < 512
    case Lower(i4, i3) => 0 <= i4 < 512 && 0 <= i3 < 512
  }

  ghost predicate Tree(m: seq<int>, role: map<int, Role>, root: int)
    ensures Tree(m, role, root) ==> |m| == WORDS && root in role && 0 < root < FRAMES
  {
    && |m| == WORDS && root in role && role[root] == Root
    && (forall f :: f in role ==> 0 < f < FRAMES && RoleOk(role[f]))
    && forall f, i :: f in role && 0 <= i < 512 ==> EntryOk(m, role, f, i)
  }

  /** The entries met on the way to a path, -1 where the way ends early. */
  ghost function UpperOf(m: seq<int>, root: int, p: Path): int
    requires |m| == WORDS && 0 <= root < FRAMES && InRange(p)
  {
    var e := Entry(m, root, p.i4);
    if e == 0 then -1 else FrameOf(e)
  }

  ghost function LowerOf(m: seq<int>, root: int, p: Path): int
    requires |m| == WORDS && 0 <= root < FRAMES && InRange(p)
  {
    var f := UpperOf(m, root, p);
    if !(0 <= f < FRAMES) then -1 else
    var e := Entry(m, f, p.i3);
    if e == 0 then -1 else FrameOf(e)
  }

  /** A leaf is installed for the path. */
  ghost predicate HasLeaf(m: seq<int>, root: int, p: Path)
    requires |m| == WORDS && 0 <= root < FRAMES && InRange(p)
  {
    var f := LowerOf(m, root, p);
    0 <= f < FRAMES && Entry(m, f, p.i2) != 0
  }

  lemma TableFlags(n: int)
    requires 0 <= n && n % 2 == 0
    ensures var e := 0x80 * n + FLAGS; Present(e) && !IsLarge(e)
  {
    assert (0x80 * n + FLAGS) / 0x80 == n;
  }

  lemma TableFrame(f: int)
    ensures FrameOf(f * 4096 + FLAGS) == f
  {
  }

  lemma GrantFlags(n: int, flags: int)
    requires flags == 7 || flags == 0x87
    ensures Grants(8 * n + flags)
  {
    var k := n + flags / 8;
    assert 8 * n + flags == 8 * k + 7;
    assert (8 * k + 7) / 2 == 4 * k + 3;
    assert (8 * k + 7) / 4 == 2 * k + 1;
  }

  lemma TableEntryDecodes(f: int)
    requires 0 < f < FRAMES
    ensures var e := TableEntry(f); e != 0 && Present(e) && FrameOf(e) == f && Points(e) && Grants(e)
  {
    GrantFlags(512 * f, 7);
    hide Present, IsLarge, FrameOf, Grants;
    TableFlags(2 * (16 * f));
    TableFrame(f);
  }

  lemma LargeFlags(n: int)
    requires 0 <= n && n % 2 == 0
    ensures var e := 0x80 * n + LEAF_FLAGS; e != 0 && Present(e) && IsLarge(e)
  {
    assert (0x80 * n + LEAF_FLAGS) / 0x80 == n + 1;
  }

  lemma LargeBase(k: int)
    requires 0 <= k
    ensures (k * LARGE + LEAF_FLAGS) / LARGE == k
  {
  }

  lemma LargeDecodes(k: int)
    requires 0 <= k
    ensures var e := k * LARGE + LEAF_FLAGS;
            e != 0 && Present(e) && IsLarge(e) && Grants(e) && e / LARGE * LARGE == k * LARGE
  {
    GrantFlags(0x4_0000 * k, 0x87);
    hide Present, IsLarge, Grants;
    LargeFlags(2 * (k * 0x2000));
    LargeBase(k);
  }

  lemma LeafEntryDecodes(p: Path)
    requires InRange(p)
    ensures var e := LeafEntry(p); e != 0 && Present(e) && IsLarge(e) && Grants(e) && e / LARGE * LARGE == Base(p)
  {
    hide Present, IsLarge, Grants;
    LargeDecodes(p.i4 * 0x4_0000 + p.i3 * 512 + p.i2);
  }

  /** The table of the upper level on the way, if there is one. */
  lemma UpperIs(m: seq<int>, role: map<int, Role>, root: int, p: Path)
    requires Tree(m, role, root) && InRange(p)
    ensures var f := UpperOf(m, root, p); f == -1 || (f in role && role[f] == Upper(p.i4) && 0 < f < FRAMES)
    ensures var e, f := Entry(m, root, p.i4), UpperOf(m, root, p); if f == -1 then e == 0 else e == TableEntry(f)
  {
    assert EntryOk(m, role, root, p.i4);
  }

  lemma LowerIs(m: seq<int>, role: map<int, Role>, root: int, p: Path)
    requires Tree(m, role, root) && InRange(p) && UpperOf(m, root, p) != -1
    ensures UpperOf(m, root, p) in role && 0 < UpperOf(m, root, p) < FRAMES
    ensures var f := LowerOf(m, root, p); f == -1 || (f in role && role[f] == Lower(p.i4, p.i3) && 0 < f < FRAMES)
    ensures var e, f := Entry(m, UpperOf(m, root, p), p.i3), LowerOf(m, root, p);
            if f == -1 then e == 0 else e == TableEntry(f)
  {
    UpperIs(m, role, root, p);
    assert EntryOk(m, role, UpperOf(m, root, p), p.i3);
  }

  lemma LeafIs(m: seq<int>, role: map<int, Role>, root: int, p: Path)
    requires Tree(m, role, root) && InRange(p) && UpperOf(m, root, p) != -1 && LowerOf(m, root, p) != -1
    ensures LowerOf(m, root, p) in role && 0 < LowerOf(m, root, p) < FRAMES
    ensures var e := Entry(m, LowerOf(m, root, p), p.i2); e == if HasLeaf(m, root, p) then LeafEntry(p) else 0
  {
    UpperIs(m, role, root, p);
    LowerIs(m, role, root, p);
    assert EntryOk(m, role, LowerOf(m, root, p), p.i2);
  }

  /** The walk of every address below 2^48 ends at that address or nowhere. */
  lemma WalkIsIdentity(m: seq<int>, role: map<int, Role>, root: int, va: int)
    requires Tree(m, role, root) && 0 <= va < TWO48
    ensures Walk(m, root, va) == if HasLeaf(m, root, PathOf(va)) then Mapped(va) else Unmapped
  {
    hide Tree, Entry, PathOf, Base, TableEntry, LeafEntry, Points, IsLarge, Present, FrameOf, Grants;
    var p := PathOf(va);
    TreeShape(m, role, root);
    UpperIs(m, role, root, p);
    ZeroAbsent();
    var f := UpperOf(m, root, p);
    if f != -1 {
      TableEntryDecodes(f);
      LowerIs(m, role, root, p);
      var g := LowerOf(m, root, p);
      if g != -1 {
        TableEntryDecodes(g);
        LeafIs(m, role, root, p);
        LeafEntryDecodes(p);
        PathIdentity(va);
      }
    }
  }

  lemma ZeroAbsent()
    ensures !Present(0)
  {
  }

  lemma TreeShape(m: seq<int>, role: map<int, Role>, root: int)
    requires Tree(m, role, root)
    ensures |m| == WORDS && root in role && role[root] == Root && 0 < root < FRAMES
  {
  }

  // ---- changes to the tree --------------------------------------------------------------------------

  /** Every table of the tree reads the same. */
  ghost predicate SameTables(m: seq<int>, m': seq<int>, role: map<int, Role>) {
    && |m| == |m'| == WORDS
    && forall f, i :: f in role && 0 <= f < FRAMES && 0 <= i < 512 ==> Entry(m', f, i) == Entry(m, f, i)
  }

  ghost predicate Blank(m: seq<int>, g: int) {
    |m| == WORDS && 0 < g < FRAMES && forall i :: 0 <= i < 512 ==> Entry(m, g, i) == 0
  }

  /** `m` with entry `i` of frame `f` set to `e`. */
  function Store(m: seq<int>, f: int, i: int, e: int): (r: seq<int>)
    requires |m| == WORDS && 0 <= f < FRAMES && 0 <= i < 512
    ensures |r| == WORDS && Entry(r, f, i) == e
    ensures forall x, j :: 0 <= x < FRAMES && 0 <= j < 512 && (x != f || j != i) ==> Entry(r, x, j) == Entry(m, x, j)
  {
    m[f * 512 + i := e]
  }

  /** The role of the table that slot `i` of a table with role `r` leads to. */
  function Child(r: Role, i: int): Role
    requires !r.Lower?
  {
    if r.Root? then Upper(i) else Lower(r.i4, i)
  }

  lemma TreeEntry(m: seq<int>, role: map<int, Role>, root: int, f: int, i: int)
    requires Tree(m, role, root) && f in role && 0 <= i < 512
    ensures 0 < f < FRAMES && EntryOk(m, role, f, i) && RoleOk(role[f])
  {
  }

  /** A zeroed page that is not part of the tree is hung into an empty slot. */
  lemma AttachTree(m: seq<int>, role: map<int, Role>, root: int, m1: seq<int>, g: int, f: int, i: int)
    requires Tree(m, role, root) && SameTables(m, m1, role) && Blank(m1, g) && g !in role
    requires f in role && 0 <= f < FRAMES && !role[f].Lower? && 0 <= i < 512
    ensures Tree(Store(m1, f, i, TableEntry(g)), role[g := Child(role[f], i)], root)
  {
    hide Tree, Store, Entry, TableEntry;
    TreeShape(m, role, root);
    var m2, role2 := Store(m1, f, i, TableEntry(g)), role[g := Child(role[f], i)];
    TreeEntry(m, role, root, f, i);
    TableEntryDecodes(g);
    forall x | x in role2 ensures 0 < x < FRAMES && RoleOk(role2[x]) {
      if x != g { TreeEntry(m, role, root, x, 0); }
    }
    forall x, j | x in role2 && 0 <= j < 512 ensures EntryOk(m2, role2, x, j) {
      if x != g { TreeEntry(m, role, root, x, j); }
    }
    TreeFrom(m2, role2, root);
  }

  lemma TreeFrom(m: seq<int>, role: map<int, Role>, root: int)
    requires |m| == WORDS && root in role && role[root] == Root
    requires forall f :: f in role ==> 0 < f < FRAMES && RoleOk(role[f])
    requires forall f, i :: f in role && 0 <= i < 512 ==> EntryOk(m, role, f, i)
    ensures Tree(m, role, root)
  {
  }

  /** Hanging in an empty table maps and unmaps nothing. */
  lemma AttachLeaves(m: seq<int>, role: map<int, Role>, root: int, m1: seq<int>, g: int, f: int, i: int, p: Path)
    requires Tree(m, role, root) && SameTables(m, m1, role) && Blank(m1, g) && g !in role && InRange(p)
    requires f in role && 0 <= f < FRAMES && !role[f].Lower? && 0 <= i < 512 && Entry(m, f, i) == 0
    ensures HasLeaf(Store(m1, f, i, TableEntry(g)), root, p) == HasLeaf(m, root, p)
    ensures f == root && p.i4 == i ==> UpperOf(Store(m1, f, i, TableEntry(g)), root, p) == g
    ensures f != root || p.i4 != i ==> UpperOf(Store(m1, f, i, TableEntry(g)), root, p) == UpperOf(m, root, p)
    ensures f == UpperOf(m, root, p) && p.i3 == i ==> LowerOf(Store(m1, f, i, TableEntry(g)), root, p) == g
    ensures f != UpperOf(m, root, p) || p.i3 != i ==>
              LowerOf(Store(m1, f, i, TableEntry(g)), root, p) == LowerOf(m, root, p)
  {
    hide Tree, Store, Entry, TableEntry, FrameOf;
    TreeShape(m, role, root);
    var m2 := Store(m1, f, i, TableEntry(g));
    UpperIs(m, role, root, p);
    TableEntryDecodes(g);
    var u := UpperOf(m, root, p);
    if u != -1 {
      LowerIs(m, role, root, p);
      if LowerOf(m, root, p) != -1 { LeafIs(m, role, root, p); }
    }
  }

  lemma LeafTree(m: seq<int>, role: map<int, Role>, root: int, p: Path)
    requires Tree(m, role, root) && InRange(p) && UpperOf(m, root, p) != -1 && LowerOf(m, root, p) != -1
    ensures var f := LowerOf(m, root, p);
            0 < f < FRAMES && Tree(Store(m, f, p.i2, LeafEntry(p)), role, root)
  {
    hide Tree, Store, Entry, LeafEntry, LowerOf, UpperOf;
    TreeShape(m, role, root);
    LowerIs(m, role, root, p);
    var f := LowerOf(m, root, p);
    var m2 := Store(m, f, p.i2, LeafEntry(p));
    forall x | x in role ensures 0 < x < FRAMES && RoleOk(role[x]) { TreeEntry(m, role, root, x, 0); }
    forall x, j | x in role && 0 <= j < 512 ensures EntryOk(m2, role, x, j) { TreeEntry(m, role, root, x, j); }
    TreeFrom(m2, role, root);
  }

  /** Installing a leaf maps its own path and no other. */
  lemma LeafLeaves(m: seq<int>, role: map<int, Role>, root: int, p: Path, q: Path)
    requires Tree(m, role, root) && InRange(p) && InRange(q) && UpperOf(m, root, p) != -1 && LowerOf(m, root, p) != -1
    ensures 0 < LowerOf(m, root, p) < FRAMES
    ensures HasLeaf(Store(m, LowerOf(m, root, p), p.i2, LeafEntry(p)), root, q) == (HasLeaf(m, root, q) || q == p)
    ensures UpperOf(Store(m, LowerOf(m, root, p), p.i2, LeafEntry(p)), root, q) == UpperOf(m, root, q)
    ensures LowerOf(Store(m, LowerOf(m, root, p), p.i2, LeafEntry(p)), root, q) == LowerOf(m, root, q)
  {
    hide Tree, Store, Entry, LeafEntry, FrameOf;
    TreeShape(m, role, root);
    LowerIs(m, role, root, p);
    UpperIs(m, role, root, p);
    LeafIs(m, role, root, p);
    LeafEntryDecodes(p);
    UpperIs(m, role, root, q);
    if UpperOf(m, root, q) != -1 {
      LowerIs(m, role, root, q);
      if LowerOf(m, root, q) != -1 { LeafIs(m, role, root, q); }
    }
  }
}
