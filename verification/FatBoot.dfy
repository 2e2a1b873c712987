/**
  The file system part of the boot sequence, kernel/core/kmain.c:79-101: a directory is made, and a file is
  written and read back under a path that leads through it.
*/
module FatBoot {
  import opened Bytes
  import opened FatVolume
  import opened FatDir
  import opened FatChain
  import opened FatForest
  import opened FatPath
  import opened FatNames
  import opened FatEffect
  import opened FatOps
  import opened FatTheorems
  import opened FatDriver

  /** `dir` is a new entry of `cwd`, and the file `name` is in it, with these bytes; `cwd` has no new `name`. */
  ghost predicate Nested(v: Vol, f: Forest, v': Vol, f': Forest, cwd: int, dir: seq<Byte>, c: int, name: seq<Byte>,
                         data: seq<Byte>)
  {
    && ChainsOk(v, f) && ChainsOk(v', f') && cwd in f && cwd in f' && c !in f && c in f' && f'[c].isDir
    && 0 <= c < TWO32 && Look(v', f', cwd, Name83(dir)) == Some(DirSlot(Name83(dir), c))
    && var e := Look(v', f', c, Name83(name));
    && e.Some? && !IsDir(e.value) && FileBytes(v', f', e.value) == data
    && (Name83(name) != Name83(dir) ==> Look(v', f', cwd, Name83(name)) == Look(v, f, cwd, Name83(name)))
  }

  /** A name that a path can give: of at most fifteen bytes, neither `.` nor `..`, not starting with 0xE5. */
  predicate Usual(s: seq<Byte>) {
    0 !in s && Part(s) && |s| <= 15 && s != [0x2E] && s != [0x2E, 0x2E] && s[0] != 0xE5
  }

  /** A path through a directory that mkdir has just made leads into that directory. */
  lemma ThroughDir(g: Geometry, v: Vol, f: Forest, v1: Vol, f1: Forest, cwd: int, dir: seq<Byte>, c: int, extra: int,
                   sep: Byte, name: seq<Byte>)
    requires MadeDir(g, v, f, v1, f1, cwd, Name83(dir), c, extra) && Usual(dir) && Usual(name)
    requires sep == 0x2F || sep == 0x5C
    ensures ChainsOk(v1, f1) && cwd in f1 && g.root in f1 && c in f1 && c !in f && f1[c].isDir
    ensures Resolve(g, v1, f1, cwd, dir + [sep] + name) == Some((c, name))
    ensures Look(v1, f1, c, Name83(name)).None?
  {
    Name83Start(dir);
    Name83Start(name);
    SoundRoot(g, v1, f1, 0, 0);
    assert name[0] in name;
    hide Sound, SlotsOf, OthersSame, Name83, Resolve, Look, FreshDir;
    FirstPart(g, v1, f1, cwd, dir, [sep], name);
    LastPart(g, v1, f1, c, name, []);
    assert name + [] == name;
  }

  lemma FoundNested(g: Geometry, v: Vol, f: Forest, v1: Vol, f1: Forest, v2: Vol, f2: Forest, cwd: int,
                    dir: seq<Byte>, c: int, name: seq<Byte>, data: seq<Byte>, extra: int, extra': int)
    requires MadeDir(g, v, f, v1, f1, cwd, Name83(dir), c, extra) && Usual(dir) && Usual(name)
    requires Written(g, v1, f1, v2, f2, c, Name83(name), data, extra') && cwd in f && f[cwd].isDir
    ensures Nested(v, f, v2, f2, cwd, dir, c, name, data)
  {
    Name83Start(dir);
    Name83Start(name);
    SoundRoot(g, v, f, 0, 0);
    SoundRoot(g, v1, f1, 0, 0);
    SoundRoot(g, v2, f2, 0, 0);
    hide Sound, SlotsOf, Name83, Look, FreshDir, FileBytes;
  }

  /** For every directory name, separator, file name and all data: mkdir succeeds exactly when the name is new and
      there is room; if the write then succeeds, the file is in the new directory and is read back. */
  method SelfTest(d: Driver, dir: seq<Byte>, sep: Byte, name: seq<Byte>, data: seq<Byte>, maxlen: int)
    returns (m: int, w: int, r: int, out: seq<Byte>, ghost c: int)
    requires d.Valid() && Usual(dir) && Usual(name) && |data| <= maxlen && (sep == 0x2F || sep == 0x5C)
    modifies d`disk, d`forest, d.sector
    ensures m == 0 <==> old(NewName(d.V(), d.forest, d.cwd, dir))
    ensures m == 0 && w == |data| ==>
              && d.Valid() && r == |data| && out == data
              && Nested(old(d.V()), old(d.forest), d.V(), d.forest, d.cwd, dir, c, name, data)
    ensures m == 0 && w != |data| ==> d.Valid() && w == -1 && (|data| > 512 * 64 || Spare(d.V().fat) == 0)
  {
    hide Sound, View, Name83, SlotsOf, Look, Resolve, OthersSame, Written, MadeDir, Nested;
    w, r, out := -1, -1, [];
    ghost var g, v, f, cwd := d.g, d.V(), d.forest, d.cwd;
    ghost var extra, extra';
    SoundRoot(g, v, f, 0, 0);
    LastPart(g, v, f, cwd, dir, []);
    assert dir + [] == dir;
    m, c, extra := d.Mkdir(dir);
    if m != 0 { return; }
    ghost var v1, f1 := d.V(), d.forest;
    var path := dir + [sep] + name;
    ThroughDir(g, v, f, v1, f1, cwd, dir, c, extra, sep, name);
    var cl;
    w, cl, extra' := d.WriteFile(path, data);
    if w != |data| { return; }
    RoundTrip(g, v1, f1, d.V(), d.forest, cwd, path, data, extra');
    FoundNested(g, v, f, v1, f1, d.V(), d.forest, cwd, dir, c, name, data, extra, extra');
    r, out := d.ReadFile(path, maxlen);
  }

  /** A directory that mkdir has just made counts as empty. */
  lemma FreshVacant(secs: seq<Sector>, c: int, parent: int)
    requires 0 <= c < TWO32 && 0 <= parent < TWO32 && FreshDir(secs, c, parent)
    ensures Vacant(SlotsOf(secs))
  {
    var ss := SlotsOf(secs);
    assert ss[0] == SlotAt(secs[0], 0) && ss[0][..11] == DOT_NAME;
    assert ss[1] == SlotAt(secs[0], 1) && ss[1][..11] == DOTDOT_NAME;
    assert ss[0][0] == DOT_NAME[0] && ss[0][1] == DOT_NAME[1];
    assert ss[1][0] == DOTDOT_NAME[0] && ss[1][1] == DOTDOT_NAME[1] && ss[1][2] == DOTDOT_NAME[2];
    forall i | 2 <= i < |ss| ensures ss[i][0] == 0 {
      if i < 16 { assert ss[i] == SlotAt(secs[0], i); } else { assert AllZero(secs[i / 16]); }
    }
  }

  /** What a new directory's path leads to. */
  lemma NewDirFound(g: Geometry, v: Vol, f: Forest, v1: Vol, f1: Forest, cwd: int, dir: seq<Byte>, c: int, extra: int)
    requires MadeDir(g, v, f, v1, f1, cwd, Name83(dir), c, extra) && Usual(dir)
    ensures ChainsOk(v1, f1) && cwd in f1 && g.root in f1 && c in f1 && c !in f
    ensures Resolve(g, v1, f1, cwd, dir) == Some((cwd, dir))
    ensures Target(g, v1, f1, cwd, dir) == Some(DirSlot(Name83(dir), c))
    ensures DirTarget(g, v1, f1, cwd, dir) == Some(c) && Vacant(Slots(v1, f1, c))
  {
    Name83Start(dir);
    SoundRoot(g, v1, f1, 0, 0);
    LastPart(g, v1, f1, cwd, dir, []);
    assert dir + [] == dir;
    FreshVacant(Sectors(v1, f1, c), c, cwd);
    hide Sound, SlotsOf, OthersSame, Name83, Resolve, Look, FreshDir, Vacant;
  }

  /** mkdir, then chdir: the new directory is the current one. */
  method MakeAndEnter(d: Driver, dir: seq<Byte>) returns (m: int, r: int, ghost c: int)
    requires d.Valid() && Usual(dir)
    modifies d`disk, d`forest, d`cwd, d.sector
    ensures d.Valid() && (m == 0 <==> old(NewName(d.V(), d.forest, d.cwd, dir)))
    ensures m == 0 ==> r == 0 && c !in old(d.forest) && c in d.forest && d.cwd == c
  {
    hide Sound, View, Name83, SlotsOf, Look, Resolve, OthersSame, MadeDir, DirTarget, Vacant;
    r := -1;
    ghost var g, v, f, cwd := d.g, d.V(), d.forest, d.cwd;
    ghost var extra;
    SoundRoot(g, v, f, 0, 0);
    LastPart(g, v, f, cwd, dir, []);
    assert dir + [] == dir;
    m, c, extra := d.Mkdir(dir);
    if m != 0 { return; }
    NewDirFound(g, v, f, d.V(), d.forest, cwd, dir, c, extra);
    r := d.Chdir(dir);
  }

  /** mkdir, then unlink: the entry is gone again, the others are as they were, and so are the free clusters but for
      one by which the current directory may have grown. */
  method MakeAndRemove(d: Driver, dir: seq<Byte>) returns (m: int, r: int, ghost extra: int)
    requires d.Valid() && Usual(dir)
    modifies d`disk, d`forest, d.sector
    ensures d.Valid() && (m == 0 <==> old(NewName(d.V(), d.forest, d.cwd, dir)))
    ensures m == 0 ==> r == 0 && Undone(old(d.V()), old(d.forest), d.V(), d.forest, d.cwd, dir, extra)
  {
    hide Sound, View, Name83, SlotsOf, Look, Resolve, OthersSame, MadeDir, Vacant, Target, Unlinked, Undone;
    r := -1;
    ghost var g, v, f, cwd := d.g, d.V(), d.forest, d.cwd;
    ghost var c;
    SoundRoot(g, v, f, 0, 0);
    LastPart(g, v, f, cwd, dir, []);
    assert dir + [] == dir;
    m, c, extra := d.Mkdir(dir);
    if m != 0 { return; }
    ghost var v1, f1 := d.V(), d.forest;
    NewDirFound(g, v, f, v1, f1, cwd, dir, c, extra);
    var cl;
    r, cl := d.Unlink(dir);
    BackAgain(g, v, f, v1, f1, d.V(), d.forest, cwd, dir, c, extra);
  }

  ghost predicate Undone(v: Vol, f: Forest, v': Vol, f': Forest, cwd: int, dir: seq<Byte>, extra: int) {
    && ChainsOk(v, f) && ChainsOk(v', f') && cwd in f && cwd in f' && Look(v', f', cwd, Name83(dir)).None?
    && OthersSame(v, f, v', f', cwd, Name83(dir), {}) && f'.Keys == f.Keys
    && 0 <= extra <= 1 && Zeros(v'.fat) == Zeros(v.fat) - extra
  }

  lemma BackAgain(g: Geometry, v: Vol, f: Forest, v1: Vol, f1: Forest, v2: Vol, f2: Forest, cwd: int, dir: seq<Byte>,
                  c: int, extra: int)
    requires MadeDir(g, v, f, v1, f1, cwd, Name83(dir), c, extra) && Usual(dir)
    requires Unlinked(g, v1, f1, v2, f2, cwd, Name83(dir), DirSlot(Name83(dir), c))
    ensures Undone(v, f, v2, f2, cwd, dir, extra)
  {
    Name83Start(dir);
    SoundRoot(g, v, f, 0, 0);
    SoundRoot(g, v1, f1, 0, 0);
    SoundRoot(g, v2, f2, 0, 0);
    var name := Name83(dir);
    assert c == f1[c].chain[0] >= 2;
    assert Gone(DirSlot(name, c)) == {c};
    assert f2.Keys == f.Keys;
    hide Sound, SlotsOf, Name83, Look, FreshDir, FileBytes;
    OthersBack(v, f, v1, f1, v2, f2, cwd, name, c);
  }

  lemma OthersBack(v: Vol, f: Forest, v1: Vol, f1: Forest, v2: Vol, f2: Forest, p: int, name: Name, c: int)
    requires ChainsOk(v, f) && ChainsOk(v1, f1) && ChainsOk(v2, f2) && c !in f
    requires OthersSame(v, f, v1, f1, p, name, {}) && OthersSame(v1, f1, v2, f2, p, name, {c})
    ensures OthersSame(v, f, v2, f2, p, name, {})
  {
    hide ChainsOk, Look, FileBytes;
  }

  /** fat.c:459-566: a file written and then unlinked is gone, and the other entries are as they were. */
  method WriteAndRemove(d: Driver, name: seq<Byte>, data: seq<Byte>) returns (w: int, r: int)
    requires d.Valid() && Usual(name)
    modifies d`disk, d`forest, d.sector
    ensures w == |data| ==> d.Valid() && r == 0 && Removed(old(d.V()), old(d.forest), d.V(), d.forest, d.cwd, name)
  {
    hide Sound, View, Name83, SlotsOf, Look, Resolve, OthersSame, Written, Vacant, Target, Unlinked, Removed;
    r := -1;
    ghost var g, v, f, cwd := d.g, d.V(), d.forest, d.cwd;
    ghost var extra;
    SoundRoot(g, v, f, 0, 0);
    LastPart(g, v, f, cwd, name, []);
    assert name + [] == name;
    var cl;
    w, cl, extra := d.WriteFile(name, data);
    if w != |data| { return; }
    ghost var v1, f1 := d.V(), d.forest;
    var e := NewFileFound(g, v, f, v1, f1, cwd, name, data, extra);
    r, cl := d.Unlink(name);
    FileGone(g, v, f, v1, f1, d.V(), d.forest, cwd, name, data, extra, e);
  }

  ghost predicate Removed(v: Vol, f: Forest, v': Vol, f': Forest, cwd: int, name: seq<Byte>) {
    && ChainsOk(v, f) && ChainsOk(v', f') && cwd in f && cwd in f' && Look(v', f', cwd, Name83(name)).None?
    && OthersSame(v, f, v', f', cwd, Name83(name), {})
  }

  lemma NewFileFound(g: Geometry, v: Vol, f: Forest, v1: Vol, f1: Forest, cwd: int, name: seq<Byte>, data: seq<Byte>,
                     extra: int) returns (e: Slot)
    requires Written(g, v, f, v1, f1, cwd, Name83(name), data, extra) && Usual(name) && cwd in f && f[cwd].isDir
    ensures ChainsOk(v1, f1) && cwd in f1 && g.root in f1 && !IsDir(e)
    ensures Resolve(g, v1, f1, cwd, name) == Some((cwd, name)) && Target(g, v1, f1, cwd, name) == Some(e)
    ensures First(e) in f1 ==> !f1[First(e)].isDir
  {
    Name83Start(name);
    SoundRoot(g, v1, f1, 0, 0);
    LastPart(g, v1, f1, cwd, name, []);
    assert name + [] == name;
    e := Look(v1, f1, cwd, Name83(name)).value;
    var k := Find(Slots(v1, f1, cwd), Name83(name), 0);
    assert 0 <= k && Slots(v1, f1, cwd)[k] == e;
    hide Sound, SlotsOf, Name83, Resolve, OthersSame, FileBytes, Find;
    LookSound(g, v1, f1, cwd, Name83(name), k);
    KeysFromTwo(g, v1, f1);
  }

  lemma KeysFromTwo(g: Geometry, v: Vol, f: Forest)
    requires Sound(g, v, f, 0, 0)
    ensures forall h :: h in f ==> h >= 2
  {
    hide SlotsOf;
    forall h | h in f ensures h >= 2 { assert h == f[h].chain[0]; }
  }

  lemma FileGone(g: Geometry, v: Vol, f: Forest, v1: Vol, f1: Forest, v2: Vol, f2: Forest, cwd: int, name: seq<Byte>,
                 data: seq<Byte>, extra: int, e: Slot)
    requires Written(g, v, f, v1, f1, cwd, Name83(name), data, extra) && !IsDir(e)
    requires Unlinked(g, v1, f1, v2, f2, cwd, Name83(name), e) && (First(e) in f1 ==> !f1[First(e)].isDir)
    ensures Removed(v, f, v2, f2, cwd, name)
  {
    SoundRoot(g, v, f, 0, 0);
    SoundRoot(g, v1, f1, 0, 0);
    SoundRoot(g, v2, f2, 0, 0);
    hide Sound, SlotsOf, Name83, Look, FileBytes;
  }

  ghost predicate NewName(v: Vol, f: Forest, cwd: int, dir: seq<Byte>) {
    ChainsOk(v, f) && cwd in f && |v.fat| >= 3 && Look(v, f, cwd, Name83(dir)).None? && EnoughDir(v, f, cwd)
  }
}
