/**
  Paths of kernel/vfs/vfs.c:50-98 and 140-153 character by character: where a path is cut, where it starts, and
  which drive it belongs to.
*/
module RamNames {
  import opened Links
  import opened RamTree
  import opened RamFs

  /** Nothing but `/` and `\`. */
  predicate Gap(s: string) { forall i :: 0 <= i < |s| ==> s[i] == '/' || s[i] == '\\' }

  /** A name without either. */
  predicate Part(c: string) { c != [] && '/' !in c && '\\' !in c }

  /** Names with gaps before, between and behind them. */
  function Spelled(gaps: seq<string>, parts: seq<string>): string
    requires |gaps| == |parts| + 1
  {
    if parts == [] then gaps[0] else gaps[0] + parts[0] + Spelled(gaps[1..], parts[1..])
  }

  /** A name in pieces of sixty-three characters, the last one possibly shorter. */
  function Pieces(c: string): seq<string> { if |c| <= 63 then [c] else [c[..63]] + Pieces(c[63..]) }

  function AllPieces(parts: seq<string>): seq<string> {
    if parts == [] then [] else Pieces(parts[0]) + AllPieces(parts[1..])
  }

  predicate WellSpelled(gaps: seq<string>, parts: seq<string>) {
    && |gaps| == |parts| + 1 && (forall i :: 0 <= i < |gaps| ==> Gap(gaps[i]))
    && (forall i :: 0 < i < |parts| ==> gaps[i] != []) && (forall i :: 0 <= i < |parts| ==> Part(parts[i]))
  }

  lemma {:induction false} SkipGap(gap: string, rest: string)
    requires Gap(gap)
    ensures Skip(gap + rest) == Skip(rest)
  {
    if gap == [] {
      assert gap + rest == rest;
    } else {
      assert (gap + rest)[1..] == gap[1..] + rest;
      SkipGap(gap[1..], rest);
    }
  }

  lemma {:induction false} CutPart(c: string, rest: string, i: nat)
    requires '/' !in c && '\\' !in c && (rest == [] || rest[0] == '/' || rest[0] == '\\') && i <= |c| && i <= 63
    ensures Cut(c + rest, i) == if |c| <= 63 then |c| else 63
    decreases |c| - i
  {
    if i < |c| && i < 63 {
      assert (c + rest)[i] == c[i] && c[i] in c;
      CutPart(c, rest, i + 1);
    }
  }

  lemma {:induction false} PartsPart(c: string, rest: string)
    requires Part(c) && (rest == [] || rest[0] == '/' || rest[0] == '\\')
    ensures Parts(c + rest) == Pieces(c) + Parts(Skip(rest))
    decreases |c|
  {
    var s := c + rest;
    CutPart(c, rest, 0);
    if |c| <= 63 {
      assert s[..|c|] == c && s[|c|..] == rest;
    } else {
      DropHead(c, rest, 63);
      assert c[63..][0] in c;
      assert Skip(c[63..] + rest) == c[63..] + rest;
      PartsPart(c[63..], rest);
    }
  }

  lemma DropHead(c: string, rest: string, n: nat)
    requires n <= |c|
    ensures (c + rest)[..n] == c[..n] && (c + rest)[n..] == c[n..] + rest
  {
  }

  /** Every path is walked name by name, cut at slashes, backslashes and runs of them, and after sixty-three
      characters without one. */
  lemma {:induction false} PartsOfSpelled(gaps: seq<string>, parts: seq<string>)
    requires WellSpelled(gaps, parts)
    ensures Parts(Skip(Spelled(gaps, parts))) == AllPieces(parts)
    decreases |parts|
  {
    hide Parts;
    if parts == [] {
      SkipGap(gaps[0], []);
      assert gaps[0] + [] == gaps[0];
      NoParts();
    } else {
      var rest := Spelled(gaps[1..], parts[1..]);
      PartsOfSpelled(gaps[1..], parts[1..]);
      SpelledStart(gaps[1..], parts[1..]);
      SkipGap(gaps[0], parts[0] + rest);
      assert gaps[0] + (parts[0] + rest) == Spelled(gaps, parts);
      assert (parts[0] + rest)[0] in parts[0];
      PartsPart(parts[0], rest);
    }
  }

  lemma NoParts()
    ensures Parts([]) == []
  {
  }

  lemma SpelledStart(gaps: seq<string>, parts: seq<string>)
    requires WellSpelled(gaps, parts) && (parts != [] ==> gaps[0] != [])
    ensures var s := Spelled(gaps, parts); s == [] || s[0] == '/' || s[0] == '\\'
  {
  }

  /** A drive letter, large or small, and a colon. */
  predicate Letter(path: string, large: char, small: char) {
    |path| >= 2 && (path[0] == large || path[0] == small) && path[1] == ':'
  }

  /** A call goes to the FAT drive exactly when the path says D:, or says nothing and D: is the current drive. */
  lemma Drives(path: string, onC: bool)
    ensures HasDriveC(path) <==> Letter(path, 'C', 'c')
    ensures ForD(path, onC) <==> Letter(path, 'D', 'd') || (!onC && !Letter(path, 'C', 'c'))
  {
  }

  /** With `C:` in front, and any slashes behind it, a path leads from the root, whatever the current directory and
      drive. */
  lemma FromDrive(ns: seq<Node>, kids: seq<seq<int>>, cwd: int, onC: bool, letter: char, gap: string, path: string)
    requires InRange(ns, kids) && 0 <= cwd < |ns| && (letter == 'C' || letter == 'c') && Gap(gap)
    ensures Lookup(ns, kids, cwd, onC, [letter, ':'] + gap + path) == WalkParts(ns, kids, 0, Parts(Skip(path)))
  {
    var s := [letter, ':'] + gap + path;
    hide WalkParts, Parts, Skip, InRange;
    assert s[2..] == gap + path;
    assert HasDriveC(s) && StripC(s) == Skip(gap + path);
    SkipGap(gap, path);
  }

  /** With a slash or a backslash in front it does so on the C: drive. */
  lemma FromRoot(ns: seq<Node>, kids: seq<seq<int>>, cwd: int, gap: string, path: string)
    requires InRange(ns, kids) && 0 <= cwd < |ns| && Gap(gap) && gap != []
    ensures Lookup(ns, kids, cwd, true, gap + path) == WalkParts(ns, kids, 0, Parts(Skip(path)))
  {
    var s := gap + path;
    hide WalkParts, Parts, Skip, InRange;
    assert s[0] == gap[0];
    assert !HasDriveC(s) && !HasDriveD(s) && StripC(s) == Skip(s);
    SkipGap(gap, path);
  }

  /** Otherwise it leads from the current directory. */
  lemma FromHere(ns: seq<Node>, kids: seq<seq<int>>, cwd: int, path: string)
    requires InRange(ns, kids) && 0 <= cwd < |ns| && !Letter(path, 'C', 'c') && !Letter(path, 'D', 'd')
    requires path == [] || (path[0] != '/' && path[0] != '\\')
    ensures Lookup(ns, kids, cwd, true, path) == WalkParts(ns, kids, cwd, Parts(path))
  {
    hide InRange;
    assert Skip(path) == path;
    if path == [] { NoParts(); }
  }
}
