/**
  Paths and 8.3 names of kernel/fs/fat.c:34-57 and 182-227 byte by byte: where a path is cut, where it starts,
  what each component does, and which eleven bytes a component is looked up under.
*/
module FatNames {
  import opened Bytes
  import opened FatVolume
  import opened FatDir
  import opened FatForest
  import opened FatPath

  // ---- cutting a path ------------------------------------------------------------------------------------

  /** Nothing but `/` and `\`. */
  predicate Gap(s: seq<Byte>) { forall i :: 0 <= i < |s| ==> s[i] == 0x2F || s[i] == 0x5C }

  /** Neither of them. */
  predicate Plain(s: seq<Byte>) { 0x2F !in s && 0x5C !in s }

  predicate Part(c: seq<Byte>) { c != [] && Plain(c) }

  /** Names with gaps before, between and behind them. */
  function Spelled(gaps: seq<seq<Byte>>, parts: seq<seq<Byte>>): seq<Byte>
    requires |gaps| == |parts| + 1
  {
    if parts == [] then gaps[0] else gaps[0] + parts[0] + Spelled(gaps[1..], parts[1..])
  }

  /** A name in pieces of fifteen bytes, the last one possibly shorter. */
  function Pieces(c: seq<Byte>): seq<seq<Byte>> { if |c| <= 15 then [c] else [c[..15]] + Pieces(c[15..]) }

  function AllPieces(parts: seq<seq<Byte>>): seq<seq<Byte>> {
    if parts == [] then [] else Pieces(parts[0]) + AllPieces(parts[1..])
  }

  predicate WellSpelled(gaps: seq<seq<Byte>>, parts: seq<seq<Byte>>) {
    && |gaps| == |parts| + 1 && (forall i :: 0 <= i < |gaps| ==> Gap(gaps[i]))
    && (forall i :: 0 < i < |parts| ==> gaps[i] != []) && (forall i :: 0 <= i < |parts| ==> Part(parts[i]))
  }

  lemma {:induction false} SkipGap(gap: seq<Byte>, rest: seq<Byte>)
    requires Gap(gap)
    ensures SkipSlashes(gap + rest) == SkipSlashes(rest)
  {
    if gap == [] {
      assert gap + rest == rest;
    } else {
      assert (gap + rest)[1..] == gap[1..] + rest;
      SkipGap(gap[1..], rest);
    }
  }

  /** The loops look at one byte at a time: these are the bytes they stop at. */
  lemma {:induction false} SpanPart(c: seq<Byte>, rest: seq<Byte>, max: nat)
    requires Plain(c) && (rest == [] || rest[0] == 0x2F || rest[0] == 0x5C)
    ensures Span(c + rest, max, false) == if |c| <= max then |c| else max
    decreases |c|
  {
    if c == [] {
      assert c + rest == rest;
    } else if max > 0 {
      assert (c + rest)[1..] == c[1..] + rest;
      assert c[0] in c;
      SpanPart(c[1..], rest, max - 1);
    }
  }

  lemma TokensAfterGap(gap: seq<Byte>, rest: seq<Byte>)
    requires Gap(gap)
    ensures Tokens(gap + rest) == Tokens(rest)
  {
    SkipGap(gap, rest);
  }

  lemma {:induction false} TokensPart(c: seq<Byte>, rest: seq<Byte>)
    requires Part(c) && (rest == [] || rest[0] == 0x2F || rest[0] == 0x5C)
    ensures Tokens(c + rest) == Pieces(c) + Tokens(rest)
    decreases |c|
  {
    var s := c + rest;
    assert c[0] in c;
    assert SkipSlashes(s) == s;
    SpanPart(c, rest, 15);
    if |c| <= 15 {
      assert s[..|c|] == c && s[|c|..] == rest;
    } else {
      DropHead(c, rest, 15);
      TokensPart(c[15..], rest);
    }
  }

  lemma DropHead(c: seq<Byte>, rest: seq<Byte>, n: nat)
    requires n <= |c|
    ensures (c + rest)[..n] == c[..n] && (c + rest)[n..] == c[n..] + rest
  {
  }

  /** Every path is cut at its slashes, backslashes and runs of them, and after fifteen bytes without one. */
  lemma {:induction false} TokensOfSpelled(gaps: seq<seq<Byte>>, parts: seq<seq<Byte>>)
    requires WellSpelled(gaps, parts)
    ensures Tokens(Spelled(gaps, parts)) == AllPieces(parts)
    decreases |parts|
  {
    hide Tokens;
    if parts == [] {
      TokensAfterGap(gaps[0], []);
      assert gaps[0] + [] == gaps[0];
      NoTokens();
    } else {
      var rest := Spelled(gaps[1..], parts[1..]);
      TokensOfSpelled(gaps[1..], parts[1..]);
      SpelledStart(gaps[1..], parts[1..]);
      TokensAfterGap(gaps[0], parts[0] + rest);
      assert gaps[0] + (parts[0] + rest) == Spelled(gaps, parts);
      TokensPart(parts[0], rest);
    }
  }

  lemma NoTokens()
    ensures Tokens([]) == []
  {
  }

  lemma SpelledStart(gaps: seq<seq<Byte>>, parts: seq<seq<Byte>>)
    requires WellSpelled(gaps, parts) && (parts != [] ==> gaps[0] != [])
    ensures var s := Spelled(gaps, parts); s == [] || s[0] == 0x2F || s[0] == 0x5C
  {
  }

  /** Names of at most fifteen bytes come out whole. */
  lemma {:induction false} ShortParts(parts: seq<seq<Byte>>)
    requires forall i :: 0 <= i < |parts| ==> |parts[i]| <= 15
    ensures AllPieces(parts) == parts
  {
    if parts != [] { ShortParts(parts[1..]); }
  }

  lemma ShortTokens(gaps: seq<seq<Byte>>, parts: seq<seq<Byte>>)
    requires WellSpelled(gaps, parts) && forall i :: 0 <= i < |parts| ==> |parts[i]| <= 15
    ensures Tokens(Spelled(gaps, parts)) == parts
  {
    TokensOfSpelled(gaps, parts);
    ShortParts(parts);
  }

  /** Every path is of this form. */
  lemma {:induction false} EverySpelling(path: seq<Byte>) returns (gaps: seq<seq<Byte>>, parts: seq<seq<Byte>>)
    ensures WellSpelled(gaps, parts) && Spelled(gaps, parts) == path
    ensures path != [] && path[0] != 0x2F && path[0] != 0x5C ==> gaps[0] == [] && parts != []
    decreases |path|
  {
    if path == [] {
      return [[]], [];
    }
    var b, rest := path[0], path[1..];
    gaps, parts := EverySpelling(rest);
    assert path == [b] + rest;
    if b == 0x2F || b == 0x5C {
      LongerGap(b, gaps, parts);
      gaps := [[b] + gaps[0]] + gaps[1..];
    } else if gaps[0] == [] && parts != [] {
      LongerPart(b, gaps, parts);
      parts := [[b] + parts[0]] + parts[1..];
    } else {
      assert ([[]] + gaps)[1..] == gaps && ([[b]] + parts)[1..] == parts;
      gaps, parts := [[]] + gaps, [[b]] + parts;
    }
  }

  lemma LongerGap(b: Byte, gaps: seq<seq<Byte>>, parts: seq<seq<Byte>>)
    requires WellSpelled(gaps, parts) && (b == 0x2F || b == 0x5C)
    ensures var more := [[b] + gaps[0]] + gaps[1..];
            WellSpelled(more, parts) && Spelled(more, parts) == [b] + Spelled(gaps, parts)
  {
    var more := [[b] + gaps[0]] + gaps[1..];
    assert more[1..] == gaps[1..];
  }

  lemma LongerPart(b: Byte, gaps: seq<seq<Byte>>, parts: seq<seq<Byte>>)
    requires WellSpelled(gaps, parts) && b != 0x2F && b != 0x5C && gaps[0] == [] && parts != []
    ensures var more := [[b] + parts[0]] + parts[1..];
            WellSpelled(gaps, more) && Spelled(gaps, more) == [b] + Spelled(gaps, parts)
  {
    var more := [[b] + parts[0]] + parts[1..];
    assert more[1..] == parts[1..];
  }

  // ---- where a path leads ----------------------------------------------------------------------------------

  /** A path that begins with `/` or `\` leads where the rest leads from the root, whatever the current directory. */
  lemma FromRoot(g: Geometry, v: Vol, f: Forest, cwd: int, b: Byte, path: seq<Byte>)
    requires ChainsOk(v, f) && cwd in f && g.root in f && (b == 0x2F || b == 0x5C)
    ensures Resolve(g, v, f, cwd, [b] + path) == Resolve(g, v, f, g.root, path)
  {
    TokensAfterGap([b], path);
    hide Tokens;
  }

  /** A path of one name, with or without a slash behind it, names that entry of the current directory. */
  lemma LastPart(g: Geometry, v: Vol, f: Forest, cwd: int, n: seq<Byte>, gap: seq<Byte>)
    requires ChainsOk(v, f) && cwd in f && g.root in f && Part(n) && |n| <= 15 && Gap(gap)
    ensures Resolve(g, v, f, cwd, n + gap) == Some((cwd, n))
  {
    assert n[0] in n;
    TokensPart(n, gap);
    TokensAfterGap(gap, []);
    assert gap + [] == gap;
    NoTokens();
    hide Tokens;
    assert [n] + [] == [n];
  }

  /** An empty path, or one of slashes alone, names the directory it starts in. */
  lemma NoPart(g: Geometry, v: Vol, f: Forest, cwd: int, gap: seq<Byte>)
    requires ChainsOk(v, f) && cwd in f && g.root in f && Gap(gap)
    ensures Resolve(g, v, f, cwd, gap) == Some((if gap == [] then cwd else g.root, []))
  {
    TokensAfterGap(gap, []);
    assert gap + [] == gap;
    NoTokens();
    hide Tokens;
  }

  /** The first of several names: `.` stays, `..` goes to the root, any other must be a directory of the current
      one, and the rest of the path leads on from there. */
  lemma FirstPart(g: Geometry, v: Vol, f: Forest, cwd: int, d: seq<Byte>, gap: seq<Byte>, rest: seq<Byte>)
    requires ChainsOk(v, f) && cwd in f && g.root in f && Part(d) && |d| <= 15 && Gap(gap) && gap != []
    requires rest != [] && rest[0] != 0x2F && rest[0] != 0x5C
    ensures var r := Resolve(g, v, f, cwd, d + gap + rest);
            if d == [0x2E] then r == Resolve(g, v, f, cwd, rest)
            else if d == [0x2E, 0x2E] then r == Resolve(g, v, f, g.root, rest)
            else match Look(v, f, cwd, Name83(d))
              case None => r.None?
              case Some(e) =>
                if !IsDir(e) || First(e) !in f then r.None? else r == Resolve(g, v, f, First(e), rest)
  {
    assert d[0] in d;
    assert d + gap + rest == d + (gap + rest);
    TokensPart(d, gap + rest);
    TokensAfterGap(gap, rest);
    assert SkipSlashes(rest) == rest;
    hide Tokens;
    var toks := Tokens(rest);
    assert toks != [] && Tokens(d + gap + rest) == [d] + toks;
    assert ([d] + toks)[1..] == toks;
  }

  // ---- 8.3 names -------------------------------------------------------------------------------------------

  /** Eleven bytes: eight of the base and three of the extension, small letters made capital, padded with blanks. */
  predicate Shows(n: Name, base: seq<Byte>, ext: seq<Byte>)
    requires |base| <= 8 && |ext| <= 3
  {
    && (forall i :: 0 <= i < 8 ==> n[i] == if i < |base| then
          (if 0x61 <= base[i] <= 0x7A then base[i] - 0x20 else base[i]) else 0x20)
    && forall i :: 0 <= i < 3 ==> n[8 + i] == if i < |ext| then
         (if 0x61 <= ext[i] <= 0x7A then ext[i] - 0x20 else ext[i]) else 0x20
  }

  function Cut(s: seq<Byte>, max: nat): seq<Byte> { if |s| <= max then s else s[..max] }

  lemma {:induction false} SpanBase(base: seq<Byte>, rest: seq<Byte>, max: nat)
    requires Plain(base) && 0x2E !in base && |base| <= max
    requires |base| == max || rest == [] || rest[0] == 0x2E
    ensures Span(base + rest, max, true) == |base|
    decreases |base|
  {
    if base == [] {
      assert base + rest == rest;
    } else {
      assert (base + rest)[1..] == base[1..] + rest;
      assert base[0] in base;
      SpanBase(base[1..], rest, max - 1);
    }
  }

  lemma SpanExt(ext: seq<Byte>)
    requires Plain(ext)
    ensures ext[..Span(ext, 3, false)] == Cut(ext, 3)
  {
    SpanPart(ext, [], 3);
    assert ext + [] == ext;
  }

  /** A base of at most eight bytes, a dot and anything: the extension is cut to three. */
  lemma DottedName(base: seq<Byte>, ext: seq<Byte>)
    requires |base| <= 8 && 0x2E !in base && Plain(base) && Plain(ext)
    ensures Shows(Name83(base + [0x2E] + ext), base, Cut(ext, 3))
  {
    var a := base + [0x2E] + ext;
    assert a == base + ([0x2E] + ext);
    SpanBase(base, [0x2E] + ext, 8);
    assert a[..|base|] == base && a[|base| + 1..] == ext;
    SpanExt(ext);
  }

  /** No dot within the first nine bytes: the ninth to eleventh byte become the extension. */
  lemma UndottedName(base: seq<Byte>, rest: seq<Byte>)
    requires |base| <= 8 && 0x2E !in base && Plain(base) && Plain(rest)
    requires rest != [] ==> |base| == 8 && rest[0] != 0x2E
    ensures Shows(Name83(base + rest), base, Cut(rest, 3))
  {
    var a := base + rest;
    SpanBase(base, rest, 8);
    assert a[..|base|] == base && a[|base|..] == rest;
    SpanExt(rest);
  }
}
