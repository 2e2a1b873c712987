/**
  Cluster chains: what a FAT links together, the sectors a chain names, and what
  fat_free_chain does to any FAT, well formed or not.
*/
module FatChain {
  import opened Bytes
  import opened FatVolume

  /** `ch` is a whole chain of `fat`: in range, acyclic, each entry names the next cluster and
      the last one is an end-of-chain mark. */
  ghost predicate IsChain(fat: seq<int>, ch: seq<int>) {
    && ch != []
    && (forall i :: 0 <= i < |ch| ==> 2 <= ch[i] < |fat|)
    && (forall i, j :: 0 <= i < j < |ch| ==> ch[i] != ch[j])
    && (forall i :: 0 <= i < |ch| - 1 ==> fat[ch[i]] == ch[i + 1])
    && fat[ch[|ch| - 1]] >= EOC
  }

  lemma ChainNonzero(fat: seq<int>, ch: seq<int>, c: int)
    requires IsChain(fat, ch) && c in ch
    ensures 2 <= c < |fat| && fat[c] >= 2
  {
    var i :| 0 <= i < |ch| && ch[i] == c;
    if i < |ch| - 1 { assert fat[ch[i]] == ch[i + 1]; }
  }

  lemma ChainSuffix(fat: seq<int>, ch: seq<int>, j: int)
    requires IsChain(fat, ch) && 0 <= j < |ch|
    ensures IsChain(fat, ch[j..])
  {
    var t := ch[j..];
    forall i | 0 <= i < |t| - 1 ensures fat[t[i]] == t[i + 1] {
      assert t[i] == ch[j + i] && t[i + 1] == ch[j + i + 1];
    }
    assert t[|t| - 1] == ch[|ch| - 1];
  }

  /** Linking a new end-of-chain cluster behind the last one. */
  lemma ChainAppend(fat: seq<int>, ch: seq<int>, c: int, fat': seq<int>)
    requires IsChain(fat, ch) && 2 <= c < |fat| && c !in ch && fat[c] >= EOC
    requires fat' == fat[ch[|ch| - 1] := c]
    ensures IsChain(fat', ch + [c])
  {
    var ch' := ch + [c];
    forall i | 0 <= i < |ch'| - 1 ensures fat'[ch'[i]] == ch'[i + 1] {
      if i < |ch| - 1 { assert ch[i] != ch[|ch| - 1]; }
    }
  }

  lemma ChainFrame(fat: seq<int>, fat': seq<int>, ch: seq<int>)
    requires IsChain(fat, ch) && |fat'| == |fat|
    requires forall c :: c in ch ==> 0 <= c < |fat| && fat'[c] == fat[c]
    ensures IsChain(fat', ch)
  {
    assert forall i :: 0 <= i < |ch| ==> ch[i] in ch;
  }

  // ---- the sectors of a chain --------------------------------------------------------------

  ghost predicate Within(n: nat, ch: seq<int>) { forall i :: 0 <= i < |ch| ==> 0 <= ch[i] < n }

  /** The sectors of the clusters of `ch`, in order. */
  function Flat(clus: seq<seq<Sector>>, ch: seq<int>): seq<Sector>
    requires Within(|clus|, ch)
  {
    if ch == [] then [] else clus[ch[0]] + Flat(clus, ch[1..])
  }

  lemma {:induction false} FlatConcat(clus: seq<seq<Sector>>, a: seq<int>, b: seq<int>)
    requires Within(|clus|, a) && Within(|clus|, b)
    ensures Within(|clus|, a + b)
    ensures Flat(clus, a + b) == Flat(clus, a) + Flat(clus, b)
  {
    if a == [] {
      assert a + b == b;
    } else {
      FlatConcat(clus, a[1..], b);
      assert (a + b)[1..] == a[1..] + b;
    }
  }

  lemma {:induction false} FlatLength(clus: seq<seq<Sector>>, ch: seq<int>, spc: nat)
    requires Within(|clus|, ch) && forall i :: 0 <= i < |ch| ==> |clus[ch[i]]| == spc
    ensures |Flat(clus, ch)| == |ch| * spc
  {
    if ch != [] {
      FlatLength(clus, ch[1..], spc);
      assert |clus[ch[0]]| == spc;
      assert (|ch| - 1) * spc + spc == |ch| * spc;
    }
  }

  lemma {:induction false} FlatFrame(clus: seq<seq<Sector>>, clus': seq<seq<Sector>>, ch: seq<int>)
    requires Within(|clus|, ch) && |clus'| == |clus|
    requires forall c :: c in ch ==> 0 <= c < |clus| && clus'[c] == clus[c]
    ensures Flat(clus', ch) == Flat(clus, ch)
  {
    if ch != [] { FlatFrame(clus, clus', ch[1..]); }
  }

  lemma FlatOne(clus: seq<seq<Sector>>, c: int)
    requires 0 <= c < |clus|
    ensures Flat(clus, [c]) == clus[c]
  {
    assert [c][1..] == [];
    assert clus[c] + [] == clus[c];
  }

  lemma FlatSnoc(clus: seq<seq<Sector>>, ch: seq<int>, j: int)
    requires Within(|clus|, ch) && 0 <= j < |ch|
    ensures Flat(clus, ch[..j + 1]) == Flat(clus, ch[..j]) + clus[ch[j]]
  {
    FlatOne(clus, ch[j]);
    FlatConcat(clus, ch[..j], [ch[j]]);
    assert ch[..j] + [ch[j]] == ch[..j + 1];
  }

  /** The chain splits around its `j`-th cluster. */
  lemma FlatSplit(clus: seq<seq<Sector>>, ch: seq<int>, j: int)
    requires Within(|clus|, ch) && 0 <= j < |ch|
    ensures Flat(clus, ch) == Flat(clus, ch[..j]) + clus[ch[j]] + Flat(clus, ch[j + 1..])
  {
    FlatSnoc(clus, ch, j);
    FlatConcat(clus, ch[..j + 1], ch[j + 1..]);
    assert ch[..j + 1] + ch[j + 1..] == ch;
  }

  /** The `j`-th cluster is a window of the chain's sectors. */
  lemma FlatWindow(clus: seq<seq<Sector>>, ch: seq<int>, j: int)
    requires Within(|clus|, ch) && 0 <= j < |ch|
    ensures var b := |Flat(clus, ch[..j])|;
            var e := b + |clus[ch[j]]|;
            && e == |Flat(clus, ch[..j + 1])| <= |Flat(clus, ch)|
            && Flat(clus, ch)[b..e] == clus[ch[j]]
    ensures j == |ch| - 1 ==> |Flat(clus, ch[..j + 1])| == |Flat(clus, ch)|
  {
    FlatSplit(clus, ch, j);
    FlatSnoc(clus, ch, j);
    if j == |ch| - 1 { assert ch[..j + 1] == ch; }
  }

  lemma Splice(a: seq<Sector>, m: seq<Sector>, b: seq<Sector>, s: int, sec: Sector, m': seq<Sector>)
    requires 0 <= s < |m| && |m'| == |m| && m'[s] == sec
    requires forall y :: 0 <= y < |m| && y != s ==> m'[y] == m[y]
    ensures (a + m + b)[|a| + s] == m[s]
    ensures a + m' + b == (a + m + b)[|a| + s := sec]
  {
  }

  /** Sector `s` of the `j`-th cluster is sector `Before(j) + s` of the chain, and no other. */
  lemma FlatPoke(clus: seq<seq<Sector>>, ch: seq<int>, j: int, s: int, sec: Sector)
    requires Within(|clus|, ch) && 0 <= j < |ch| && 0 <= s < |clus[ch[j]]|
    requires forall x, y :: 0 <= x < y < |ch| ==> ch[x] != ch[y]
    ensures var q := |Flat(clus, ch[..j])| + s;
            && q < |Flat(clus, ch)|
            && Flat(clus, ch)[q] == clus[ch[j]][s]
            && Flat(Poke(clus, ch[j], s, sec), ch) == Flat(clus, ch)[q := sec]
  {
    var clus' := Poke(clus, ch[j], s, sec);
    var a, b := Flat(clus, ch[..j]), Flat(clus, ch[j + 1..]);
    FlatSplit(clus, ch, j);
    assert Flat(clus', ch) == a + clus'[ch[j]] + b by {
      FlatSplit(clus', ch, j);
      FlatFrame(clus, clus', ch[..j]);
      FlatFrame(clus, clus', ch[j + 1..]);
    }
    Splice(a, clus[ch[j]], b, s, sec, clus'[ch[j]]);
  }

  // ---- fat_free_chain ------------------------------------------------------------------------

  /** Every link either stays inside the table or ends a walk. */
  ghost predicate LinksInRange(fat: seq<int>) {
    |fat| <= EOC && forall c :: 0 <= c < |fat| ==> fat[c] < |fat| || fat[c] >= EOC
  }

  /** The walk that fat_free_chain takes from `cl`, clearing as it goes, stays inside the table. */
  ghost predicate WalkInRange(fat: seq<int>, cl: int)
    decreases |fat| - Zeros(fat)
  {
    ZerosBound(fat);
    if cl < 2 || EOC <= cl then true
    else if !Walkable(fat, cl) then false
    else if fat[cl] == 0 then true
    else
      ZerosUpdate(fat, cl, 0);
      ZerosBound(fat[cl := 0]);
      WalkInRange(fat[cl := 0], fat[cl])
  }

  lemma AllLinksWalk(fat: seq<int>, cl: int)
    requires LinksInRange(fat) && (cl < |fat| || EOC <= cl)
    ensures WalkInRange(fat, cl)
    decreases |fat| - Zeros(fat)
  {
    ZerosBound(fat);
    if 2 <= cl < EOC && fat[cl] != 0 {
      ZerosUpdate(fat, cl, 0);
      ZerosBound(fat[cl := 0]);
      AllLinksWalk(fat[cl := 0], fat[cl]);
    }
  }

  lemma {:induction false} ChainWalks(fat: seq<int>, ch: seq<int>)
    requires IsChain(fat, ch) && |fat| <= EOC
    ensures WalkInRange(fat, ch[0])
    decreases |ch|
  {
    var fat1 := fat[ch[0] := 0];
    ZerosBound(fat);
    ZerosBound(fat1);
    ZerosUpdate(fat, ch[0], 0);
    ChainNonzero(fat, ch, ch[0]);
    if |ch| > 1 {
      ChainSuffix(fat, ch, 1);
      assert forall c :: c in ch[1..] ==> c != ch[0];
      ChainFrame(fat, fat1, ch[1..]);
      ChainWalks(fat1, ch[1..]);
    }
  }

  predicate Walkable(fat: seq<int>, cl: int) { 2 <= cl < |fat| }

  /** The table fat_free_chain leaves behind. */
  function Freed(fat: seq<int>, cl: int): (r: seq<int>)
    ensures |r| == |fat|
    decreases |fat| - Zeros(fat)
  {
    ZerosBound(fat);
    if !Walkable(fat, cl) || fat[cl] == 0 then fat else
    ZerosUpdate(fat, cl, 0);
    ZerosBound(fat[cl := 0]);
    Freed(fat[cl := 0], fat[cl])
  }

  /** One round of the loop: clear the entry, move to what it held. */
  lemma FreedStep(fat: seq<int>, cl: int)
    requires WalkInRange(fat, cl) && 2 <= cl < EOC
    ensures Walkable(fat, cl) && WalkInRange(fat[cl := 0], fat[cl])
    ensures Freed(fat[cl := 0], fat[cl]) == Freed(fat, cl)
    ensures fat[cl] != 0 ==> Zeros(fat) < Zeros(fat[cl := 0]) <= |fat|
    ensures fat[cl] == 0 ==> fat[cl := 0] == fat
  {
    ZerosUpdate(fat, cl, 0);
    ZerosBound(fat[cl := 0]);
    if fat[cl] == 0 { assert fat[cl := 0] == fat; }
  }

  lemma ZerosBound(s: seq<int>)
    ensures Zeros(s) <= |s|
  {
    if s != [] { ZerosBound(s[..|s| - 1]); }
  }

  /** The cluster `n` links after `cl`, or 0 once the walk has left the table. */
  function Nth(fat: seq<int>, cl: int, n: nat): int
    decreases n
  {
    if !Walkable(fat, cl) then 0 else if n == 0 then cl else Nth(fat, fat[cl], n - 1)
  }

  ghost predicate Reaches(fat: seq<int>, cl: int, c: int) {
    Walkable(fat, c) && exists n: nat :: Nth(fat, cl, n) == c
  }

  /** fat_free_chain zeroes exactly the clusters that its argument reaches, on every FAT, even a
      cyclic one. */
  lemma FreedExactly(fat: seq<int>, cl: int, c: int)
    requires 0 <= c < |fat|
    ensures Freed(fat, cl)[c] == if Reaches(fat, cl, c) then 0 else fat[c]
    decreases |fat| - Zeros(fat)
  {
    ZerosBound(fat);
    if !Walkable(fat, cl) || fat[cl] == 0 {
      forall n: nat | Nth(fat, cl, n) == c && Walkable(fat, c) ensures fat[c] == 0 {
        if 0 < n { assert Walkable(fat, cl) ==> Nth(fat, 0, n - 1) == 0; }
      }
    } else {
      var fat1 := fat[cl := 0];
      ZerosUpdate(fat, cl, 0);
      ZerosBound(fat1);
      FreedExactly(fat1, fat[cl], c);
      if c == cl {
        assert Nth(fat, cl, 0) == c;
      } else if Walkable(fat, c) {
        forall n: nat | Nth(fat1, fat[cl], n) == c ensures Reaches(fat, cl, c) {
          NthAgree(fat, cl, fat[cl], n, c);
          assert Nth(fat, cl, n + 1) == c;
        }
        forall n: nat | Nth(fat, cl, n) == c ensures Reaches(fat1, fat[cl], c) {
          LastVisit(fat, cl, n, c);
        }
      }
    }
  }

  /** A walk that survives cutting `cl`'s link never used that link. */
  lemma {:induction false} NthAgree(fat: seq<int>, cl: int, x: int, n: nat, c: int)
    requires Walkable(fat, cl) && c != cl && 2 <= c
    requires Nth(fat[cl := 0], x, n) == c
    ensures Nth(fat, x, n) == c
    decreases n
  {
    if Walkable(fat, x) && n != 0 {
      if x == cl {
        assert false;
      }
      NthAgree(fat, cl, fat[x], n - 1, c);
    }
  }

  /** If `cl` reaches `c`, so does its successor after the last return to `cl`. */
  lemma {:induction false} LastVisit(fat: seq<int>, cl: int, n: nat, c: int)
    requires Walkable(fat, cl) && c != cl && Walkable(fat, c) && Nth(fat, cl, n) == c
    ensures Reaches(fat[cl := 0], fat[cl], c)
  {
    assert n != 0 && Nth(fat, cl, n) == Nth(fat, fat[cl], n - 1);
    CutWalk(fat, cl, fat[cl], n - 1, c, n);
  }

  lemma {:induction false} CutWalk(fat: seq<int>, cl: int, x: int, n: nat, c: int, top: nat)
    requires Walkable(fat, cl) && c != cl && Walkable(fat, c) && Nth(fat, x, n) == c && n < top
    ensures Reaches(fat[cl := 0], x, c) || Reaches(fat[cl := 0], fat[cl], c)
    decreases n
  {
    var fat1 := fat[cl := 0];
    if n == 0 {
      assert Nth(fat1, x, 0) == c;
    } else {
      CutWalk(fat, cl, fat[x], n - 1, c, top);
      if x != cl && !Reaches(fat1, fat[cl], c) {
        var m: nat :| Nth(fat1, fat[x], m) == c;
        assert Nth(fat1, x, m + 1) == c;
      }
    }
  }

  /** Freeing a well-formed chain clears its clusters and nothing else. */
  lemma {:induction false} FreedChain(fat: seq<int>, ch: seq<int>)
    requires IsChain(fat, ch) && |fat| <= EOC
    ensures forall c :: 0 <= c < |fat| ==> Freed(fat, ch[0])[c] == if c in ch then 0 else fat[c]
    ensures Zeros(Freed(fat, ch[0])) == Zeros(fat) + |ch|
    decreases |ch|
  {
    FreedHead(fat, ch);
    hide IsChain, Freed, Zeros;
    var fat1 := fat[ch[0] := 0];
    ZerosUpdate(fat, ch[0], 0);
    if |ch| > 1 {
      FreedChain(fat1, ch[1..]);
      forall c | 0 <= c < |fat| ensures c in ch <==> c == ch[0] || c in ch[1..] { assert ch == [ch[0]] + ch[1..]; }
    }
  }

  lemma FreedEnd(fat: seq<int>, cl: int)
    requires |fat| <= EOC <= cl
    ensures Freed(fat, cl) == fat
  {
  }

  /** One turn of the loop, on a chain. */
  lemma FreedHead(fat: seq<int>, ch: seq<int>)
    requires IsChain(fat, ch) && |fat| <= EOC
    ensures ch != [] && 0 <= ch[0] < |fat| && fat[ch[0]] != 0 && (forall c :: c in ch ==> 0 <= c < |fat|)
    ensures |ch| == 1 ==> Freed(fat, ch[0]) == fat[ch[0] := 0]
    ensures |ch| > 1 ==> IsChain(fat[ch[0] := 0], ch[1..]) && Freed(fat, ch[0]) == Freed(fat[ch[0] := 0], ch[1])
  {
    var fat1 := fat[ch[0] := 0];
    ChainNonzero(fat, ch, ch[0]);
    ChainWalks(fat, ch);
    FreedStep(fat, ch[0]);
    hide Zeros, Freed, WalkInRange;
    if |ch| == 1 {
      FreedEnd(fat1, fat[ch[0]]);
    } else {
      ChainSuffix(fat, ch, 1);
      assert forall c :: c in ch[1..] ==> c != ch[0];
      ChainFrame(fat, fat1, ch[1..]);
    }
  }

  /** From `v` to `v'` only the clusters of `ch`, all free before, were written. */
  ghost predicate Untouched(v: Vol, v': Vol, ch: seq<int>) {
    && |v'.fat| == |v.fat| == |v'.clus| == |v.clus|
    && (forall c :: c in ch ==> 3 <= c < |v.fat| && v.fat[c] == 0)
    && (forall c :: 0 <= c < |v.fat| && c !in ch ==> v'.fat[c] == v.fat[c] && v'.clus[c] == v.clus[c])
  }

  /** One more cluster of a file being written: claimed, linked behind the chain so far, filled. */
  lemma ChainStep(fat0: seq<int>, fat: seq<int>, ch: seq<int>, c: int, fat': seq<int>)
    requires |fat| == |fat0| && 3 <= c < |fat| && fat[c] == 0
    requires ch != [] ==> IsChain(fat, ch)
    requires fat' == if ch == [] then fat[c := 0x0FFF_FFFF]
                     else fat[c := 0x0FFF_FFFF][ch[|ch| - 1] := c]
    ensures IsChain(fat', ch + [c]) && c !in ch && Zeros(fat') == Zeros(fat) - 1
  {
    var fat1 := fat[c := 0x0FFF_FFFF];
    ZerosUpdate(fat, c, 0x0FFF_FFFF);
    if ch != [] {
      if c in ch { ChainNonzero(fat, ch, c); }
      ChainFrame(fat, fat1, ch);
      ChainAppend(fat1, ch, c, fat');
      ChainNonzero(fat, ch, ch[|ch| - 1]);
      ZerosUpdate(fat1, ch[|ch| - 1], c);
    }
  }

  // ---- clusters that can be handed out -----------------------------------------------------------------

  /** The free entries among the first three, which fat_alloc_cluster never looks at. */
  function Low(fat: seq<int>): nat
    requires |fat| >= 3
  {
    (if fat[0] == 0 then 1 else 0) + (if fat[1] == 0 then 1 else 0) + if fat[2] == 0 then 1 else 0
  }

  /** The free clusters from 3 up. */
  function Spare(fat: seq<int>): (n: nat)
    requires |fat| >= 3
  {
    LowZeros(fat);
    Zeros(fat) - Low(fat)
  }

  lemma {:induction false} LowZeros(fat: seq<int>)
    requires |fat| >= 3
    ensures Low(fat) <= Zeros(fat)
    ensures Low(fat) == Zeros(fat) <==> forall x :: 3 <= x < |fat| ==> fat[x] != 0
  {
    var n := |fat| - 1;
    if n == 2 {
      assert fat[..2][..1] == [fat[0]] && [fat[0]][..0] == [];
      assert Zeros([fat[0]]) == if fat[0] == 0 then 1 else 0;
      assert Zeros(fat[..2]) == Zeros([fat[0]]) + if fat[1] == 0 then 1 else 0;
    } else {
      LowZeros(fat[..n]);
      assert forall x :: 3 <= x < n ==> fat[..n][x] == fat[x];
    }
  }

  /** Claiming the clusters of `ch` takes so many from the spare ones. */
  lemma SpareTouched(v: Vol, v': Vol, ch: seq<int>)
    requires Untouched(v, v', ch) && |v.fat| >= 3 && Zeros(v'.fat) == Zeros(v.fat) - |ch|
    ensures Spare(v'.fat) == Spare(v.fat) - |ch| && Low(v'.fat) == Low(v.fat)
  {
  }

  /** Freeing a chain makes all of it spare but for cluster 2. */
  lemma SpareFreed(fat: seq<int>, ch: seq<int>)
    requires IsChain(fat, ch) && |fat| <= EOC
    ensures WalkInRange(fat, ch[0]) && |Freed(fat, ch[0])| == |fat| >= 3
    ensures Spare(Freed(fat, ch[0])) == Spare(fat) + |ch| - if 2 in ch then 1 else 0
    ensures Low(Freed(fat, ch[0])) == Low(fat) + if 2 in ch then 1 else 0
  {
    ChainWalks(fat, ch);
    FreedChain(fat, ch);
    hide Freed, Zeros, IsChain;
    if 2 in ch { ChainNonzero(fat, ch, 2); }
    NotInChain(fat, ch);
  }

  lemma NotInChain(fat: seq<int>, ch: seq<int>)
    requires IsChain(fat, ch)
    ensures 0 !in ch && 1 !in ch && |fat| >= 3
  {
  }

  /** The table alone decides what a chain is. */
  lemma {:induction false} ChainAt(fat: seq<int>, a: seq<int>, b: seq<int>, i: nat)
    requires IsChain(fat, a) && IsChain(fat, b) && a[0] == b[0] && |fat| <= EOC && i < |a|
    ensures i < |b| && a[i] == b[i]
  {
    if i > 0 {
      ChainAt(fat, a, b, i - 1);
      assert fat[a[i - 1]] == a[i] < EOC;
    }
  }

  lemma ChainUnique(fat: seq<int>, a: seq<int>, b: seq<int>)
    requires IsChain(fat, a) && IsChain(fat, b) && a[0] == b[0] && |fat| <= EOC
    ensures a == b
  {
    ChainAt(fat, a, b, |a| - 1);
    ChainAt(fat, b, a, |b| - 1);
    forall i | 0 <= i < |a| ensures a[i] == b[i] { ChainAt(fat, a, b, i); }
  }
}
