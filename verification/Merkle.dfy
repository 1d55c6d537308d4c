/** The level-by-level Merkle root of `merkle_root`, compared with the recursive Merkle Tree
    Hash of section 2.1 of RFC 6962. */
module Merkle {
  import opened Digests

  // ---------------------------------------------------------------- the iterative root

  /** One pass over a level: neighbours are paired and an odd last node is paired with itself. */
  function Up(level: seq<Digest>): (r: seq<Digest>)
    ensures |r| == (|level| + 1) / 2
  {
    seq((|level| + 1) / 2, i requires 0 <= i < (|level| + 1) / 2 =>
      NodeHash(level[2 * i], if 2 * i + 1 < |level| then level[2 * i + 1] else level[2 * i]))
  }

  function LeafLevel(leaves: seq<Digest>): (r: seq<Digest>)
    ensures |r| == |leaves|
  {
    seq(|leaves|, i requires 0 <= i < |leaves| => LeafHash(leaves[i]))
  }

  function Climb(level: seq<Digest>): Digest
    requires |level| > 0
    decreases |level|
  {
    if |level| == 1 then level[0] else Climb(Up(level))
  }

  function Root(leaves: seq<Digest>): Digest {
    if leaves == [] then Genesis else Climb(LeafLevel(leaves))
  }

  method MerkleRoot(leaves: seq<Digest>) returns (root: Digest)
    ensures root == Root(leaves)
  {
    if leaves == [] {
      return Genesis;
    }
    var level := LeafLevel(leaves);
    while |level| > 1
      invariant |level| > 0
      invariant Climb(level) == Root(leaves)
      decreases |level|
    {
      var next := [];
      var i := 0;
      while i < |level|
        invariant 0 <= i <= |level| + 1 && i % 2 == 0
        invariant |next| == i / 2
        invariant next == Up(level)[..i / 2]
      {
        var left := level[i];
        var right := if i + 1 < |level| then level[i + 1] else level[i];
        assert Up(level)[i / 2] == NodeHash(left, right);
        next := next + [NodeHash(left, right)];
        i := i + 2;
      }
      assert next == Up(level);
      level := next;
    }
    root := level[0];
  }

  // ---------------------------------------------------------------- the published definition

  /** The largest power of two smaller than `n`. */
  function SplitPoint(n: nat): (k: nat)
    requires n >= 2
    ensures 0 < k < n <= 2 * k
  {
    if n == 2 then 1 else 2 * SplitPoint((n + 1) / 2)
  }

  /** MTH of section 2.1 of RFC 6962. */
  function MTH(d: seq<Digest>): Digest
    decreases |d|
  {
    if |d| == 0 then EmptyString
    else if |d| == 1 then LeafHash(d[0])
    else
      var k := SplitPoint(|d|);
      NodeHash(MTH(d[..k]), MTH(d[k..]))
  }

  predicate IsPowerOfTwo(n: nat) {
    n == 1 || (n > 1 && n % 2 == 0 && IsPowerOfTwo(n / 2))
  }

  // ---------------------------------------------------------------- heights

  function Pow2(h: nat): (p: nat)
    ensures p >= 1
  {
    if h == 0 then 1 else 2 * Pow2(h - 1)
  }

  /** How many passes reduce `n` nodes to one. */
  function Height(n: nat): nat {
    if n <= 1 then 0 else 1 + Height((n + 1) / 2)
  }

  function UpTimes(level: seq<Digest>, h: nat): seq<Digest>
    decreases h
  {
    if h == 0 then level else UpTimes(Up(level), h - 1)
  }

  lemma {:induction false} HeightBounds(n: nat)
    requires n >= 1
    ensures n <= Pow2(Height(n))
    ensures n >= 2 ==> SplitPoint(n) == Pow2(Height(n) - 1)
    ensures IsPowerOfTwo(n) <==> n == Pow2(Height(n))
  {
    if n >= 2 { HeightBounds((n + 1) / 2); }
  }

  lemma {:induction false} HeightOfSplit(n: nat, h: nat)
    requires 1 <= n <= Pow2(h)
    ensures Height(n) <= h
    ensures n == Pow2(h) ==> Height(n) == h
    ensures h > 0 && n > Pow2(h - 1) ==> Height(n) == h
  {
    if n >= 2 { HeightOfSplit((n + 1) / 2, h - 1); }
  }

  lemma {:induction false} UpTimesLast(level: seq<Digest>, h: nat)
    ensures UpTimes(level, h + 1) == Up(UpTimes(level, h))
    decreases h
  {
    if h > 0 { UpTimesLast(Up(level), h - 1); }
  }

  lemma {:induction false} UpTimesSingle(level: seq<Digest>, h: nat)
    requires 1 <= |level| <= Pow2(h)
    ensures |UpTimes(level, h)| == 1
    decreases h
  {
    if h > 0 { UpTimesSingle(Up(level), h - 1); }
  }

  lemma {:induction false} ClimbIsUpTimes(level: seq<Digest>)
    requires |level| >= 1
    ensures UpTimes(level, Height(|level|)) == [Climb(level)]
    decreases |level|
  {
    if |level| > 1 { ClimbIsUpTimes(Up(level)); }
  }

  lemma UpConcat(xs: seq<Digest>, ys: seq<Digest>)
    requires |xs| % 2 == 0
    ensures Up(xs + ys) == Up(xs) + Up(ys)
  {
    forall i | 0 <= i < |Up(ys)|
      ensures Up(xs + ys)[|xs| / 2 + i] == Up(ys)[i]
    {
      assert 2 * (|xs| / 2 + i) == |xs| + 2 * i;
    }
  }

  lemma {:induction false} UpTimesConcat(xs: seq<Digest>, ys: seq<Digest>, h: nat)
    requires |xs| == Pow2(h)
    ensures UpTimes(xs + ys, h) == UpTimes(xs, h) + UpTimes(ys, h)
    decreases h
  {
    if h > 0 {
      var a, b := Up(xs), Up(ys);
      assert |xs| == 2 * Pow2(h - 1) && |a| == Pow2(h - 1);
      UpConcat(xs, ys);
      UpTimesConcat(a, b, h - 1);
      assert UpTimes(xs + ys, h) == UpTimes(a + b, h - 1);
    }
  }

  /** The subtree over a full left half and a non-empty right part. */
  lemma UpTimesSplit(xs: seq<Digest>, ys: seq<Digest>, h: nat)
    requires |xs| == Pow2(h) && 1 <= |ys| <= Pow2(h)
    ensures |UpTimes(xs, h)| == |UpTimes(ys, h)| == 1
    ensures UpTimes(xs + ys, h + 1) == [NodeHash(UpTimes(xs, h)[0], UpTimes(ys, h)[0])]
  {
    UpTimesSingle(xs, h);
    UpTimesSingle(ys, h);
    UpTimesConcat(xs, ys, h);
    UpTimesLast(xs + ys, h);
  }

  /** The subtree over a part that fits one half: the half is paired with itself. */
  lemma UpTimesTwin(xs: seq<Digest>, h: nat)
    requires 1 <= |xs| <= Pow2(h)
    ensures |UpTimes(xs, h)| == 1
    ensures UpTimes(xs, h + 1) == [NodeHash(UpTimes(xs, h)[0], UpTimes(xs, h)[0])]
  {
    UpTimesSingle(xs, h);
    UpTimesLast(xs, h);
  }

  function Depth(d: Digest): nat {
    if d.NodeHash? then 1 + Depth(d.left) else 0
  }

  lemma {:induction false} UpTimesDepth(level: seq<Digest>, e: nat, h: nat)
    requires forall i | 0 <= i < |level| :: Depth(level[i]) == e
    ensures forall i | 0 <= i < |UpTimes(level, h)| :: Depth(UpTimes(level, h)[i]) == e + h
    decreases h
  {
    if h > 0 { UpTimesDepth(Up(level), e + 1, h - 1); }
  }

  lemma {:induction false} MTHDepth(d: seq<Digest>)
    requires |d| >= 1
    ensures Depth(MTH(d)) == Height(|d|)
    decreases |d|
  {
    if |d| > 1 {
      var k := SplitPoint(|d|);
      HeightBounds(|d|);
      HeightOfSplit(k, Height(|d|) - 1);
      MTHDepth(d[..k]);
    }
  }

  // ---------------------------------------------------------------- refinement of RFC 6962

  lemma {:induction false} PassesMatchMTH(d: seq<Digest>, h: nat)
    requires 1 <= |d| <= Pow2(h)
    ensures |UpTimes(LeafLevel(d), h)| == 1
    ensures UpTimes(LeafLevel(d), h)[0] == MTH(d) <==> |d| == Pow2(h)
    decreases h
  {
    UpTimesSingle(LeafLevel(d), h);
    if h > 0 {
      var half := Pow2(h - 1);
      if |d| <= half {
        HeightOfSplit(|d|, h - 1);
        MTHDepth(d);
        UpTimesDepth(LeafLevel(d), 0, h);
      } else {
        var a, b := d[..half], d[half..];
        assert SplitPoint(|d|) == half by {
          HeightOfSplit(|d|, h);
          HeightBounds(|d|);
        }
        PassesMatchMTH(a, h - 1);
        PassesMatchMTH(b, h - 1);
        assert d == a + b;
        LeafLevelConcat(a, b);
        UpTimesSplit(LeafLevel(a), LeafLevel(b), h - 1);
      }
    }
  }

  /** The docstring calls the root an RFC 6962 tree: it is one exactly for power-of-two lengths. */
  lemma {:induction false} RootIsMTHExactlyForPowersOfTwo(leaves: seq<Digest>)
    ensures Root(leaves) == MTH(leaves) <==> IsPowerOfTwo(|leaves|)
  {
    if leaves != [] {
      HeightBounds(|leaves|);
      PassesMatchMTH(leaves, Height(|leaves|));
      ClimbIsUpTimes(LeafLevel(leaves));
    }
  }

  // ---------------------------------------------------------------- what a root determines

  lemma UpInjective(xs: seq<Digest>, ys: seq<Digest>)
    requires |xs| == |ys| && Up(xs) == Up(ys)
    ensures xs == ys
  {
    forall i | 0 <= i < |xs|
      ensures xs[i] == ys[i]
    {
      assert Up(xs)[i / 2] == Up(ys)[i / 2];
    }
  }

  lemma {:induction false} UpTimesInjective(xs: seq<Digest>, ys: seq<Digest>, h: nat)
    requires |xs| == |ys| && UpTimes(xs, h) == UpTimes(ys, h)
    ensures xs == ys
    decreases h
  {
    if h > 0 {
      UpTimesInjective(Up(xs), Up(ys), h - 1);
      UpInjective(xs, ys);
    }
  }

  lemma LeafLevelInjective(xs: seq<Digest>, ys: seq<Digest>)
    requires LeafLevel(xs) == LeafLevel(ys)
    ensures xs == ys
  {
    forall i | 0 <= i < |xs|
      ensures xs[i] == ys[i]
    {
      assert LeafLevel(xs)[i] == LeafLevel(ys)[i];
    }
  }

  /** Equal length and equal root force equal leaves, for every length. */
  lemma RootAndLengthDetermineLeaves(xs: seq<Digest>, ys: seq<Digest>)
    requires |xs| == |ys| && Root(xs) == Root(ys)
    ensures xs == ys
  {
    if xs != [] {
      ClimbIsUpTimes(LeafLevel(xs));
      ClimbIsUpTimes(LeafLevel(ys));
      UpTimesInjective(LeafLevel(xs), LeafLevel(ys), Height(|xs|));
      LeafLevelInjective(xs, ys);
    }
  }

  /** The leaves of the perfect tree that duplication builds over `xs`. */
  function PadTo(xs: seq<Digest>, h: nat): (r: seq<Digest>)
    requires 1 <= |xs| <= Pow2(h)
    ensures |r| == Pow2(h)
    decreases h
  {
    if h == 0 then xs
    else if |xs| <= Pow2(h - 1) then PadTo(xs, h - 1) + PadTo(xs, h - 1)
    else xs[..Pow2(h - 1)] + PadTo(xs[Pow2(h - 1)..], h - 1)
  }

  function Pad(xs: seq<Digest>): (r: seq<Digest>)
  {
    if xs == [] then [] else (HeightBounds(|xs|); PadTo(xs, Height(|xs|)))
  }

  lemma LeafLevelConcat(xs: seq<Digest>, ys: seq<Digest>)
    ensures LeafLevel(xs + ys) == LeafLevel(xs) + LeafLevel(ys)
  {
  }

  lemma PassesOverTwin(xs: seq<Digest>, p: seq<Digest>, h: nat)
    requires 1 <= |xs| <= Pow2(h) && |p| == Pow2(h)
    requires UpTimes(LeafLevel(p), h) == UpTimes(LeafLevel(xs), h)
    ensures UpTimes(LeafLevel(p + p), h + 1) == UpTimes(LeafLevel(xs), h + 1)
  {
    LeafLevelConcat(p, p);
    UpTimesSplit(LeafLevel(p), LeafLevel(p), h);
    UpTimesTwin(LeafLevel(xs), h);
  }

  lemma PassesOverRight(a: seq<Digest>, b: seq<Digest>, p: seq<Digest>, h: nat)
    requires |a| == |p| == Pow2(h) && 1 <= |b| <= Pow2(h)
    requires UpTimes(LeafLevel(p), h) == UpTimes(LeafLevel(b), h)
    ensures UpTimes(LeafLevel(a + p), h + 1) == UpTimes(LeafLevel(a + b), h + 1)
  {
    LeafLevelConcat(a, p);
    LeafLevelConcat(a, b);
    UpTimesSplit(LeafLevel(a), LeafLevel(p), h);
    UpTimesSplit(LeafLevel(a), LeafLevel(b), h);
  }

  lemma {:induction false} PassesIgnorePadding(xs: seq<Digest>, h: nat)
    requires 1 <= |xs| <= Pow2(h)
    ensures UpTimes(LeafLevel(PadTo(xs, h)), h) == UpTimes(LeafLevel(xs), h)
    decreases h
  {
    if h > 0 {
      var half := Pow2(h - 1);
      if |xs| <= half {
        PassesIgnorePadding(xs, h - 1);
        PassesOverTwin(xs, PadTo(xs, h - 1), h - 1);
      } else {
        PassesIgnorePadding(xs[half..], h - 1);
        PassesOverRight(xs[..half], xs[half..], PadTo(xs[half..], h - 1), h - 1);
        assert xs == xs[..half] + xs[half..];
      }
    }
  }

  lemma RootDepth(xs: seq<Digest>)
    requires xs != []
    ensures Depth(Root(xs)) == Height(|xs|) && Root(xs) != Genesis
  {
    ClimbIsUpTimes(LeafLevel(xs));
    UpTimesDepth(LeafLevel(xs), 0, Height(|xs|));
  }

  lemma {:induction false} Pow2Injective(a: nat, b: nat)
    requires Pow2(a) == Pow2(b)
    ensures a == b
  {
    if a > 0 && b > 0 { Pow2Injective(a - 1, b - 1); }
  }

  /** The exact collisions of the root: two lists share it if and only if duplication completes
      them to the same perfect tree. */
  lemma RootsCollideExactlyWhenPaddingsAgree(xs: seq<Digest>, ys: seq<Digest>)
    ensures Root(xs) == Root(ys) <==> Pad(xs) == Pad(ys)
  {
    if xs == [] && ys != [] { RootDepth(ys); }
    if xs != [] && ys == [] { RootDepth(xs); }
    if xs != [] && ys != [] {
      var h, k := Height(|xs|), Height(|ys|);
      HeightBounds(|xs|);
      HeightBounds(|ys|);
      ClimbIsUpTimes(LeafLevel(xs));
      ClimbIsUpTimes(LeafLevel(ys));
      PassesIgnorePadding(xs, h);
      PassesIgnorePadding(ys, k);
      if Root(xs) == Root(ys) {
        RootDepth(xs);
        RootDepth(ys);
        UpTimesInjective(LeafLevel(Pad(xs)), LeafLevel(Pad(ys)), h);
        LeafLevelInjective(Pad(xs), Pad(ys));
      } else if Pad(xs) == Pad(ys) {
        Pow2Injective(h, k);
      }
    }
  }

  /** A family of collisions: repeating the last leaf of an odd list keeps the root. */
  lemma RepeatedLastLeafKeepsRoot(xs: seq<Digest>)
    requires |xs| >= 3 && |xs| % 2 == 1
    ensures Root(xs) == Root(xs + [xs[|xs| - 1]])
  {
    var ys := xs + [xs[|xs| - 1]];
    assert Up(LeafLevel(xs)) == Up(LeafLevel(ys));
  }

  lemma {:induction false} PaddingAddsNoLeaf(xs: seq<Digest>, h: nat, d: Digest)
    requires 1 <= |xs| <= Pow2(h)
    ensures d in PadTo(xs, h) <==> d in xs
    decreases h
  {
    if h > 0 {
      var half := Pow2(h - 1);
      if |xs| <= half {
        PaddingAddsNoLeaf(xs, h - 1, d);
      } else {
        PaddingAddsNoLeaf(xs[half..], h - 1, d);
        assert xs == xs[..half] + xs[half..];
      }
    }
  }

  /** Lists with different sets of leaves never share a root. */
  lemma DifferentLeavesDifferentRoots(xs: seq<Digest>, ys: seq<Digest>, d: Digest)
    requires d in xs && d !in ys
    ensures Root(xs) != Root(ys)
  {
    RootsCollideExactlyWhenPaddingsAgree(xs, ys);
    HeightBounds(|xs|);
    PaddingAddsNoLeaf(xs, Height(|xs|), d);
    if ys != [] {
      HeightBounds(|ys|);
      PaddingAddsNoLeaf(ys, Height(|ys|), d);
    }
  }
}
