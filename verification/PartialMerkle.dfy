/** CPartialMerkleTree: the part of a Merkle tree that proves a subset of a block's transactions. */
module PartialMerkle {
  import opened Arithmetic
  import opened Primitives
  import opened Bits
  import opened Merkle

  const MAX_TRANSACTIONS: nat := 1_000_000 / 60

  // ---------- The shape of the tree ----------

  /** CalcTreeWidth: how many nodes there are at a height. */
  function Width(n: nat, height: nat): nat {
    (n + Pow2(height) - 1) / Pow2(height)
  }

  /** A node exists when the first transaction below it does. */
  lemma WidthIff(n: nat, height: nat, k: nat)
    ensures k < Width(n, height) <==> k * Pow2(height) < n
  {
    var p := Pow2(height);
    var w := Width(n, height);
    QuotientBounds(n + p - 1, p);
    assert (w + 1) * p == w * p + p;
    if k < w {
      MulLe(k + 1, w, p);
      assert (k + 1) * p == k * p + p;
    } else {
      MulLe(w, k, p);
    }
  }

  lemma WidthZero(n: nat)
    ensures Width(n, 0) == n
  {
  }

  lemma WidthDouble(n: nat, height: nat, k: nat)
    ensures k < Width(n, height + 1) <==> 2 * k < Width(n, height)
  {
    WidthIff(n, height + 1, k);
    WidthIff(n, height, 2 * k);
    assert k * (2 * Pow2(height)) == 2 * k * Pow2(height);
  }

  lemma WidthStep(n: nat, height: nat)
    ensures Width(n, height + 1) == (Width(n, height) + 1) / 2
  {
    var v, half := Width(n, height + 1), (Width(n, height) + 1) / 2;
    hide Width;
    WidthDouble(n, height, v);
    WidthDouble(n, height, half);
    if v > 0 {
      WidthDouble(n, height, v - 1);
    }
    if half > 0 {
      WidthDouble(n, height, half - 1);
    }
  }

  /** The transactions below a node are numbered from First up to, but not including, End. */
  function First(height: nat, pos: nat): nat {
    pos * Pow2(height)
  }

  function End(n: nat, height: nat, pos: nat): (r: nat)
    ensures r <= n
  {
    if (pos + 1) * Pow2(height) < n then (pos + 1) * Pow2(height) else n
  }

  predicate HasRight(n: nat, height: nat, pos: nat)
    requires height > 0
  {
    2 * pos + 1 < Width(n, height - 1)
  }

  /** The children of a node split its transactions. */
  lemma Children(n: nat, height: nat, pos: nat)
    requires height > 0 && pos < Width(n, height)
    ensures 2 * pos < Width(n, height - 1)
    ensures First(height - 1, 2 * pos) == First(height, pos) < n
    ensures HasRight(n, height, pos) ==>
              && End(n, height - 1, 2 * pos) == First(height - 1, 2 * pos + 1) < n
              && End(n, height - 1, 2 * pos + 1) == End(n, height, pos)
    ensures !HasRight(n, height, pos) ==> End(n, height - 1, 2 * pos) == End(n, height, pos)
  {
    hide Width;
    var p := Pow2(height - 1);
    assert Pow2(height) == 2 * p;
    hide Pow2;
    WidthIff(n, height, pos);
    WidthIff(n, height - 1, 2 * pos);
    WidthIff(n, height - 1, 2 * pos + 1);
    Doubling(pos, p);
    Doubling(pos + 1, p);
  }

  lemma Doubling(k: nat, p: nat)
    ensures k * (2 * p) == 2 * k * p
    ensures (2 * k + 1) * p == 2 * k * p + p
  {
  }

  // ---------- Hashes of inner nodes ----------

  /** CalcHash. */
  function CalcHash(h: Combine, txids: seq<Hash>, height: nat, pos: nat): Hash
    requires pos < Width(|txids|, height)
    decreases height
  {
    if height == 0 then WidthZero(|txids|); txids[pos]
    else
      Children(|txids|, height, pos);
      var left := CalcHash(h, txids, height - 1, 2 * pos);
      var right := if HasRight(|txids|, height, pos) then CalcHash(h, txids, height - 1, 2 * pos + 1) else left;
      h(left, right)
  }

  function Level(h: Combine, txids: seq<Hash>, height: nat): seq<Hash> {
    if height == 0 then txids else Up(h, Level(h, txids, height - 1))
  }

  lemma {:induction false} LevelWidth(h: Combine, txids: seq<Hash>, height: nat)
    ensures |Level(h, txids, height)| == Width(|txids|, height)
  {
    if height > 0 {
      LevelWidth(h, txids, height - 1);
      WidthStep(|txids|, height - 1);
    }
  }

  /** CalcHash computes the node that BuildMerkleTree puts at that place. */
  lemma {:induction false} CalcHashIsLevel(h: Combine, txids: seq<Hash>, height: nat, pos: nat)
    requires pos < Width(|txids|, height)
    ensures pos < |Level(h, txids, height)| && CalcHash(h, txids, height, pos) == Level(h, txids, height)[pos]
    decreases height
  {
    LevelWidth(h, txids, height);
    if height > 0 {
      var below := Level(h, txids, height - 1);
      LevelWidth(h, txids, height - 1);
      Children(|txids|, height, pos);
      CalcHashIsLevel(h, txids, height - 1, 2 * pos);
      if HasRight(|txids|, height, pos) {
        CalcHashIsLevel(h, txids, height - 1, 2 * pos + 1);
      }
      assert Up(h, below)[pos] == Pair(h, below, pos);
    }
  }

  lemma {:induction false} RootOfLevel(h: Combine, txids: seq<Hash>, height: nat)
    requires forall k :: 0 <= k < height ==> Width(|txids|, k) > 1
    ensures Root(h, Level(h, txids, height)) == Root(h, txids)
  {
    if height > 0 {
      RootOfLevel(h, txids, height - 1);
      LevelWidth(h, txids, height - 1);
      assert Width(|txids|, height - 1) > 1;
    }
  }

  /** The height of the tree: the first level with at most one node. */
  ghost predicate IsHeight(n: nat, height: nat) {
    Width(n, height) <= 1 && forall k :: 0 <= k < height ==> Width(n, k) > 1
  }

  lemma CalcHashIsRoot(h: Combine, txids: seq<Hash>, height: nat)
    requires txids != [] && IsHeight(|txids|, height)
    ensures 0 < Width(|txids|, height)
    ensures CalcHash(h, txids, height, 0) == Root(h, txids)
  {
    WidthIff(|txids|, height, 0);
    CalcHashIsLevel(h, txids, height, 0);
    LevelWidth(h, txids, height);
    RootOfLevel(h, txids, height);
  }

  method TreeHeight(n: nat) returns (height: nat)
    ensures IsHeight(n, height)
  {
    height := 0;
    while Width(n, height) > 1
      invariant forall k :: 0 <= k < height ==> Width(n, k) > 1
      decreases Width(n, height)
    {
      WidthStep(n, height);
      height := height + 1;
    }
  }

  // ---------- Building ----------

  /** Some transaction from lo up to hi is matched. */
  predicate AnyMatch(matched: seq<bool>, lo: nat, hi: nat)
    requires hi <= |matched|
  {
    exists p :: lo <= p < hi && matched[p]
  }

  lemma MatchStep(matched: seq<bool>, lo: nat, hi: nat)
    requires lo <= hi < |matched|
    ensures AnyMatch(matched, lo, hi + 1) <==> AnyMatch(matched, lo, hi) || matched[hi]
  {
  }

  /** The matched transactions from lo up to hi, in order. */
  function Selected(txids: seq<Hash>, matched: seq<bool>, lo: nat, hi: nat): seq<Hash>
    requires hi <= |txids| == |matched|
  {
    if lo >= hi then []
    else Selected(txids, matched, lo, hi - 1) + (if matched[hi - 1] then [txids[hi - 1]] else [])
  }

  lemma {:induction false} SelectedSplits(txids: seq<Hash>, matched: seq<bool>, lo: nat, mid: nat, hi: nat)
    requires lo <= mid <= hi <= |txids| == |matched|
    ensures Selected(txids, matched, lo, hi) == Selected(txids, matched, lo, mid) + Selected(txids, matched, mid, hi)
    decreases hi
  {
    if mid < hi {
      SelectedSplits(txids, matched, lo, mid, hi - 1);
    }
  }

  lemma {:induction false} NoneSelected(txids: seq<Hash>, matched: seq<bool>, lo: nat, hi: nat)
    requires hi <= |txids| == |matched|
    ensures Selected(txids, matched, lo, hi) == [] <==> !AnyMatch(matched, lo, hi)
    decreases hi
  {
    if lo < hi {
      NoneSelected(txids, matched, lo, hi - 1);
    }
  }

  datatype Partial = Partial(bits: seq<bool>, hashes: seq<Hash>)

  /** What TraverseAndBuild appends for a node. */
  function Build(h: Combine, txids: seq<Hash>, matched: seq<bool>, height: nat, pos: nat): (r: Partial)
    requires |matched| == |txids| && pos < Width(|txids|, height)
    decreases height
  {
    var any := AnyMatch(matched, First(height, pos), End(|txids|, height, pos));
    if height == 0 || !any then Partial([any], [CalcHash(h, txids, height, pos)])
    else
      Children(|txids|, height, pos);
      var left := Build(h, txids, matched, height - 1, 2 * pos);
      if HasRight(|txids|, height, pos) then
        var right := Build(h, txids, matched, height - 1, 2 * pos + 1);
        Partial([any] + left.bits + right.bits, left.hashes + right.hashes)
      else Partial([any] + left.bits, left.hashes)
  }

  /** One hash is stored for each leaf of the partial tree: at most one per transaction. */
  lemma {:induction false} FewHashes(h: Combine, txids: seq<Hash>, matched: seq<bool>, height: nat, pos: nat)
    requires |matched| == |txids| && pos < Width(|txids|, height)
    ensures 1 <= |Build(h, txids, matched, height, pos).hashes| <= End(|txids|, height, pos) - First(height, pos)
    ensures |Build(h, txids, matched, height, pos).hashes| <= |Build(h, txids, matched, height, pos).bits|
    decreases height
  {
    hide Width, CalcHash;
    WidthIff(|txids|, height, pos);
    assert First(height, pos) < End(|txids|, height, pos) by {
      assert (pos + 1) * Pow2(height) == pos * Pow2(height) + Pow2(height);
    }
    if height > 0 && AnyMatch(matched, First(height, pos), End(|txids|, height, pos)) {
      Children(|txids|, height, pos);
      hide First, End;
      FewHashes(h, txids, matched, height - 1, 2 * pos);
      if HasRight(|txids|, height, pos) {
        FewHashes(h, txids, matched, height - 1, 2 * pos + 1);
      }
    }
  }

  /** And at most one per level for each match, plus one. */
  lemma {:induction false} HashesPerMatch(h: Combine, txids: seq<Hash>, matched: seq<bool>, height: nat, pos: nat)
    requires |matched| == |txids| && pos < Width(|txids|, height)
    ensures |Build(h, txids, matched, height, pos).hashes|
         <= 1 + |Selected(txids, matched, First(height, pos), End(|txids|, height, pos))| * height
    decreases height
  {
    hide Width, CalcHash, First, End, AnyMatch, Selected;
    var lo, hi := First(height, pos), End(|txids|, height, pos);
    var m := |Selected(txids, matched, lo, hi)|;
    MulLe(0, m, height);
    if height > 0 && AnyMatch(matched, lo, hi) {
      Children(|txids|, height, pos);
      NoneSelected(txids, matched, lo, hi);
      HashesPerMatch(h, txids, matched, height - 1, 2 * pos);
      var x := |Build(h, txids, matched, height - 1, 2 * pos).hashes|;
      if HasRight(|txids|, height, pos) {
        var mid := First(height - 1, 2 * pos + 1);
        HashesPerMatch(h, txids, matched, height - 1, 2 * pos + 1);
        RangeOrdered(|txids|, height - 1, 2 * pos);
        RangeOrdered(|txids|, height - 1, 2 * pos + 1);
        SelectedSplits(txids, matched, lo, mid, hi);
        PerMatchStep(|Selected(txids, matched, lo, mid)|, |Selected(txids, matched, mid, hi)|, height,
                     x, |Build(h, txids, matched, height - 1, 2 * pos + 1).hashes|);
      } else {
        PerMatchStep(m, 0, height, x, 0);
      }
    }
  }

  lemma PerMatchStep(a: nat, b: nat, height: nat, x: nat, y: nat)
    requires height > 0 && a + b > 0 && x <= 1 + a * (height - 1) && y <= 1 + b * (height - 1)
    ensures x + y <= 1 + (a + b) * height
  {
    assert (a + b) * height == a * (height - 1) + b * (height - 1) + a + b;
  }

  lemma RangeOrdered(n: nat, height: nat, pos: nat)
    requires pos < Width(n, height)
    ensures First(height, pos) < End(n, height, pos) <= n
  {
    WidthIff(n, height, pos);
    assert (pos + 1) * Pow2(height) == pos * Pow2(height) + Pow2(height);
  }

  /** Nodes with a single child that the traversal descends through. */
  function Singles(matched: seq<bool>, height: nat, pos: nat): nat
    requires pos < Width(|matched|, height)
    decreases height
  {
    if height == 0 || !AnyMatch(matched, First(height, pos), End(|matched|, height, pos)) then 0
    else
      Children(|matched|, height, pos);
      Singles(matched, height - 1, 2 * pos)
        + if HasRight(|matched|, height, pos) then Singles(matched, height - 1, 2 * pos + 1) else 1
  }

  /** The number of flag bits.  The documented bound of 2 N - 1 for N hashes is met exactly when no node with
      a single child lies above a match. */
  lemma {:induction false} BitCount(h: Combine, txids: seq<Hash>, matched: seq<bool>, height: nat, pos: nat)
    requires |matched| == |txids| && pos < Width(|txids|, height)
    ensures var b := Build(h, txids, matched, height, pos);
            && |b.bits| == 2 * |b.hashes| - 1 + Singles(matched, height, pos)
            && (|b.bits| <= 2 * |b.hashes| - 1 <==> Singles(matched, height, pos) == 0)
    decreases height
  {
    hide Width, CalcHash, First, End;
    if height > 0 && AnyMatch(matched, First(height, pos), End(|txids|, height, pos)) {
      Children(|txids|, height, pos);
      BitCount(h, txids, matched, height - 1, 2 * pos);
      if HasRight(|txids|, height, pos) {
        BitCount(h, txids, matched, height - 1, 2 * pos + 1);
      }
    }
  }

  /** Three transactions, the last one matched: four flag bits for two hashes. */
  lemma BitBoundFails(h: Combine)
    ensures var b := Build(h, [1, 2, 3], [false, false, true], 2, 0);
            IsHeight(3, 2) && |b.bits| == 4 && |b.hashes| == 2
  {
    var txids, matched := [1, 2, 3], [false, false, true];
    assert Pow2(1) == 2 && Pow2(2) == 4;
    assert matched[2];
    assert Build(h, txids, matched, 1, 0).bits == [false];
    assert Build(h, txids, matched, 0, 2) == Partial([true], [3]);
    assert Build(h, txids, matched, 1, 1) == Partial([true, true], [3]);
  }

  // ---------- Extracting ----------

  datatype Found = Found(bad: bool, hash: Hash, bitsUsed: nat, hashUsed: nat, matches: seq<Hash>)

  /** What TraverseAndExtract computes for a node. */
  function Extract(h: Combine, n: nat, p: Partial, height: nat, pos: nat, bitsUsed: nat, hashUsed: nat): Found
    decreases height
  {
    if bitsUsed >= |p.bits| then Found(true, 0, bitsUsed, hashUsed, [])
    else
      var any := p.bits[bitsUsed];
      if height == 0 || !any then
        if hashUsed >= |p.hashes| then Found(true, 0, bitsUsed + 1, hashUsed, [])
        else Found(false, p.hashes[hashUsed], bitsUsed + 1, hashUsed + 1,
                   if height == 0 && any then [p.hashes[hashUsed]] else [])
      else
        var left := Extract(h, n, p, height - 1, 2 * pos, bitsUsed + 1, hashUsed);
        if HasRight(n, height, pos) then
          var right := Extract(h, n, p, height - 1, 2 * pos + 1, left.bitsUsed, left.hashUsed);
          Found(left.bad || right.bad, h(left.hash, right.hash), right.bitsUsed, right.hashUsed,
                left.matches + right.matches)
        else left.(hash := h(left.hash, left.hash))
  }

  /** p contains the partial tree q, its bits from b and its hashes from k on. */
  ghost predicate Contains(p: Partial, q: Partial, b: nat, k: nat) {
    && b + |q.bits| <= |p.bits| && p.bits[b..b + |q.bits|] == q.bits
    && k + |q.hashes| <= |p.hashes| && p.hashes[k..k + |q.hashes|] == q.hashes
  }

  lemma ContainsParts(p: Partial, any: bool, l: Partial, r: Partial, b: nat, k: nat)
    requires Contains(p, Partial([any] + l.bits + r.bits, l.hashes + r.hashes), b, k)
    ensures b < |p.bits| && p.bits[b] == any
    ensures Contains(p, l, b + 1, k)
    ensures Contains(p, r, b + 1 + |l.bits|, k + |l.hashes|)
  {
    var q := [any] + l.bits + r.bits;
    var s := p.bits[b..b + |q|];
    assert s[0] == any;
    assert s[1..1 + |l.bits|] == l.bits && s[1 + |l.bits|..] == r.bits;
    assert s[1..1 + |l.bits|] == p.bits[b + 1..b + 1 + |l.bits|];
    assert s[1 + |l.bits|..] == p.bits[b + 1 + |l.bits|..b + 1 + |l.bits| + |r.bits|];
    var t := p.hashes[k..k + |l.hashes| + |r.hashes|];
    assert t[..|l.hashes|] == l.hashes && t[|l.hashes|..] == r.hashes;
    assert t[..|l.hashes|] == p.hashes[k..k + |l.hashes|];
    assert t[|l.hashes|..] == p.hashes[k + |l.hashes|..k + |l.hashes| + |r.hashes|];
  }

  /** Both children of an inner node that is descended into; without a right child its part is empty. */
  lemma BuildInner(h: Combine, txids: seq<Hash>, matched: seq<bool>, height: nat, pos: nat)
    requires |matched| == |txids| && pos < Width(|txids|, height) && height > 0
    requires AnyMatch(matched, First(height, pos), End(|txids|, height, pos))
    ensures 2 * pos < Width(|txids|, height - 1)
    ensures var l := Build(h, txids, matched, height - 1, 2 * pos);
            var r := if HasRight(|txids|, height, pos) then Build(h, txids, matched, height - 1, 2 * pos + 1)
                     else Partial([], []);
            Build(h, txids, matched, height, pos) == Partial([true] + l.bits + r.bits, l.hashes + r.hashes)
  {
    Children(|txids|, height, pos);
    hide Width, First, End, AnyMatch, CalcHash;
    var l := Build(h, txids, matched, height - 1, 2 * pos);
    assert [true] + l.bits + [] == [true] + l.bits && l.hashes + [] == l.hashes;
  }

  lemma BuildLeaf(h: Combine, txids: seq<Hash>, matched: seq<bool>, height: nat, pos: nat)
    requires |matched| == |txids| && pos < Width(|txids|, height)
    requires height == 0 || !AnyMatch(matched, First(height, pos), End(|txids|, height, pos))
    ensures Build(h, txids, matched, height, pos)
         == Partial([AnyMatch(matched, First(height, pos), End(|txids|, height, pos))],
                    [CalcHash(h, txids, height, pos)])
  {
  }

  lemma ReadLeaf(h: Combine, txids: seq<Hash>, matched: seq<bool>, height: nat, pos: nat, p: Partial, b: nat, k: nat)
    requires |matched| == |txids| && pos < Width(|txids|, height)
    requires height == 0 || !AnyMatch(matched, First(height, pos), End(|txids|, height, pos))
    requires Contains(p, Build(h, txids, matched, height, pos), b, k)
    ensures Extract(h, |txids|, p, height, pos, b, k)
         == Found(false, CalcHash(h, txids, height, pos), b + 1, k + 1,
                  Selected(txids, matched, First(height, pos), End(|txids|, height, pos)))
    ensures |Build(h, txids, matched, height, pos).bits| == 1 && |Build(h, txids, matched, height, pos).hashes| == 1
  {
    hide Width, First, End, Selected, AnyMatch, CalcHash;
    var n := |txids|;
    var q := Build(h, txids, matched, height, pos);
    assert p.bits[b..b + |q.bits|][0] == p.bits[b] && p.hashes[k..k + |q.hashes|][0] == p.hashes[k];
    NoneSelected(txids, matched, First(height, pos), End(n, height, pos));
    if height == 0 {
      LeafSelected(h, txids, matched, pos);
    }
  }

  lemma ExtractInner(h: Combine, n: nat, p: Partial, height: nat, pos: nat, b: nat, k: nat)
    requires height > 0 && b < |p.bits| && p.bits[b]
    ensures var l := Extract(h, n, p, height - 1, 2 * pos, b + 1, k);
            Extract(h, n, p, height, pos, b, k)
              == if HasRight(n, height, pos) then
                   var r := Extract(h, n, p, height - 1, 2 * pos + 1, l.bitsUsed, l.hashUsed);
                   Found(l.bad || r.bad, h(l.hash, r.hash), r.bitsUsed, r.hashUsed, l.matches + r.matches)
                 else l.(hash := h(l.hash, l.hash))
  {
  }

  lemma CalcHashInner(h: Combine, txids: seq<Hash>, height: nat, pos: nat)
    requires height > 0 && pos < Width(|txids|, height)
    ensures 2 * pos < Width(|txids|, height - 1)
    ensures var l := CalcHash(h, txids, height - 1, 2 * pos);
            CalcHash(h, txids, height, pos)
              == h(l, if HasRight(|txids|, height, pos) then CalcHash(h, txids, height - 1, 2 * pos + 1) else l)
  {
    Children(|txids|, height, pos);
  }

  /** Extraction reads back what was built, wherever it is stored. */
  lemma {:induction false} ExtractReadsBuild(h: Combine, txids: seq<Hash>, matched: seq<bool>, height: nat, pos: nat,
                                             p: Partial, b: nat, k: nat)
    requires |matched| == |txids| && pos < Width(|txids|, height)
    requires Contains(p, Build(h, txids, matched, height, pos), b, k)
    ensures var q := Build(h, txids, matched, height, pos);
            Extract(h, |txids|, p, height, pos, b, k)
              == Found(false, CalcHash(h, txids, height, pos), b + |q.bits|, k + |q.hashes|,
                       Selected(txids, matched, First(height, pos), End(|txids|, height, pos)))
    decreases height
  {
    hide Width, First, End, Selected, AnyMatch, Build, Contains, Extract, CalcHash;
    var n := |txids|;
    var lo, hi := First(height, pos), End(n, height, pos);
    RangeOrdered(n, height, pos);
    if height == 0 || !AnyMatch(matched, lo, hi) {
      ReadLeaf(h, txids, matched, height, pos, p, b, k);
    } else {
      Children(n, height, pos);
      BuildInner(h, txids, matched, height, pos);
      CalcHashInner(h, txids, height, pos);
      var left := Build(h, txids, matched, height - 1, 2 * pos);
      if HasRight(n, height, pos) {
        var right := Build(h, txids, matched, height - 1, 2 * pos + 1);
        ContainsParts(p, true, left, right, b, k);
        ExtractReadsBuild(h, txids, matched, height - 1, 2 * pos, p, b + 1, k);
        ExtractReadsBuild(h, txids, matched, height - 1, 2 * pos + 1, p, b + 1 + |left.bits|, k + |left.hashes|);
        RangeOrdered(n, height - 1, 2 * pos);
        RangeOrdered(n, height - 1, 2 * pos + 1);
        SelectedSplits(txids, matched, lo, First(height - 1, 2 * pos + 1), hi);
      } else {
        ContainsParts(p, true, left, Partial([], []), b, k);
        ExtractReadsBuild(h, txids, matched, height - 1, 2 * pos, p, b + 1, k);
      }
      ExtractInner(h, n, p, height, pos, b, k);
    }
  }

  lemma LeafSelected(h: Combine, txids: seq<Hash>, matched: seq<bool>, pos: nat)
    requires pos < Width(|txids|, 0) && |txids| == |matched|
    ensures pos < |txids| && CalcHash(h, txids, 0, pos) == txids[pos]
    ensures First(0, pos) == pos && End(|txids|, 0, pos) == pos + 1
    ensures Selected(txids, matched, pos, pos + 1) == if matched[pos] then [txids[pos]] else []
    ensures AnyMatch(matched, pos, pos + 1) <==> matched[pos]
  {
    WidthZero(|txids|);
    assert Selected(txids, matched, pos, pos) == [];
  }

  /** All the checks of ExtractMatches pass. */
  ghost predicate Accepted(h: Combine, n: nat, p: Partial) {
    && 0 < n <= MAX_TRANSACTIONS
    && |p.hashes| <= n
    && |p.hashes| <= |p.bits|
    && exists height :: IsHeight(n, height) && AcceptedAt(h, n, p, height)
  }

  predicate AcceptedAt(h: Combine, n: nat, p: Partial, height: nat) {
    var f := Extract(h, n, p, height, 0, 0, 0);
    !f.bad && (f.bitsUsed + 7) / 8 == (|p.bits| + 7) / 8 && f.hashUsed == |p.hashes|
  }

  lemma HeightUnique(n: nat, a: nat, b: nat)
    requires IsHeight(n, a) && IsHeight(n, b)
    ensures a == b
  {
  }

  lemma {:induction false} ExtractStays(h: Combine, n: nat, p: Partial, q: Partial, height: nat, pos: nat,
                                        b: nat, k: nat)
    requires p.bits <= q.bits && p.hashes <= q.hashes && !Extract(h, n, p, height, pos, b, k).bad
    ensures Extract(h, n, q, height, pos, b, k) == Extract(h, n, p, height, pos, b, k)
    decreases height
  {
    if height > 0 && p.bits[b] {
      var left := Extract(h, n, p, height - 1, 2 * pos, b + 1, k);
      ExtractStays(h, n, p, q, height - 1, 2 * pos, b + 1, k);
      if HasRight(n, height, pos) {
        ExtractStays(h, n, p, q, height - 1, 2 * pos + 1, left.bitsUsed, left.hashUsed);
      }
    }
  }

  /** What is accepted is for a block that may exist, has no more hashes than transactions or bits, and leaves nothing
      unused: with anything added it is not accepted any more, except for bits that fill up the last byte. */
  lemma AcceptedIsTight(h: Combine, n: nat, p: Partial, q: Partial)
    requires Accepted(h, n, p) && p.bits <= q.bits && p.hashes <= q.hashes
    ensures 0 < n <= 16_666 && |p.hashes| <= n && |p.hashes| <= |p.bits|
    ensures Accepted(h, n, q) <==> q.hashes == p.hashes && (|q.bits| + 7) / 8 == (|p.bits| + 7) / 8
  {
    var height :| IsHeight(n, height) && AcceptedAt(h, n, p, height);
    ExtractStays(h, n, p, q, height, 0, 0, 0);
    hide Extract;
    if Accepted(h, n, q) {
      var other :| IsHeight(n, other) && AcceptedAt(h, n, q, other);
      HeightUnique(n, height, other);
    }
    assert AcceptedAt(h, n, q, height) <==> |q.hashes| == |p.hashes| && (|q.bits| + 7) / 8 == (|p.bits| + 7) / 8;
  }

  /** padded is bits filled up to whole bytes, as packing and unpacking leaves it. */
  ghost predicate Padded(bits: seq<bool>, padded: seq<bool>) {
    bits <= padded && |padded| == (|bits| + 7) / 8 * 8
  }

  /** The receiver of an honest partial tree accepts it and finds the block's Merkle root and exactly the matched
      transactions, in order. */
  lemma HonestTreeIsAccepted(h: Combine, txids: seq<Hash>, matched: seq<bool>, height: nat, padded: seq<bool>)
    requires 0 < |txids| == |matched| && |txids| <= MAX_TRANSACTIONS && IsHeight(|txids|, height)
    requires 0 < Width(|txids|, height) && Padded(Build(h, txids, matched, height, 0).bits, padded)
    ensures var p := Partial(padded, Build(h, txids, matched, height, 0).hashes);
            var f := Extract(h, |txids|, p, height, 0, 0, 0);
            && Accepted(h, |txids|, p)
            && f.hash == Root(h, txids)
            && f.matches == Selected(txids, matched, 0, |txids|)
  {
    hide Build, Extract, IsHeight, Width, Root, CalcHash, Selected;
    var n := |txids|;
    var q := Build(h, txids, matched, height, 0);
    var p := Partial(padded, q.hashes);
    assert Contains(p, q, 0, 0);
    WholeRange(n, height);
    FewHashes(h, txids, matched, height, 0);
    ExtractReadsBuild(h, txids, matched, height, 0, p, 0, 0);
    CalcHashIsRoot(h, txids, height);
    assert AcceptedAt(h, n, p, height);
  }

  lemma WholeRange(n: nat, height: nat)
    requires IsHeight(n, height)
    ensures First(height, 0) == 0 && End(n, height, 0) == n
  {
    WidthIff(n, height, 1);
  }

  // ---------- Untrusted partial trees ----------

  /** positions tells where in the block the found hashes are: strictly increasing, from lo up to hi. */
  ghost predicate FoundAt(txids: seq<Hash>, matches: seq<Hash>, positions: seq<nat>, lo: nat, hi: nat) {
    && |positions| == |matches| && hi <= |txids|
    && (forall i :: 0 <= i < |positions| ==> lo <= positions[i] < hi && txids[positions[i]] == matches[i])
    && (forall i, j :: 0 <= i < j < |positions| ==> positions[i] < positions[j])
  }

  lemma FoundAtJoin(txids: seq<Hash>, a: seq<Hash>, pa: seq<nat>, b: seq<Hash>, pb: seq<nat>, lo: nat, mid: nat,
                    hi: nat)
    requires FoundAt(txids, a, pa, lo, mid) && FoundAt(txids, b, pb, mid, hi) && lo <= mid <= hi
    ensures FoundAt(txids, a + b, pa + pb, lo, hi)
  {
  }

  lemma LeafIsSound(h: Combine, txids: seq<Hash>, p: Partial, height: nat, pos: nat, b: nat, k: nat)
    returns (positions: seq<nat>)
    requires pos < Width(|txids|, height) && b < |p.bits| && (height == 0 || !p.bits[b])
    requires !Extract(h, |txids|, p, height, pos, b, k).bad
    requires Extract(h, |txids|, p, height, pos, b, k).hash == CalcHash(h, txids, height, pos)
    ensures FoundAt(txids, Extract(h, |txids|, p, height, pos, b, k).matches, positions, First(height, pos),
                    End(|txids|, height, pos))
  {
    RangeOrdered(|txids|, height, pos);
    if height == 0 {
      WidthZero(|txids|);
      assert First(0, pos) == pos && End(|txids|, 0, pos) == pos + 1;
    }
    positions := if height == 0 && p.bits[b] then [pos] else [];
  }

  /** If a node's hash comes out right and there are no collisions, whatever was matched below it really is there. */
  lemma {:induction false} ExtractIsSound(h: Combine, txids: seq<Hash>, p: Partial, height: nat, pos: nat, b: nat,
                                          k: nat)
    returns (positions: seq<nat>)
    requires Injective(h) && pos < Width(|txids|, height) && b < |p.bits|
    requires !Extract(h, |txids|, p, height, pos, b, k).bad
    requires Extract(h, |txids|, p, height, pos, b, k).hash == CalcHash(h, txids, height, pos)
    ensures FoundAt(txids, Extract(h, |txids|, p, height, pos, b, k).matches, positions, First(height, pos),
                    End(|txids|, height, pos))
    decreases height
  {
    hide Width, First, End, Extract, CalcHash, FoundAt;
    var n := |txids|;
    if height == 0 || !p.bits[b] {
      positions := LeafIsSound(h, txids, p, height, pos, b, k);
    } else {
      Children(n, height, pos);
      ExtractInner(h, n, p, height, pos, b, k);
      CalcHashInner(h, txids, height, pos);
      var l := Extract(h, n, p, height - 1, 2 * pos, b + 1, k);
      NotBadReads(h, n, p, height - 1, 2 * pos, b + 1, k);
      var left := ExtractIsSound(h, txids, p, height - 1, 2 * pos, b + 1, k);
      if HasRight(n, height, pos) {
        NotBadReads(h, n, p, height - 1, 2 * pos + 1, l.bitsUsed, l.hashUsed);
        var right := ExtractIsSound(h, txids, p, height - 1, 2 * pos + 1, l.bitsUsed, l.hashUsed);
        RangeOrdered(n, height - 1, 2 * pos);
        RangeOrdered(n, height - 1, 2 * pos + 1);
        FoundAtJoin(txids, l.matches, left, Extract(h, n, p, height - 1, 2 * pos + 1, l.bitsUsed, l.hashUsed).matches,
                    right, First(height, pos), First(height - 1, 2 * pos + 1), End(n, height, pos));
        positions := left + right;
      } else {
        positions := left;
      }
    }
  }

  lemma NotBadReads(h: Combine, n: nat, p: Partial, height: nat, pos: nat, b: nat, k: nat)
    requires !Extract(h, n, p, height, pos, b, k).bad
    ensures b < |p.bits|
  {
  }

  /** Arbitrary bits and hashes: if extraction succeeds with a block's transaction count and yields its Merkle root,
      every match is a transaction of the block, and they come in block order. */
  lemma MatchesAreInBlock(h: Combine, txids: seq<Hash>, p: Partial, height: nat) returns (positions: seq<nat>)
    requires Injective(h) && txids != [] && IsHeight(|txids|, height) && AcceptedAt(h, |txids|, p, height)
    requires Extract(h, |txids|, p, height, 0, 0, 0).hash == Root(h, txids)
    ensures FoundAt(txids, Extract(h, |txids|, p, height, 0, 0, 0).matches, positions, 0, |txids|)
  {
    hide Extract, Root, CalcHash, FoundAt;
    CalcHashIsRoot(h, txids, height);
    WholeRange(|txids|, height);
    NotBadReads(h, |txids|, p, height, 0, 0, 0);
    positions := ExtractIsSound(h, txids, p, height, 0, 0, 0);
  }

  // ---------- The class ----------

  class PartialMerkleTree {
    var nTransactions: nat
    var bits: seq<bool>
    var hashes: seq<Hash>
    var bad: bool

    constructor (h: Combine, txids: seq<Hash>, matched: seq<bool>)
      requires 0 < |txids| == |matched|
      ensures nTransactions == |txids| && !bad
      ensures exists height :: IsHeight(|txids|, height) && 0 < Width(|txids|, height)
                               && Partial(bits, hashes) == Build(h, txids, matched, height, 0)
    {
      nTransactions, bad, bits, hashes := |txids|, false, [], [];
      new;
      var height := TreeHeight(|txids|);
      WidthIff(|txids|, height, 0);
      TraverseAndBuild(h, txids, matched, height, 0);
      assert Partial(bits, hashes) == Build(h, txids, matched, height, 0);
    }

    method TraverseAndBuild(h: Combine, txids: seq<Hash>, matched: seq<bool>, height: nat, pos: nat)
      requires nTransactions == |txids| == |matched| && pos < Width(|txids|, height)
      modifies this`bits, this`hashes
      ensures bits == old(bits) + Build(h, txids, matched, height, pos).bits
      ensures hashes == old(hashes) + Build(h, txids, matched, height, pos).hashes
      decreases height
    {
      hide Width, CalcHash, First, End, AnyMatch, Build;
      var any := false;
      var lo, p := First(height, pos), First(height, pos);
      RangeOrdered(nTransactions, height, pos);
      assert !AnyMatch(matched, lo, lo) by {
        NoneSelected(txids, matched, lo, lo);
      }
      while p < End(nTransactions, height, pos)
        invariant lo <= p <= End(nTransactions, height, pos)
        invariant any <==> AnyMatch(matched, lo, p)
        invariant bits == old(bits) && hashes == old(hashes)
      {
        MatchStep(matched, lo, p);
        any := any || matched[p];
        p := p + 1;
      }
      assert p == End(nTransactions, height, pos);
      bits := bits + [any];
      if height == 0 || !any {
        BuildLeaf(h, txids, matched, height, pos);
        hashes := hashes + [CalcHash(h, txids, height, pos)];
      } else {
        BuildInner(h, txids, matched, height, pos);
        TraverseAndBuild(h, txids, matched, height - 1, 2 * pos);
        if HasRight(nTransactions, height, pos) {
          TraverseAndBuild(h, txids, matched, height - 1, 2 * pos + 1);
        }
      }
    }

    method TraverseAndExtract(h: Combine, height: nat, pos: nat, bitsIn: nat, hashIn: nat, found: seq<Hash>)
      returns (hash: Hash, bitsUsed: nat, hashUsed: nat, matches: seq<Hash>)
      modifies this`bad
      ensures var f := Extract(h, nTransactions, Partial(bits, hashes), height, pos, bitsIn, hashIn);
              && hash == f.hash && bitsUsed == f.bitsUsed && hashUsed == f.hashUsed
              && matches == found + f.matches
              && bad == (old(bad) || f.bad)
      decreases height
    {
      hide Width;
      bitsUsed, hashUsed, matches := bitsIn, hashIn, found;
      if bitsUsed >= |bits| {
        bad := true;
        hash := 0;
        return;
      }
      var any := bits[bitsUsed];
      bitsUsed := bitsUsed + 1;
      if height == 0 || !any {
        if hashUsed >= |hashes| {
          bad := true;
          hash := 0;
          return;
        }
        hash := hashes[hashUsed];
        hashUsed := hashUsed + 1;
        if height == 0 && any {
          matches := matches + [hash];
        }
      } else {
        var left, right;
        left, bitsUsed, hashUsed, matches := TraverseAndExtract(h, height - 1, 2 * pos, bitsUsed, hashUsed, matches);
        if HasRight(nTransactions, height, pos) {
          right, bitsUsed, hashUsed, matches :=
            TraverseAndExtract(h, height - 1, 2 * pos + 1, bitsUsed, hashUsed, matches);
        } else {
          right := left;
        }
        hash := h(left, right);
      }
    }

    /** ExtractMatches returns 0 exactly when a check fails (or a root of 0 was found). */
    method ExtractMatches(h: Combine) returns (root: Hash, matches: seq<Hash>)
      modifies this`bad
      ensures !old(bad) && Accepted(h, nTransactions, Partial(bits, hashes)) ==>
                forall height :: IsHeight(nTransactions, height) ==>
                  var f := Extract(h, nTransactions, Partial(bits, hashes), height, 0, 0, 0);
                  root == f.hash && matches == f.matches
      ensures old(bad) || !Accepted(h, nTransactions, Partial(bits, hashes)) ==> root == 0
    {
      matches := [];
      if nTransactions == 0 || nTransactions > MAX_TRANSACTIONS || |hashes| > nTransactions || |bits| < |hashes| {
        return 0, matches;
      }
      var height := TreeHeight(nTransactions);
      ghost var p := Partial(bits, hashes);
      assert !AcceptedAt(h, nTransactions, p, height) ==> !Accepted(h, nTransactions, p) by {
        if Accepted(h, nTransactions, p) {
          var other :| IsHeight(nTransactions, other) && AcceptedAt(h, nTransactions, p, other);
          HeightUnique(nTransactions, height, other);
        }
      }
      forall other | IsHeight(nTransactions, other)
        ensures other == height
      {
        HeightUnique(nTransactions, height, other);
      }
      hide IsHeight, Extract;
      var hash, bitsUsed, hashUsed, found := TraverseAndExtract(h, height, 0, 0, 0, []);
      matches := found;
      if bad || (bitsUsed + 7) / 8 != (|bits| + 7) / 8 || hashUsed != |hashes| {
        return 0, matches;
      }
      root := hash;
    }

    /** The byte form of the flag bits. */
    method Write() returns (bytes: seq<Byte>)
      ensures |bytes| == (|bits| + 7) / 8
      ensures forall p :: 0 <= p < 8 * |bytes| ==> BitAt(bytes, p) == (p < |bits| && bits[p])
    {
      bytes := Pack(bits);
    }

    constructor Read(n: nat, stored: seq<Hash>, bytes: seq<Byte>)
      ensures nTransactions == n && hashes == stored && !bad
      ensures |bits| == 8 * |bytes| && forall p :: 0 <= p < |bits| ==> bits[p] == BitAt(bytes, p)
    {
      var flags := Unpack(bytes);
      nTransactions, hashes, bits, bad := n, stored, flags, false;
    }
  }

  /** From the block to the receiver: building, writing, reading and extracting gives the Merkle root that
      BuildMerkleTree computes and exactly the matched transactions in block order. */
  method SendMatches(h: Combine, txids: seq<Hash>, matched: seq<bool>) returns (root: Hash, matches: seq<Hash>)
    requires 0 < |txids| == |matched| && |txids| <= MAX_TRANSACTIONS
    ensures root == Root(h, txids)
    ensures matches == Selected(txids, matched, 0, |txids|)
  {
    hide Build, Extract, IsHeight, Width, Root, Selected, Accepted, BitAt;
    var sent := new PartialMerkleTree(h, txids, matched);
    ghost var height :| IsHeight(|txids|, height) && 0 < Width(|txids|, height)
                        && Partial(sent.bits, sent.hashes) == Build(h, txids, matched, height, 0);
    var bytes := sent.Write();
    var received := new PartialMerkleTree.Read(sent.nTransactions, sent.hashes, bytes);
    assert Padded(sent.bits, received.bits);
    HonestTreeIsAccepted(h, txids, matched, height, received.bits);
    root, matches := received.ExtractMatches(h);
  }
}
