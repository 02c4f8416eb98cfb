/** Merkle trees of a block's transactions, over any function that combines two hashes. */
module Merkle {
  import opened Primitives
  import opened Arithmetic

  type Combine = (Hash, Hash) -> Hash

  /** The parent of a pair of neighbours; an odd one out is combined with itself. */
  function Pair(h: Combine, level: seq<Hash>, i: nat): Hash
    requires 2 * i < |level|
  {
    h(level[2 * i], level[if 2 * i + 1 < |level| then 2 * i + 1 else 2 * i])
  }

  /** The next level. */
  function Up(h: Combine, level: seq<Hash>): (r: seq<Hash>)
    ensures |r| == (|level| + 1) / 2
    ensures forall i :: 0 <= i < |r| ==> r[i] == Pair(h, level, i)
  {
    seq((|level| + 1) / 2, i requires 0 <= i < (|level| + 1) / 2 => Pair(h, level, i))
  }

  /** The Merkle root; 0 for no transactions. */
  function Root(h: Combine, level: seq<Hash>): Hash
    decreases |level|
  {
    if |level| == 0 then 0
    else if |level| == 1 then level[0]
    else Root(h, Up(h, level))
  }

  /** All levels one after the other, as vMerkleTree holds them. */
  function Tree(h: Combine, level: seq<Hash>): (r: seq<Hash>)
    ensures level <= r
    decreases |level|
  {
    if |level| <= 1 then level else level + Tree(h, Up(h, level))
  }

  lemma UpOfTwo(h: Combine, a: seq<Hash>, b: seq<Hash>)
    requires |a| % 2 == 0
    ensures Up(h, a + b) == Up(h, a) + Up(h, b)
  {
    forall i | 0 <= i < |Up(h, a + b)|
      ensures Up(h, a + b)[i] == (Up(h, a) + Up(h, b))[i]
    {
      if 2 * i >= |a| {
        assert Pair(h, a + b, i) == Pair(h, b, i - |a| / 2);
      }
    }
  }

  /** The root of a full tree combines the roots of its halves. */
  lemma {:induction false} RootOfHalves(h: Combine, a: seq<Hash>, b: seq<Hash>, k: nat)
    requires |a| == |b| == Pow2(k)
    ensures Root(h, a + b) == h(Root(h, a), Root(h, b))
    decreases k
  {
    if k == 0 {
      assert Up(h, a + b) == [h(a[0], b[0])];
    } else {
      Pow2Next(k - 1);
      UpOfTwo(h, a, b);
      RootOfHalves(h, Up(h, a), Up(h, b), k - 1);
    }
  }

  /** Of an odd number of hashes the last one counts twice. */
  lemma OddOneCountsTwice(h: Combine, level: seq<Hash>)
    requires |level| % 2 == 1 && |level| > 1
    ensures Root(h, level + [level[|level| - 1]]) == Root(h, level)
  {
    UpOfOdd(h, level);
  }

  lemma UpOfOdd(h: Combine, level: seq<Hash>)
    requires |level| % 2 == 1
    ensures Up(h, level + [level[|level| - 1]]) == Up(h, level)
  {
    var k := |level| / 2;
    var doubled := level + [level[2 * k]];
    assert |level| == 2 * k + 1 && |Up(h, doubled)| == k + 1 == |Up(h, level)|;
    forall i | 0 <= i <= k
      ensures Pair(h, doubled, i) == Pair(h, level, i)
    {
    }
  }

  lemma {:induction false} RootIsLast(h: Combine, level: seq<Hash>)
    requires level != []
    ensures Tree(h, level)[|Tree(h, level)| - 1] == Root(h, level)
    decreases |level|
  {
    if |level| > 1 {
      RootIsLast(h, Up(h, level));
    }
  }

  /** The inner loop of BuildMerkleTree: append the level above the one that starts at j. */
  method AppendUp(h: Combine, tree: seq<Hash>, j: nat, size: nat) returns (r: seq<Hash>)
    requires j + size == |tree|
    ensures r == tree + Up(h, tree[j..])
  {
    ghost var level := tree[j..];
    ghost var up := Up(h, level);
    r := tree;
    var i := 0;
    while i < size
      invariant i % 2 == 0 && 0 <= i <= size + 1
      invariant r == tree + up[..(i + 1) / 2]
    {
      var i2 := if i + 1 < size then i + 1 else size - 1;
      var k := i / 2;
      assert up[k] == Pair(h, level, k) == h(r[j + i], r[j + i2]);
      assert up[..k + 1] == up[..k] + [up[k]];
      r := r + [h(r[j + i], r[j + i2])];
      i := i + 2;
    }
    assert up[..|up|] == up;
  }

  lemma TreeStep(h: Combine, below: seq<Hash>, level: seq<Hash>, tree: seq<Hash>)
    requires |level| > 1 && below + Tree(h, level) == tree
    ensures below + level + Tree(h, Up(h, level)) == tree
  {
    assert below + (level + Tree(h, Up(h, level))) == below + level + Tree(h, Up(h, level));
  }

  lemma TreeEnd(h: Combine, level: seq<Hash>)
    requires |level| <= 1
    ensures Tree(h, level) == level
  {
  }

  method BuildMerkleTree(h: Combine, txids: seq<Hash>) returns (tree: seq<Hash>, root: Hash)
    ensures tree == Tree(h, txids)
    ensures root == Root(h, txids)
  {
    hide Up, Tree;
    tree := txids;
    var j, size := 0, |txids|;
    ghost var below, level := [], txids;
    assert below + Tree(h, level) == Tree(h, txids);
    while size > 1
      invariant j == |below| && 0 <= size == |level|
      invariant tree == below + level
      invariant below + Tree(h, level) == Tree(h, txids)
      decreases size
    {
      TreeStep(h, below, level, Tree(h, txids));
      assert tree[j..] == level;
      tree := AppendUp(h, tree, j, size);
      j := j + size;
      size := (size + 1) / 2;
      below, level := below + level, Up(h, level);
    }
    TreeEnd(h, level);
    if txids == [] {
      root := 0;
    } else {
      RootIsLast(h, txids);
      root := tree[|tree| - 1];
    }
  }

  /** The hash next to position i. */
  function Sibling(n: nat, i: nat): nat
    requires i < n
  {
    var other := if i % 2 == 0 then i + 1 else i - 1;
    if other < n then other else n - 1
  }

  function Branch(h: Combine, level: seq<Hash>, i: nat): seq<Hash>
    requires i < |level|
    decreases |level|
  {
    if |level| <= 1 then [] else [level[Sibling(|level|, i)]] + Branch(h, Up(h, level), i / 2)
  }

  /** Hash a transaction up along a branch. */
  function Climb(h: Combine, hash: Hash, branch: seq<Hash>, i: nat): Hash
    decreases |branch|
  {
    if branch == [] then hash
    else Climb(h, if i % 2 == 1 then h(branch[0], hash) else h(hash, branch[0]), branch[1..], i / 2)
  }

  lemma BranchStep(h: Combine, level: seq<Hash>, i: nat)
    requires i < |level| && |level| > 1
    ensures i / 2 < |Up(h, level)|
    ensures Branch(h, level, i) == [level[Sibling(|level|, i)]] + Branch(h, Up(h, level), i / 2)
    ensures Branch(h, level, i)[1..] == Branch(h, Up(h, level), i / 2)
  {
  }

  lemma BranchEnd(h: Combine, level: seq<Hash>, i: nat)
    requires i < |level| <= 1
    ensures Branch(h, level, i) == []
  {
  }

  method GetMerkleBranch(h: Combine, txids: seq<Hash>, index: nat) returns (branch: seq<Hash>)
    requires index < |txids|
    ensures branch == Branch(h, txids, index)
  {
    hide Up, Tree, Branch;
    var tree, _ := BuildMerkleTree(h, txids);
    branch := [];
    var j, size, k: nat := 0, |txids|, index;
    ghost var level, below, rest := txids, [], Branch(h, txids, index);
    assert below + Tree(h, level) == tree;
    while size > 1
      invariant 1 <= |level| == size && j == |below| && k < size
      invariant below + Tree(h, level) == tree
      invariant rest == Branch(h, level, k)
      invariant branch + rest == Branch(h, txids, index)
      decreases size
    {
      var i := Sibling(size, k);
      assert tree[j + i] == Tree(h, level)[i] == level[i];
      TreeStep(h, below, level, tree);
      BranchStep(h, level, k);
      assert branch + rest == branch + [tree[j + i]] + rest[1..];
      branch := branch + [tree[j + i]];
      rest := rest[1..];
      k := k / 2;
      j := j + size;
      size := (size + 1) / 2;
      below, level := below + level, Up(h, level);
    }
    BranchEnd(h, level, k);
  }

  /** CheckMerkleBranch; index -1 stands for an unknown position. */
  method CheckMerkleBranch(h: Combine, hash: Hash, branch: seq<Hash>, index: int) returns (r: Hash)
    requires index >= -1
    ensures r == if index == -1 then 0 else Climb(h, hash, branch, index)
  {
    if index == -1 {
      return 0;
    }
    r := hash;
    var k := index;
    for n := 0 to |branch|
      invariant k >= 0
      invariant Climb(h, r, branch[n..], k) == Climb(h, hash, branch, index)
    {
      assert branch[n..][1..] == branch[n + 1..];
      r := if k % 2 == 1 then h(branch[n], r) else h(r, branch[n]);
      k := k / 2;
    }
  }

  lemma ParentOf(h: Combine, level: seq<Hash>, i: nat)
    requires i < |level| && |level| > 1
    ensures i / 2 < |Up(h, level)|
    ensures Up(h, level)[i / 2]
              == if i % 2 == 1 then h(level[Sibling(|level|, i)], level[i]) else h(level[i], level[Sibling(|level|, i)])
  {
    assert Up(h, level)[i / 2] == Pair(h, level, i / 2);
  }

  /** The branch of every transaction leads to the root. */
  lemma {:induction false} BranchLeadsToRoot(h: Combine, level: seq<Hash>, i: nat)
    requires i < |level|
    ensures Climb(h, level[i], Branch(h, level, i), i) == Root(h, level)
    decreases |level|
  {
    if |level| > 1 {
      ParentOf(h, level, i);
      BranchStep(h, level, i);
      hide Up, Branch;
      BranchLeadsToRoot(h, Up(h, level), i / 2);
    }
  }

  ghost predicate Injective(h: Combine) {
    forall a, b, c, d :: h(a, b) == h(c, d) ==> a == c && b == d
  }

  /** Without collisions nothing but the transaction at that position climbs to the root: a branch of the right
      length proves membership. */
  lemma {:induction false} BranchProvesMembership(h: Combine, level: seq<Hash>, i: nat, hash: Hash, branch: seq<Hash>)
    requires Injective(h) && i < |level| && |branch| == |Branch(h, level, i)|
    requires Climb(h, hash, branch, i) == Root(h, level)
    ensures hash == level[i] && branch == Branch(h, level, i)
    decreases |level|
  {
    if |level| > 1 {
      ParentOf(h, level, i);
      BranchStep(h, level, i);
      hide Up, Branch;
      var next := if i % 2 == 1 then h(branch[0], hash) else h(hash, branch[0]);
      BranchProvesMembership(h, Up(h, level), i / 2, next, branch[1..]);
      assert branch == [branch[0]] + branch[1..];
      assert Branch(h, level, i) == [Branch(h, level, i)[0]] + Branch(h, level, i)[1..];
    }
  }

  /** The branch of every transaction checks out against the root of the block. */
  method ProveTransaction(h: Combine, txids: seq<Hash>, index: nat) returns (root: Hash, checked: Hash)
    requires index < |txids|
    ensures root == Root(h, txids) && checked == root
  {
    var tree;
    tree, root := BuildMerkleTree(h, txids);
    var branch := GetMerkleBranch(h, txids, index);
    checked := CheckMerkleBranch(h, txids[index], branch, index);
    BranchLeadsToRoot(h, txids, index);
  }
}
