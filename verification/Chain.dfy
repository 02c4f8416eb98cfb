/** The block tree and the active chain: SetBestChain, ConnectBestBlock and AddToBlockIndex. */
module Chain {
  import opened Primitives
  import opened Ledger
  import opened Supply
  import opened BlockTree
  import opened CoinsView
  import opened Validation
  import opened Connect
  import opened Reorg
  import Target

  // ---------- The shape of the tree (fixed once a block is added) ----------

  ghost predicate TreeValid(blocks: set<BlockIndex>) {
    && (forall b :: b in blocks ==> b.Rooted())
    && (forall b, i :: b in blocks && 0 <= i < |b.ancestry| ==> b.ancestry[i] in blocks)
    && (forall a, b :: a in blocks && b in blocks ==> a.ancestry[0] == b.ancestry[0])
  }

  /** b is an ancestor of tip or tip itself. */
  ghost predicate OnChain(tip: BlockIndex?, b: BlockIndex) {
    tip != null && b.height < |tip.ancestry| && tip.ancestry[b.height] == b
  }

  ghost function Next(tip: BlockIndex?, b: BlockIndex): BlockIndex? {
    if OnChain(tip, b) && b.height + 1 < |tip.ancestry| then tip.ancestry[b.height + 1] else null
  }

  ghost function HeightOf(b: BlockIndex?): int {
    if b == null then -1 else b.height
  }

  lemma OnChainRooted(tip: BlockIndex, b: BlockIndex)
    requires tip.Rooted() && OnChain(tip, b)
    ensures b.Rooted() && b.ancestry == tip.ancestry[..b.height + 1]
    ensures b.height <= tip.height
    ensures b.pprev == null <==> b.height == 0
    ensures b.pprev != null ==> OnChain(tip, b.pprev) && b.pprev.height == b.height - 1
  {
    AncestorRooted(tip, b.height);
    assert tip.RootedAt(b.height);
    if b.height > 0 {
      assert tip.RootedAt(b.height - 1);
    }
  }

  /** Two chains that meet in p agree on everything below p. */
  lemma SharedBelow(tip: BlockIndex, other: BlockIndex, p: BlockIndex, b: BlockIndex)
    requires tip.Rooted() && other.Rooted() && OnChain(tip, p) && OnChain(other, p)
    requires OnChain(other, b) && b.height <= p.height
    ensures OnChain(tip, b)
  {
    OnChainRooted(tip, p);
    OnChainRooted(other, p);
    assert tip.ancestry[b.height] == p.ancestry[b.height] == other.ancestry[b.height];
  }

  /** mapBlockIndex finds every block under its own hash. */
  ghost predicate IndexValid(index: map<Hash, BlockIndex>, blocks: set<BlockIndex>) {
    && (forall h :: h in index ==> index[h] in blocks && index[h].block.hash == h)
    && (forall b :: b in blocks ==> b.block.hash in index && index[b.block.hash] == b)
  }

  /** A node hangs below the block that its own block names as its predecessor, and adds its work to that one's. */
  ghost predicate NodeValid(b: BlockIndex) {
    && (b.pprev != null ==> b.pprev.block.hash == b.block.prev)
    && b.chainWork == (if b.pprev == null then 0 else b.pprev.chainWork) + Target.Work(b.block.bits)
  }

  /** Only the genesis block has no parent. */
  ghost predicate RootsValid(blocks: set<BlockIndex>, genesisHash: Hash) {
    forall b :: b in blocks ==> NodeValid(b) && (b.pprev == null ==> b.block.hash == genesisHash)
  }

  lemma InsertKeepsIndex(index: map<Hash, BlockIndex>, blocks: set<BlockIndex>, genesisHash: Hash, p: BlockIndex)
    requires IndexValid(index, blocks) && p.block.hash !in index
    requires RootsValid(blocks, genesisHash) && NodeValid(p) && (p.pprev == null ==> p.block.hash == genesisHash)
    ensures IndexValid(index[p.block.hash := p], blocks + {p}) && RootsValid(blocks + {p}, genesisHash)
  {
  }

  lemma InsertKeepsTree(blocks: set<BlockIndex>, p: BlockIndex)
    requires TreeValid(blocks) && p.Rooted() && p !in blocks
    requires if p.pprev == null then blocks == {} else p.pprev in blocks
    ensures TreeValid(blocks + {p})
  {
    assert p.RootedAt(p.height);
    if p.pprev != null {
      ParentRooted(p);
    }
  }

  lemma NotOnOldChain(blocks: set<BlockIndex>, tip: BlockIndex?, p: BlockIndex)
    requires TreeValid(blocks) && p !in blocks && (tip != null ==> tip in blocks)
    ensures !OnChain(tip, p)
  {
  }

  /** fork is the last block that two chains share. */
  ghost predicate IsFork(tip: BlockIndex, target: BlockIndex, fork: BlockIndex) {
    && OnChain(tip, fork) && OnChain(target, fork)
    && forall k :: fork.height < k < |tip.ancestry| && k < |target.ancestry| ==> tip.ancestry[k] != target.ancestry[k]
  }

  /** The search at the start of SetBestChain; its assertions hold because the tree has one root. */
  method FindFork(tip: BlockIndex?, target: BlockIndex) returns (fork: BlockIndex?)
    requires target.Rooted()
    requires tip != null ==> tip.Rooted() && tip.ancestry[0] == target.ancestry[0]
    ensures tip == null ==> fork == null
    ensures tip != null ==> fork != null && IsFork(tip, target, fork)
  {
    fork := tip;
    var longer: BlockIndex? := target;
    if tip != null {
      assert tip.RootedAt(tip.height) && target.RootedAt(target.height);
    }
    while fork != null && fork != longer
      invariant tip == null <==> fork == null
      invariant longer != null
      invariant fork != null ==> ForkSearch(tip, target, fork, longer)
      decreases HeightOf(fork) + 1
    {
      while longer.height > fork.height
        invariant longer != null && ForkSearch(tip, target, fork, longer)
        decreases HeightOf(longer)
      {
        OnChainRooted(target, longer);
        longer := longer.pprev;
        assert longer != null;
      }
      if fork == longer {
        break;
      }
      OnChainRooted(tip, fork);
      OnChainRooted(target, longer);
      fork := fork.pprev;
      assert fork != null;
    }
  }

  /** Above fork or above longer the two chains have nothing in common. */
  ghost predicate ForkSearch(tip: BlockIndex, target: BlockIndex, fork: BlockIndex, longer: BlockIndex) {
    && OnChain(tip, fork) && OnChain(target, longer)
    && forall k :: 0 <= k < |tip.ancestry| && k < |target.ancestry| && (fork.height < k || longer.height < k)
         ==> tip.ancestry[k] != target.ancestry[k]
  }

  /** The blocks from b down to, but not including, a fork block. */
  method PathDown(b: BlockIndex, fork: BlockIndex?) returns (path: seq<BlockIndex>)
    requires b.Rooted() && (fork != null ==> OnChain(b, fork))
    ensures |path| == b.height - HeightOf(fork)
    ensures forall i :: 0 <= i < |path| ==> path[i] == b.ancestry[b.height - i] && path[i].height == b.height - i
    ensures Descends(path, b, fork)
  {
    path := [];
    var p: BlockIndex? := b;
    assert b.RootedAt(b.height);
    while p != fork
      invariant p != null ==> OnChain(b, p)
      invariant HeightOf(fork) <= HeightOf(p)
      invariant |path| == b.height - HeightOf(p)
      invariant forall i :: 0 <= i < |path| ==> path[i] == b.ancestry[b.height - i] && path[i].height == b.height - i
      invariant forall i :: 0 <= i < |path| ==> DescendsAt(path, b, i)
      invariant p == Below(path, b, |path|)
      decreases HeightOf(p) + 1
    {
      OnChainRooted(b, p);
      ghost var before := path;
      path := path + [p];
      assert forall i :: 0 <= i < |before| ==> DescendsAt(before, b, i) ==> DescendsAt(path, b, i);
      p := p.pprev;
    }
  }

  method Reversed(path: seq<BlockIndex>) returns (r: seq<BlockIndex>)
    ensures |r| == |path|
    ensures forall i :: 0 <= i < |r| ==> r[i] == path[|path| - 1 - i]
  {
    r := [];
    for i := 0 to |path|
      invariant |r| == i
      invariant forall k :: 0 <= k < i ==> r[k] == path[i - 1 - k]
    {
      r := [path[i]] + r;
    }
  }

  // ---------- Walking a view along the tree ----------

  /** Where a walk down from tip stands after i blocks. */
  ghost function Below(path: seq<BlockIndex>, tip: BlockIndex?, i: nat): BlockIndex?
    requires i <= |path|
  {
    if i == 0 then tip else path[i - 1].pprev
  }

  ghost predicate DescendsAt(path: seq<BlockIndex>, tip: BlockIndex?, i: nat)
    requires i < |path|
  {
    path[i].Rooted() && path[i] == Below(path, tip, i)
  }

  /** Blocks in a row from tip down to just above fork. */
  ghost predicate Descends(path: seq<BlockIndex>, tip: BlockIndex?, fork: BlockIndex?) {
    && (forall i :: 0 <= i < |path| ==> DescendsAt(path, tip, i))
    && Below(path, tip, |path|) == fork
  }

  /** Disconnect a branch, tip first.  No DisconnectBlock fails. */
  method DisconnectAll(view: View, tip: BlockIndex?, fork: BlockIndex?, path: seq<BlockIndex>) returns (ok: bool)
    requires view.Valid() && view.base != null && Tracks(view, tip)
    requires Descends(path, tip, fork)
    requires forall i :: 0 <= i < |path| ==> path[i].undo.Some? && RecordValid(path[i])
    modifies view.levels
    ensures ok && Tracks(view, fork) && view.BaseKept()
  {
    hide RecordValid;
    ok := true;
    BaseValid(view);
    ghost var at := tip;
    for i := 0 to |path|
      invariant ok && view.BaseKept()
      invariant Tracks(view, at) && at == Below(path, tip, i)
    {
      assert DescendsAt(path, tip, i);
      ok := DisconnectTip(view, path[i]);
      at := path[i].pprev;
    }
  }

  /** Blocks in a row, the first one on top of fork. */
  ghost predicate Ascends(path: seq<BlockIndex>, fork: BlockIndex?) {
    forall i :: 0 <= i < |path| ==> AscendsAt(path, fork, i)
  }

  ghost predicate AscendsAt(path: seq<BlockIndex>, fork: BlockIndex?, i: nat)
    requires i < |path|
  {
    && path[i].Rooted()
    && path[i].height == HeightOf(fork) + 1 + i
    && path[i].pprev == if i == 0 then fork else path[i - 1]
  }

  lemma AscendsDistinct(path: seq<BlockIndex>, fork: BlockIndex?, i: nat)
    requires Ascends(path, fork) && i < |path|
    ensures forall k :: 0 <= k < |path| && k != i ==> path[k] != path[i]
  {
    assert AscendsAt(path, fork, i);
    forall k | 0 <= k < |path| && k != i
      ensures path[k] != path[i]
    {
      assert AscendsAt(path, fork, k);
    }
  }

  /** A block that has been connected. */
  ghost predicate Settled(b: BlockIndex)
    reads b`undo, b`moneySupply
  {
    RecordValid(b) && SupplyValid(b) && (b.undo.Some? <==> b.pprev != null)
  }

  /** The state of a branch of which the first i blocks are connected. */
  ghost predicate Progress(path: seq<BlockIndex>, fork: BlockIndex?, i: nat)
    requires i <= |path|
    reads path, fork
  {
    && (forall k :: 0 <= k < i ==> Settled(path[k]))
    && (forall k :: i <= k < |path| ==> RecordValid(path[k]))
    && (i == 0 && fork != null ==> SupplyValid(fork))
  }

  ghost function At(path: seq<BlockIndex>, fork: BlockIndex?, i: nat): BlockIndex?
    requires i <= |path|
  {
    if i == 0 then fork else path[i - 1]
  }

  /** The rules accept every block of a path, or path[bad] is the first one they refuse. */
  ghost predicate Judged(rules: Rules, path: seq<BlockIndex>, r: Verdict, bad: nat) {
    if r.Accepted? then forall i :: 0 <= i < |path| ==> Ruling(rules, path[i]).Accepted?
    else
      && bad < |path| && Ruling(rules, path[bad]) == r
      && forall i :: 0 <= i < bad ==> Ruling(rules, path[i]).Accepted?
  }

  method ConnectNext(view: View, b: BlockIndex, rules: Rules,
                     ghost fork: BlockIndex?, ghost path: seq<BlockIndex>, ghost i: nat) returns (r: Verdict)
    requires view.Valid() && view.base != null && i < |path| && b == path[i] && Tracks(view, At(path, fork, i))
    requires Ascends(path, fork) && Progress(path, fork, i)
    modifies view.levels, b`moneySupply, b`undo
    ensures view.BaseKept() && r == Ruling(rules, b)
    ensures r.Accepted? ==> Tracks(view, path[i]) && Progress(path, fork, i + 1)
    ensures forall k :: 0 <= k < |path| ==> RecordValid(path[k])
  {
    hide Tracks, RecordValid, SupplyValid, Ruling, View.Flat, View.Best;
    AscendsDistinct(path, fork, i);
    assert AscendsAt(path, fork, i);
    r := ConnectTip(view, b, rules);
  }

  /** Connect a branch, lowest block first, until one is refused. */
  method ConnectAll(view: View, fork: BlockIndex?, path: seq<BlockIndex>, rules: Rules, ghost blocks: set<BlockIndex>)
    returns (r: Verdict, bad: nat)
    requires view.Valid() && view.base != null && Tracks(view, fork)
    requires Ascends(path, fork) && Progress(path, fork, 0)
    requires forall i :: 0 <= i < |path| ==> path[i] in blocks
    requires forall b :: b in blocks ==> b in path
    modifies view.levels, blocks`moneySupply, blocks`undo
    ensures view.BaseKept()
    ensures forall i :: 0 <= i < |path| ==> RecordValid(path[i])
    ensures r.Accepted? ==> Tracks(view, At(path, fork, |path|)) && Progress(path, fork, |path|)
    ensures Judged(rules, path, r, bad) && (!r.Accepted? ==> bad < |path|)
  {
    hide View.Flat, View.Best, SupplyValid, RecordValid, Tracks, Ruling;
    r, bad := Accepted, 0;
    BaseValid(view);
    for i := 0 to |path|
      invariant r.Accepted? && view.BaseKept()
      invariant Tracks(view, At(path, fork, i)) && Progress(path, fork, i)
      invariant forall k :: 0 <= k < i ==> Ruling(rules, path[k]).Accepted?
    {
      assert path[i] in blocks;
      r := ConnectNext(view, path[i], rules, fork, path, i);
      if !r.Accepted? {
        bad := i;
        return;
      }
    }
  }

  // ---------- pnext follows the active chain ----------

  ghost predicate LinksValid(blocks: set<BlockIndex>, tip: BlockIndex?)
    reads blocks`pnext
  {
    forall b :: b in blocks ==> b.pnext == Next(tip, b)
  }

  lemma NextAcross(tip: BlockIndex, b: BlockIndex)
    requires tip.Rooted()
    ensures tip.pprev == null ==> Next(tip, b) == null
    ensures tip.pprev != null ==>
              tip.pprev.Rooted() && Next(tip, b) == if b == tip.pprev then tip else Next(tip.pprev, b)
  {
    assert tip.RootedAt(tip.height);
    if tip.pprev != null {
      ParentRooted(tip);
      assert tip.pprev.RootedAt(tip.height - 1);
    }
  }

  method Unlink(tip: BlockIndex, ghost blocks: set<BlockIndex>)
    requires tip.Rooted() && (tip.pprev != null ==> tip.pprev in blocks)
    requires LinksValid(blocks, tip)
    modifies blocks`pnext
    ensures LinksValid(blocks, tip.pprev)
  {
    forall b | b in blocks
      ensures Next(tip, b) == if tip.pprev == null then null else if b == tip.pprev then tip else Next(tip.pprev, b)
    {
      NextAcross(tip, b);
    }
    if tip.pprev != null {
      ParentRooted(tip);
      assert Next(tip.pprev, tip.pprev) == null;
      tip.pprev.pnext := null;
    }
  }

  method Link(p: BlockIndex, ghost blocks: set<BlockIndex>)
    requires p.Rooted() && (p.pprev != null ==> p.pprev in blocks)
    requires LinksValid(blocks, p.pprev)
    modifies blocks`pnext
    ensures LinksValid(blocks, p)
  {
    forall b | b in blocks
      ensures Next(p, b) == if p.pprev == null then null else if b == p.pprev then p else Next(p.pprev, b)
    {
      NextAcross(p, b);
    }
    if p.pprev != null {
      p.pprev.pnext := p;
    }
  }

  method UnlinkAll(tip: BlockIndex?, fork: BlockIndex?, down: seq<BlockIndex>, ghost blocks: set<BlockIndex>)
    requires LinksValid(blocks, tip)
    requires Descends(down, tip, fork)
    requires forall i :: 0 <= i < |down| ==> down[i].pprev != null && down[i].pprev in blocks
    modifies blocks`pnext
    ensures LinksValid(blocks, fork)
  {
    for i := 0 to |down|
      invariant LinksValid(blocks, Below(down, tip, i))
    {
      assert DescendsAt(down, tip, i);
      Unlink(down[i], blocks);
    }
  }

  method LinkAll(fork: BlockIndex?, up: seq<BlockIndex>, ghost blocks: set<BlockIndex>)
    requires LinksValid(blocks, fork) && (fork != null ==> fork in blocks)
    requires Ascends(up, fork) && forall i :: 0 <= i < |up| ==> up[i] in blocks
    modifies blocks`pnext
    ensures LinksValid(blocks, At(up, fork, |up|))
  {
    for i := 0 to |up|
      invariant LinksValid(blocks, At(up, fork, i))
    {
      assert AscendsAt(up, fork, i);
      Link(up[i], blocks);
    }
  }

  // ---------- SetBestChain ----------

  /** Undo data is right everywhere, and the active chain is fully recorded. */
  ghost predicate RecordsValid(blocks: set<BlockIndex>, tip: BlockIndex?)
    reads blocks`undo, blocks`moneySupply
  {
    && (forall b :: b in blocks ==> RecordValid(b))
    && (forall b :: b in blocks && OnChain(tip, b) ==> Settled(b))
  }

  /** The candidates are exactly the blocks that have not failed, and no block of the active chain has failed. */
  ghost predicate StatusValid(blocks: set<BlockIndex>, candidates: set<BlockIndex>, tip: BlockIndex?)
    reads blocks`failed
  {
    && candidates <= blocks
    && (forall b :: b in candidates ==> !b.failed)
    && (forall b :: b in blocks && !b.failed ==> b in candidates)
    && (forall b :: b in blocks && OnChain(tip, b) ==> !b.failed)
  }

  /** The rules refuse the block or one of its ancestors for good. */
  ghost predicate Doomed(rules: Rules, b: BlockIndex) {
    exists i :: 0 <= i < |b.ancestry| && Ruling(rules, b.ancestry[i]).Invalid?
  }

  /** The rules accept the block and all its ancestors. */
  ghost predicate Sound(rules: Rules, b: BlockIndex) {
    forall i :: 0 <= i < |b.ancestry| ==> Ruling(rules, b.ancestry[i]).Accepted?
  }

  /** Blocks fail only for a reason, and the active chain obeys the rules. */
  ghost predicate JudgmentsValid(rules: Rules, blocks: set<BlockIndex>, tip: BlockIndex?)
    reads blocks`failed
  {
    && (forall b :: b in blocks && b.failed ==> Doomed(rules, b))
    && (forall b :: b in blocks && OnChain(tip, b) ==> Ruling(rules, b).Accepted?)
  }

  lemma DoomedBelow(rules: Rules, tip: BlockIndex, bad: BlockIndex, b: BlockIndex)
    requires tip.Rooted() && OnChain(tip, bad) && OnChain(tip, b) && bad.height <= b.height && Doomed(rules, bad)
    ensures Doomed(rules, b)
  {
    hide Ruling;
    OnChainRooted(tip, bad);
    OnChainRooted(tip, b);
    var i :| 0 <= i < |bad.ancestry| && Ruling(rules, bad.ancestry[i]).Invalid?;
    assert bad.ancestry[i] == tip.ancestry[i] == b.ancestry[i];
  }

  lemma RefusedIsDoomed(rules: Rules, b: BlockIndex)
    requires b.Rooted() && Ruling(rules, b).Invalid?
    ensures Doomed(rules, b)
  {
    hide Ruling;
    assert b.ancestry[b.height] == b;
  }

  /** A target whose branch the rules accept from an accepted tip is sound, so nothing on it has failed. */
  lemma AcceptedBranch(rules: Rules, blocks: set<BlockIndex>, tip: BlockIndex?, target: BlockIndex, fork: BlockIndex?,
                       down: seq<BlockIndex>, up: seq<BlockIndex>, bad: nat, b: BlockIndex)
    requires TreeValid(blocks) && JudgmentsValid(rules, blocks, tip) && target in blocks
    requires Branches(tip, target, fork, down, up) && Judged(rules, up, Accepted, bad) && OnChain(target, b)
    ensures Ruling(rules, b).Accepted? && !b.failed
  {
    hide Ruling, Branches;
    assert target.Rooted() && b in blocks;
    OnChainRooted(target, b);
    forall i | 0 <= i < |b.ancestry|
      ensures Ruling(rules, b.ancestry[i]).Accepted?
    {
      var a := b.ancestry[i];
      assert target.RootedAt(i);
      assert a == target.ancestry[i] && a in blocks && OnChain(target, a);
      BranchCovers(tip, target, fork, down, up, a);
    }
    assert b.ancestry[b.height] == b;
  }

  /** b is the first block on the way from tip to target that the rules refuse. */
  ghost predicate FirstRefused(rules: Rules, tip: BlockIndex?, target: BlockIndex, b: BlockIndex) {
    && OnChain(target, b) && !OnChain(tip, b) && !Ruling(rules, b).Accepted?
    && forall i :: 0 <= i < b.height && i < |target.ancestry| && !OnChain(tip, target.ancestry[i]) ==>
         Ruling(rules, target.ancestry[i]).Accepted?
  }

  lemma BadIsFirstRefused(rules: Rules, tip: BlockIndex?, target: BlockIndex, fork: BlockIndex?,
                          down: seq<BlockIndex>, up: seq<BlockIndex>, r: Verdict, bad: nat)
    requires Branches(tip, target, fork, down, up) && Judged(rules, up, r, bad) && !r.Accepted?
    ensures FirstRefused(rules, tip, target, up[bad]) && Ruling(rules, up[bad]) == r
  {
    hide Ruling;
    BranchAscendsAt(tip, target, fork, down, up, bad);
    forall i | 0 <= i < up[bad].height && i < |target.ancestry| && !OnChain(tip, target.ancestry[i])
      ensures Ruling(rules, target.ancestry[i]).Accepted?
    {
      var a := target.ancestry[i];
      assert target.RootedAt(i);
      BranchCovers(tip, target, fork, down, up, a);
      var k :| 0 <= k < |up| && up[k] == a;
      BranchAscendsAt(tip, target, fork, down, up, k);
    }
  }

  /** down leads from tip to fork, up from fork to target, and they share no block. */
  ghost predicate Branches(tip: BlockIndex?, target: BlockIndex, fork: BlockIndex?, down: seq<BlockIndex>,
                           up: seq<BlockIndex>)
  {
    && target.Rooted() && HeightOf(fork) <= target.height
    && (if tip == null then fork == null && down == []
        else tip.Rooted() && fork != null && IsFork(tip, target, fork))
    && Descends(down, tip, fork)
    && (forall i :: 0 <= i < |down| ==> OnChain(tip, down[i]) && down[i].pprev != null)
    && |up| == target.height - HeightOf(fork)
    && (forall i :: 0 <= i < |up| ==> up[i] == target.ancestry[HeightOf(fork) + 1 + i])
  }

  lemma BranchAscendsAt(tip: BlockIndex?, target: BlockIndex, fork: BlockIndex?, down: seq<BlockIndex>,
                        up: seq<BlockIndex>, i: nat)
    requires Branches(tip, target, fork, down, up) && i < |up|
    ensures AscendsAt(up, fork, i) && !OnChain(tip, up[i]) && OnChain(target, up[i])
  {
    var h := HeightOf(fork) + 1 + i;
    assert target.RootedAt(h);
    AncestorRooted(target, h);
    if h > 0 {
      assert target.RootedAt(h - 1);
    }
  }

  lemma BranchCovers(tip: BlockIndex?, target: BlockIndex, fork: BlockIndex?, down: seq<BlockIndex>,
                     up: seq<BlockIndex>, b: BlockIndex)
    requires Branches(tip, target, fork, down, up) && OnChain(target, b)
    ensures OnChain(tip, b) || b in up
  {
    if b.height <= HeightOf(fork) {
      OnChainRooted(target, fork);
      OnChainRooted(tip, fork);
      assert tip.ancestry[..fork.height + 1][b.height] == target.ancestry[..fork.height + 1][b.height];
    } else {
      assert up[b.height - HeightOf(fork) - 1] == b;
    }
  }

  lemma BranchesAscend(tip: BlockIndex?, target: BlockIndex, fork: BlockIndex?, down: seq<BlockIndex>,
                       up: seq<BlockIndex>)
    requires Branches(tip, target, fork, down, up)
    ensures Ascends(up, fork)
    ensures At(up, fork, |up|) == target
    ensures forall i :: 0 <= i < |up| ==> !OnChain(tip, up[i])
  {
    assert target.RootedAt(target.height);
    forall i | 0 <= i < |up|
      ensures AscendsAt(up, fork, i) && !OnChain(tip, up[i])
    {
      BranchAscendsAt(tip, target, fork, down, up, i);
    }
  }

  method FindBranches(tip: BlockIndex?, target: BlockIndex, ghost blocks: set<BlockIndex>)
    returns (fork: BlockIndex?, down: seq<BlockIndex>, up: seq<BlockIndex>)
    requires TreeValid(blocks) && target in blocks && (tip != null ==> tip in blocks)
    ensures Branches(tip, target, fork, down, up)
    ensures InTree(blocks, fork, down, up)
  {
    fork := FindFork(tip, target);
    down := [];
    if tip != null {
      OnChainRooted(tip, fork);
      OnChainRooted(target, fork);
      down := PathDown(tip, fork);
    }
    up := PathDown(target, fork);
    up := Reversed(up);
    forall i | 0 <= i < |down|
      ensures OnChain(tip, down[i]) && down[i].pprev != null && down[i] in blocks && down[i].pprev in blocks
    {
      OnChainRooted(tip, down[i]);
    }
  }

  /** The coin part of SetBestChain, on its private view: down to the fork, then up to the target. */
  method MoveView(view: View, tip: BlockIndex?, target: BlockIndex, fork: BlockIndex?,
                  down: seq<BlockIndex>, up: seq<BlockIndex>, rules: Rules, ghost blocks: set<BlockIndex>)
    returns (r: Verdict, bad: nat)
    requires view.Valid() && view.base != null && Tracks(view, tip)
    requires Branches(tip, target, fork, down, up) && RecordsValid(blocks, tip)
    requires InTree(blocks, fork, down, up)
    modifies view.levels, blocks`moneySupply, blocks`undo
    ensures view.BaseKept()
    ensures r.Accepted? ==> Tracks(view, target) && RecordsValid(blocks, target)
    ensures !r.Accepted? ==> RecordsValid(blocks, tip) && bad < |up|
    ensures Judged(rules, up, r, bad)
  {
    hide Tracks, RecordValid, SupplyValid, Ruling, Judged, View.Flat, View.Best;
    BaseValid(view);
    BranchesAscend(tip, target, fork, down, up);
    var ok := DisconnectAll(view, tip, fork, down);
    ghost var ups := set b | b in up;
    r, bad := ConnectAll(view, fork, up, rules, ups);
    forall b | b in blocks
      ensures RecordValid(b)
      ensures OnChain(tip, b) ==> Settled(b)
      ensures r.Accepted? && OnChain(target, b) ==> Settled(b)
    {
      if b in up {
        var i :| 0 <= i < |up| && up[i] == b;
      } else if OnChain(target, b) {
        BranchCovers(tip, target, fork, down, up, b);
      }
    }
  }

  lemma InsertKeepsRecords(blocks: set<BlockIndex>, candidates: set<BlockIndex>, tip: BlockIndex?, p: BlockIndex)
    requires TreeValid(blocks) && p !in blocks && (tip != null ==> tip in blocks)
    requires LinksValid(blocks, tip) && RecordsValid(blocks, tip) && StatusValid(blocks, candidates, tip)
    requires p.pnext == null && !p.failed && p.undo.None? && p.moneySupply == 0
    ensures LinksValid(blocks + {p}, tip) && RecordsValid(blocks + {p}, tip)
    ensures StatusValid(blocks + {p}, candidates + {p}, tip)
    ensures forall rules: Rules :: JudgmentsValid(rules, blocks, tip) ==> JudgmentsValid(rules, blocks + {p}, tip)
  {
    NotOnOldChain(blocks, tip, p);
    assert RecordValid(p);
    hide RecordValid, Settled, OnChain;
  }

  /** Publish the private view: into the coin cache, and sometimes on to the database. */
  method Commit(view: View, coinsTip: View, ghost target: BlockIndex)
    requires view.Valid() && view.base == coinsTip && coinsTip.Valid() && coinsTip.base != null
    requires Tracks(view, target)
    modifies view, coinsTip, coinsTip.base
    ensures Tracks(coinsTip, target)
  {
    BaseValid(view);
    BaseValid(coinsTip);
    ghost var m := view.Flat();
    view.Flush();
    WellFormedByLive(m, coinsTip.Flat());
    var toDisk: bool := *;
    if toDisk {
      ghost var m1 := coinsTip.Flat();
      coinsTip.Flush();
      WellFormedByLive(m1, coinsTip.Flat());
    }
  }

  /** First half of SetBestChain: try the whole move on a private view. */
  method TryMove(coinsTip: View, tip: BlockIndex?, target: BlockIndex, rules: Rules, ghost blocks: set<BlockIndex>)
    returns (view: View, r: Verdict, bad: nat, fork: BlockIndex?, down: seq<BlockIndex>, up: seq<BlockIndex>)
    requires coinsTip.Valid() && coinsTip.base != null && Tracks(coinsTip, tip)
    requires TreeValid(blocks) && target in blocks && (tip != null ==> tip in blocks) && RecordsValid(blocks, tip)
    modifies coinsTip.levels, blocks`moneySupply, blocks`undo
    ensures fresh(view) && view.Valid() && view.base == coinsTip
    ensures Branches(tip, target, fork, down, up) && InTree(blocks, fork, down, up)
    ensures r.Accepted? ==> Tracks(view, target) && RecordsValid(blocks, target)
    ensures !r.Accepted? ==> Tracks(coinsTip, tip) && RecordsValid(blocks, tip) && bad < |up|
    ensures Judged(rules, up, r, bad)
  {
    hide RecordValid, Settled, WellFormed, Live, Ruling, Judged;
    ghost var m := coinsTip.Flat();
    view := new View.Cache(coinsTip);
    BaseValid(view);
    BaseValid(coinsTip);
    var t := view.GetBestBlock();
    fork, down, up := FindBranches(tip, target, blocks);
    r, bad := MoveView(view, tip, target, fork, down, up, rules, blocks);
  }

  ghost predicate InTree(blocks: set<BlockIndex>, fork: BlockIndex?, down: seq<BlockIndex>, up: seq<BlockIndex>) {
    && (fork != null ==> fork in blocks)
    && (forall i :: 0 <= i < |up| ==> up[i] in blocks)
    && (forall i :: 0 <= i < |down| ==> down[i] in blocks && down[i].pprev != null && down[i].pprev in blocks)
  }

  /** Second half of SetBestChain, once the whole branch has connected. */
  method Publish(view: View, coinsTip: View, tip: BlockIndex?, target: BlockIndex, fork: BlockIndex?,
                 down: seq<BlockIndex>, up: seq<BlockIndex>, ghost blocks: set<BlockIndex>)
    requires view.Valid() && view.base == coinsTip && coinsTip.Valid() && coinsTip.base != null
    requires Tracks(view, target) && LinksValid(blocks, tip)
    requires Branches(tip, target, fork, down, up) && InTree(blocks, fork, down, up)
    modifies view, coinsTip, coinsTip.base, blocks`pnext
    ensures Tracks(coinsTip, target) && LinksValid(blocks, target)
  {
    BranchesAscend(tip, target, fork, down, up);
    BaseValid(coinsTip);
    UnlinkAll(tip, fork, down, blocks);
    LinkAll(fork, up, blocks);
    Commit(view, coinsTip, target);
  }

  // ---------- What holds up a chain ----------

  /** The block or an ancestor of it is in the given set. */
  ghost predicate Held(b: BlockIndex, dead: set<BlockIndex>) {
    exists i :: 0 <= i < |b.ancestry| && b.ancestry[i] in dead
  }

  /** The first, in the order of setBlockIndexValid, of the blocks other than p that are not held. */
  ghost predicate Top(top: BlockIndex, blocks: set<BlockIndex>, dead: set<BlockIndex>, p: BlockIndex?) {
    && top in blocks && top != p && !Held(top, dead)
    && forall c :: c in blocks && c != p && !Held(c, dead) ==> !Before(top, c)
  }

  /** The lowest block on the chain that the rules do not accept is at height i. */
  ghost predicate FirstBad(rules: Rules, b: BlockIndex, i: nat)
    requires i < |b.ancestry|
  {
    !Ruling(rules, b.ancestry[i]).Accepted? && forall j :: 0 <= j < i ==> Ruling(rules, b.ancestry[j]).Accepted?
  }

  /** The lowest block on the chain that the rules do not accept could not be judged, so it is never marked. */
  ghost predicate Stuck(rules: Rules, b: BlockIndex) {
    exists i :: 0 <= i < |b.ancestry| && FirstBad(rules, b, i) && Ruling(rules, b.ancestry[i]).Failed?
  }

  /** What a refusal marks. */
  ghost function Toll(rules: Rules, b: BlockIndex): set<BlockIndex> {
    if Ruling(rules, b).Invalid? then {b} else {}
  }

  ghost predicate ResolvedBy(rules: Rules, blocks: set<BlockIndex>, tip: BlockIndex?, dead: set<BlockIndex>,
                             p: BlockIndex?)
  {
    || (forall b :: b in blocks && b != p && Heavier(b, tip) ==> Held(b, dead))
    || (exists q :: q in blocks && Top(q, blocks, dead, p) && Stuck(rules, q))
  }

  /** A new block is the only one that is not resolved yet. */
  lemma EnterKeepsResolved(rules: Rules, blocks: set<BlockIndex>, tip: BlockIndex?, dead: set<BlockIndex>,
                           p: BlockIndex)
    requires p !in blocks
    ensures ResolvedBy(rules, blocks, tip, dead, null) ==> ResolvedBy(rules, blocks + {p}, tip, dead, p)
  {
    hide Held, Stuck;
    forall q | q in blocks && Top(q, blocks, dead, null)
      ensures Top(q, blocks + {p}, dead, p)
    {
    }
  }

  /** Blocks that fail without being judged stand on one that had failed before. */
  ghost predicate Marks(blocks: set<BlockIndex>, dead: set<BlockIndex>, now: set<BlockIndex>) {
    dead <= now <= blocks && forall b :: b in now ==> Held(b, dead)
  }

  lemma MarksSelf(blocks: set<BlockIndex>, dead: set<BlockIndex>)
    requires TreeValid(blocks) && dead <= blocks
    ensures Marks(blocks, dead, dead)
  {
    forall b | b in dead
      ensures Held(b, dead)
    {
      assert b.RootedAt(b.height);
    }
  }

  lemma MarksHeld(blocks: set<BlockIndex>, dead: set<BlockIndex>, now: set<BlockIndex>, b: BlockIndex)
    requires TreeValid(blocks) && Marks(blocks, dead, now) && b in blocks
    ensures Held(b, dead) <==> Held(b, now)
  {
    if Held(b, now) {
      var i :| 0 <= i < |b.ancestry| && b.ancestry[i] in now;
      assert b.RootedAt(i);
      HeldAbove(dead, b, b.ancestry[i]);
    }
  }

  lemma HeldAbove(dead: set<BlockIndex>, b: BlockIndex, a: BlockIndex)
    requires b.Rooted() && OnChain(b, a) && Held(a, dead)
    ensures Held(b, dead)
  {
    OnChainRooted(b, a);
    var j :| 0 <= j < |a.ancestry| && a.ancestry[j] in dead;
    assert a.ancestry[j] == b.ancestry[j];
  }

  lemma MarksMore(blocks: set<BlockIndex>, dead: set<BlockIndex>, now: set<BlockIndex>, more: set<BlockIndex>,
                  newBest: BlockIndex, bad: BlockIndex)
    requires TreeValid(blocks) && Marks(blocks, dead, now) && newBest in blocks && OnChain(newBest, bad) && bad in now
    requires now <= more <= blocks
    requires forall b :: b in more && b !in now ==> OnChain(newBest, b) && b.height > bad.height
    ensures Marks(blocks, dead, more)
  {
    forall b | b in more && b !in now
      ensures Held(b, dead)
    {
      OnChainRooted(newBest, b);
      assert b.ancestry[bad.height] == newBest.ancestry[bad.height];
      HeldAbove(dead, b, bad);
    }
  }

  lemma MarksResolved(rules: Rules, blocks: set<BlockIndex>, tip: BlockIndex?, dead: set<BlockIndex>,
                      now: set<BlockIndex>, p: BlockIndex?)
    requires TreeValid(blocks) && Marks(blocks, dead, now)
    ensures ResolvedBy(rules, blocks, tip, dead, p) <==> ResolvedBy(rules, blocks, tip, now, p)
  {
    hide TreeValid, Marks, Held, Stuck;
    forall b | b in blocks
      ensures Held(b, dead) <==> Held(b, now)
    {
      MarksHeld(blocks, dead, now, b);
    }
    forall q | q in blocks
      ensures Top(q, blocks, dead, p) <==> Top(q, blocks, now, p)
    {
    }
  }

  lemma RefusalStep(rules: Rules, index: map<Hash, BlockIndex>, blocks: set<BlockIndex>, now: set<BlockIndex>,
                    tip: BlockIndex?, best: BlockIndex?, newBest: BlockIndex, i: nat, p: BlockIndex?)
    requires IndexValid(index, blocks) && TreeValid(blocks) && newBest in blocks
    requires Top(newBest, blocks, now, null) && Heavier(newBest, tip)
    requires i < |newBest.ancestry| && FirstBad(rules, newBest, i)
    requires best == tip || (best != null && Heavier(best, tip))
    requires ResolvedBy(rules, blocks, tip, now, p)
    ensures ResolvedBy(rules, blocks, best, now + Toll(rules, newBest.ancestry[i]), null)
  {
    hide TreeValid, IndexValid, Ruling, FirstBad;
    var more := now + Toll(rules, newBest.ancestry[i]);
    if Ruling(rules, newBest.ancestry[i]).Failed? {
      assert more == now;
      assert Stuck(rules, newBest);
    } else {
      FirstBadMeans(rules, newBest, i);
      assert Held(newBest, more);
      if q :| q in blocks && Top(q, blocks, now, p) && Stuck(rules, q) {
        StuckStays(rules, index, blocks, now, newBest, i, p, q);
      } else {
        HeavyAreHeld(blocks, now, more, tip, best, newBest, p);
      }
    }
  }

  lemma FirstBadMeans(rules: Rules, b: BlockIndex, i: nat)
    requires i < |b.ancestry| && FirstBad(rules, b, i)
    ensures !Ruling(rules, b.ancestry[i]).Accepted?
  {
  }

  lemma HeldMore(b: BlockIndex, now: set<BlockIndex>, more: set<BlockIndex>)
    requires now <= more && Held(b, now)
    ensures Held(b, more)
  {
  }

  lemma HeavyAreHeld(blocks: set<BlockIndex>, now: set<BlockIndex>, more: set<BlockIndex>, tip: BlockIndex?,
                     best: BlockIndex?, newBest: BlockIndex, p: BlockIndex?)
    requires newBest in blocks && Heavier(newBest, tip) && !Held(newBest, now) && Held(newBest, more) && now <= more
    requires best == tip || (best != null && Heavier(best, tip))
    requires forall b :: b in blocks && b != p && Heavier(b, tip) ==> Held(b, now)
    ensures forall b :: b in blocks && Heavier(b, best) ==> Held(b, more)
  {
    hide Held;
    forall b | b in blocks && Heavier(b, best)
      ensures Held(b, more)
    {
      if b != newBest {
        HeldMore(b, now, more);
      }
    }
  }

  /** A stuck block is not the one that was refused for good, nor does it stand on what failed then. */
  lemma StuckStays(rules: Rules, index: map<Hash, BlockIndex>, blocks: set<BlockIndex>, now: set<BlockIndex>,
                   newBest: BlockIndex, i: nat, p: BlockIndex?, q: BlockIndex)
    requires IndexValid(index, blocks) && TreeValid(blocks) && newBest in blocks && q in blocks
    requires Top(newBest, blocks, now, null) && Top(q, blocks, now, p) && Stuck(rules, q)
    requires i < |newBest.ancestry| && FirstBad(rules, newBest, i) && Ruling(rules, newBest.ancestry[i]).Invalid?
    ensures Top(q, blocks, now + {newBest.ancestry[i]}, null)
  {
    hide Ruling, Stuck, Held;
    BadIsNotBelow(rules, blocks, newBest, i, q);
    assert newBest.RootedAt(i) && newBest.RootedAt(newBest.height);
    HeldByNew(blocks, now, newBest.ancestry[i], q);
    HeldByNew(blocks, now, newBest.ancestry[i], newBest);
    SamePlace(index, blocks, newBest, q);
    forall c | c in blocks && !Held(c, now + {newBest.ancestry[i]})
      ensures c != p && !Held(c, now)
    {
      HeldByNew(blocks, now, newBest.ancestry[i], c);
    }
  }

  /** Hashes are unique, so the order of setBlockIndexValid is total. */
  lemma SamePlace(index: map<Hash, BlockIndex>, blocks: set<BlockIndex>, a: BlockIndex, b: BlockIndex)
    requires IndexValid(index, blocks) && a in blocks && b in blocks
    ensures !Before(a, b) && !Before(b, a) ==> a == b
  {
  }

  lemma HeldByNew(blocks: set<BlockIndex>, now: set<BlockIndex>, x: BlockIndex, b: BlockIndex)
    requires TreeValid(blocks) && b in blocks
    ensures Held(b, now + {x}) <==> Held(b, now) || OnChain(b, x)
  {
    if i :| 0 <= i < |b.ancestry| && b.ancestry[i] == x {
      assert b.RootedAt(i);
    }
  }

  /** The lowest bad block of one chain that lies on another is the lowest bad block of both. */
  lemma FirstBadShared(rules: Rules, a: BlockIndex, i: nat, b: BlockIndex, j: nat)
    requires a.Rooted() && b.Rooted() && i < |a.ancestry| && j < |b.ancestry| && OnChain(b, a.ancestry[i])
    requires FirstBad(rules, a, i) && FirstBad(rules, b, j)
    ensures a.ancestry[i] == b.ancestry[j]
  {
    hide Ruling;
    assert a.RootedAt(i);
    OnChainRooted(a, a.ancestry[i]);
    OnChainRooted(b, a.ancestry[i]);
    assert forall k :: 0 <= k <= i ==> a.ancestry[k] == a.ancestry[i].ancestry[k] == b.ancestry[k];
  }

  lemma BadIsNotBelow(rules: Rules, blocks: set<BlockIndex>, newBest: BlockIndex, i: nat, q: BlockIndex)
    requires TreeValid(blocks) && newBest in blocks && q in blocks && Stuck(rules, q)
    requires i < |newBest.ancestry| && FirstBad(rules, newBest, i) && Ruling(rules, newBest.ancestry[i]).Invalid?
    ensures !OnChain(q, newBest.ancestry[i])
  {
    hide Ruling, FirstBad;
    var j :| 0 <= j < |q.ancestry| && FirstBad(rules, q, j) && Ruling(rules, q.ancestry[j]).Failed?;
    if OnChain(q, newBest.ancestry[i]) {
      FirstBadShared(rules, newBest, i, q, j);
    }
  }

  class ChainState {
    var index: map<Hash, BlockIndex>
    var candidates: set<BlockIndex>
    var best: BlockIndex?
    const coinsTip: View
    const genesisHash: Hash
    const rules: Rules

    /** The blocks in the index. */
    ghost var blocks: set<BlockIndex>

    ghost predicate Valid()
      reads this, blocks, coinsTip.levels
    {
      && IndexValid(index, blocks)
      && RootsValid(blocks, genesisHash)
      && TreeValid(blocks)
      && (best != null ==> best in blocks)
      && LinksValid(blocks, best)
      && StatusValid(blocks, candidates, best)
      && RecordsValid(blocks, best)
      && JudgmentsValid(rules, blocks, best)
      && coinsTip.Valid() && coinsTip.base != null && Tracks(coinsTip, best)
    }

    /** A node that has seen no block, on an empty database. */
    constructor (genesisHash: Hash, rules: Rules)
      ensures this.genesisHash == genesisHash && this.rules == rules
      ensures Valid() && index == map[] && blocks == {} && candidates == {} && best == null && Resolved(null)
      ensures fresh(coinsTip.levels)
    {
      var db := new View.Database(map[], null);
      var cache := new View.Cache(db);
      hide Ruling, Doomed, LedgerAt, Settled, Held, Stuck, BlockIndex.Rooted, BlockIndex.RootedAt;
      index, candidates, best, coinsTip := map[], {}, null, cache;
      this.genesisHash, this.rules := genesisHash, rules;
      blocks := {};
    }

    /** A failed block stops being a candidate. */
    method Fail(b: BlockIndex)
      requires Valid() && b in blocks && !OnChain(best, b) && Doomed(rules, b)
      modifies b`failed, this`candidates
      ensures Valid() && b.failed && candidates == old(candidates) - {b}
    {
      hide Tracks, RecordsValid, TreeValid, IndexValid, RootsValid, LinksValid, Doomed, Ruling;
      b.failed := true;
      candidates := candidates - {b};
    }

    /** InvalidBlockFound.  Its call back into ConnectBestBlock is never reached: a block that has just been
        refused is not on the active chain. */
    method InvalidBlockFound(b: BlockIndex)
      requires Valid() && b in blocks && !OnChain(best, b) && Ruling(rules, b).Invalid?
      modifies b`failed, this`candidates
      ensures Valid() && b.failed && candidates == old(candidates) - {b}
    {
      RefusedIsDoomed(rules, b);
      hide Tracks, RecordsValid, TreeValid, IndexValid, RootsValid, Ruling, Doomed;
      assert b.pnext == null;
      Fail(b);
    }

    /** The links and the tip follow once a branch has connected. */
    method Adopt(view: View, target: BlockIndex, fork: BlockIndex?, down: seq<BlockIndex>, up: seq<BlockIndex>)
      requires IndexValid(index, blocks) && RootsValid(blocks, genesisHash) && TreeValid(blocks) && target in blocks
      requires LinksValid(blocks, best)
      requires StatusValid(blocks, candidates, target) && RecordsValid(blocks, target)
      requires JudgmentsValid(rules, blocks, target)
      requires view.Valid() && view.base == coinsTip && coinsTip.Valid() && coinsTip.base != null
      requires Tracks(view, target)
      requires Branches(best, target, fork, down, up) && InTree(blocks, fork, down, up)
      modifies this`best, view, coinsTip, coinsTip.base, blocks`pnext
      ensures Valid() && best == target
    {
      hide Tracks, RecordsValid, TreeValid, LinksValid, Branches, StatusValid, IndexValid, RootsValid, JudgmentsValid;
      BaseValid(coinsTip);
      Publish(view, coinsTip, best, target, fork, down, up, blocks);
      best := target;
    }

    /** SetBestChain.  All coin changes happen on a private view; only when the rules accept the whole branch does it
        reach the shared one, and then the links and the tip move along. */
    method SetBestChain(target: BlockIndex)
      returns (r: Verdict, fork: BlockIndex?, down: seq<BlockIndex>, up: seq<BlockIndex>)
      requires Valid() && target in blocks
      modifies this`candidates, this`best, blocks, coinsTip.levels
      ensures Valid() && index == old(index) && blocks == old(blocks)
      ensures Branches(old(best), target, fork, down, up) && InTree(blocks, fork, down, up)
      ensures r.Accepted? <==>
                forall b :: b in blocks && OnChain(target, b) && !OnChain(old(best), b) ==> Ruling(rules, b).Accepted?
      ensures r.Accepted? ==> best == target
      ensures !r.Accepted? ==> best == old(best)
      ensures r.Failed? ==>
                exists b :: b in blocks && FirstRefused(rules, old(best), target, b) && Ruling(rules, b).Failed?
      ensures r.Invalid? ==>
                exists b :: b in blocks && FirstRefused(rules, old(best), target, b) && Ruling(rules, b).Invalid?
                            && b.failed && candidates == old(candidates) - {b}
                            && (forall c :: c in blocks && c != b ==> c.failed == old(c.failed))
      ensures !r.Invalid? ==> candidates == old(candidates) && forall b :: b in blocks ==> b.failed == old(b.failed)
      ensures r.Accepted? ==> Dead() == old(Dead())
      ensures !r.Accepted? ==> exists b :: b in blocks && FirstRefused(rules, old(best), target, b)
                                           && Dead() == old(Dead()) + Toll(rules, b)
    {
      hide Tracks, RecordsValid, TreeValid, LinksValid, Branches, IndexValid, RootsValid, Ruling, Judged;
      hide FirstRefused, Doomed;
      BaseValid(coinsTip);
      var view, bad;
      view, r, bad, fork, down, up := TryMove(coinsTip, best, target, rules, blocks);
      if r.Accepted? {
        forall b | b in blocks && OnChain(target, b)
          ensures Ruling(rules, b).Accepted? && !b.failed
        {
          AcceptedBranch(rules, blocks, best, target, fork, down, up, bad, b);
        }
        Adopt(view, target, fork, down, up);
      } else {
        var b := up[bad];
        BranchAscendsAt(best, target, fork, down, up, bad);
        BadIsFirstRefused(rules, best, target, fork, down, up, r, bad);
        if r.Invalid? {
          InvalidBlockFound(b);
        }
        assert Dead() == old(Dead()) + Toll(rules, b);
      }
    }

    // ---------- ConnectBestBlock ----------

    /** The last element of setBlockIndexValid: most work, ties to the smaller hash. */
    method MaxCandidate() returns (top: BlockIndex)
      requires candidates != {}
      ensures top in candidates
      ensures forall c :: c in candidates ==> !Before(top, c)
      ensures forall c :: c in candidates ==>
                c.chainWork <= top.chainWork && (c.chainWork == top.chainWork ==> top.block.hash <= c.block.hash)
    {
      top :| top in candidates;
      var rest := candidates - {top};
      while rest != {}
        invariant rest <= candidates && top in candidates
        invariant forall c :: c in candidates && c !in rest ==> !Before(top, c)
        decreases rest
      {
        var c :| c in rest;
        if Before(top, c) {
          top := c;
        }
        rest := rest - {c};
      }
    }

    /** Walk back from a candidate until a failed block or the active chain, collecting the blocks with more
        work than the tip. */
    method WalkBack(newBest: BlockIndex) returns (bad: BlockIndex?, attach: seq<BlockIndex>)
      requires Valid() && newBest in blocks
      ensures bad != null ==> OnChain(newBest, bad) && bad.failed
      ensures bad == null ==> forall i :: 0 <= i < |newBest.ancestry| ==> !newBest.ancestry[i].failed
      ensures forall i :: 0 <= i < |attach| ==> OnChain(newBest, attach[i]) && Heavier(attach[i], best)
      ensures bad == null && Heavier(newBest, best) ==> attach != [] && attach[0] == newBest
      ensures bad == null && !Heavier(newBest, best) ==> attach == []
    {
      hide Tracks, RecordsValid, IndexValid, RootsValid, LinksValid, StatusValid, JudgmentsValid;
      bad, attach := null, [];
      var test: BlockIndex := newBest;
      assert newBest.RootedAt(newBest.height);
      hide BlockIndex.Rooted;
      while true
        invariant OnChain(newBest, test)
        invariant forall i :: test.height < i < |newBest.ancestry| ==> !newBest.ancestry[i].failed
        invariant forall i :: 0 <= i < |attach| ==> OnChain(newBest, attach[i]) && Heavier(attach[i], best)
        invariant test == newBest ==> attach == []
        invariant test != newBest && Heavier(newBest, best) ==> attach != [] && attach[0] == newBest
        invariant test != newBest && !Heavier(newBest, best) ==> attach == [] && !Heavier(test, best)
        decreases test.height
      {
        OnChainRooted(newBest, test);
        if test.failed {
          bad := test;
          return;
        }
        if Heavier(test, best) {
          attach := attach + [test];
        }
        if test.pprev == null || test.pnext != null {
          WalkDone(newBest, test);
          return;
        }
        ParentRooted(test);
        test := test.pprev;
      }
    }

    /** At the root or at the active chain there is nothing failed further down. */
    lemma WalkDone(newBest: BlockIndex, test: BlockIndex)
      requires Valid() && newBest in blocks && OnChain(newBest, test)
      requires forall i :: test.height < i < |newBest.ancestry| ==> !newBest.ancestry[i].failed
      requires !test.failed && (test.pprev == null || test.pnext != null)
      ensures forall i :: 0 <= i < |newBest.ancestry| ==> !newBest.ancestry[i].failed
    {
      hide Tracks, RecordsValid, IndexValid, RootsValid, LinksValid, StatusValid, JudgmentsValid;
      OnChainRooted(newBest, test);
      if test.pprev != null {
        BelowNotFailed(test);
        forall i | 0 <= i <= test.height
          ensures !newBest.ancestry[i].failed
        {
          assert test.ancestry[i] == newBest.ancestry[i];
        }
      }
    }

    /** Exactly the blocks between a candidate and a failed ancestor fail too and stop being candidates. */
    method MarkFailed(newBest: BlockIndex, bad: BlockIndex)
      requires Valid() && newBest in candidates && OnChain(newBest, bad) && bad.failed
      modifies this`candidates, blocks`failed
      ensures Valid() && candidates < old(candidates)
      ensures forall b :: b in blocks ==>
                (b.failed <==> old(b.failed) || (OnChain(newBest, b) && b.height > bad.height))
    {
      hide Tracks, RecordsValid, IndexValid, RootsValid, LinksValid, JudgmentsValid, StatusValid, TreeValid, Ruling;
      hide Doomed, BlockIndex.Rooted;
      CandidateInTree(newBest, bad);
      FailedIsDoomed(bad);
      var p: BlockIndex := newBest;
      while p != bad
        invariant Valid() && OnChain(newBest, p) && bad.height <= p.height && bad.failed
        invariant candidates <= old(candidates)
        invariant p != newBest ==> newBest !in candidates
        invariant forall b :: b in blocks ==>
                    (b.failed <==> old(b.failed) || (OnChain(newBest, b) && b.height > p.height))
        decreases p.height
      {
        OnChainRooted(newBest, p);
        AboveFailed(newBest, bad, p);
        DoomedBelow(rules, newBest, bad, p);
        Fail(p);
        p := p.pprev;
      }
    }

    lemma CandidateInTree(c: BlockIndex, b: BlockIndex)
      requires Valid() && c in candidates && OnChain(c, b)
      ensures c in blocks && b in blocks && c.Rooted() && OnChain(c, c) && b.height <= c.height
      ensures !c.failed && |c.ancestry| == c.height + 1
    {
      hide Tracks, RecordsValid, IndexValid, RootsValid, LinksValid, JudgmentsValid;
      assert c.RootedAt(c.height);
    }

    /** The active chain does not pass through anything above a failed block. */
    lemma AboveFailed(newBest: BlockIndex, bad: BlockIndex, p: BlockIndex)
      requires Valid() && newBest in blocks && OnChain(newBest, bad) && bad.failed && OnChain(newBest, p)
      requires bad.height <= p.height
      ensures p in blocks && !OnChain(best, p)
    {
      hide Tracks, RecordsValid, IndexValid, RootsValid, LinksValid, JudgmentsValid;
      if OnChain(best, p) {
        SharedBelow(best, newBest, p, bad);
      }
    }

    lemma FailedIsDoomed(b: BlockIndex)
      requires Valid() && b in blocks && b.failed
      ensures Doomed(rules, b)
    {
    }

    /** Attach blocks one at a time, stopping at the first branch that the rules refuse.  The block they refuse is the
        first on the chain that they do not accept, and no other block fails. */
    method Attach(newBest: BlockIndex, path: seq<BlockIndex>) returns (ok: bool)
      requires Valid() && newBest in blocks
      requires forall i :: 0 <= i < |path| ==> OnChain(newBest, path[i]) && Heavier(path[i], best)
      modifies this`candidates, this`best, blocks, coinsTip.levels
      ensures Valid() && index == old(index) && blocks == old(blocks)
      ensures ok && path != [] ==> best == path[|path| - 1]
      ensures ok && path == [] ==> best == old(best)
      ensures ok ==> candidates == old(candidates) && Dead() == old(Dead())
      ensures candidates <= old(candidates)
      ensures best == old(best) || (best != null && Heavier(best, old(best)) && OnChain(newBest, best))
      ensures !ok ==> exists i :: 0 <= i < |newBest.ancestry| && FirstBad(rules, newBest, i)
                                  && Dead() == old(Dead()) + Toll(rules, newBest.ancestry[i])
    {
      hide Tracks, RecordsValid, IndexValid, RootsValid, LinksValid, StatusValid, JudgmentsValid, Ruling, FirstBad;
      hide Toll;
      hide Branches, InTree;
      ok := true;
      ghost var dead := Dead();
      for i := 0 to |path|
        invariant Valid() && index == old(index) && blocks == old(blocks) && candidates == old(candidates)
        invariant Dead() == dead
        invariant best == if i == 0 then old(best) else path[i - 1]
      {
        OnChainRooted(newBest, path[i]);
        ghost var tip := best;
        var r, _, _, _ := SetBestChain(path[i]);
        if !r.Accepted? {
          ghost var b :| b in blocks && FirstRefused(rules, tip, path[i], b) && Dead() == dead + Toll(rules, b);
          FirstRefusedIsBad(newBest, path[i], b);
          return false;
        }
      }
    }

    /** Below the first refused block of a branch the rules accept everything. */
    lemma FirstRefusedIsBad(newBest: BlockIndex, target: BlockIndex, b: BlockIndex)
      requires Valid() && newBest in blocks && OnChain(newBest, target) && b in blocks
      requires FirstRefused(rules, best, target, b)
      ensures b.height < |newBest.ancestry| && newBest.ancestry[b.height] == b && FirstBad(rules, newBest, b.height)
    {
      hide Tracks, RecordsValid, IndexValid, RootsValid, LinksValid, StatusValid, Ruling;
      OnChainRooted(newBest, target);
      OnChainRooted(target, b);
      assert newBest.ancestry[b.height] == target.ancestry[b.height];
      forall i | 0 <= i < b.height
        ensures Ruling(rules, newBest.ancestry[i]).Accepted?
      {
        assert newBest.RootedAt(i) && newBest.ancestry[i] == target.ancestry[i];
      }
    }

    // ---------- What holds up a chain ----------

    /** The blocks that have failed. */
    ghost function Dead(): set<BlockIndex>
      reads this`blocks, blocks`failed
    {
      set b | b in blocks && b.failed
    }

    /** The rules refuse the block; if for good, it is marked as failed. */
    ghost predicate Refused(b: BlockIndex)
      reads b`failed
    {
      !Ruling(rules, b).Accepted? && (Ruling(rules, b).Invalid? ==> b.failed)
    }

    /** No block that is sound by the rules has more work than the tip. */
    ghost predicate Maximal()
      reads this, blocks
    {
      forall b :: b in blocks && Sound(rules, b) ==> best != null && b.chainWork <= best.chainWork
    }

    /** Every block with more work than the tip, except perhaps p, stands on a failed one; or else, p aside, the first
        of those that do not is stuck behind a block that could not be judged. */
    ghost predicate Resolved(p: BlockIndex?)
      reads this`blocks, this`best, blocks`failed
    {
      ResolvedBy(rules, blocks, best, Dead(), p)
    }

    /** ConnectBestBlock.  Each retry takes a candidate away, so it ends.  When it succeeds, no block that has not
        failed has more work than the tip, and so none that is sound by the rules; when it does not, the first of all
        blocks with no failed ancestor has more work than the old tip and is held up by a block that the rules refuse.
        The tip moves along the chain of that first block only.  If all but the new block p was resolved before the
        call, everything is after it. */
    method ConnectBestBlock(ghost p: BlockIndex?) returns (ok: bool)
      requires Valid()
      modifies this`candidates, this`best, blocks, coinsTip.levels
      ensures Valid() && index == old(index) && blocks == old(blocks)
      ensures candidates <= old(candidates)
      ensures best == old(best) || (best != null && Heavier(best, old(best)))
      ensures best == old(best) || old(best) == null || (best != null && best.chainWork > old(best).chainWork)
      ensures best == old(best)
              || exists top :: top in blocks && Top(top, blocks, old(Dead()), null) && OnChain(top, best)
      ensures ok ==> forall b :: b in blocks && !b.failed ==> best != null && b.chainWork <= best.chainWork
      ensures ok ==> Maximal()
      ensures !ok ==> exists top, b :: top in old(candidates) && top in blocks && Heavier(top, old(best))
                                       && Top(top, blocks, old(Dead()), null)
                                       && b in blocks && OnChain(top, b) && b !in old(Dead()) && Refused(b)
      ensures old(Resolved(p)) ==> Resolved(null)
    {
      hide Tracks, RecordsValid, IndexValid, RootsValid, LinksValid, TreeValid, StatusValid, JudgmentsValid, Ruling;
      hide ResolvedBy, Top, FirstBad, Toll, Marks, Held, Sound, Doomed;
      ghost var dead := Dead();
      MarksSelf(blocks, dead);
      while true
        invariant Valid() && index == old(index) && blocks == old(blocks) && best == old(best)
        invariant candidates <= old(candidates)
        invariant Marks(blocks, dead, Dead())
        decreases candidates
      {
        if candidates == {} {
          NothingHeavier();
          return true;
        }
        BestIsCandidate();
        var newBest := MaxCandidate();
        if newBest == best || (best != null && newBest.chainWork == best.chainWork) {
          NothingHeavier();
          return true;
        }
        var bad, attach := WalkBack(newBest);
        ghost var now := Dead();
        if bad != null {
          CandidateInTree(newBest, bad);
          MarkFailed(newBest, bad);
          MarksMore(blocks, dead, now, Dead(), newBest, bad);
        } else {
          attach := Reversed(attach);
          FirstIsTop(newBest, dead);
          MarksResolved(rules, blocks, best, dead, now, p);
          ok := Attach(newBest, attach);
          if ok {
            NothingHeavier();
          } else {
            ghost var i :| 0 <= i < |newBest.ancestry| && FirstBad(rules, newBest, i)
                           && Dead() == now + Toll(rules, newBest.ancestry[i]);
            RefusalResolves(now, old(best), newBest, i, p);
          }
          return;
        }
      }
    }

    lemma BestIsCandidate()
      requires Valid()
      ensures candidates <= blocks && (best != null ==> best in candidates)
    {
      hide Tracks, RecordsValid, IndexValid, RootsValid, LinksValid, JudgmentsValid;
    }

    lemma NothingHeavier()
      requires Valid() && forall c :: c in candidates ==> best != null && c.chainWork <= best.chainWork
      ensures forall b :: b in blocks && !b.failed ==> best != null && b.chainWork <= best.chainWork
      ensures Maximal() && Resolved(null)
    {
      hide Tracks, RecordsValid, IndexValid, RootsValid, LinksValid, TreeValid, JudgmentsValid, Ruling;
      forall b | b in blocks && Heavier(b, best)
        ensures Held(b, Dead())
      {
        HeldItself(b);
      }
      forall b | b in blocks && Sound(rules, b)
        ensures !b.failed
      {
        if b.failed {
          HeldItself(b);
          HeldIsUnsound(b);
        }
      }
    }

    lemma HeldItself(b: BlockIndex)
      requires Valid() && b in blocks && b.failed
      ensures Held(b, Dead())
    {
      hide Tracks, RecordsValid, IndexValid, RootsValid, LinksValid, StatusValid, JudgmentsValid;
      assert b.RootedAt(b.height);
    }

    /** When everything is resolved, the tip is maximal unless the first block with no failed ancestor is stuck behind
        one that could not be judged. */
    lemma ResolvedIsMaximal()
      requires Valid() && Resolved(null)
      ensures Maximal() || exists q :: q in blocks && Top(q, blocks, Dead(), null) && Stuck(rules, q)
    {
      hide Tracks, RecordsValid, IndexValid, RootsValid, LinksValid, StatusValid, Ruling, Stuck, Top;
      forall b | b in blocks && Held(b, Dead())
        ensures !Sound(rules, b)
      {
        HeldIsUnsound(b);
      }
    }

    /** What stands on a failed block stands on one that the rules refuse for good. */
    lemma HeldIsUnsound(b: BlockIndex)
      requires Valid() && b in blocks && Held(b, Dead())
      ensures !Sound(rules, b)
    {
      hide Tracks, RecordsValid, IndexValid, RootsValid, LinksValid, StatusValid, Ruling;
      var i :| 0 <= i < |b.ancestry| && b.ancestry[i] in Dead();
      assert b.RootedAt(i);
      OnChainRooted(b, b.ancestry[i]);
      var j :| 0 <= j < |b.ancestry[i].ancestry| && Ruling(rules, b.ancestry[i].ancestry[j]).Invalid?;
      assert b.ancestry[i].ancestry[j] == b.ancestry[j];
    }

    /** A largest candidate on whose chain nothing has failed comes first among the blocks with no failed ancestor. */
    lemma FirstIsTop(newBest: BlockIndex, dead: set<BlockIndex>)
      requires Valid() && newBest in candidates && Marks(blocks, dead, Dead())
      requires forall c :: c in candidates ==> !Before(newBest, c)
      requires forall i :: 0 <= i < |newBest.ancestry| ==> !newBest.ancestry[i].failed
      ensures dead <= Dead() && Top(newBest, blocks, dead, null) && Top(newBest, blocks, Dead(), null)
    {
      hide Tracks, RecordsValid, IndexValid, RootsValid, LinksValid, JudgmentsValid;
      MarksHeld(blocks, dead, Dead(), newBest);
      forall c | c in blocks && (!Held(c, dead) || !Held(c, Dead()))
        ensures !Before(newBest, c)
      {
        MarksHeld(blocks, dead, Dead(), c);
        if c.failed {
          HeldItself(c);
        }
      }
    }

    /** The refusal of the first block resolves everything: either nothing has failed and that block is stuck, or it
        now stands on a failed block. */
    lemma RefusalResolves(now: set<BlockIndex>, tip: BlockIndex?, newBest: BlockIndex, i: nat, p: BlockIndex?)
      requires Valid() && newBest in blocks && Top(newBest, blocks, now, null) && Heavier(newBest, tip)
      requires i < |newBest.ancestry| && FirstBad(rules, newBest, i)
      requires Dead() == now + Toll(rules, newBest.ancestry[i])
      requires best == tip || (best != null && Heavier(best, tip))
      ensures newBest.ancestry[i] in blocks && OnChain(newBest, newBest.ancestry[i])
      ensures newBest.ancestry[i] !in now && Refused(newBest.ancestry[i])
      ensures ResolvedBy(rules, blocks, tip, now, p) ==> Resolved(null)
    {
      hide Tracks, RecordsValid, RootsValid, LinksValid, StatusValid, JudgmentsValid, Ruling;
      assert newBest.RootedAt(i);
      if ResolvedBy(rules, blocks, tip, now, p) {
        RefusalStep(rules, index, blocks, now, tip, best, newBest, i, p);
      }
    }

    // ---------- Adding blocks ----------

    /** The new node of AddToBlockIndex: parent, height and chain work are looked up, nothing is validated yet. */
    method NewNode(block: Block) returns (p: BlockIndex)
      requires Valid() && block.hash !in index
      requires block.hash == genesisHash || block.prev in index
      ensures fresh(p) && p.block == block && p.Rooted()
      ensures p.pprev == if block.prev in index then index[block.prev] else null
      ensures p.pprev == null ==> blocks == {} && block.hash == genesisHash
      ensures NodeValid(p)
      ensures p.pnext == null && !p.failed && p.undo.None? && p.moneySupply == 0
    {
      hide Tracks, RecordsValid, LinksValid, StatusValid;
      var pprev: BlockIndex? := null;
      if block.prev in index {
        pprev := index[block.prev];
      }
      if blocks != {} {
        NoRootTwice(block);
      }
      var work := Target.GetBlockWork(block.bits);
      Target.WorkBounds(block.bits);
      p := new BlockIndex(block, pprev, work);
    }

    /** Enter a new node into the index.  It becomes a candidate; nothing else changes. */
    method Register(p: BlockIndex)
      requires Valid() && p !in blocks && p.block.hash !in index && NodeValid(p)
      requires p.Rooted()
      requires if p.pprev == null then blocks == {} && p.block.hash == genesisHash else p.pprev in blocks
      requires p.pnext == null && !p.failed && p.undo.None? && p.moneySupply == 0
      modifies this`index, this`candidates, this`blocks
      ensures Valid()
      ensures index == old(index)[p.block.hash := p] && blocks == old(blocks) + {p}
      ensures candidates == old(candidates) + {p}
    {
      hide Tracks, TreeValid, LinksValid, RecordsValid, StatusValid, IndexValid, RootsValid, JudgmentsValid;
      hide View.Valid, BlockIndex.Rooted;
      InsertKeepsTree(blocks, p);
      InsertKeepsRecords(blocks, candidates, best, p);
      InsertKeepsIndex(index, blocks, genesisHash, p);
      index := index[p.block.hash := p];
      candidates := candidates + {p};
      blocks := blocks + {p};
    }

    /** A second genesis block cannot be added. */
    lemma NoRootTwice(block: Block)
      requires Valid() && block.hash !in index && blocks != {}
      ensures block.hash != genesisHash
    {
      var b :| b in blocks;
      AncestorRooted(b, 0);
      assert b.RootedAt(0);
      assert b.ancestry[0] in blocks;
    }

    /** The part of AcceptBlock and AddToBlockIndex that concerns the tree: a block that is new and has its parent in
        the index always enters it, whatever becomes of it then. */
    method AcceptBlock(block: Block) returns (ok: bool)
      requires Valid()
      modifies this, blocks, coinsTip.levels
      ensures Valid() && old(blocks) <= blocks && fresh(blocks - old(blocks))
      ensures index.Keys == Learn(old(index).Keys, genesisHash, block)
      ensures forall h :: h in old(index) ==> index[h] == old(index)[h]
      ensures block.hash in index && block.hash !in old(index) ==> index[block.hash].block == block
      ensures best == old(best) || (best != null && Heavier(best, old(best)))
      ensures best == old(best) || old(best) == null || (best != null && best.chainWork > old(best).chainWork)
      ensures best == old(best)
              || exists top :: top in blocks && Top(top, blocks, old(Dead()), null) && OnChain(top, best)
      ensures ok ==> block.hash in index && block.hash !in old(index) && Maximal()
      ensures !ok ==> block.hash in old(index) || block.hash !in index
                      || exists top, b :: top in blocks && Heavier(top, old(best))
                                          && Top(top, blocks, old(Dead()), null)
                                          && b in blocks && OnChain(top, b) && b !in old(Dead()) && Refused(b)
      ensures old(Resolved(null)) ==> Resolved(null)
    {
      hide ChainState.Valid, ChainState.Maximal, ChainState.Refused, Learn, ResolvedBy, Top, OnChain;
      var entered := Enter(block);
      if entered {
        ok := ConnectBestBlock(index[block.hash]);
      } else {
        ok := false;
      }
    }

    /** The index and the candidates take a new block in if its parent is known. */
    method Enter(block: Block) returns (entered: bool)
      requires Valid()
      modifies this`index, this`candidates, this`blocks
      ensures Valid() && old(blocks) <= blocks && fresh(blocks - old(blocks)) && Dead() == old(Dead())
      ensures index.Keys == Learn(old(index).Keys, genesisHash, block)
      ensures forall h :: h in old(index) ==> index[h] == old(index)[h]
      ensures entered <==> block.hash in index && block.hash !in old(index)
      ensures entered ==> index[block.hash].block == block
      ensures !entered ==> blocks == old(blocks)
      ensures old(Resolved(null)) ==> Resolved(if entered then index[block.hash] else null)
    {
      hide ChainState.Valid, ResolvedBy;
      if block.hash in index {
        assert index.Keys == Learn(index.Keys, genesisHash, block);
        return false;
      }
      if block.hash != genesisHash && block.prev !in index {
        return false;
      }
      var p := NewNode(block);
      NewIsApart(p);
      EnterKeepsResolved(rules, blocks, best, Dead(), p);
      Register(p);
      assert Dead() == old(Dead());
      entered := true;
    }

    /** A parent that was looked up is in the tree. */
    lemma NewIsApart(p: BlockIndex)
      requires Valid() && p.pprev == if p.block.prev in index then index[p.block.prev] else null
      ensures p.pprev != null ==> p.pprev in blocks
    {
      hide Tracks, RecordsValid, LinksValid, TreeValid, StatusValid, RootsValid, JudgmentsValid;
    }

    /** Any run of block additions keeps all of Valid, enters every block that has its parent in the index when it
        arrives, and never lowers the work of the best chain.  If everything was resolved before, then after it no
        block that is sound by the rules has more work than the tip, or else the first block with no failed ancestor
        is stuck behind one that could not be judged. */
    method AcceptBlocks(incoming: seq<Block>)
      requires Valid()
      modifies this, blocks, coinsTip.levels
      ensures Valid() && old(blocks) <= blocks && fresh(blocks - old(blocks))
      ensures index.Keys == LearnAll(old(index).Keys, genesisHash, incoming)
      ensures forall h :: h in index ==>
                if h in old(index) then index[h] == old(index)[h] else index[h].block in incoming
      ensures best == old(best) || (best != null && Heavier(best, old(best)))
      ensures best == old(best) || old(best) == null || (best != null && best.chainWork > old(best).chainWork)
      ensures old(Resolved(null)) ==> Resolved(null)
      ensures old(Resolved(null)) ==>
                Maximal() || exists q :: q in blocks && Top(q, blocks, Dead(), null) && Stuck(rules, q)
      ensures old(Resolved(null)) && (forall b :: b in blocks ==> !rules.other(b.block).Failed?) ==> Maximal()
    {
      hide ChainState.Valid, ChainState.Refused, ChainState.Maximal, Learn, ResolvedBy, Top, OnChain;
      for i := 0 to |incoming|
        invariant Valid() && old(blocks) <= blocks && fresh(blocks - old(blocks))
        invariant best == old(best) || (best != null && Heavier(best, old(best)))
        invariant index.Keys == LearnAll(old(index).Keys, genesisHash, incoming[..i])
        invariant old(index).Keys <= index.Keys
        invariant forall h :: h in index ==> Known(h, old(index), incoming, index[h])
        invariant old(Resolved(null)) ==> Resolved(null)
      {
        LearnAdds(index.Keys, genesisHash, incoming[i]);
        ghost var earlier := index;
        var ok := AcceptBlock(incoming[i]);
        forall h | h in index
          ensures Known(h, old(index), incoming, index[h])
        {
          assert if h in earlier then Known(h, old(index), incoming, earlier[h]) else h == incoming[i].hash;
        }
        assert incoming[..i + 1][..i] == incoming[..i];
      }
      assert incoming[..|incoming|] == incoming;
      if old(Resolved(null)) {
        ResolvedIsMaximal();
        if forall b :: b in blocks ==> !rules.other(b.block).Failed? {
          JudgedIsMaximal();
        }
      }
    }

    /** When every block can be judged, nothing is stuck. */
    lemma JudgedIsMaximal()
      requires Valid() && Resolved(null) && forall b :: b in blocks ==> !rules.other(b.block).Failed?
      ensures Maximal()
    {
      hide Tracks, RecordsValid, IndexValid, RootsValid, LinksValid, StatusValid, JudgmentsValid, ResolvedBy, Top;
      hide Sound;
      ResolvedIsMaximal();
      forall q | q in blocks
        ensures !Stuck(rules, q)
      {
        hide LedgerAt, BlockChecks, BlockOk;
      }
    }

    /** In every valid state: following pnext from the genesis block visits exactly the ancestors of the tip, the
        ledger is the replay of that path, and the recorded money supply is the sum of all unspent outputs and
        within the sum of the mint values. */
    lemma ValidMeans()
      requires Valid() && best != null
      ensures forall i :: 0 <= i < best.height ==> best.ancestry[i].pnext == best.ancestry[i + 1]
      ensures forall b :: b in blocks && !OnChain(best, b) ==> b.pnext == null
      ensures best.pnext == null
      ensures Live(coinsTip.Flat()) == Live(Replay(best.ancestry))
      ensures best.moneySupply == Total(coinsTip.Flat()) <= MintSum(best.ancestry)
      ensures best.moneySupply <= InverseSquares(best.ancestry) <= 2_775_000_000 * best.height
    {
      hide IndexValid, RootsValid, RecordValid, WellFormed, StatusValid, JudgmentsValid, MintSum, InverseSquares, Total;
      TotalOfLive(coinsTip.Flat());
      TotalOfLive(LedgerAt(best));
      MintSumBound(best.ancestry);
      assert best.RootedAt(best.height);
      assert Settled(best);
      forall i | 0 <= i < best.height
        ensures best.ancestry[i].pnext == best.ancestry[i + 1]
      {
        assert best.RootedAt(i);
      }
    }

    /** A block with a successor is on the active chain, so nothing below it has failed. */
    lemma BelowNotFailed(b: BlockIndex)
      requires Valid() && b in blocks && b.pnext != null
      ensures forall i :: 0 <= i < |b.ancestry| ==> !b.ancestry[i].failed
    {
      hide Tracks, RecordsValid, IndexValid, RootsValid;
      OnChainRooted(best, b);
      forall i | 0 <= i < |b.ancestry|
        ensures !b.ancestry[i].failed
      {
        assert best.RootedAt(i);
        assert b.ancestry[i] == best.ancestry[i];
      }
    }
  }

  /** A block of the index was there before or is one of those that came in. */
  ghost predicate Known(h: Hash, before: map<Hash, BlockIndex>, incoming: seq<Block>, b: BlockIndex) {
    if h in before then b == before[h] else b.block in incoming
  }

  /** The hashes in the index after one more block arrives. */
  function Learn(known: set<Hash>, genesisHash: Hash, block: Block): set<Hash> {
    if block.hash == genesisHash || block.prev in known then known + {block.hash} else known
  }

  lemma LearnAdds(known: set<Hash>, genesisHash: Hash, block: Block)
    ensures known <= Learn(known, genesisHash, block) <= known + {block.hash}
  {
  }

  function LearnAll(known: set<Hash>, genesisHash: Hash, incoming: seq<Block>): set<Hash> {
    if incoming == [] then known
    else Learn(LearnAll(known, genesisHash, incoming[..|incoming| - 1]), genesisHash, incoming[|incoming| - 1])
  }

  /** The order of setBlockIndexValid. */
  predicate Before(a: BlockIndex, b: BlockIndex) {
    a.chainWork < b.chainWork || (a.chainWork == b.chainWork && b.block.hash < a.block.hash)
  }

  predicate Heavier(b: BlockIndex, tip: BlockIndex?) {
    tip == null || b.chainWork > tip.chainWork
  }
}
