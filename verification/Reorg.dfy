/** Moving a view one block up or down the tree.  The ledger always is what replaying the path
    from the genesis block gives, whatever was connected and disconnected on the way. */
module Reorg {
  import opened Arithmetic
  import opened Ledger
  import opened Supply
  import opened BlockTree
  import opened CoinsView
  import opened Validation
  import opened Connect
  import Target

  ghost function Replay(path: seq<BlockIndex>): Utxo {
    if path == [] then map[] else Extended(Replay(path[..|path| - 1]), path[|path| - 1])
  }

  /** The ledger that belongs to a block, as a function of its ancestry alone. */
  ghost function LedgerAt(b: BlockIndex?): Utxo {
    if b == null then map[] else Replay(b.ancestry)
  }

  /** Sum of the mint values of a path, the genesis block excepted. */
  ghost function MintSum(path: seq<BlockIndex>): nat {
    if |path| <= 1 then 0 else MintSum(path[..|path| - 1]) + Subsidy(path[|path| - 1].block.bits)
  }

  /** 999 coins over the square of the target, in whole units; nothing below length 6. */
  function InverseSquare(bits: Target.Bits): nat {
    if bits < 0x600_0000 then 0 else 99_900_000_000 * 0x1_0000_0000_0000 / (bits * bits)
  }

  /** The same summed over a path, the genesis block excepted. */
  ghost function InverseSquares(path: seq<BlockIndex>): nat {
    if |path| <= 1 then 0 else InverseSquares(path[..|path| - 1]) + InverseSquare(path[|path| - 1].block.bits)
  }

  lemma SubsidyBelowSquare(bits: Target.Bits)
    ensures Subsidy(bits) <= InverseSquare(bits) <= 2_775_000_000
  {
    SubsidyMeans(bits);
    hide Subsidy;
    if bits >= 0x600_0000 {
      var limit, square := 99_900_000_000 * 0x1_0000_0000_0000, bits * bits;
      assert Subsidy(bits) * bits * bits == Subsidy(bits) * square;
      MulLe(0x600_0000, bits, bits);
      MulLe(0x600_0000, bits, 0x600_0000);
      DivBounds(limit, square, Subsidy(bits));
      DivAntitone(limit, 0x600_0000 * 0x600_0000, square);
    }
  }

  /** All that a path may mint is at most the sum of the inverse squares of its targets, and so at most 27.75 coins for
      each block. */
  lemma {:induction false} MintSumBound(path: seq<BlockIndex>)
    ensures MintSum(path) <= InverseSquares(path) <= if path == [] then 0 else 2_775_000_000 * (|path| - 1)
  {
    if |path| > 1 {
      MintSumBound(path[..|path| - 1]);
      SubsidyBelowSquare(path[|path| - 1].block.bits);
    }
  }

  lemma LedgerStep(b: BlockIndex)
    requires b.Rooted()
    ensures LedgerAt(b) == Extended(LedgerAt(b.pprev), b)
    ensures b.pprev != null ==> MintSum(b.ancestry) == MintSum(b.pprev.ancestry) + Subsidy(b.block.bits)
  {
    assert b.RootedAt(b.height);
    if b.pprev != null {
      ParentRooted(b);
      assert b.ancestry[..|b.ancestry| - 1] == b.pprev.ancestry;
    } else {
      assert b.height == 0 && b.ancestry == [b];
      assert Replay(b.ancestry[..0]) == map[];
    }
  }

  /** The view is at block b and holds its ledger. */
  ghost predicate Tracks(view: View, b: BlockIndex?)
    requires view.Valid()
    reads view.levels
  {
    view.tip == view.Best() == b && WellFormed(view.Flat()) && Live(view.Flat()) == Live(LedgerAt(b))
  }

  /** Recorded undo data is the one for the block's own place in the tree; the genesis block has none and adds no
      money. */
  ghost predicate RecordValid(b: BlockIndex)
    reads b`undo, b`moneySupply
  {
    && (b.pprev == null ==> b.undo.None? && b.moneySupply == 0)
    && (b.undo.Some? && b.pprev != null ==>
          && WellFormed(LedgerAt(b.pprev))
          && Connects(LedgerAt(b.pprev), b.block.txs, b.height)
          && b.undo.value == BlockUndo(LedgerAt(b.pprev), b.block.txs, b.height))
  }

  /** The recorded money supply is the sum of all unspent outputs, and at most what the path may mint. */
  ghost predicate SupplyValid(b: BlockIndex)
    reads b`moneySupply
  {
    b.moneySupply == Total(LedgerAt(b)) && b.moneySupply <= MintSum(b.ancestry)
  }

  /** Disconnecting the block a view is at never fails. */
  method DisconnectTip(view: View, b: BlockIndex) returns (ok: bool)
    requires view.Valid() && view.base != null && Tracks(view, b)
    requires b.Rooted() && b.undo.Some? && RecordValid(b)
    modifies view.levels
    ensures ok && Tracks(view, b.pprev) && view.BaseKept()
  {
    var m := LedgerAt(b.pprev);
    LedgerStep(b);
    ParentRooted(b);
    DisconnectInvertsConnect(m, b.block.txs, b.height, view.Flat());
    var clean;
    ok, clean := DisconnectBlock(view, b, false);
    WellFormedByLive(m, view.Flat());
  }

  /** What ConnectBlock does to the invariants, on values. */
  lemma ConnectedTracks(m: Utxo, b: BlockIndex, verify: Verifier)
    requires b.Rooted() && b.pprev != null && WellFormed(m) && Live(m) == Live(LedgerAt(b.pprev))
    requires BlockOk(m, b.block, b.height, verify) && Connects(m, b.block.txs, b.height)
    ensures WellFormed(Extended(m, b)) && Live(Extended(m, b)) == Live(LedgerAt(b))
    ensures WellFormed(LedgerAt(b.pprev)) && Connects(LedgerAt(b.pprev), b.block.txs, b.height)
    ensures BlockUndo(m, b.block.txs, b.height) == BlockUndo(LedgerAt(b.pprev), b.block.txs, b.height)
    ensures Total(LedgerAt(b)) == Total(LedgerAt(b.pprev)) + BlockValueOut(b.block.txs)
                                  - BlockValueIn(m, b.block.txs, b.height)
    ensures Total(LedgerAt(b)) <= Total(LedgerAt(b.pprev)) + Subsidy(b.block.bits)
  {
    var l := LedgerAt(b.pprev);
    var txs := b.block.txs;
    LedgerStep(b);
    ParentRooted(b);
    WellFormedByLive(m, l);
    ConnectsByLive(m, l, txs, b.height);
    ApplyTxsByLive(m, l, txs, b.height);
    ApplyTxsKeeps(m, txs, b.height);
    ConnectRaisesTotal(m, txs, b.height);
    SupplyBoundedByMint(m, b.block, b.height, verify);
    TotalOfLive(m);
    TotalOfLive(l);
    TotalOfLive(ApplyTxs(m, txs, b.height));
    TotalOfLive(LedgerAt(b));
  }

  /** What the rules say about a block in its place in the tree: on top of the ledger of its own parent. */
  ghost function Ruling(rules: Rules, b: BlockIndex): Verdict {
    VerdictOn(rules, LedgerAt(b.pprev), b)
  }

  /** Connecting a block to a view that is at its parent. */
  method ConnectTip(view: View, b: BlockIndex, rules: Rules) returns (r: Verdict)
    requires view.Valid() && view.base != null && Tracks(view, b.pprev)
    requires b.Rooted() && RecordValid(b)
    requires b.pprev != null ==> SupplyValid(b.pprev)
    modifies view.levels, b`moneySupply, b`undo
    ensures view.BaseKept() && RecordValid(b)
    ensures r == Ruling(rules, b)
    ensures r.Accepted? ==> Tracks(view, b) && SupplyValid(b) && (b.undo.Some? <==> b.pprev != null)
    ensures !r.Accepted? ==> b.undo == old(b.undo)
  {
    ghost var m := view.Flat();
    LedgerStep(b);
    VerdictByLive(rules, m, LedgerAt(b.pprev), b);
    r := ConnectBlock(view, b, rules);
    if r.Accepted? && b.pprev != null {
      ConnectedTracks(m, b, rules.verify);
      ParentRooted(b);
    }
  }
}
