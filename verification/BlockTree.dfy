/** Blocks and the nodes of the block tree (CBlockIndex). */
module BlockTree {
  import opened Primitives
  import opened Coins
  import Target

  datatype Block = Block(hash: Hash, prev: Hash, bits: Target.Bits, txs: seq<Tx>)

  /** A node of the block tree.  pprev, height and chain work are set when the node is added and stay;
      pnext follows the active chain; the rest is what validation records about the block. */
  class BlockIndex {
    const block: Block
    const pprev: BlockIndex?
    const height: nat
    const chainWork: nat
    var pnext: BlockIndex?
    var failed: bool
    var moneySupply: int
    var undo: Option<seq<seq<TxInUndo>>>

    /** The path from the genesis block to this one. */
    ghost const ancestry: seq<BlockIndex>

    constructor (block: Block, pprev: BlockIndex?, work: nat)
      requires pprev != null ==> pprev.Rooted()
      requires work > 0
      ensures this.block == block && this.pprev == pprev
      ensures pnext == null && !failed && undo == None && moneySupply == 0
      ensures chainWork == (if pprev == null then 0 else pprev.chainWork) + work
      ensures ancestry == (if pprev == null then [] else pprev.ancestry) + [this]
      ensures Rooted()
    {
      this.block := block;
      this.pprev := pprev;
      height := if pprev == null then 0 else pprev.height + 1;
      chainWork := (if pprev == null then 0 else pprev.chainWork) + work;
      pnext, failed, moneySupply, undo := null, false, 0, None;
      ancestry := (if pprev == null then [] else pprev.ancestry) + [this];
      new;
      forall i | 0 <= i <= height
        ensures RootedAt(i)
      {
        if pprev != null && i < height {
          assert pprev.RootedAt(i);
          assert ancestry[..i + 1] == pprev.ancestry[..i + 1];
        }
      }
    }

    /** Following pprev leads back to a block of height 0, heights drop by one and chain work drops at every step. */
    ghost predicate Rooted() {
      && |ancestry| == height + 1
      && ancestry[height] == this
      && forall i :: 0 <= i <= height ==> RootedAt(i)
    }

    ghost predicate RootedAt(i: nat)
      requires |ancestry| == height + 1 && i <= height
    {
      && ancestry[i].height == i
      && ancestry[i].ancestry == ancestry[..i + 1]
      && ancestry[i].pprev == (if i == 0 then null else ancestry[i - 1])
      && (i > 0 ==> ancestry[i - 1].chainWork < ancestry[i].chainWork)
    }
  }

  lemma AncestorRooted(b: BlockIndex, i: nat)
    requires b.Rooted() && i <= b.height
    ensures b.ancestry[i].Rooted()
  {
    var a := b.ancestry[i];
    assert b.RootedAt(i);
    forall j | 0 <= j <= i
      ensures a.RootedAt(j)
    {
      assert b.RootedAt(j);
    }
  }

  lemma ParentRooted(b: BlockIndex)
    requires b.Rooted() && b.pprev != null
    ensures b.pprev.Rooted() && b.pprev.height == b.height - 1
    ensures b.ancestry == b.pprev.ancestry + [b] && b.pprev.chainWork < b.chainWork
  {
    assert b.RootedAt(b.height);
    assert b.RootedAt(b.height - 1);
    AncestorRooted(b, b.height - 1);
  }
}
