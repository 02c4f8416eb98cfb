/** A reorganization as a whole: SetBestChain moves the chain, then the memory pool follows. */
module Node {
  import opened Primitives
  import opened Coins
  import opened Ledger
  import opened BlockTree
  import opened CoinsView
  import opened Validation
  import opened Connect
  import opened Reorg
  import opened Chain
  import opened Mempool
  import opened Outputs

  // ---------- The lists that SetBestChain keeps for the pool ----------

  /** All transactions of some blocks, in order. */
  ghost function Txs(path: seq<BlockIndex>): seq<Tx> {
    if path == [] then [] else Txs(path[..|path| - 1]) + path[|path| - 1].block.txs
  }

  /** What is not a coinbase, in order. */
  ghost function Loose(txs: seq<Tx>): seq<Tx> {
    if txs == [] then []
    else Loose(txs[..|txs| - 1]) + if txs[|txs| - 1].IsCoinBase() then [] else [txs[|txs| - 1]]
  }

  lemma {:induction false} LooseConcat(a: seq<Tx>, b: seq<Tx>)
    ensures Loose(a + b) == Loose(a) + Loose(b)
  {
    if b == [] {
      assert a + b == a;
    } else {
      assert (a + b)[..|a + b| - 1] == a + b[..|b| - 1];
      LooseConcat(a, b[..|b| - 1]);
    }
  }

  lemma {:induction false} TxsConcat(a: seq<BlockIndex>, b: seq<BlockIndex>)
    ensures Txs(a + b) == Txs(a) + Txs(b)
  {
    if b == [] {
      assert a + b == a;
    } else {
      assert (a + b)[..|a + b| - 1] == a + b[..|b| - 1];
      TxsConcat(a, b[..|b| - 1]);
    }
  }

  lemma TxsOne(b: BlockIndex)
    ensures Txs([b]) == b.block.txs
  {
    assert [b][..0] == [] && Txs([b][..0]) == [];
  }

  /** vDelete. */
  method ToDelete(up: seq<BlockIndex>) returns (txs: seq<Tx>)
    ensures txs == Txs(up)
  {
    txs := [];
    for i := 0 to |up|
      invariant txs == Txs(up[..i])
    {
      assert up[..i + 1][..i] == up[..i];
      txs := txs + up[i].block.txs;
    }
    assert up[..|up|] == up;
  }

  /** The transactions of one disconnected block, the last first, go to the front. */
  method Requeue(block: seq<Tx>, queue: seq<Tx>, ghost rest: seq<Tx>) returns (txs: seq<Tx>)
    requires queue == Loose(rest)
    ensures txs == Loose(block + rest)
  {
    hide Loose;
    txs := queue;
    assert block[|block|..] + rest == rest;
    for j := |block| downto 0
      invariant txs == Loose(block[j..] + rest)
    {
      assert block[j..] + rest == [block[j]] + (block[j + 1..] + rest);
      LooseConcat([block[j]], block[j + 1..] + rest);
      LooseOne(block[j]);
      if !block[j].IsCoinBase() {
        txs := [block[j]] + txs;
      }
    }
    assert block[0..] == block;
  }

  /** vResurrect.  Blocks are visited from the tip down, so the list comes out in the order of the chain. */
  method ToResurrect(down: seq<BlockIndex>, ghost path: seq<BlockIndex>) returns (txs: seq<Tx>)
    requires |path| == |down| && forall i :: 0 <= i < |down| ==> down[i] == path[|path| - 1 - i]
    ensures txs == Loose(Txs(path))
  {
    assert path[|path|..] == [] && Txs([]) == [] && Loose([]) == [];
    hide Loose, Txs;
    txs := [];
    for i := 0 to |down|
      invariant txs == Loose(Txs(path[|path| - i..]))
    {
      txs := Requeue(down[i].block.txs, txs, Txs(path[|path| - i..]));
      TxsOne(down[i]);
      TxsConcat([down[i]], path[|path| - i..]);
      assert path[|path| - i - 1..] == [down[i]] + path[|path| - i..];
    }
    assert path[0..] == path;
  }

  lemma LooseOne(tx: Tx)
    ensures Loose([tx]) == if tx.IsCoinBase() then [] else [tx]
  {
    assert [tx][..0] == [] && Loose([tx][..0]) == [];
  }

  // ---------- Members of the lists ----------

  lemma {:induction false} InTxs(path: seq<BlockIndex>, i: nat, j: nat) returns (k: nat)
    requires i < |path| && j < |path[i].block.txs|
    ensures k < |Txs(path)| && Txs(path)[k] == path[i].block.txs[j]
  {
    var init := path[..|path| - 1];
    if i < |init| {
      k := InTxs(init, i, j);
    } else {
      k := |Txs(init)| + j;
    }
  }

  lemma {:induction false} OfTxs(path: seq<BlockIndex>, k: nat) returns (i: nat, j: nat)
    requires k < |Txs(path)|
    ensures i < |path| && j < |path[i].block.txs| && path[i].block.txs[j] == Txs(path)[k]
  {
    var init := path[..|path| - 1];
    if k < |Txs(init)| {
      i, j := OfTxs(init, k);
    } else {
      i, j := |path| - 1, k - |Txs(init)|;
    }
  }

  lemma {:induction false} InLoose(txs: seq<Tx>, i: nat) returns (k: nat)
    requires i < |txs| && !txs[i].IsCoinBase()
    ensures k < |Loose(txs)| && Loose(txs)[k] == txs[i]
  {
    var init := txs[..|txs| - 1];
    if i < |init| {
      k := InLoose(init, i);
    } else {
      k := |Loose(init)|;
    }
  }

  lemma {:induction false} OfLoose(txs: seq<Tx>, k: nat) returns (i: nat)
    requires k < |Loose(txs)|
    ensures i < |txs| && !txs[i].IsCoinBase() && txs[i] == Loose(txs)[k]
  {
    var init := txs[..|txs| - 1];
    if k < |Loose(init)| {
      i := OfLoose(init, k);
    } else {
      i := |txs| - 1;
    }
  }

  // ---------- What a move of the tip means for the pool ----------

  /** The blocks of b's chain above fork. */
  ghost function Branch(b: BlockIndex?, fork: BlockIndex?): seq<BlockIndex>
    requires fork != null ==> OnChain(b, fork)
  {
    if b == null then [] else b.ancestry[HeightOf(fork) + 1..]
  }

  /** The coinbases of some blocks. */
  ghost function CoinBases(path: seq<BlockIndex>): set<Hash> {
    set i, j | 0 <= i < |path| && 0 <= j < |path[i].block.txs| && path[i].block.txs[j].IsCoinBase()
      :: path[i].block.txs[j].txid
  }

  /** Each queued transaction with the outcome of the checks that look at neither ledger nor pool. */
  function Offers(txs: seq<Tx>, other: (nat, Tx) -> bool): (r: seq<(Tx, bool)>)
    ensures |r| == |txs| && forall k :: 0 <= k < |txs| ==> r[k] == (txs[k], other(k, txs[k]))
  {
    seq(|txs|, k requires 0 <= k < |txs| => (txs[k], other(k, txs[k])))
  }

  /** What a block above the fork made is a coinbase's or queued to come back. */
  lemma MadeIsQueued(path: seq<BlockIndex>, i: nat, o: OutPoint, other: (nat, Tx) -> bool)
    requires i < |path| && Makes(path[i].block.txs, o)
    ensures o.hash in CoinBases(path) || o.hash in Ids(Offers(Loose(Txs(path)), other), 0)
  {
    var txs := path[i].block.txs;
    var j :| 0 <= j < |txs| && txs[j].txid == o.hash && o.n < |txs[j].vout|;
    if !txs[j].IsCoinBase() {
      var k := InTxs(path, i, j);
      var n := InLoose(Txs(path), k);
      assert Offers(Loose(Txs(path)), other)[n].0 == txs[j];
    }
  }

  lemma UsedIsInput(path: seq<BlockIndex>, i: nat, o: OutPoint)
    requires i < |path| && Uses(path[i].block.txs, o)
    ensures o in Inputs(Txs(path))
  {
    var txs := path[i].block.txs;
    var j :| 0 <= j < |txs| && Spends(txs[j], o);
    var k := InTxs(path, i, j);
    var n :| 0 <= n < |txs[j].vin| && txs[j].vin[n].prevout == o;
    assert Txs(path)[k].vin[n].prevout == o;
  }

  /** Two chains that fork at the given block. */
  ghost predicate Forks(tip: BlockIndex, target: BlockIndex, fork: BlockIndex) {
    tip.Rooted() && target.Rooted() && OnChain(tip, fork) && OnChain(target, fork)
  }

  lemma SameBelowFork(tip: BlockIndex, target: BlockIndex, fork: BlockIndex)
    requires Forks(tip, target, fork)
    ensures fork.height + 1 <= |tip.ancestry| && fork.height + 1 <= |target.ancestry|
    ensures LedgerBelow(tip, fork.height + 1) == LedgerBelow(target, fork.height + 1)
  {
    OnChainRooted(tip, fork);
    OnChainRooted(target, fork);
  }

  /** An output that the ledger of the tip has is in that of the target, or the new branch spends it, or the old one
      made it. */
  lemma OutputMoves(rules: Rules, tip: BlockIndex, target: BlockIndex, fork: BlockIndex, o: OutPoint,
                    other: (nat, Tx) -> bool)
    requires Forks(tip, target, fork) && Sound(rules, tip) && Sound(rules, target) && Available(LedgerAt(tip), o)
    ensures var down, up := Branch(tip, fork), Branch(target, fork);
            || Available(LedgerAt(target), o)
            || o in Inputs(Txs(up))
            || o.hash in CoinBases(down)
            || o.hash in Ids(Offers(Loose(Txs(down)), other), 0)
  {
    hide Sound, LedgerBelow, LedgerAt, Available, BlockIndex.Rooted, Branch, Inputs, CoinBases, Ids, Offers, Txs, Loose;
    var n := fork.height + 1;
    SameBelowFork(tip, target, fork);
    WholeLedger(tip);
    WholeLedger(target);
    ComesFromChain(rules, tip, n, |tip.ancestry|, o);
    if MadeFrom(tip, n, o) {
      MadeOnBranch(tip, fork, o, other);
    } else if UsedFrom(target, n, o) {
      UsedOnBranch(target, fork, n, o);
    } else {
      StaysOnChain(rules, target, n, |target.ancestry|, o);
    }
  }

  lemma WholeLedger(b: BlockIndex)
    ensures LedgerAt(b) == LedgerBelow(b, |b.ancestry|)
  {
    assert b.ancestry[..|b.ancestry|] == b.ancestry;
  }

  lemma MadeOnBranch(tip: BlockIndex, fork: BlockIndex, o: OutPoint, other: (nat, Tx) -> bool)
    requires OnChain(tip, fork) && MadeFrom(tip, fork.height + 1, o)
    ensures o.hash in CoinBases(Branch(tip, fork)) || o.hash in Ids(Offers(Loose(Txs(Branch(tip, fork))), other), 0)
  {
    var i :| fork.height + 1 <= i < |tip.ancestry| && MadeAt(tip, i, o);
    assert Branch(tip, fork)[i - fork.height - 1] == tip.ancestry[i];
    MadeIsQueued(Branch(tip, fork), i - fork.height - 1, o, other);
  }

  lemma UsedOnBranch(target: BlockIndex, fork: BlockIndex, n: nat, o: OutPoint)
    requires OnChain(target, fork) && n > fork.height && UsedFrom(target, n, o)
    ensures o in Inputs(Txs(Branch(target, fork)))
  {
    var i :| n <= i < |target.ancestry| && UsedAt(target, i, o);
    assert Branch(target, fork)[i - fork.height - 1] == target.ancestry[i];
    UsedIsInput(Branch(target, fork), i - fork.height - 1, o);
  }

  lemma MoveBacks(rules: Rules, pool: Pool, tip: BlockIndex, target: BlockIndex, fork: BlockIndex,
                  other: (nat, Tx) -> bool, lost: set<Hash>)
    requires Forks(tip, target, fork) && Sound(rules, tip) && Sound(rules, target) && Backed(pool, LedgerAt(tip))
    requires forall h, a :: h in pool && a in CoinBases(Branch(tip, fork)) && SpendsFrom(pool[h], a) ==> a in lost
    ensures BackedBut(pool, LedgerAt(target), Inputs(Txs(Branch(target, fork))),
                      lost + Ids(Offers(Loose(Txs(Branch(tip, fork))), other), 0))
  {
    hide Sound, LedgerAt, Available, Branch, Inputs, CoinBases, Ids, Offers, Loose, Txs;
    forall h, i | h in pool && 0 <= i < |pool[h].vin|
      ensures BackedAt(pool, LedgerAt(target), Inputs(Txs(Branch(target, fork))),
                       lost + Ids(Offers(Loose(Txs(Branch(tip, fork))), other), 0), pool[h].vin[i].prevout)
    {
      var o := pool[h].vin[i].prevout;
      assert BackedAt(pool, LedgerAt(tip), {}, {}, o) && SpendsFrom(pool[h], o.hash);
      if Available(LedgerAt(tip), o) {
        OutputMoves(rules, tip, target, fork, o, other);
      }
    }
  }

  /** What the new branch makes is in the new ledger unless the new branch spends it. */
  lemma BranchDeposits(rules: Rules, tip: BlockIndex, target: BlockIndex, fork: BlockIndex, k: nat)
    requires Forks(tip, target, fork) && Sound(rules, target) && k < |Txs(Branch(target, fork))|
    ensures Deposited(LedgerAt(target), Txs(Branch(target, fork))[k], Inputs(Txs(Branch(target, fork))))
  {
    var up := Branch(target, fork);
    var tx := Txs(up)[k];
    var i, j := OfTxs(up, k);
    var height := fork.height + 1 + i;
    assert up[i] == target.ancestry[height];
    forall n: nat | n < |tx.vout|
      ensures Available(LedgerAt(target), OutPoint(tx.txid, n)) || OutPoint(tx.txid, n) in Inputs(Txs(up))
    {
      var o := OutPoint(tx.txid, n);
      assert MadeAt(target, height, o);
      ChainDeposits(rules, target, height, o);
      if UsedFrom(target, height, o) {
        UsedOnBranch(target, fork, height, o);
      }
    }
  }

  // ---------- The whole step ----------

  /** Every transaction of every block is the one that its hash identifies. */
  ghost predicate Genuine(w: World, blocks: set<BlockIndex>) {
    forall b, i :: b in blocks && 0 <= i < |b.block.txs| ==> Identified(w, b.block.txs[i])
  }

  lemma GenuineTxs(w: World, blocks: set<BlockIndex>, path: seq<BlockIndex>)
    requires Genuine(w, blocks) && forall i :: 0 <= i < |path| ==> path[i] in blocks
    ensures forall k :: 0 <= k < |Txs(path)| ==> Identified(w, Txs(path)[k])
    ensures forall k :: 0 <= k < |Loose(Txs(path))| ==> Identified(w, Loose(Txs(path))[k])
  {
    forall k | 0 <= k < |Txs(path)|
      ensures Identified(w, Txs(path)[k])
    {
      var i, j := OfTxs(path, k);
    }
    forall k | 0 <= k < |Loose(Txs(path))|
      ensures Identified(w, Loose(Txs(path))[k])
    {
      var i := OfLoose(Txs(path), k);
    }
  }

  lemma BranchUp(tip: BlockIndex?, target: BlockIndex, fork: BlockIndex?, down: seq<BlockIndex>, up: seq<BlockIndex>)
    requires Branches(tip, target, fork, down, up)
    ensures fork != null ==> tip != null && Forks(tip, target, fork) && IsFork(tip, target, fork)
    ensures fork == null <==> tip == null
    ensures up == Branch(target, fork)
  {
  }

  lemma {:induction false} DownAt(tip: BlockIndex, target: BlockIndex, fork: BlockIndex, down: seq<BlockIndex>,
                                  up: seq<BlockIndex>, i: nat)
    requires Branches(tip, target, fork, down, up) && i <= |down|
    ensures i < |down| ==> OnChain(tip, down[i]) && down[i].height == tip.height - i
    ensures i == |down| ==> fork.height == tip.height - i
  {
    assert tip.RootedAt(tip.height);
    assert i < |down| ==> DescendsAt(down, tip, i);
    if i > 0 {
      DownAt(tip, target, fork, down, up, i - 1);
      OnChainRooted(tip, down[i - 1]);
    }
  }

  lemma BranchDown(tip: BlockIndex?, target: BlockIndex, fork: BlockIndex?, down: seq<BlockIndex>, up: seq<BlockIndex>)
    requires Branches(tip, target, fork, down, up)
    ensures fork != null ==> OnChain(tip, fork)
    ensures var path := Branch(tip, fork);
            |path| == |down| && forall i :: 0 <= i < |down| ==> down[i] == path[|path| - 1 - i]
  {
    if tip != null {
      DownAt(tip, target, fork, down, up, |down|);
      var path := Branch(tip, fork);
      forall i | 0 <= i < |down|
        ensures down[i] == path[|path| - 1 - i]
      {
        DownAt(tip, target, fork, down, up, i);
      }
    }
  }

  lemma BestIsSound(chain: ChainState)
    requires chain.Valid() && chain.best != null
    ensures chain.best.Rooted() && Sound(chain.rules, chain.best)
  {
    hide Tracks, RecordsValid, IndexValid, RootsValid, LinksValid, StatusValid, Ruling;
    forall i | 0 <= i < |chain.best.ancestry|
      ensures Ruling(chain.rules, chain.best.ancestry[i]).Accepted?
    {
      assert chain.best.RootedAt(i);
    }
  }

  lemma LedgerIsGenuine(chain: ChainState, w: World)
    requires chain.Valid() && Genuine(w, chain.blocks)
    ensures LedgerOf(w, chain.coinsTip.Flat())
  {
    var m := chain.coinsTip.Flat();
    forall o: OutPoint | Available(m, o)
      ensures o.n < |w.content(o.hash).vout|
    {
      AvailableByLive(m, LedgerAt(chain.best), o);
      var b := chain.best;
      BestIsSound(chain);
      WholeLedger(b);
      ComesFromChain(chain.rules, b, 0, |b.ancestry|, o);
      var i :| 0 <= i < |b.ancestry| && MadeAt(b, i, o);
    }
  }

  /** The end of SetBestChain: the pool follows the chain. */
  method Follow(chain: ChainState, pool: TxMemPool, ghost tip: BlockIndex?, ghost target: BlockIndex,
                ghost fork: BlockIndex?, down: seq<BlockIndex>, up: seq<BlockIndex>, other: (nat, Tx) -> bool)
    returns (ghost history: seq<Pool>)
    requires chain.Valid() && pool.Valid() && Genuine(pool.w, chain.blocks)
    requires forall k, tx :: other(k, tx) ==> Grounded(pool.w, tx)
    requires Branches(tip, target, fork, down, up) && InTree(chain.blocks, fork, down, up)
    modifies pool, chain.coinsTip.levels
    ensures chain.Valid() && pool.Valid() && chain.coinsTip.Flat() == old(chain.coinsTip.Flat())
    ensures fork != null ==> OnChain(tip, fork)
    ensures IsHistory(chain.coinsTip.Flat(), history, Offers(Loose(Txs(Branch(tip, fork))), other), Txs(up))
    ensures AllOk(pool.w, history, Offers(Loose(Txs(Branch(tip, fork))), other), Txs(up))
    ensures history != [] && history[0] == old(pool.mapTx) && history[|history| - 1] == pool.mapTx
    ensures forall o :: o in Inputs(Txs(up)) ==> Unspent(pool.mapTx, o)
  {
    hide RecordsValid, IndexValid, RootsValid, LinksValid, TreeValid, StatusValid, JudgmentsValid, WellFormed, LedgerAt;
    hide Live, Branches, Genuine, LedgerOf, Grounded, Identified, PoolOk, IndexOk, IsHistory, Loose, Txs, Unspent;
    BranchDown(tip, target, fork, down, up);
    ghost var path := Branch(tip, fork);
    var queue := ToResurrect(down, path);
    var txs := ToDelete(up);
    LedgerIsGenuine(chain, pool.w);
    GenuineTxs(pool.w, chain.blocks, up);
    forall i | 0 <= i < |path|
      ensures path[i] in chain.blocks
    {
      assert path[i] == down[|path| - 1 - i];
    }
    GenuineTxs(pool.w, chain.blocks, path);
    history := pool.Update(chain.coinsTip, Offers(queue, other), txs);
  }

  lemma DepositedByLive(m: Utxo, m': Utxo, tx: Tx, spent: set<OutPoint>)
    requires Live(m) == Live(m') && Deposited(m, tx, spent)
    ensures Deposited(m', tx, spent)
  {
    forall n: nat | n < |tx.vout|
      ensures Available(m', OutPoint(tx.txid, n)) || OutPoint(tx.txid, n) in spent
    {
      AvailableByLive(m, m', OutPoint(tx.txid, n));
    }
  }

  lemma EmptyFollows(w: World, m: Utxo, history: seq<Pool>, txs: seq<Tx>)
    requires IsHistory(m, history, [], txs) && AllOk(w, history, [], txs) && Backed(history[0], map[])
    ensures history[|history| - 1] == map[]
  {
    forall h: Hash
      ensures h !in history[0]
    {
      NothingToSpend(w, history[0], h);
    }
    assert history[0] == map[];
    EmptyStaysEmpty(m, history, txs, |history| - 1);
  }

  /** After the pool has followed, its inputs are in the new ledger or in the pool, except for those from disconnected
      coinbases that are lost. */
  lemma FollowBacks(rules: Rules, w: World, tip: BlockIndex?, target: BlockIndex, fork: BlockIndex?, m: Utxo,
                    other: (nat, Tx) -> bool, history: seq<Pool>, lost: set<Hash>)
    requires target.Rooted() && Sound(rules, target) && (fork == null <==> tip == null)
    requires tip != null ==> Forks(tip, target, fork) && Sound(rules, tip)
    requires var offers, txs := Offers(Loose(Txs(Branch(tip, fork))), other), Txs(Branch(target, fork));
             && IsHistory(m, history, offers, txs) && AllOk(w, history, offers, txs)
             && forall o :: o in Inputs(txs) ==> Unspent(history[|history| - 1], o)
    requires Live(m) == Live(LedgerAt(target)) && Backed(history[0], LedgerAt(tip))
    requires forall h, a :: h in history[0] && a in CoinBases(Branch(tip, fork)) && SpendsFrom(history[0][h], a)
               ==> a in lost
    ensures BackedBut(history[|history| - 1], m, {}, lost)
  {
    var offers, txs := Offers(Loose(Txs(Branch(tip, fork))), other), Txs(Branch(target, fork));
    if tip == null {
      assert Branch(tip, fork) == [] && offers == [] && LedgerAt(tip) == map[];
      hide Branch, Inputs, Offers, Loose, Txs, LedgerAt, Sound;
      EmptyFollows(w, m, history, txs);
    } else {
      hide Sound, LedgerAt, Branch, Inputs, CoinBases, Ids, Offers, Loose, Txs, IsHistory, Backed, BackedBut, Deposited;
      hide Live, AllOk, Unspent, SpendsFrom;
      MoveBacks(rules, history[0], tip, target, fork, other, lost);
      BackedByLive(history[0], LedgerAt(target), m, Inputs(txs), lost + Ids(offers, 0));
      forall k | 0 <= k < |txs|
        ensures Deposited(m, txs[k], Inputs(txs))
      {
        BranchDeposits(rules, tip, target, fork, k);
        DepositedByLive(LedgerAt(target), m, txs[k], Inputs(txs));
      }
      UpdateBacks(w, m, history, offers, txs, lost);
    }
  }

  /** No transaction of the pool spends from a coinbase of the given blocks. */
  ghost predicate NoNewCoins(pool: Pool, path: seq<BlockIndex>) {
    forall h, a :: h in pool && a in CoinBases(path) ==> !SpendsFrom(pool[h], a)
  }

  /** Coinbases that the pool spends from are as old as CheckInputs demands of the next block. */
  ghost predicate Mature(pool: Pool, m: Utxo, height: int) {
    forall h, i :: h in pool && 0 <= i < |pool[h].vin| ==> MatureAt(m, pool[h].vin[i].prevout, height)
  }

  ghost predicate MatureAt(m: Utxo, o: OutPoint, height: int) {
    Available(m, o) && m[o.hash].coinBase ==> height - m[o.hash].height >= COINBASE_MATURITY
  }

  /** What coinbase maturity is for: while the pool spends only mature coinbases, no reorganization of fewer blocks than
      that disconnects one that the pool spends from. */
  lemma MatureIsSafe(chain: ChainState, pool: TxMemPool, fork: BlockIndex)
    requires chain.Valid() && pool.Valid() && Genuine(pool.w, chain.blocks)
    requires chain.best != null && OnChain(chain.best, fork)
    requires Backed(pool.mapTx, chain.coinsTip.Flat())
    requires Mature(pool.mapTx, chain.coinsTip.Flat(), chain.best.height + 1)
    requires chain.best.height - fork.height < COINBASE_MATURITY
    ensures NoNewCoins(pool.mapTx, Branch(chain.best, fork))
  {
    BestIsSound(chain);
    hide RecordsValid, IndexValid, RootsValid, LinksValid, StatusValid, JudgmentsValid, IndexOk, PoolOk, BackedBut;
    hide Mature;
    hide CoinBases, Branch, Live, LedgerAt, WellFormed, Sound, BlockIndex.Rooted;
    forall h, a | h in pool.mapTx && a in CoinBases(Branch(chain.best, fork))
      ensures !SpendsFrom(pool.mapTx[h], a)
    {
      NotFromCoinBase(chain.rules, pool.w, pool.mapTx, chain.best, fork, chain.coinsTip.Flat(), h, a);
    }
  }

  lemma NotFromCoinBase(rules: Rules, w: World, pool: Pool, tip: BlockIndex, fork: BlockIndex, m: Utxo, h: Hash,
                        a: Hash)
    requires tip.Rooted() && Sound(rules, tip) && OnChain(tip, fork) && Live(m) == Live(LedgerAt(tip))
    requires forall i, j :: 0 <= i < |tip.ancestry| && 0 <= j < |tip.ancestry[i].block.txs|
               ==> Identified(w, tip.ancestry[i].block.txs[j])
    requires PoolOk(w, pool) && Backed(pool, m) && Mature(pool, m, tip.height + 1)
    requires tip.height - fork.height < COINBASE_MATURITY && h in pool && a in CoinBases(Branch(tip, fork))
    ensures !SpendsFrom(pool[h], a)
  {
    var path := Branch(tip, fork);
    var k, j :| 0 <= k < |path| && 0 <= j < |path[k].block.txs| && path[k].block.txs[j].IsCoinBase()
                && path[k].block.txs[j].txid == a;
    var n := k + fork.height + 1;
    assert tip.ancestry[n] == path[k];
    WholeLedger(tip);
    EntryOnChain(rules, w, tip, n, |tip.ancestry|, a);
    assert Identified(w, tip.ancestry[n].block.txs[j]);
    assert a !in pool;
    hide Sound, LedgerAt, LedgerBelow, Live;
    if i :| 0 <= i < |pool[h].vin| && pool[h].vin[i].prevout.hash == a {
      var o := pool[h].vin[i].prevout;
      assert BackedAt(pool, m, {}, {}, o) && MatureAt(m, o, tip.height + 1);
      AvailableByLive(m, LedgerAt(tip), o);
      assert false;
    }
  }

  /** The pool is in step with a move of the tip that took its ledger from m0 to m.  No transaction in it spends what a
      newly connected block spends.  If every input was in the old ledger or in the pool, every input is in the new
      ledger or in the pool, except those from the coinbase of a disconnected block; with no such input before the move
      there is none after it. */
  ghost predicate InStep(tip: BlockIndex?, target: BlockIndex, fork: BlockIndex?, m0: Utxo, m: Utxo, before: Pool,
                         after: Pool)
    requires fork != null ==> OnChain(tip, fork)
  {
    && (forall b, o :: b in target.ancestry && !OnChain(tip, b) && Uses(b.block.txs, o) ==> Unspent(after, o))
    && (Backed(before, m0) ==> BackedBut(after, m, {}, CoinBases(Branch(tip, fork))))
    && (Backed(before, m0) && NoNewCoins(before, Branch(tip, fork)) ==> Backed(after, m))
  }

  lemma FollowedInStep(rules: Rules, w: World, tip: BlockIndex?, target: BlockIndex, fork: BlockIndex?,
                       down: seq<BlockIndex>, up: seq<BlockIndex>, m0: Utxo, m: Utxo, other: (nat, Tx) -> bool,
                       history: seq<Pool>)
    requires Branches(tip, target, fork, down, up) && Sound(rules, target) && (tip != null ==> Sound(rules, tip))
    requires (fork != null ==> OnChain(tip, fork)) && history != []
    requires Live(m0) == Live(LedgerAt(tip)) && Live(m) == Live(LedgerAt(target))
    requires IsHistory(m, history, Offers(Loose(Txs(Branch(tip, fork))), other), Txs(up))
    requires AllOk(w, history, Offers(Loose(Txs(Branch(tip, fork))), other), Txs(up))
    requires forall o :: o in Inputs(Txs(up)) ==> Unspent(history[|history| - 1], o)
    ensures InStep(tip, target, fork, m0, m, history[0], history[|history| - 1])
  {
    BranchUp(tip, target, fork, down, up);
    hide Sound, LedgerAt, Live, Offers, Loose, Txs, IsHistory, AllOk, Inputs, BackedBut, CoinBases, Unspent, Branch;
    forall b, o | b in target.ancestry && !OnChain(tip, b) && Uses(b.block.txs, o)
      ensures Unspent(history[|history| - 1], o)
    {
      var k :| 0 <= k < |target.ancestry| && target.ancestry[k] == b;
      assert target.RootedAt(k);
      BranchCovers(tip, target, fork, down, up, b);
      var i :| 0 <= i < |up| && up[i] == b;
      UsedIsInput(up, i, o);
    }
    hide Branches;
    if Backed(history[0], m0) {
      BackedByLive(history[0], m0, LedgerAt(tip), {}, {});
      FollowBacks(rules, w, tip, target, fork, m, other, history, CoinBases(Branch(tip, fork)));
      if NoNewCoins(history[0], Branch(tip, fork)) {
        FollowBacks(rules, w, tip, target, fork, m, other, history, {});
      }
    }
  }

  /** SetBestChain with its end.  If the chain does not move, neither does the pool.  If it moves, the pool goes through
      exactly the steps for the two branches, each in the order of the chain, and ends in step with it.  Coinbases of
      disconnected blocks neither come back nor are looked for. */
  method Reorganize(chain: ChainState, pool: TxMemPool, target: BlockIndex, other: (nat, Tx) -> bool)
    returns (r: Verdict, ghost fork: BlockIndex?, ghost history: seq<Pool>)
    requires chain.Valid() && pool.Valid() && target in chain.blocks && Genuine(pool.w, chain.blocks)
    requires forall k, tx :: other(k, tx) ==> Grounded(pool.w, tx)
    modifies chain`candidates, chain`best, chain.blocks, chain.coinsTip.levels, pool
    ensures chain.Valid() && pool.Valid() && chain.blocks == old(chain.blocks)
    ensures r.Accepted? <==> forall b :: b in chain.blocks && OnChain(target, b) && !OnChain(old(chain.best), b)
                                         ==> Ruling(chain.rules, b).Accepted?
    ensures r.Accepted? ==> chain.best == target
    ensures !r.Accepted? ==> chain.best == old(chain.best) && pool.mapTx == old(pool.mapTx)
    ensures fork == null <==> old(chain.best) == null
    ensures fork != null ==> IsFork(old(chain.best), target, fork)
    ensures r.Accepted? ==>
              && IsHistory(chain.coinsTip.Flat(), history, Offers(Loose(Txs(Branch(old(chain.best), fork))), other),
                           Txs(Branch(target, fork)))
              && history[0] == old(pool.mapTx) && history[|history| - 1] == pool.mapTx
    ensures r.Accepted? ==> InStep(old(chain.best), target, fork, old(chain.coinsTip.Flat()), chain.coinsTip.Flat(),
                                   old(pool.mapTx), pool.mapTx)
  {
    hide RecordsValid, IndexValid, RootsValid, LinksValid, TreeValid, StatusValid, JudgmentsValid, WellFormed, LedgerAt;
    hide Live, Branches, InTree, Genuine, Grounded, PoolOk, IndexOk, IsHistory, AllOk, Loose, Txs, Unspent, Sound;
    hide Ruling;
    hide Offers, Branch, CoinBases, BackedBut, Inputs, Uses, FirstRefused, Toll, InStep, IsFork, Forks;
    ghost var tip, before, m := chain.best, pool.mapTx, chain.coinsTip.Flat();
    if tip != null {
      BestIsSound(chain);
    }
    var down, up;
    r, fork, down, up := chain.SetBestChain(target);
    BranchUp(tip, target, fork, down, up);
    history := [before];
    if r.Accepted? {
      BestIsSound(chain);
      history := Follow(chain, pool, tip, target, fork, down, up, other);
      FollowedInStep(chain.rules, pool.w, tip, target, fork, down, up, m, chain.coinsTip.Flat(), other, history);
    }
  }
}
