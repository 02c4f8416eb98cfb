/** Whole runs of a node that starts empty: where the tip ends, and what can keep it from the heaviest sound chain. */
module Runs {
  import opened Primitives
  import opened Coins
  import opened Ledger
  import opened Supply
  import opened BlockTree
  import opened Validation
  import opened Connect
  import opened Reorg
  import opened CoinsView
  import opened Chain
  import opened Mempool
  import opened Outputs
  import opened Node
  import Target

  /** Any sequence of incoming blocks, in any order and however many of them are bad.  Unless the first block with no
      failed ancestor is stuck behind one that could not be judged, no sound block has more work than the tip. */
  method FromEmpty(genesisHash: Hash, rules: Rules, incoming: seq<Block>) returns (c: ChainState)
    ensures fresh(c) && c.Valid() && c.genesisHash == genesisHash && c.rules == rules
    ensures c.index.Keys == LearnAll({}, genesisHash, incoming)
    ensures forall h :: h in c.index ==> c.index[h].block in incoming
    ensures c.Maximal() || exists q :: q in c.blocks && Top(q, c.blocks, c.Dead(), null) && Stuck(rules, q)
    ensures (forall i :: 0 <= i < |incoming| ==> !rules.other(incoming[i]).Failed?) ==> c.Maximal()
  {
    hide ChainState.Maximal, Top, Stuck, LearnAll;
    c := new ChainState(genesisHash, rules);
    assert c.index.Keys == {};
    c.AcceptBlocks(incoming);
    forall b | b in c.blocks
      ensures b.block in incoming
    {
      InIndex(c, b);
    }
  }

  lemma InIndex(c: ChainState, b: BlockIndex)
    requires c.Valid() && b in c.blocks
    ensures b.block.hash in c.index && c.index[b.block.hash] == b
  {
  }

  // ---------- A run that gets stuck ----------

  function CoinBase(txid: Hash): Tx {
    Tx(txid, 1, [TxIn(OutPoint(0, NULL_INDEX), [0, 0])], [TxOut(CENT, [])], 100)
  }

  const GENESIS := Block(1, 0, 6 * Target.TWO24, [CoinBase(11)])

  /** More work than LIGHT, and the node fails to judge it. */
  const HEAVY := Block(2, 1, 7 * Target.TWO24, [CoinBase(12)])

  const LIGHT := Block(3, 1, 6 * Target.TWO24, [CoinBase(13)])

  const RULES: Rules := Rules((out, tx, i) => true, (block: Block) => if block.hash == 2 then Failed else Accepted)

  lemma CoinBaseChecks(txid: Hash)
    ensures BlockChecks([CoinBase(txid)])
  {
    var tx := CoinBase(txid);
    assert tx.vout[..0] == [] && tx.vin[0].prevout.IsNull();
    assert tx.IsCoinBase() && TxChecks(tx);
  }

  lemma MintsEnough(block: Block)
    requires Target.Length(block.bits) in [6, 7] && block.bits <= 7 * Target.TWO24
    ensures Subsidy(block.bits) >= CENT
  {
    Target.MintIsInverseSquare(block.bits);
  }

  lemma ChildIsOk(block: Block, txid: Hash, verify: Verifier)
    requires block.txs == [CoinBase(txid)] && Subsidy(block.bits) >= CENT
    ensures BlockOk(map[], block, 1, verify)
  {
    CoinBaseChecks(txid);
    var txs := block.txs;
    assert txs[..0] == [];
    assert SpendsOkUpTo(map[], txs, 1, verify, 0);
    SpendsFindInputs(map[], txs, 1, verify);
    assert Fees(map[], txs, 1) == 0;
    assert ValueOut(txs[0].vout) == CENT;
  }

  /** How the three blocks sit in the tree: both others on the genesis block. */
  ghost predicate Placed(b: BlockIndex) {
    && b.Rooted()
    && (b.block == GENESIS ==> b.pprev == null)
    && (b.block == HEAVY || b.block == LIGHT ==> b.pprev != null && b.pprev.block == GENESIS && b.pprev.pprev == null)
  }

  lemma Rulings(b: BlockIndex)
    requires Placed(b)
    ensures b.block == GENESIS ==> Ruling(RULES, b).Accepted?
    ensures b.block == HEAVY ==> Ruling(RULES, b).Failed?
    ensures b.block == LIGHT ==> Ruling(RULES, b).Accepted?
  {
    hide BlockChecks, BlockOk;
    CoinBaseChecks(11);
    CoinBaseChecks(12);
    CoinBaseChecks(13);
    if b.block == LIGHT {
      ParentRooted(b);
      LedgerStep(b.pprev);
      assert b.pprev.RootedAt(b.pprev.height);
      assert LedgerAt(b.pprev) == map[] && b.height == 1;
      MintsEnough(LIGHT);
      ChildIsOk(LIGHT, 13, RULES.verify);
    }
  }

  ghost predicate Fed(c: ChainState)
    reads c`index
  {
    && c.genesisHash == 1 && c.index.Keys <= {1, 2, 3}
    && forall h :: h in c.index ==> c.index[h].block == (if h == 1 then GENESIS else if h == 2 then HEAVY else LIGHT)
  }

  lemma FedIsPlaced(c: ChainState, b: BlockIndex)
    requires c.Valid() && Fed(c) && b in c.blocks
    ensures Placed(b) && b.block in [GENESIS, HEAVY, LIGHT]
    ensures b.pprev != null ==> b.pprev in c.blocks
    ensures b.chainWork == (if b.pprev == null then 0 else b.pprev.chainWork) + Target.Work(b.block.bits)
  {
    hide Tracks, RecordsValid, LinksValid, StatusValid, JudgmentsValid;
    ParentIsPlaced(c, b);
    if b.pprev != null {
      ParentIsPlaced(c, b.pprev);
    }
  }

  lemma ParentIsPlaced(c: ChainState, b: BlockIndex)
    requires c.Valid() && Fed(c) && b in c.blocks
    ensures b.Rooted() && b.block in [GENESIS, HEAVY, LIGHT]
    ensures b.pprev == null <==> b.block == GENESIS
    ensures b.pprev != null ==> b.pprev in c.blocks && b.pprev.block == GENESIS
  {
    hide Tracks, RecordsValid, LinksValid, StatusValid, JudgmentsValid;
    assert b.RootedAt(b.height);
    if b.pprev != null {
      ParentRooted(b);
      assert b.ancestry[b.height - 1] == b.pprev;
    }
  }

  /** None of the three blocks is refused for good, so nothing fails. */
  lemma NothingDies(c: ChainState)
    requires c.Valid() && Fed(c) && c.rules == RULES
    ensures c.Dead() == {}
  {
    hide Tracks, RecordsValid, IndexValid, RootsValid, LinksValid, StatusValid, Ruling;
    forall b | b in c.blocks
      ensures !b.failed
    {
      forall i | 0 <= i < |b.ancestry|
        ensures !Ruling(RULES, b.ancestry[i]).Invalid?
      {
        FedIsPlaced(c, b.ancestry[i]);
        Rulings(b.ancestry[i]);
      }
    }
  }

  /** Only the genesis block and LIGHT can be the tip, and both are sound. */
  lemma TipIsSound(c: ChainState, b: BlockIndex)
    requires c.Valid() && Fed(c) && c.rules == RULES && b in c.blocks
    ensures b.block != HEAVY ==> Sound(RULES, b)
    ensures b.block == HEAVY ==> c.best != b
  {
    hide Tracks, RecordsValid, IndexValid, RootsValid, LinksValid, StatusValid, Ruling;
    FedIsPlaced(c, b);
    Rulings(b);
    assert b.RootedAt(b.height);
    if b.pprev != null {
      ParentRooted(b);
      FedIsPlaced(c, b.pprev);
      Rulings(b.pprev);
      assert b.pprev.RootedAt(b.pprev.height);
    }
  }

  lemma Works(c: ChainState, b: BlockIndex)
    requires c.Valid() && Fed(c) && b in c.blocks
    ensures b.block == GENESIS ==> b.chainWork == Target.Work(GENESIS.bits)
    ensures b.block == LIGHT ==> b.chainWork == 2 * Target.Work(GENESIS.bits)
    ensures b.block == HEAVY ==> b.chainWork > 2 * Target.Work(GENESIS.bits)
    ensures Target.Work(GENESIS.bits) > 0
  {
    FedIsPlaced(c, b);
    if b.pprev != null {
      FedIsPlaced(c, b.pprev);
    }
    Target.WorkBounds(GENESIS.bits);
    Target.WorkBounds(HEAVY.bits);
  }

  lemma TopIsHeavy(c: ChainState, top: BlockIndex)
    requires c.Valid() && Fed(c) && 2 in c.index && top in c.blocks && Top(top, c.blocks, {}, null)
    ensures top.block == HEAVY
  {
    hide Tracks, RecordsValid, RootsValid, LinksValid, TreeValid, StatusValid, JudgmentsValid;
    assert c.index[2] in c.blocks && !Held(c.index[2], {});
    Works(c, c.index[2]);
    FedIsPlaced(c, top);
    Works(c, top);
  }

  lemma OneAboveGenesis(c: ChainState, b: BlockIndex)
    requires c.Valid() && Fed(c) && b in c.blocks && b.block != GENESIS
    ensures b.Rooted() && b.height == 1
  {
    hide ChainState.Valid;
    FedIsPlaced(c, b);
    ParentRooted(b);
    FedIsPlaced(c, b.pprev);
    assert b.pprev.RootedAt(b.pprev.height);
  }

  /** While HEAVY waits, the tip does not leave the chain of HEAVY. */
  lemma HeavyComesFirst(c: ChainState, top: BlockIndex)
    requires c.Valid() && Fed(c) && {2, 3} <= c.index.Keys && c.best != null
    requires top in c.blocks && Top(top, c.blocks, {}, null) && OnChain(top, c.best)
    ensures c.best != c.index[3]
  {
    hide Tracks, RecordsValid, RootsValid, LinksValid, TreeValid, StatusValid, JudgmentsValid, Top, BlockIndex.RootedAt;
    TopIsHeavy(c, top);
    OneAboveGenesis(c, top);
    OneAboveGenesis(c, c.index[3]);
  }

  lemma GenesisIsTip(c: ChainState)
    requires c.Valid() && Fed(c) && c.rules == RULES && c.index.Keys == {1} && c.Resolved(null)
    ensures c.best == c.index[1]
  {
    hide Tracks, RecordsValid, RootsValid, LinksValid, TreeValid, StatusValid, JudgmentsValid, ResolvedBy, Sound;
    TipIsSound(c, c.index[1]);
    c.JudgedIsMaximal();
  }

  lemma GenesisStaysTip(c: ChainState)
    requires c.Valid() && Fed(c) && c.rules == RULES && 1 in c.index && c.best != null
    requires 3 in c.index ==> c.best != c.index[3]
    ensures c.best == c.index[1]
  {
    hide Tracks, RecordsValid, RootsValid, LinksValid, TreeValid, StatusValid, JudgmentsValid;
    TipIsSound(c, c.best);
  }

  lemma LightIsPassedOver(c: ChainState)
    requires c.Valid() && Fed(c) && c.rules == RULES && {1, 3} <= c.index.Keys && c.best == c.index[1]
    ensures Sound(RULES, c.index[3]) && !c.Maximal()
  {
    hide Tracks, RecordsValid, RootsValid, LinksValid, TreeValid, StatusValid, JudgmentsValid, Sound;
    TipIsSound(c, c.index[3]);
    Works(c, c.index[1]);
    Works(c, c.index[3]);
  }

  /** The genesis block, HEAVY, then LIGHT: HEAVY is tried first every time and never marked, so LIGHT never becomes the
      tip although it is sound and has more work. */
  method StuckRun() returns (c: ChainState)
    ensures fresh(c) && c.Valid() && c.rules == RULES && c.index.Keys == {1, 2, 3}
    ensures c.best == c.index[1] && Sound(RULES, c.index[3]) && !c.Maximal()
  {
    hide ChainState.Valid, ChainState.Maximal, ChainState.Resolved, Top, Sound, OnChain;
    c := new ChainState(1, RULES);
    var ok := c.AcceptBlock(GENESIS);
    assert c.index.Keys == {1};
    GenesisIsTip(c);
    ok := c.AcceptBlock(HEAVY);
    assert c.index.Keys == {1, 2};
    GenesisStaysTip(c);
    NothingDies(c);
    ok := c.AcceptBlock(LIGHT);
    assert c.index.Keys == {1, 2, 3};
    assert c.best != c.index[3] by {
      if top :| top in c.blocks && Top(top, c.blocks, {}, null) && OnChain(top, c.best) {
        HeavyComesFirst(c, top);
      }
    }
    GenesisStaysTip(c);
    LightIsPassedOver(c);
  }

  // ---------- A reorganization that strands a transaction ----------

  /** The same three blocks under rules that accept all of them. */
  const LENIENT: Rules := Rules((out, tx, i) => true, (block: Block) => Accepted)

  lemma LenientRulings(b: BlockIndex)
    requires Placed(b) && b.block in [GENESIS, HEAVY, LIGHT]
    ensures Ruling(LENIENT, b).Accepted?
  {
    hide BlockChecks, BlockOk;
    CoinBaseChecks(11);
    if b.block != GENESIS {
      CoinBaseChecks(12);
      CoinBaseChecks(13);
      ParentRooted(b);
      LedgerStep(b.pprev);
      assert b.pprev.RootedAt(b.pprev.height);
      assert LedgerAt(b.pprev) == map[] && b.height == 1;
      MintsEnough(b.block);
      ChildIsOk(b.block, if b.block == LIGHT then 13 else 12, LENIENT.verify);
    }
  }

  lemma LenientIsSound(c: ChainState, b: BlockIndex)
    requires c.Valid() && Fed(c) && b in c.blocks
    ensures b.Rooted() && Sound(LENIENT, b)
  {
    hide Tracks, RecordsValid, IndexValid, RootsValid, LinksValid, StatusValid, JudgmentsValid, Ruling;
    forall i | 0 <= i < |b.ancestry|
      ensures Ruling(LENIENT, b.ancestry[i]).Accepted?
    {
      FedIsPlaced(c, b.ancestry[i]);
      LenientRulings(b.ancestry[i]);
    }
  }

  lemma LightIsTip(c: ChainState)
    requires c.Valid() && Fed(c) && c.rules == LENIENT && c.index.Keys == {1, 3} && c.Resolved(null)
    ensures c.best == c.index[3]
  {
    hide Tracks, RecordsValid, RootsValid, LinksValid, TreeValid, StatusValid, JudgmentsValid, ResolvedBy, Sound;
    LenientIsSound(c, c.index[3]);
    c.JudgedIsMaximal();
    Works(c, c.index[3]);
    Works(c, c.index[1]);
  }

  /** Spends the coinbase of LIGHT. */
  const SPENDER := Tx(20, 1, [TxIn(OutPoint(13, 0), [])], [TxOut(CENT, [])], 100)

  const WORLD: World := World((h: Hash) => if h == 20 then SPENDER else CoinBase(h),
                              (h: Hash) => if h == 20 then 1 else 0)

  ghost const STRANDED: Pool := map[20 := SPENDER]

  lemma SpenderIsBacked(c: ChainState, b: BlockIndex, m: Utxo)
    requires c.Valid() && Fed(c) && b in c.blocks && b.block == LIGHT && Live(m) == Live(LedgerAt(b))
    ensures Backed(STRANDED, m)
  {
    hide ChainState.Valid, LedgerAt, Live, Sound;
    var o := OutPoint(13, 0);
    OneAboveGenesis(c, b);
    LenientIsSound(c, b);
    assert b.RootedAt(1) && b.ancestry[1] == b;
    assert b.block.txs[0].txid == o.hash && MadeAt(b, 1, o);
    ChainDeposits(LENIENT, b, 1, o);
    assert !Spends(CoinBase(13), o);
    AvailableByLive(m, LedgerAt(b), o);
  }

  lemma HeavyLacks(b: BlockIndex, o: OutPoint)
    requires b.Rooted() && b.height == 1 && b.block == HEAVY && Sound(LENIENT, b) && o.hash != 12
    ensures !Available(LedgerAt(b), o)
  {
    WholeLedger(b);
    hide Sound, LedgerAt, LedgerBelow;
    assert LedgerBelow(b, 0) == map[] by {
      LedgerBelowStep(LENIENT, b, 0);
    }
    assert b.ancestry[1] == b && !MadeAt(b, 1, o);
    if Available(LedgerAt(b), o) {
      ComesFromChain(LENIENT, b, 0, |b.ancestry|, o);
    }
  }

  lemma SpenderIsStranded(c: ChainState, b: BlockIndex, m: Utxo)
    requires c.Valid() && Fed(c) && b in c.blocks && b.block == HEAVY && Live(m) == Live(LedgerAt(b))
    ensures !Backed(STRANDED, m)
  {
    hide ChainState.Valid, Fed, Sound, LedgerAt, Live;
    var o := OutPoint(13, 0);
    OneAboveGenesis(c, b);
    LenientIsSound(c, b);
    HeavyLacks(b, o);
    AvailableByLive(m, LedgerAt(b), o);
    assert STRANDED[20].vin[0].prevout == o;
  }

  /** One coinbase goes, one comes, and the pool does not notice. */
  lemma NobodyLooks(m: Utxo, history: seq<Pool>)
    requires IsHistory(m, history, [], [CoinBase(12)]) && history[0] == STRANDED
    ensures history[1] == STRANDED
  {
    var tx := CoinBase(12);
    assert Discarded(history[0], history[1], [tx][0 - 0]);
    assert STRANDED - {tx.txid} == STRANDED;
    assert !Conflicts(SPENDER, tx) by {
      assert tx.vin[0].prevout != SPENDER.vin[0].prevout;
    }
    assert 20 !in history[1] ==> SweptAway(STRANDED, history[1], tx, SPENDER);
  }

  lemma QueuesOf(light: BlockIndex, heavy: BlockIndex, fork: BlockIndex, other: (nat, Tx) -> bool)
    requires light.Rooted() && light.height == 1 && light.block == LIGHT && OnChain(light, fork)
    requires heavy.Rooted() && heavy.height == 1 && heavy.block == HEAVY && IsFork(light, heavy, fork)
    ensures Offers(Loose(Txs(Branch(light, fork))), other) == []
    ensures Txs(Branch(heavy, fork)) == [CoinBase(12)]
  {
    assert light.ancestry[1] == light && heavy.ancestry[1] == heavy && fork.height == 0;
    assert Branch(light, fork) == [light] && Branch(heavy, fork) == [heavy];
    TxsOne(light);
    TxsOne(heavy);
    LooseOne(CoinBase(13));
  }

  lemma EverythingIsGenuine(c: ChainState)
    requires c.Valid() && Fed(c)
    ensures Genuine(WORLD, c.blocks)
  {
    hide ChainState.Valid, BlockIndex.Rooted;
    forall b, i | b in c.blocks && 0 <= i < |b.block.txs|
      ensures Identified(WORLD, b.block.txs[i])
    {
      FedIsPlaced(c, b);
    }
  }

  /** LIGHT is the tip and HEAVY has just been added. */
  method LightLeads() returns (c: ChainState)
    ensures fresh(c) && fresh(c.blocks) && fresh(c.coinsTip.levels)
    ensures c.Valid() && Fed(c) && c.rules == LENIENT && c.index.Keys == {1, 2, 3} && c.best == c.index[3]
  {
    hide ChainState.Valid, ChainState.Maximal, ChainState.Resolved, ChainState.Refused, Top, OnChain;
    c := new ChainState(1, LENIENT);
    var ok := c.AcceptBlock(GENESIS);
    assert c.index.Keys == {1};
    ok := c.AcceptBlock(LIGHT);
    assert c.index.Keys == {1, 3};
    LightIsTip(c);
    ok := c.Enter(HEAVY);
    assert c.index.Keys == {1, 2, 3};
  }

  method WaitingSpender() returns (pool: TxMemPool)
    ensures fresh(pool) && pool.Valid() && pool.w == WORLD && pool.mapTx == STRANDED
  {
    hide IndexOk, PoolOk;
    pool := new TxMemPool(WORLD);
    assert Mempool.InputOk(WORLD, SPENDER, 0);
    pool.AddUnchecked(SPENDER);
  }

  lemma TipLedger(c: ChainState)
    requires c.Valid()
    ensures c.coinsTip.Valid() && Live(c.coinsTip.Flat()) == Live(LedgerAt(c.best))
  {
  }

  lemma HeavyMayTakeOver(c: ChainState)
    requires c.Valid() && Fed(c) && c.rules == LENIENT
    ensures forall b :: b in c.blocks ==> Ruling(LENIENT, b).Accepted?
  {
    hide Ruling;
    forall b | b in c.blocks
      ensures Ruling(LENIENT, b).Accepted?
    {
      FedIsPlaced(c, b);
      LenientRulings(b);
    }
  }

  /** LIGHT is the tip and the pool spends its coinbase; then HEAVY takes over.  Every input of the pool was in the
      ledger before, and afterwards the only one is nowhere.  (In the program it takes a reorganization of
      COINBASE_MATURITY blocks for this, as MatureIsSafe shows.) */
  method Strand() returns (c: ChainState, pool: TxMemPool, ghost before: Utxo)
    ensures c.Valid() && pool.Valid() && c.best != null && c.best.block == HEAVY
    ensures pool.mapTx == STRANDED && Backed(pool.mapTx, before) && !Backed(pool.mapTx, c.coinsTip.Flat())
  {
    hide ChainState.Valid, TxMemPool.Valid, Backed, IsHistory, InStep, Genuine, Offers, Loose, Txs, Branch, Ruling;
    hide Live;
    hide Grounded, IsFork, LedgerAt, BlockIndex.Rooted, Fed;
    c := LightLeads();
    pool := WaitingSpender();
    var light, heavy := ReadyToReorganize(c);
    before := c.coinsTip.Flat();
    var other := (k: nat, tx: Tx) => false;
    var r, fork, history := Reorganize(c, pool, heavy, other);
    Stranding(c, light, heavy, fork, other, history);
  }

  method ReadyToReorganize(c: ChainState) returns (light: BlockIndex, heavy: BlockIndex)
    requires c.Valid() && Fed(c) && c.rules == LENIENT && c.index.Keys == {1, 2, 3} && c.best == c.index[3]
    ensures light == c.best == c.index[3] && light in c.blocks && light.block == LIGHT
    ensures heavy == c.index[2] && heavy in c.blocks && heavy.block == HEAVY && heavy.Rooted()
    ensures c.coinsTip.Valid() && Backed(STRANDED, c.coinsTip.Flat()) && Genuine(WORLD, c.blocks)
    ensures forall b :: b in c.blocks ==> Ruling(LENIENT, b).Accepted?
  {
    hide ChainState.Valid, Backed, Genuine, Ruling, LedgerAt, Live;
    light, heavy := c.index[3], c.index[2];
    InBlocks(c, light);
    InBlocks(c, heavy);
    OneAboveGenesis(c, heavy);
    TipLedger(c);
    SpenderIsBacked(c, light, c.coinsTip.Flat());
    EverythingIsGenuine(c);
    HeavyMayTakeOver(c);
  }

  lemma Stranding(c: ChainState, light: BlockIndex, heavy: BlockIndex, fork: BlockIndex, other: (nat, Tx) -> bool,
                  history: seq<Pool>)
    requires c.Valid() && Fed(c) && light in c.blocks && light.block == LIGHT && heavy in c.blocks
    requires heavy.block == HEAVY
    requires c.best == heavy && IsFork(light, heavy, fork) && c.coinsTip.Valid()
    requires IsHistory(c.coinsTip.Flat(), history, Offers(Loose(Txs(Branch(light, fork))), other),
                       Txs(Branch(heavy, fork)))
    requires history[0] == STRANDED
    ensures history[|history| - 1] == STRANDED && !Backed(STRANDED, c.coinsTip.Flat())
  {
    hide ChainState.Valid, Backed, LedgerAt, Live, Fed, Offers, Loose, Txs, Branch;
    OneAboveGenesis(c, light);
    OneAboveGenesis(c, heavy);
    QueuesOf(light, heavy, fork, other);
    NobodyLooks(c.coinsTip.Flat(), history);
    TipLedger(c);
    SpenderIsStranded(c, heavy, c.coinsTip.Flat());
  }

  lemma InBlocks(c: ChainState, b: BlockIndex)
    requires c.Valid() && b.block.hash in c.index && c.index[b.block.hash] == b
    ensures b in c.blocks
  {
  }
}
