/** Where the outputs of a ledger come from and how long they stay, along a chain that the rules accept. */
module Outputs {
  import opened Primitives
  import opened Coins
  import opened Ledger
  import opened BlockTree
  import opened Validation
  import opened Connect
  import opened Reorg
  import opened Chain
  import opened Mempool

  // ---------- One block ----------

  lemma ApplyTxAvailable(m: Utxo, tx: Tx, height: int, o: OutPoint)
    requires WellFormed(m) && HasOutputs(tx)
    ensures Available(ApplyTx(m, tx, height), o) <==>
              if o.hash == tx.txid then o.n < |tx.vout| else Available(m, o) && (tx.IsCoinBase() || !Spends(tx, o))
  {
    SpendInputsRemoves(m, tx.vin);
    var spent := SpendInputs(m, tx.vin);
    assert Available(spent, o) <==> Available(m, o) && !Spends(tx, o);
    hide SpendInputs;
    if o.hash == tx.txid && o.n < |tx.vout| {
      assert !tx.vout[o.n].IsNull();
    }
  }

  ghost predicate AllHaveOutputs(txs: seq<Tx>) {
    forall i :: 0 <= i < |txs| ==> HasOutputs(txs[i])
  }

  /** No transaction from place k on spends the output or replaces the transaction it belongs to. */
  ghost predicate Untouched(txs: seq<Tx>, k: nat, o: OutPoint) {
    forall j :: k <= j < |txs| ==> txs[j].txid != o.hash && !Spends(txs[j], o)
  }

  lemma {:induction false} StaysInBlock(m: Utxo, txs: seq<Tx>, height: int, k: nat, o: OutPoint)
    requires WellFormed(m) && height != 0 && AllHaveOutputs(txs) && k <= |txs|
    requires Available(ApplyTxs(m, txs[..k], height), o) && Untouched(txs, k, o)
    ensures Available(ApplyTxs(m, txs, height), o)
  {
    hide Available, HasOutputs, Spends;
    if k == |txs| {
      assert txs[..k] == txs;
    } else {
      var init := txs[..|txs| - 1];
      assert init[..k] == txs[..k];
      StaysInBlock(m, init, height, k, o);
      ApplyTxsKeeps(m, init, height);
      ApplyTxAvailable(ApplyTxs(m, init, height), txs[|txs| - 1], height, o);
    }
  }

  /** A transaction with that output is among txs. */
  ghost predicate Makes(txs: seq<Tx>, o: OutPoint) {
    exists i :: 0 <= i < |txs| && txs[i].txid == o.hash && o.n < |txs[i].vout|
  }

  lemma {:induction false} ComesFrom(m: Utxo, txs: seq<Tx>, height: int, o: OutPoint)
    requires WellFormed(m) && height != 0 && AllHaveOutputs(txs) && Available(ApplyTxs(m, txs, height), o)
    ensures Available(m, o) || Makes(txs, o)
  {
    hide Available, HasOutputs, Spends;
    if txs != [] {
      var init, last := txs[..|txs| - 1], txs[|txs| - 1];
      ApplyTxsKeeps(m, init, height);
      ApplyTxAvailable(ApplyTxs(m, init, height), last, height, o);
      if o.hash != last.txid {
        ComesFrom(m, init, height, o);
        if i :| 0 <= i < |init| && init[i].txid == o.hash && o.n < |init[i].vout| {
          assert txs[i] == init[i];
        }
      }
    }
  }

  /** Some transaction of txs spends the output. */
  ghost predicate Uses(txs: seq<Tx>, o: OutPoint) {
    exists i :: 0 <= i < |txs| && Spends(txs[i], o)
  }

  lemma BlockDeposits(m: Utxo, txs: seq<Tx>, height: int, i: nat, o: OutPoint)
    requires WellFormed(m) && height != 0 && Connects(m, txs, height)
    requires i < |txs| && txs[i].txid == o.hash && o.n < |txs[i].vout|
    ensures Available(ApplyTxs(m, txs, height), o) || Uses(txs, o)
  {
    hide Available, InputsFound, NoOverwrite, Spends;
    assert txs[..i + 1][..i] == txs[..i];
    ApplyTxsKeeps(m, txs[..i], height);
    ApplyTxAvailable(ApplyTxs(m, txs[..i], height), txs[i], height, o);
    if !Uses(txs, o) {
      StaysInBlock(m, txs, height, i + 1, o);
    }
  }

  lemma BlockKeeps(m: Utxo, txs: seq<Tx>, height: int, o: OutPoint)
    requires WellFormed(m) && height != 0 && Connects(m, txs, height) && Available(m, o) && !Uses(txs, o)
    ensures Available(ApplyTxs(m, txs, height), o)
  {
    assert o.hash in Live(m);
    hide InputsFound, Spends;
    assert txs[..0] == [];
    StaysInBlock(m, txs, height, 0, o);
  }

  // ---------- Height and kind of the entries ----------

  lemma {:induction false} SpendInputsKeepsEntries(m: Utxo, vin: seq<TxIn>, h: Hash)
    ensures h in SpendInputs(m, vin) <==> h in m
    ensures h in m ==> SpendInputs(m, vin)[h].height == m[h].height && SpendInputs(m, vin)[h].coinBase == m[h].coinBase
  {
    if vin != [] {
      SpendInputsKeepsEntries(m, vin[..|vin| - 1], h);
    }
  }

  /** The entry is from height k or above and knows whether it is a coinbase's. */
  ghost predicate EntryOk(w: World, m: Utxo, h: Hash, k: int) {
    h in m && m[h].height >= k && m[h].coinBase == w.content(h).IsCoinBase()
  }

  lemma {:induction false} EntryInBlock(w: World, m: Utxo, txs: seq<Tx>, height: int, h: Hash, k: int)
    requires k <= height && forall i :: 0 <= i < |txs| ==> Identified(w, txs[i])
    requires EntryOk(w, m, h, k) || exists i :: 0 <= i < |txs| && txs[i].txid == h
    ensures EntryOk(w, ApplyTxs(m, txs, height), h, k)
  {
    if txs != [] && txs[|txs| - 1].txid != h {
      var init, last := txs[..|txs| - 1], txs[|txs| - 1];
      if !EntryOk(w, m, h, k) {
        var i :| 0 <= i < |txs| && txs[i].txid == h;
        assert init[i] == txs[i];
      }
      EntryInBlock(w, m, init, height, h, k);
      SpendInputsKeepsEntries(ApplyTxs(m, init, height), last.vin, h);
    }
  }

  // ---------- A chain ----------

  /** The ledger below height k of b's chain. */
  ghost function LedgerBelow(b: BlockIndex, k: nat): Utxo
    requires k <= |b.ancestry|
  {
    Replay(b.ancestry[..k])
  }

  lemma LedgerBelowStep(rules: Rules, b: BlockIndex, k: nat)
    requires b.Rooted() && Sound(rules, b) && k < |b.ancestry|
    ensures var p := b.ancestry[k];
            if k == 0 then LedgerBelow(b, 1) == LedgerBelow(b, 0) == map[]
            else && p.height == k && Connects(LedgerBelow(b, k), p.block.txs, k)
                 && LedgerBelow(b, k + 1) == ApplyTxs(LedgerBelow(b, k), p.block.txs, k)
  {
    var p := b.ancestry[k];
    hide Sound, BlockChecks, NoOverwrite, SpendsOk, CoinBaseOk;
    assert Ruling(rules, p).Accepted? by {
      hide Ruling;
      RulingAt(rules, b, k);
    }
    assert b.RootedAt(k);
    AncestorRooted(b, k);
    assert b.ancestry[..k + 1] == p.ancestry && b.ancestry[..k + 1][..k] == b.ancestry[..k];
    if k > 0 {
      ParentRooted(p);
      assert p.pprev.ancestry == b.ancestry[..k];
      BlockOkConnects(LedgerBelow(b, k), p.block.txs, k, rules.verify);
    }
  }

  lemma RulingAt(rules: Rules, b: BlockIndex, k: nat)
    requires Sound(rules, b) && k < |b.ancestry|
    ensures Ruling(rules, b.ancestry[k]).Accepted?
  {
  }

  lemma {:induction false} LedgerBelowWellFormed(rules: Rules, b: BlockIndex, k: nat)
    requires b.Rooted() && Sound(rules, b) && k <= |b.ancestry|
    ensures WellFormed(LedgerBelow(b, k))
  {
    if k > 0 {
      hide Sound, LedgerBelow, InputsFound, NoOverwrite, BlockIndex.Rooted;
      LedgerBelowWellFormed(rules, b, k - 1);
      LedgerBelowStep(rules, b, k - 1);
      if k > 1 {
        ApplyTxsKeeps(LedgerBelow(b, k - 1), b.ancestry[k - 1].block.txs, k - 1);
      }
    }
  }

  /** A block of b's chain, at height k or above and not the genesis block, spends the output. */
  ghost predicate UsedFrom(b: BlockIndex, k: nat, o: OutPoint) {
    exists i :: k <= i < |b.ancestry| && UsedAt(b, i, o)
  }

  ghost predicate UsedAt(b: BlockIndex, i: nat, o: OutPoint)
    requires i < |b.ancestry|
  {
    i > 0 && Uses(b.ancestry[i].block.txs, o)
  }

  /** What a ledger has stays until it is spent. */
  lemma {:induction false} StaysOnChain(rules: Rules, b: BlockIndex, k: nat, n: nat, o: OutPoint)
    requires b.Rooted() && Sound(rules, b) && k <= n <= |b.ancestry|
    requires Available(LedgerBelow(b, k), o) && !UsedFrom(b, k, o)
    ensures Available(LedgerBelow(b, n), o)
    decreases n
  {
    hide Sound, LedgerBelow, Available, Connects, Uses, BlockIndex.Rooted;
    if n > k {
      StaysOnChain(rules, b, k, n - 1, o);
      LedgerBelowWellFormed(rules, b, n - 1);
      LedgerBelowStep(rules, b, n - 1);
      if n > 1 {
        assert !UsedAt(b, n - 1, o);
        BlockKeeps(LedgerBelow(b, n - 1), b.ancestry[n - 1].block.txs, n - 1, o);
      }
    }
  }

  /** A block of b's chain, at height k or above and not the genesis block, has a transaction with the output. */
  ghost predicate MadeFrom(b: BlockIndex, k: nat, o: OutPoint) {
    exists i :: k <= i < |b.ancestry| && MadeAt(b, i, o)
  }

  ghost predicate MadeAt(b: BlockIndex, i: nat, o: OutPoint)
    requires i < |b.ancestry|
  {
    i > 0 && Makes(b.ancestry[i].block.txs, o)
  }

  /** What a ledger has was there before or was made since. */
  lemma {:induction false} ComesFromChain(rules: Rules, b: BlockIndex, k: nat, n: nat, o: OutPoint)
    requires b.Rooted() && Sound(rules, b) && k <= n <= |b.ancestry| && Available(LedgerBelow(b, n), o)
    ensures Available(LedgerBelow(b, k), o) || MadeFrom(b, k, o)
    decreases n
  {
    hide Sound, LedgerBelow, InputsFound, NoOverwrite, Makes, BlockIndex.Rooted;
    if n > k {
      LedgerBelowWellFormed(rules, b, n - 1);
      LedgerBelowStep(rules, b, n - 1);
      if n > 1 {
        ComesFrom(LedgerBelow(b, n - 1), b.ancestry[n - 1].block.txs, n - 1, o);
        assert Makes(b.ancestry[n - 1].block.txs, o) ==> MadeAt(b, n - 1, o);
      }
      if Available(LedgerBelow(b, n - 1), o) {
        ComesFromChain(rules, b, k, n - 1, o);
      }
    }
  }

  /** What a block makes is in every later ledger until it is spent. */
  lemma ChainDeposits(rules: Rules, b: BlockIndex, k: nat, o: OutPoint)
    requires b.Rooted() && Sound(rules, b) && k < |b.ancestry| && MadeAt(b, k, o)
    ensures Available(LedgerAt(b), o) || UsedFrom(b, k, o)
  {
    var txs := b.ancestry[k].block.txs;
    var i :| 0 <= i < |txs| && txs[i].txid == o.hash && o.n < |txs[i].vout|;
    assert b.ancestry[..|b.ancestry|] == b.ancestry && LedgerAt(b) == LedgerBelow(b, |b.ancestry|);
    hide Sound, LedgerBelow, Connects, Uses, Available, BlockIndex.Rooted, LedgerAt;
    LedgerBelowWellFormed(rules, b, k);
    LedgerBelowStep(rules, b, k);
    BlockDeposits(LedgerBelow(b, k), txs, k, i, o);
    if !UsedFrom(b, k, o) {
      assert !UsedAt(b, k, o);
      StaysOnChain(rules, b, k + 1, |b.ancestry|, o);
    }
  }

  /** A block of b's chain at height k > 0 has a transaction h: in every later ledger the entry of h is from there or
      from further up. */
  lemma {:induction false} EntryOnChain(rules: Rules, w: World, b: BlockIndex, k: nat, n: nat, h: Hash)
    requires b.Rooted() && Sound(rules, b) && 0 < k < n <= |b.ancestry|
    requires forall i, j :: 0 <= i < |b.ancestry| && 0 <= j < |b.ancestry[i].block.txs|
               ==> Identified(w, b.ancestry[i].block.txs[j])
    requires exists j :: 0 <= j < |b.ancestry[k].block.txs| && b.ancestry[k].block.txs[j].txid == h
    ensures EntryOk(w, LedgerBelow(b, n), h, k)
  {
    hide Sound, LedgerBelow, Connects, EntryOk, BlockIndex.Rooted;
    if n - 1 > k {
      EntryOnChain(rules, w, b, k, n - 1, h);
    }
    LedgerBelowStep(rules, b, n - 1);
    EntryInBlock(w, LedgerBelow(b, n - 1), b.ancestry[n - 1].block.txs, n - 1, h, k);
  }
}
