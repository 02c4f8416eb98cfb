/** What holds of every transaction on the active chain of a node, whatever run led there: laws about the replayed
    ledger that mention none of the checks. */
module ActiveChain {
  import opened Primitives
  import opened Coins
  import opened Ledger
  import opened Supply
  import opened BlockTree
  import opened Validation
  import opened Connect
  import opened Reorg
  import opened Chain
  import opened Mempool
  import opened Outputs
  import opened Node

  /** The ledger in front of transaction j of the block at height k of b's chain: the replay of the path below, and the
      earlier transactions of the block. */
  ghost function LedgerBefore(b: BlockIndex, k: nat, j: nat): Utxo
    requires k < |b.ancestry| && j <= |b.ancestry[k].block.txs|
  {
    ApplyTxs(LedgerBelow(b, k), b.ancestry[k].block.txs[..j], k)
  }

  lemma BlockIsOk(rules: Rules, b: BlockIndex, k: nat)
    requires b.Rooted() && Sound(rules, b) && 0 < k < |b.ancestry|
    ensures var p := b.ancestry[k];
            p.height == k && BlockOk(LedgerBelow(b, k), p.block, k, rules.verify)
  {
    var p := b.ancestry[k];
    hide Sound, BlockOk, BlockChecks;
    assert Ruling(rules, p).Accepted? by {
      hide Ruling;
      RulingAt(rules, b, k);
    }
    assert b.RootedAt(k);
    AncestorRooted(b, k);
    ParentRooted(p);
    assert b.ancestry[..k + 1] == p.ancestry && b.ancestry[..k + 1][..k] == b.ancestry[..k];
    assert p.pprev.ancestry == b.ancestry[..k];
  }

  /** Transaction j of a block on top of the ledger m: it has inputs and outputs, at most a megabyte, outputs of a cent
      at least and all the money at most, and no input twice; it is a coinbase, with a script of 2 to 100 bytes, if and
      only if it is the first; and its hash is that of no other in the block and of none with an output in the
      ledger. */
  ghost predicate WellMade(m: Utxo, txs: seq<Tx>, j: nat)
    requires j < |txs|
  {
    var tx := txs[j];
    && |tx.vin| > 0 && |tx.vout| > 0 && tx.size <= 1_000_000
    && (forall i :: 0 <= i < |tx.vout| ==> tx.vout[i].value >= 1_000_000)
    && ValueOut(tx.vout) <= 200_000_000_000_000_000
    && (forall h, i :: 0 <= h < i < |tx.vin| ==> tx.vin[h].prevout != tx.vin[i].prevout)
    && (j == 0 ==> 2 <= |tx.vin[0].scriptSig| <= 100)
    && (if j == 0 then |tx.vin| == 1 && tx.vin[0].prevout == OutPoint(0, 0xffff_ffff)
        else forall i :: 0 <= i < |tx.vin| ==> tx.vin[i].prevout != OutPoint(0, 0xffff_ffff))
    && (forall i :: 0 <= i < |txs| && txs[i].txid == tx.txid ==> i == j)
    && (forall n: nat :: !Available(m, OutPoint(tx.txid, n)))
  }

  /** Every transaction on the active chain above the genesis block is well made. */
  lemma TransactionLaw(chain: ChainState, k: nat, j: nat)
    requires chain.Valid() && chain.best != null && 0 < k < |chain.best.ancestry|
    requires j < |chain.best.ancestry[k].block.txs|
    ensures WellMade(LedgerBelow(chain.best, k), chain.best.ancestry[k].block.txs, j)
  {
    BestIsSound(chain);
    BlockIsOk(chain.rules, chain.best, k);
    hide ChainState.Valid, LedgerBelow, SpendsOk, CoinBaseOk, BlockChecks, NoOverwrite, BlockIndex.Rooted, Sound;
    hide WellMade;
    BlockForm(LedgerBelow(chain.best, k), chain.best.ancestry[k].block.txs, j);
  }

  lemma BlockForm(m: Utxo, txs: seq<Tx>, j: nat)
    requires BlockChecks(txs) && NoOverwrite(m, txs) && j < |txs|
    ensures WellMade(m, txs, j)
  {
    hide TxChecks, ValueOut;
    assert TxChecks(txs[j]) && txs[j].txid !in Live(m);
    TxMeans(txs[j]);
    assert txs[j].IsCoinBase() <==> j == 0;
  }

  lemma NothingLive(m: Utxo, h: Hash)
    requires forall n: nat :: !Available(m, OutPoint(h, n))
    ensures h !in Live(m)
  {
    if h in m {
      forall n: nat | n < |m[h].vout|
        ensures m[h].vout[n].IsNull()
      {
        assert !Available(m, OutPoint(h, n));
      }
    }
  }

  lemma FormIsEnough(m: Utxo, txs: seq<Tx>)
    requires 0 < |txs| <= 1_000_000 && forall j :: 0 <= j < |txs| ==> WellMade(m, txs, j)
    ensures BlockChecks(txs) && NoOverwrite(m, txs)
  {
    hide ValueOut, TxChecks;
    forall j | 0 <= j < |txs|
      ensures TxChecks(txs[j]) && (txs[j].IsCoinBase() <==> j == 0) && txs[j].txid !in Live(m)
    {
      assert WellMade(m, txs, j);
      TxMeans(txs[j]);
      NothingLive(m, txs[j].txid);
    }
    forall i, j | 0 <= i < j < |txs|
      ensures txs[i].txid != txs[j].txid
    {
      assert WellMade(m, txs, j);
    }
  }

  lemma {:induction false} SpendsAreEnough(m: Utxo, txs: seq<Tx>, height: int, verify: Verifier, n: nat)
    requires n <= |txs| && forall j :: 0 <= j < |txs| ==> SpendOkAt(m, txs, height, verify, j)
    ensures SpendsOkUpTo(m, txs, height, verify, n)
  {
    hide SpendOkAt;
    if n > 0 {
      SpendsAreEnough(m, txs, height, verify, n - 1);
    }
  }

  /** Transaction j > 0 of a block spends what it may and pays its fee. */
  ghost predicate WellSpent(m: Utxo, txs: seq<Tx>, height: int, verify: Verifier, j: nat)
    requires j < |txs|
  {
    var tx, before := txs[j], ApplyTxs(m, txs[..j], height);
    && (forall i :: 0 <= i < |tx.vin| ==> Spendable(before, tx, height, verify, i))
    && Ledger.HaveInputs(before, tx.vin) && ValueIn(before, tx.vin) <= 200_000_000_000_000_000
    && (1 + tx.size / 1000) * 1_000_000 <= ValueIn(before, tx.vin) - ValueOut(tx.vout) <= 200_000_000_000_000_000
  }

  lemma SpendAtMeans(m: Utxo, txs: seq<Tx>, height: int, verify: Verifier, j: nat)
    requires j < |txs| && WellMade(m, txs, j)
    ensures SpendOkAt(m, txs, height, verify, j) <==> j == 0 || WellSpent(m, txs, height, verify, j)
  {
    hide InputsOk, Spendable, ValueIn, ValueOut, MinFee, ApplyTxs;
    SpendMeans(ApplyTxs(m, txs[..j], height), txs[j], height, verify);
    MinFeeMeans(txs[j].size);
  }

  /** What the checks of a block amount to, in full: a block is accepted on top of a ledger if and only if its
      transactions are well made and well spent, and it raises the money supply by no more than the mint value, less a
      cent for every full thousand bytes of its coinbase. */
  lemma BlockMeans(m: Utxo, block: Block, height: int, verify: Verifier)
    requires WellFormed(m) && height != 0
    ensures BlockOk(m, block, height, verify)
       <==> && 0 < |block.txs| <= 1_000_000
            && (forall j :: 0 <= j < |block.txs| ==> WellMade(m, block.txs, j))
            && (forall j :: 0 < j < |block.txs| ==> WellSpent(m, block.txs, height, verify, j))
            && Total(ApplyTxs(m, block.txs, height)) - Total(m)
               <= Subsidy(block.bits) - block.txs[0].size / 1000 * 1_000_000
  {
    var txs := block.txs;
    hide WellMade, WellSpent, SpendOkAt, CoinBaseOk, NoOverwrite, ApplyTxs, Total, Subsidy, SpendsOkUpTo, WellFormed;
    if BlockOk(m, block, height, verify) {
      assert 0 < |txs| <= 1_000_000;
      hide BlockChecks;
      forall j | 0 <= j < |txs|
        ensures WellMade(m, txs, j) && (j > 0 ==> WellSpent(m, txs, height, verify, j))
      {
        BlockForm(m, txs, j);
        SpendsOkAt(m, txs, height, verify, j, |txs|);
        SpendAtMeans(m, txs, height, verify, j);
      }
      AcceptedByRise(m, block, height, verify);
    } else if 0 < |txs| <= 1_000_000 && (forall j :: 0 <= j < |txs| ==> WellMade(m, txs, j))
              && (forall j :: 0 < j < |txs| ==> WellSpent(m, txs, height, verify, j)) {
      hide BlockChecks;
      FormIsEnough(m, txs);
      forall j | 0 <= j < |txs|
        ensures SpendOkAt(m, txs, height, verify, j)
      {
        SpendAtMeans(m, txs, height, verify, j);
      }
      SpendsAreEnough(m, txs, height, verify, |txs|);
      AcceptedByRise(m, block, height, verify);
    }
  }

  /** What the rules say about a block above the genesis block, in its place in the tree: a malformed block is invalid
      whatever else; one that could not be judged otherwise has failed; and it is accepted if and only if nothing else
      speaks against it and the conditions above hold on the ledger of its own parent. */
  lemma RulingMeans(rules: Rules, b: BlockIndex)
    requires b.Rooted() && b.pprev != null && WellFormed(LedgerAt(b.pprev))
    ensures var txs, m := b.block.txs, LedgerAt(b.pprev);
            && (Ruling(rules, b).Accepted?
                <==> && rules.other(b.block).Accepted? && 0 < |txs| <= 1_000_000
                     && (forall j :: 0 <= j < |txs| ==> WellMade(m, txs, j))
                     && (forall j :: 0 < j < |txs| ==> WellSpent(m, txs, b.height, rules.verify, j))
                     && Total(ApplyTxs(m, txs, b.height)) - Total(m)
                        <= Subsidy(b.block.bits) - txs[0].size / 1000 * 1_000_000)
            && (!BlockChecks(txs) ==> Ruling(rules, b).Invalid?)
            && (BlockChecks(txs) && !rules.other(b.block).Accepted? ==> Ruling(rules, b) == rules.other(b.block))
  {
    assert b.RootedAt(b.height);
    ParentRooted(b);
    hide LedgerAt, WellMade, WellSpent, Total, ApplyTxs, Subsidy, WellFormed, BlockIndex.Rooted;
    BlockMeans(LedgerAt(b.pprev), b.block, b.height, rules.verify);
    hide BlockChecks, NoOverwrite, SpendsOk, CoinBaseOk;
  }

  /** Every spend on the active chain: the output is in the ledger at that place, the script check passes, a coinbase is
      3000 blocks old, and the fee is a cent for every started thousand bytes at least. */
  lemma SpendLaw(chain: ChainState, k: nat, j: nat, i: nat)
    requires chain.Valid() && chain.best != null && 0 < k < |chain.best.ancestry|
    requires 0 < j < |chain.best.ancestry[k].block.txs| && i < |chain.best.ancestry[k].block.txs[j].vin|
    ensures var tx, m := chain.best.ancestry[k].block.txs[j], LedgerBefore(chain.best, k, j);
            && Spendable(m, tx, k, chain.rules.verify, i)
            && Ledger.HaveInputs(m, tx.vin)
            && ValueIn(m, tx.vin) - ValueOut(tx.vout) >= (1 + tx.size / 1000) * 1_000_000
  {
    BestIsSound(chain);
    TransactionLaw(chain, k, j);
    BlockIsOk(chain.rules, chain.best, k);
    var b := chain.best;
    var tx, m := b.ancestry[k].block.txs[j], LedgerBefore(b, k, j);
    assert InputsOk(m, tx, k, chain.rules.verify) by {
      hide ChainState.Valid, LedgerBelow, Sound, BlockIndex.Rooted;
      SpendsOkAt(LedgerBelow(b, k), b.ancestry[k].block.txs, k, chain.rules.verify, j, |b.ancestry[k].block.txs|);
    }
    hide ChainState.Valid, LedgerBefore, InputsOk, BlockOk, Sound, BlockIndex.Rooted, MinFee, ValueIn, ValueOut;
    SpendMeans(m, tx, k, chain.rules.verify);
    MinFeeMeans(tx.size);
  }

  // ---------- Nothing is spent twice ----------

  /** A place in a chain: block height and transaction number. */
  datatype Place = Place(k: nat, j: nat) {
    predicate Before(other: Place) {
      k < other.k || (k == other.k && j < other.j)
    }
  }

  ghost predicate IsPlace(b: BlockIndex, p: Place) {
    0 < p.k < |b.ancestry| && p.j < |b.ancestry[p.k].block.txs|
  }

  ghost function TxAt(b: BlockIndex, p: Place): Tx
    requires IsPlace(b, p)
  {
    b.ancestry[p.k].block.txs[p.j]
  }

  /** A transaction with the given hash at p or after it, and before q. */
  ghost predicate MadeBetween(b: BlockIndex, p: Place, q: Place, h: Hash) {
    exists r: Place :: IsPlace(b, r) && !r.Before(p) && r.Before(q) && TxAt(b, r).txid == h
  }

  lemma BlockOutputs(rules: Rules, b: BlockIndex, k: nat)
    requires b.Rooted() && Sound(rules, b) && 0 < k < |b.ancestry|
    ensures AllHaveOutputs(b.ancestry[k].block.txs) && WellFormed(LedgerBelow(b, k))
    ensures LedgerBelow(b, k + 1) == ApplyTxs(LedgerBelow(b, k), b.ancestry[k].block.txs, k)
  {
    LedgerBelowStep(rules, b, k);
    LedgerBelowWellFormed(rules, b, k);
  }

  /** Within a block, what is not available stays so until a transaction of that hash. */
  lemma {:induction false} StaysAway(m: Utxo, txs: seq<Tx>, height: int, a: nat, z: nat, o: OutPoint)
    requires WellFormed(m) && height != 0 && AllHaveOutputs(txs) && a <= z <= |txs|
    requires !Available(ApplyTxs(m, txs[..a], height), o) && Available(ApplyTxs(m, txs[..z], height), o)
    ensures exists j :: a <= j < z && txs[j].txid == o.hash
    decreases z
  {
    if a < z {
      var init := txs[..z - 1];
      assert txs[..z][..z - 1] == init && txs[..z][z - 1] == txs[z - 1];
      ApplyTxsKeeps(m, init, height);
      ApplyTxAvailable(ApplyTxs(m, init, height), txs[z - 1], height, o);
      if txs[z - 1].txid != o.hash {
        StaysAway(m, txs, height, a, z - 1, o);
      }
    }
  }

  /** Right after a transaction spends an output, the output is gone, unless the transaction makes it itself. */
  lemma SpentIsGone(rules: Rules, b: BlockIndex, p: Place, o: OutPoint)
    requires b.Rooted() && Sound(rules, b) && IsPlace(b, p) && p.j > 0 && Spends(TxAt(b, p), o)
    requires !TxAt(b, p).IsCoinBase() && TxAt(b, p).txid != o.hash
    ensures !Available(LedgerBefore(b, p.k, p.j + 1), o)
  {
    hide Sound, LedgerBelow, BlockIndex.Rooted;
    BlockOutputs(rules, b, p.k);
    var txs := b.ancestry[p.k].block.txs;
    assert txs[..p.j + 1][..p.j] == txs[..p.j];
    ApplyTxsKeeps(LedgerBelow(b, p.k), txs[..p.j], p.k);
    ApplyTxAvailable(LedgerBefore(b, p.k, p.j), txs[p.j], p.k, o);
  }

  lemma {:induction false} StaysAwayOnChain(rules: Rules, b: BlockIndex, k: nat, n: nat, o: OutPoint) returns (r: Place)
    requires b.Rooted() && Sound(rules, b) && 0 < k <= n <= |b.ancestry|
    requires !Available(LedgerBelow(b, k), o) && Available(LedgerBelow(b, n), o)
    ensures IsPlace(b, r) && k <= r.k < n && TxAt(b, r).txid == o.hash
    decreases n
  {
    hide Sound, LedgerBelow, BlockIndex.Rooted, Available;
    var txs := b.ancestry[n - 1].block.txs;
    BlockOutputs(rules, b, n - 1);
    if Available(LedgerBelow(b, n - 1), o) {
      r := StaysAwayOnChain(rules, b, k, n - 1, o);
    } else {
      assert txs[..0] == [] && txs[..|txs|] == txs;
      StaysAway(LedgerBelow(b, n - 1), txs, n - 1, 0, |txs|, o);
      var j :| 0 <= j < |txs| && txs[j].txid == o.hash;
      r := Place(n - 1, j);
    }
  }

  /** What is gone right after p and there again in front of q was made in between. */
  lemma BackAgain(rules: Rules, b: BlockIndex, p: Place, q: Place, o: OutPoint)
    requires b.Rooted() && Sound(rules, b) && IsPlace(b, p) && IsPlace(b, q) && p.Before(q)
    requires !Available(LedgerBefore(b, p.k, p.j + 1), o) && Available(LedgerBefore(b, q.k, q.j), o)
    ensures MadeBetween(b, p, q, o.hash)
  {
    hide Sound, LedgerBelow, BlockIndex.Rooted, Available;
    var from, to := b.ancestry[p.k].block.txs, b.ancestry[q.k].block.txs;
    BlockOutputs(rules, b, p.k);
    BlockOutputs(rules, b, q.k);
    var r: Place;
    if p.k == q.k {
      StaysAway(LedgerBelow(b, p.k), from, p.k, p.j + 1, q.j, o);
      var j :| p.j + 1 <= j < q.j && from[j].txid == o.hash;
      r := Place(p.k, j);
    } else if !Available(LedgerBelow(b, q.k), o) {
      assert to[..0] == [];
      StaysAway(LedgerBelow(b, q.k), to, q.k, 0, q.j, o);
      var j :| 0 <= j < q.j && to[j].txid == o.hash;
      r := Place(q.k, j);
    } else if !Available(LedgerBelow(b, p.k + 1), o) {
      r := StaysAwayOnChain(rules, b, p.k + 1, q.k, o);
    } else {
      assert from[..|from|] == from;
      StaysAway(LedgerBelow(b, p.k), from, p.k, p.j + 1, |from|, o);
      var j :| p.j + 1 <= j < |from| && from[j].txid == o.hash;
      r := Place(p.k, j);
    }
    assert IsPlace(b, r) && !r.Before(p) && r.Before(q) && TxAt(b, r).txid == o.hash;
  }

  /** No output is spent twice on the active chain, unless a transaction of its hash is made again in between. */
  lemma NoDoubleSpend(chain: ChainState, p: Place, q: Place, o: OutPoint)
    requires chain.Valid() && chain.best != null && IsPlace(chain.best, p) && IsPlace(chain.best, q) && p.Before(q)
    requires p.j > 0 && q.j > 0 && Spends(TxAt(chain.best, p), o) && Spends(TxAt(chain.best, q), o)
    ensures MadeBetween(chain.best, p, q, o.hash)
  {
    var b := chain.best;
    BestIsSound(chain);
    TransactionLaw(chain, p.k, p.j);
    var i :| 0 <= i < |TxAt(b, q).vin| && TxAt(b, q).vin[i].prevout == o;
    SpendLaw(chain, q.k, q.j, i);
    hide ChainState.Valid, Sound, BlockIndex.Rooted, LedgerBefore;
    if TxAt(b, p).txid == o.hash {
      assert IsPlace(b, p) && !p.Before(p) && p.Before(q);
    } else {
      SpentIsGone(chain.rules, b, p, o);
      BackAgain(chain.rules, b, p, q, o);
    }
  }

  // ---------- Where outputs come from ----------

  /** The entry that m has for o was made at r: output, height, coinbase mark and version are those of the transaction
      there. */
  ghost predicate MadeAtPlace(b: BlockIndex, m: Utxo, o: OutPoint, r: Place)
    requires IsPlace(b, r) && o.hash in m && o.n < |m[o.hash].vout|
  {
    var tx := TxAt(b, r);
    && tx.txid == o.hash && o.n < |tx.vout| && m[o.hash].vout[o.n] == tx.vout[o.n]
    && m[o.hash].height == r.k && m[o.hash].coinBase == tx.IsCoinBase() && m[o.hash].version == tx.version
  }

  /** Every available output was made before q. */
  ghost predicate Traced(b: BlockIndex, m: Utxo, q: Place) {
    forall o: OutPoint :: Available(m, o) ==> TracedTo(b, m, o, q)
  }

  ghost predicate TracedTo(b: BlockIndex, m: Utxo, o: OutPoint, q: Place)
    requires Available(m, o)
  {
    exists r: Place :: IsPlace(b, r) && r.Before(q) && MadeAtPlace(b, m, o, r)
  }

  /** Spending changes nothing about what is left. */
  lemma {:induction false} SpendingKeeps(m: Utxo, vin: seq<TxIn>, o: OutPoint)
    requires WellFormed(m) && Available(SpendInputs(m, vin), o)
    ensures Available(m, o) && SpendInputs(m, vin)[o.hash] == m[o.hash].(vout := SpendInputs(m, vin)[o.hash].vout)
    ensures SpendInputs(m, vin)[o.hash].vout[o.n] == m[o.hash].vout[o.n]
  {
    if vin != [] {
      var init, out := vin[..|vin| - 1], vin[|vin| - 1].prevout;
      var m1 := SpendInputs(m, init);
      SpendInputsRemoves(m, init);
      if Available(m1, out) {
        SpendRemovesOne(m1[out.hash], out.n);
      }
      assert Available(m1, o);
      SpendingKeeps(m, init, o);
    }
  }

  lemma TracedStep(b: BlockIndex, m: Utxo, q: Place)
    requires WellFormed(m) && IsPlace(b, q) && HasOutputs(TxAt(b, q)) && Traced(b, m, q)
    ensures Traced(b, ApplyTx(m, TxAt(b, q), q.k), Place(q.k, q.j + 1))
  {
    var tx := TxAt(b, q);
    var after, next := ApplyTx(m, tx, q.k), Place(q.k, q.j + 1);
    forall o: OutPoint | Available(after, o)
      ensures TracedTo(b, after, o, next)
    {
      if o.hash == tx.txid {
        assert IsPlace(b, q) && q.Before(next) && MadeAtPlace(b, after, o, q);
      } else {
        if !tx.IsCoinBase() {
          SpendingKeeps(m, tx.vin, o);
        }
        assert TracedTo(b, m, o, q);
        var r: Place :| IsPlace(b, r) && r.Before(q) && MadeAtPlace(b, m, o, r);
        assert r.Before(next) && MadeAtPlace(b, after, o, r);
      }
    }
  }

  lemma TracedLater(b: BlockIndex, m: Utxo, p: Place, q: Place)
    requires Traced(b, m, p) && (p == q || p.Before(q))
    ensures Traced(b, m, q)
  {
    forall o: OutPoint | Available(m, o)
      ensures TracedTo(b, m, o, q)
    {
      assert TracedTo(b, m, o, p);
      var r: Place :| IsPlace(b, r) && r.Before(p) && MadeAtPlace(b, m, o, r);
      assert r.Before(q);
    }
  }

  lemma {:induction false} TracedInBlock(b: BlockIndex, m: Utxo, k: nat, j: nat)
    requires 0 < k < |b.ancestry| && j <= |b.ancestry[k].block.txs| && AllHaveOutputs(b.ancestry[k].block.txs)
    requires WellFormed(m) && Traced(b, m, Place(k, 0))
    ensures Traced(b, ApplyTxs(m, b.ancestry[k].block.txs[..j], k), Place(k, j))
  {
    var txs := b.ancestry[k].block.txs;
    hide Traced, ApplyTx;
    if j > 0 {
      TracedInBlock(b, m, k, j - 1);
      assert txs[..j][..j - 1] == txs[..j - 1];
      ApplyTxsKeeps(m, txs[..j - 1], k);
      TracedStep(b, ApplyTxs(m, txs[..j - 1], k), Place(k, j - 1));
    } else {
      assert txs[..0] == [];
    }
  }

  lemma {:induction false} TracedOnChain(rules: Rules, b: BlockIndex, k: nat)
    requires b.Rooted() && Sound(rules, b) && k <= |b.ancestry|
    ensures Traced(b, LedgerBelow(b, k), Place(k, 0))
  {
    hide Sound, BlockIndex.Rooted, LedgerBelow;
    if k <= 1 {
      NothingAtGenesis(rules, b, k);
    } else {
      hide Traced;
      TracedOnChain(rules, b, k - 1);
      BlockOutputs(rules, b, k - 1);
      var txs := b.ancestry[k - 1].block.txs;
      TracedInBlock(b, LedgerBelow(b, k - 1), k - 1, |txs|);
      assert txs[..|txs|] == txs;
      TracedLater(b, LedgerBelow(b, k), Place(k - 1, |txs|), Place(k, 0));
    }
  }

  lemma NothingAtGenesis(rules: Rules, b: BlockIndex, k: nat)
    requires b.Rooted() && Sound(rules, b) && k <= 1 && k <= |b.ancestry|
    ensures LedgerBelow(b, k) == map[]
  {
    assert |b.ancestry| > 0;
    hide Sound, BlockIndex.Rooted, LedgerBelow;
    LedgerBelowStep(rules, b, 0);
  }

  /** Every output that is spent on the active chain was made by a transaction in front of the spend, and what is
      checked is the output as it was made there. */
  lemma OriginLaw(chain: ChainState, q: Place, i: nat) returns (r: Place)
    requires chain.Valid() && chain.best != null && IsPlace(chain.best, q) && q.j > 0 && i < |TxAt(chain.best, q).vin|
    ensures IsPlace(chain.best, r) && r.Before(q)
    ensures var made, tx := TxAt(chain.best, r), TxAt(chain.best, q);
            var out := tx.vin[i].prevout;
            && out.hash == made.txid && out.n < |made.vout| && chain.rules.verify(made.vout[out.n], tx, i)
            && (r.j == 0 ==> q.k - r.k >= 3000)
  {
    var b := chain.best;
    BestIsSound(chain);
    SpendLaw(chain, q.k, q.j, i);
    BlockOutputs(chain.rules, b, q.k);
    TracedOnChain(chain.rules, b, q.k);
    TracedInBlock(b, LedgerBelow(b, q.k), q.k, q.j);
    var m, out := LedgerBefore(b, q.k, q.j), TxAt(b, q).vin[i].prevout;
    assert Available(m, out) && TracedTo(b, m, out, q);
    r :| IsPlace(b, r) && r.Before(q) && MadeAtPlace(b, m, out, r);
    TransactionLaw(chain, r.k, r.j);
  }
}
