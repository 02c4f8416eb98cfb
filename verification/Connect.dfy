/** ConnectBlock and DisconnectBlock: moving a coin view along the chain in place. */
module Connect {
  import opened Primitives
  import opened Coins
  import opened Ledger
  import opened Supply
  import opened BlockTree
  import opened CoinsView
  import opened Validation

  method HaveInputs(view: View, tx: Tx) returns (ok: bool)
    requires view.Valid() && view.base != null
    modifies view.levels
    ensures view.Flat() == old(view.Flat()) && view.Best() == old(view.Best()) && view.BaseKept()
    ensures ok <==> tx.IsCoinBase() || Ledger.HaveInputs(view.Flat(), tx.vin)
  {
    if tx.IsCoinBase() {
      return true;
    }
    for i := 0 to |tx.vin|
      invariant view.Flat() == old(view.Flat()) && view.Best() == old(view.Best()) && view.BaseKept()
      invariant forall k :: 0 <= k < i ==> tx.vin[k].prevout.hash in view.Flat()
    {
      var found := view.HaveCoins(tx.vin[i].prevout.hash);
      if !found {
        return false;
      }
    }
    for i := 0 to |tx.vin|
      invariant view.Flat() == old(view.Flat()) && view.Best() == old(view.Best()) && view.BaseKept()
      invariant forall k :: 0 <= k < i ==> Available(view.Flat(), tx.vin[k].prevout)
    {
      var coins := view.GetCoins(tx.vin[i].prevout.hash);
      if !coins.value.IsAvailable(tx.vin[i].prevout.n) {
        return false;
      }
    }
    return true;
  }

  /** UpdateCoins: spend the inputs, add the outputs.  The assertions of the source hold. */
  method UpdateCoins(view: View, tx: Tx, height: int) returns (undo: seq<TxInUndo>)
    requires view.Valid() && view.base != null && WellFormed(view.Flat())
    requires !tx.IsCoinBase() ==> Ledger.HaveInputs(view.Flat(), tx.vin) && DistinctInputs(tx.vin)
    modifies view.levels
    ensures view.Flat() == ApplyTx(old(view.Flat()), tx, height)
    ensures view.Best() == old(view.Best()) && view.BaseKept()
    ensures undo == if tx.IsCoinBase() then [] else InputUndos(old(view.Flat()), tx.vin)
  {
    hide View.Flat, View.Best, WellFormed, Live;
    ghost var m := view.Flat();
    undo := [];
    if !tx.IsCoinBase() {
      for i := 0 to |tx.vin|
        invariant view.Flat() == SpendInputs(m, tx.vin[..i])
        invariant view.Best() == old(view.Best()) && view.BaseKept()
        invariant undo == InputUndos(m, tx.vin[..i])
      {
        var out := tx.vin[i].prevout;
        SpendInputsRemoves(m, tx.vin[..i]);
        assert Available(view.Flat(), out);
        assert tx.vin[..i + 1][..i] == tx.vin[..i];
        var coins := view.GetCoins(out.hash);
        assert coins.Some?;
        var ok, spent, u := Spend(coins.value, out.n);
        assert ok;
        view.SetCoins(out.hash, spent);
        undo := undo + [u];
      }
      assert tx.vin[..|tx.vin|] == tx.vin;
    }
    view.SetCoins(tx.txid, CoinsOf(tx, height));
  }

  /** The first loop of CheckInputs: maturity and value ranges. */
  method CheckInputValues(view: View, tx: Tx, height: int) returns (ok: bool, valueIn: int)
    requires view.Valid() && view.base != null && Ledger.HaveInputs(view.Flat(), tx.vin)
    modifies view.levels
    ensures view.Flat() == old(view.Flat()) && view.Best() == old(view.Best()) && view.BaseKept()
    ensures ok <==> InputValuesOk(view.Flat(), tx, height)
    ensures ok ==> valueIn == ValueIn(view.Flat(), tx.vin)
  {
    hide View.Flat, View.Best, Live;
    ghost var m := view.Flat();
    valueIn := 0;
    for i := 0 to |tx.vin|
      invariant view.Flat() == m && view.Best() == old(view.Best()) && view.BaseKept()
      invariant Ledger.HaveInputs(m, tx.vin[..i]) && valueIn == ValueIn(m, tx.vin[..i])
      invariant forall k :: 0 <= k < i ==> InputOk(m, tx.vin[k].prevout, height)
      invariant MoneyRange(valueIn)
    {
      var out := tx.vin[i].prevout;
      assert Available(m, out);
      var coins := view.GetCoins(out.hash);
      if coins.value.coinBase && height - coins.value.height < COINBASE_MATURITY {
        return false, valueIn;
      }
      assert tx.vin[..i + 1][..i] == tx.vin[..i];
      var value := coins.value.vout[out.n].value;
      valueIn := valueIn + value;
      if !MoneyRange(value) || !MoneyRange(valueIn) {
        PrefixInTooLarge(m, tx, height, i + 1);
        return false, valueIn;
      }
    }
    assert tx.vin[..|tx.vin|] == tx.vin;
    return true, valueIn;
  }

  /** The second loop of CheckInputs: one script verification for each input. */
  method VerifyInputs(view: View, tx: Tx, verify: Verifier) returns (ok: bool)
    requires view.Valid() && view.base != null && Ledger.HaveInputs(view.Flat(), tx.vin)
    modifies view.levels
    ensures view.Flat() == old(view.Flat()) && view.Best() == old(view.Best()) && view.BaseKept()
    ensures ok <==> forall i :: 0 <= i < |tx.vin| ==> verify(OutputFor(view.Flat(), tx.vin[i].prevout), tx, i)
  {
    ghost var m := view.Flat();
    for i := 0 to |tx.vin|
      invariant view.Flat() == m && view.Best() == old(view.Best()) && view.BaseKept()
      invariant forall k :: 0 <= k < i ==> verify(OutputFor(m, tx.vin[k].prevout), tx, k)
    {
      assert Available(m, tx.vin[i].prevout);
      var coins := view.GetCoins(tx.vin[i].prevout.hash);
      if !verify(coins.value.vout[tx.vin[i].prevout.n], tx, i) {
        return false;
      }
    }
    return true;
  }

  /** CheckInputs for a transaction that is not a coinbase. */
  method CheckInputs(view: View, tx: Tx, height: int, verify: Verifier) returns (ok: bool, valueIn: int)
    requires view.Valid() && view.base != null && !tx.IsCoinBase()
    modifies view.levels
    ensures view.Flat() == old(view.Flat()) && view.Best() == old(view.Best()) && view.BaseKept()
    ensures ok <==> InputsOk(view.Flat(), tx, height, verify)
    ensures ok ==> valueIn == ValueIn(view.Flat(), tx.vin)
  {
    valueIn := 0;
    ok := HaveInputs(view, tx);
    if ok {
      ok, valueIn := CheckInputValues(view, tx, height);
    }
    if ok && (valueIn - ValueOut(tx.vout) < MinFee(tx.size) || !MoneyRange(valueIn - ValueOut(tx.vout))) {
      ok := false;
    }
    if ok {
      ok := VerifyInputs(view, tx, verify);
    }
  }

  lemma PrefixInTooLarge(m: Utxo, tx: Tx, height: int, i: nat)
    requires Ledger.HaveInputs(m, tx.vin) && 0 < i <= |tx.vin|
    requires !MoneyRange(OutputFor(m, tx.vin[i - 1].prevout).value) || !MoneyRange(ValueIn(m, tx.vin[..i]))
    ensures !InputValuesOk(m, tx, height)
  {
    if InputValuesOk(m, tx, height) {
      assert InputOk(m, tx.vin[i - 1].prevout, height);
      ValueInGrows(m, tx.vin, i);
    }
  }

  /** The loop body of ConnectBlock. */
  method ConnectTx(view: View, tx: Tx, height: int, verify: Verifier)
    returns (ok: bool, valueIn: int, undo: seq<TxInUndo>)
    requires view.Valid() && view.base != null && WellFormed(view.Flat()) && TxChecks(tx)
    modifies view.levels
    ensures view.Best() == old(view.Best()) && view.BaseKept()
    ensures ok <==> tx.IsCoinBase() || InputsOk(old(view.Flat()), tx, height, verify)
    ensures ok ==> && view.Flat() == ApplyTx(old(view.Flat()), tx, height)
                   && valueIn == TxValueIn(old(view.Flat()), tx)
                   && undo == if tx.IsCoinBase() then [] else InputUndos(old(view.Flat()), tx.vin)
  {
    ok, valueIn, undo := true, 0, [];
    if !tx.IsCoinBase() {
      ok, valueIn := CheckInputs(view, tx, height, verify);
    }
    if ok {
      undo := UpdateCoins(view, tx, height);
    }
  }

  lemma InputsFoundStep(m: Utxo, txs: seq<Tx>, height: int, i: nat)
    requires i < |txs| && InputsFound(m, txs[..i], height)
    requires !txs[i].IsCoinBase() ==> Ledger.HaveInputs(ApplyTxs(m, txs[..i], height), txs[i].vin)
    ensures InputsFound(m, txs[..i + 1], height)
  {
    var next := txs[..i + 1];
    forall j | 0 <= j < |next| && !next[j].IsCoinBase()
      ensures Ledger.HaveInputs(ApplyTxs(m, next[..j], height), next[j].vin)
    {
      if j < i {
        assert next[..j] == txs[..i][..j];
        assert txs[..i][j] == next[j];
      } else {
        assert next[..j] == txs[..i];
      }
    }
  }

  /** Running totals of ConnectBlock after some transactions. */
  datatype Totals = Totals(valueIn: int, valueOut: int, fees: int, undo: seq<seq<TxInUndo>>)

  ghost function BlockTotals(m: Utxo, txs: seq<Tx>, height: int): Totals
    requires InputsFound(m, txs, height)
  {
    Totals(BlockValueIn(m, txs, height), BlockValueOut(txs), Fees(m, txs, height), BlockUndo(m, txs, height))
  }

  function AddTx(t: Totals, tx: Tx, valueIn: int, undo: seq<TxInUndo>): Totals {
    var valueOut := ValueOut(tx.vout);
    if tx.IsCoinBase() then t.(valueOut := t.valueOut + valueOut)
    else Totals(t.valueIn + valueIn, t.valueOut + valueOut, t.fees + valueIn - valueOut, t.undo + [undo])
  }

  lemma BlockStart(m: Utxo, height: int)
    ensures InputsFound(m, [], height) && ApplyTxs(m, [], height) == m
    ensures BlockTotals(m, [], height) == Totals(0, 0, 0, [])
  {
  }

  lemma BlockStep(m: Utxo, txs: seq<Tx>, height: int, i: nat)
    requires i < |txs| && CoinBaseFirst(txs) && InputsFound(m, txs[..i], height)
    requires InputsFound(m, txs[..i + 1], height)
    requires !txs[i].IsCoinBase() ==> Ledger.HaveInputs(ApplyTxs(m, txs[..i], height), txs[i].vin)
    ensures ApplyTxs(m, txs[..i + 1], height) == ApplyTx(ApplyTxs(m, txs[..i], height), txs[i], height)
    ensures var m1 := ApplyTxs(m, txs[..i], height);
            BlockTotals(m, txs[..i + 1], height)
              == AddTx(BlockTotals(m, txs[..i], height), txs[i], TxValueIn(m1, txs[i]),
                       if txs[i].IsCoinBase() then [] else InputUndos(m1, txs[i].vin))
  {
    hide ApplyTx, InputUndos, ValueIn, ValueOut, Available, WellFormed;
    assert txs[..i + 1][..i] == txs[..i];
  }

  /** The main loop of ConnectBlock. */
  method ConnectTxs(view: View, txs: seq<Tx>, height: int, verify: Verifier) returns (ok: bool, totals: Totals)
    requires view.Valid() && view.base != null && WellFormed(view.Flat()) && height != 0
    requires BlockChecks(txs)
    modifies view.levels
    ensures view.Best() == old(view.Best()) && view.BaseKept()
    ensures ok <==> SpendsOk(old(view.Flat()), txs, height, verify)
    ensures ok ==> InputsFound(old(view.Flat()), txs, height)
    ensures ok ==> view.Flat() == ApplyTxs(old(view.Flat()), txs, height)
    ensures ok ==> totals == BlockTotals(old(view.Flat()), txs, height)
  {
    hide View.Flat, View.Best, WellFormed, Live, TxChecks, InputsOk, InputsFound, ApplyTxs, ApplyTx, BlockTotals, AddTx;
    BlockChecksImplyOutputs(txs);
    BlockStart(view.Flat(), height);
    ghost var m := view.Flat();
    ok, totals := true, Totals(0, 0, 0, []);
    for i := 0 to |txs|
      invariant ok && view.Best() == old(view.Best()) && view.BaseKept()
      invariant view.Flat() == ApplyTxs(m, txs[..i], height)
      invariant InputsFound(m, txs[..i], height)
      invariant totals == BlockTotals(m, txs[..i], height)
      invariant SpendsOkUpTo(m, txs, height, verify, i)
    {
      ApplyTxsKeeps(m, txs[..i], height);
      var valueIn, undo;
      ok, valueIn, undo := ConnectTx(view, txs[i], height, verify);
      assert ok <==> SpendOkAt(m, txs, height, verify, i);
      if !ok {
        if SpendsOk(m, txs, height, verify) {
          SpendsOkAt(m, txs, height, verify, i, |txs|);
        }
        return;
      }
      SpendOkFindsInputs(m, txs, height, verify, i);
      InputsFoundStep(m, txs, height, i);
      BlockStep(m, txs, height, i);
      totals := AddTx(totals, txs[i], valueIn, undo);
    }
    assert txs[..|txs|] == txs;
  }

  ghost predicate DistinctUpTo(txs: seq<Tx>, i: nat)
    requires i <= |txs|
  {
    forall a, b :: 0 <= a < b < i ==> txs[a].txid != txs[b].txid
  }

  /** The duplicate check of CheckBlock, by counting. */
  method AllDistinct(txs: seq<Tx>) returns (ok: bool)
    ensures ok <==> DistinctTxids(txs)
  {
    var unique: set<Hash> := {};
    for i := 0 to |txs|
      invariant unique == set k | 0 <= k < i :: txs[k].txid
      invariant |unique| <= i
      invariant |unique| == i <==> DistinctUpTo(txs, i)
    {
      if txs[i].txid in unique {
        assert unique + {txs[i].txid} == unique;
        assert !DistinctUpTo(txs, i + 1);
      } else {
        assert DistinctUpTo(txs, i + 1) <==> DistinctUpTo(txs, i);
      }
      unique := unique + {txs[i].txid};
    }
    return |unique| == |txs|;
  }

  method CheckBlock(txs: seq<Tx>) returns (ok: bool)
    ensures ok <==> BlockChecks(txs)
  {
    if |txs| == 0 || |txs| > MAX_BLOCK_SIZE || !txs[0].IsCoinBase() {
      return false;
    }
    for i := 1 to |txs|
      invariant forall k :: 1 <= k < i ==> !txs[k].IsCoinBase()
    {
      if txs[i].IsCoinBase() {
        return false;
      }
    }
    for i := 0 to |txs|
      invariant forall k :: 0 <= k < i ==> TxChecks(txs[k])
    {
      ok := CheckTransaction(txs[i]);
      if !ok {
        return;
      }
    }
    ok := AllDistinct(txs);
  }

  /** The BIP 30 loop of ConnectBlock. */
  method CheckNoOverwrite(view: View, txs: seq<Tx>) returns (ok: bool)
    requires view.Valid() && view.base != null
    modifies view.levels
    ensures view.Flat() == old(view.Flat()) && view.Best() == old(view.Best()) && view.BaseKept()
    ensures ok <==> NoOverwrite(view.Flat(), txs)
  {
    for i := 0 to |txs|
      invariant view.Flat() == old(view.Flat()) && view.Best() == old(view.Best()) && view.BaseKept()
      invariant forall k :: 0 <= k < i ==> txs[k].txid !in Live(view.Flat())
    {
      var coins := view.GetCoins(txs[i].txid);
      if coins.Some? && !coins.value.IsPruned() {
        return false;
      }
    }
    return true;
  }

  /** The part of ConnectBlock that works on the view. */
  method ConnectOnView(view: View, pindex: BlockIndex, verify: Verifier)
    returns (spent: bool, ok: bool, totals: Totals)
    requires view.Valid() && view.base != null && WellFormed(view.Flat()) && pindex.height != 0
    requires BlockChecks(pindex.block.txs)
    modifies view.levels
    ensures view.BaseKept()
    ensures ok <==> BlockOk(old(view.Flat()), pindex.block, pindex.height, verify)
    ensures ok ==> spent
    ensures spent ==> Connects(old(view.Flat()), pindex.block.txs, pindex.height)
    ensures spent ==> totals == BlockTotals(old(view.Flat()), pindex.block.txs, pindex.height)
    ensures ok ==> view.Flat() == ApplyTxs(old(view.Flat()), pindex.block.txs, pindex.height)
    ensures ok ==> view.Best() == pindex == view.tip
  {
    ghost var m := view.Flat();
    var txs := pindex.block.txs;
    spent, ok, totals := false, false, Totals(0, 0, 0, []);
    ok := CheckNoOverwrite(view, txs);
    if !ok {
      return;
    }
    ok, totals := ConnectTxs(view, txs, pindex.height, verify);
    if !ok {
      return;
    }
    spent := true;
    BlockOkConnects(m, txs, pindex.height, verify);
    if ValueOut(txs[0].vout) > Subsidy(pindex.block.bits) + totals.fees - MinFee(txs[0].size) + MIN_TX_FEE {
      ok := false;
      return;
    }
    view.SetBestBlock(pindex);
  }

  datatype Verdict = Accepted | Invalid | Failed

  /** Script verification, and the outcome of the checks that this model does not spell out. */
  datatype Rules = Rules(verify: Verifier, other: Block -> Verdict)

  /** What ConnectBlock decides about a block on top of a ledger; the genesis block is not checked against it. */
  ghost function VerdictOn(rules: Rules, m: Utxo, pindex: BlockIndex): Verdict {
    if !BlockChecks(pindex.block.txs) then Invalid
    else if !rules.other(pindex.block).Accepted? then rules.other(pindex.block)
    else if pindex.pprev == null || BlockOk(m, pindex.block, pindex.height, rules.verify) then Accepted
    else Invalid
  }

  lemma VerdictByLive(rules: Rules, m: Utxo, m': Utxo, pindex: BlockIndex)
    requires Live(m) == Live(m')
    ensures VerdictOn(rules, m, pindex) == VerdictOn(rules, m', pindex)
  {
    hide Live, BlockOk;
    if BlockOk(m, pindex.block, pindex.height, rules.verify) {
      BlockOkByLive(m, m', pindex.block, pindex.height, rules.verify);
    }
    if BlockOk(m', pindex.block, pindex.height, rules.verify) {
      BlockOkByLive(m', m, pindex.block, pindex.height, rules.verify);
    }
  }

  /** What ConnectBlock adds to the ledger; the genesis block adds nothing. */
  ghost function Extended(m: Utxo, pindex: BlockIndex): Utxo {
    if pindex.pprev == null then m else ApplyTxs(m, pindex.block.txs, pindex.height)
  }

  function PrevSupply(pindex: BlockIndex): int
    reads pindex.pprev
  {
    if pindex.pprev == null then 0 else pindex.pprev.moneySupply
  }

  /** Money supply and undo data go into the block index.  Undo data that is already there is kept. */
  method RecordConnected(pindex: BlockIndex, spent: bool, ok: bool, totals: Totals)
    requires pindex.pprev != pindex
    modifies pindex`moneySupply, pindex`undo
    ensures spent ==> pindex.moneySupply == old(PrevSupply(pindex)) + totals.valueOut - totals.valueIn
    ensures pindex.undo == if ok && old(pindex.undo).None? then Some(totals.undo) else old(pindex.undo)
  {
    if spent {
      pindex.moneySupply := PrevSupply(pindex) + totals.valueOut - totals.valueIn;
    }
    if ok && pindex.undo.None? {
      pindex.undo := Some(totals.undo);
    }
  }

  /** ConnectBlock.  The rules decide the size, time, signature-operation and Merkle root checks. */
  method ConnectBlock(view: View, pindex: BlockIndex, rules: Rules) returns (r: Verdict)
    requires view.Valid() && view.base != null && WellFormed(view.Flat())
    requires pindex.Rooted() && pindex.pprev == view.Best()
    modifies view.levels, pindex`moneySupply, pindex`undo
    ensures view.BaseKept()
    ensures r == VerdictOn(rules, old(view.Flat()), pindex)
    ensures r.Accepted? ==>
              && view.Flat() == Extended(old(view.Flat()), pindex)
              && view.Best() == pindex == view.tip
              && pindex.undo == (if old(pindex.undo).Some? || pindex.pprev == null then old(pindex.undo)
                                 else Some(BlockUndo(old(view.Flat()), pindex.block.txs, pindex.height)))
    ensures r.Accepted? && pindex.pprev != null ==>
              Connects(old(view.Flat()), pindex.block.txs, pindex.height)
    ensures r.Accepted? && pindex.pprev != null ==>
              pindex.moneySupply == old(PrevSupply(pindex)) + BlockValueOut(pindex.block.txs)
                                    - BlockValueIn(old(view.Flat()), pindex.block.txs, pindex.height)
    ensures pindex.pprev == null ==> pindex.moneySupply == old(pindex.moneySupply)
    ensures !r.Accepted? ==> pindex.undo == old(pindex.undo)
  {
    hide View.Flat, View.Best, WellFormed, BlockOk, Connects;
    var ok := CheckBlock(pindex.block.txs);
    if !ok {
      return Invalid;
    }
    r := rules.other(pindex.block);
    if !r.Accepted? {
      return;
    }
    if pindex.pprev == null {
      view.SetBestBlock(pindex);
      return Accepted;
    }
    ParentRooted(pindex);
    var spent, totals;
    spent, ok, totals := ConnectOnView(view, pindex, rules.verify);
    RecordConnected(pindex, spent, ok, totals);
    return if ok then Accepted else Invalid;
  }

  /** Restore one spent output; the complaints of DisconnectBlock make it unclean, but it carries on. */
  method RestoreOne(view: View, out: OutPoint, undo: TxInUndo) returns (clean: bool)
    requires view.Valid() && view.base != null
    modifies view.levels
    ensures view.Flat() == RestoreInput(old(view.Flat()), out, undo)
    ensures view.Best() == old(view.Best()) && view.BaseKept()
    ensures clean <==> RestoreIsClean(Lookup(old(view.Flat()), out.hash), out.n, undo)
  {
    clean := true;
    var found := view.GetCoins(out.hash);
    var coins := if found.Some? then found.value else NO_COINS;
    if undo.height != 0 {
      if !coins.IsPruned() {
        clean := false;
      }
      coins := Coins(undo.coinBase, [], undo.height, undo.version);
    } else {
      if coins.IsPruned() {
        clean := false;
      }
    }
    if coins.IsAvailable(out.n) {
      clean := false;
    }
    var vout := Resized(coins.vout, out.n + 1);
    coins := coins.(vout := vout[out.n := undo.txout]);
    view.SetCoins(out.hash, coins);
  }

  method RestoreAll(view: View, vin: seq<TxIn>, undos: seq<TxInUndo>) returns (clean: bool)
    requires view.Valid() && view.base != null && |vin| == |undos|
    modifies view.levels
    ensures view.Flat() == RestoreInputs(old(view.Flat()), vin, undos)
    ensures view.Best() == old(view.Best()) && view.BaseKept()
    ensures clean <==> RestoresCleanly(old(view.Flat()), vin, undos)
  {
    hide View.Flat, View.Best, RestoreInput, RestoreIsClean;
    ghost var m := view.Flat();
    clean := true;
    assert vin[..|vin|] == vin && undos[..|vin|] == undos;
    for j := |vin| downto 0
      invariant view.Best() == old(view.Best()) && view.BaseKept()
      invariant RestoreInputs(view.Flat(), vin[..j], undos[..j]) == RestoreInputs(m, vin, undos)
      invariant clean && RestoresCleanly(view.Flat(), vin[..j], undos[..j]) <==> RestoresCleanly(m, vin, undos)
    {
      assert vin[..j + 1][..j] == vin[..j] && undos[..j + 1][..j] == undos[..j];
      var one := RestoreOne(view, vin[j].prevout, undos[j]);
      clean := clean && one;
    }
  }

  /** Take the outputs of a transaction out of the view again. */
  method RemoveOutputs(view: View, tx: Tx, height: int) returns (clean: bool)
    requires view.Valid() && view.base != null
    modifies view.levels
    ensures view.Flat() == old(view.Flat())[tx.txid := NO_COINS]
    ensures view.Best() == old(view.Best()) && view.BaseKept()
    ensures clean <==> OutputsIntact(old(view.Flat()), tx, height)
  {
    clean := true;
    var found := view.GetCoins(tx.txid);
    var outs := NO_COINS;
    if found.None? {
      clean := false;
      view.SetCoins(tx.txid, NO_COINS);
    } else {
      outs := found.value;
    }
    var outsBlock := CoinsOf(tx, height);
    if outsBlock.version < 0 {
      outs := outs.(version := outsBlock.version);
    }
    if outs != outsBlock {
      clean := false;
    }
    view.SetCoins(tx.txid, NO_COINS);
  }

  /** The undo record for a suffix of the loop in DisconnectBlock. */
  ghost function UndoPrefix(undos: seq<seq<TxInUndo>>, i: nat): seq<seq<TxInUndo>>
    requires i <= |undos| + 1
  {
    if i == 0 then [] else undos[..i - 1]
  }

  /** One round of that loop, on values. */
  lemma UndoStep(m: Utxo, txs: seq<Tx>, height: int, undos: seq<seq<TxInUndo>>, i: nat)
    requires i < |txs| && FitsBlock(txs, undos)
    ensures FitsBlock(txs[..i], UndoPrefix(undos, i)) && FitsBlock(txs[..i + 1], UndoPrefix(undos, i + 1))
    ensures i > 0 ==> |TxUndo(undos, i)| == |txs[i].vin|
    ensures UndoTxs(m, txs[..i + 1], UndoPrefix(undos, i + 1))
         == UndoTxs(UndoTx(m, txs[i], i == 0, TxUndo(undos, i)), txs[..i], UndoPrefix(undos, i))
    ensures TxsUndoCleanly(m, txs[..i + 1], height, UndoPrefix(undos, i + 1))
       <==> && UndoesCleanly(m, txs[i], i == 0, height, TxUndo(undos, i))
            && TxsUndoCleanly(UndoTx(m, txs[i], i == 0, TxUndo(undos, i)), txs[..i], height, UndoPrefix(undos, i))
  {
    var prefix := UndoPrefix(undos, i + 1);
    assert txs[..i + 1][..i] == txs[..i];
    assert TxUndo(prefix, i) == TxUndo(undos, i);
    assert (if i == 0 then [] else prefix[..i - 1]) == UndoPrefix(undos, i);
  }

  lemma UndoNothing(m: Utxo, height: int)
    ensures UndoTxs(m, [], []) == m && TxsUndoCleanly(m, [], height, [])
  {
  }

  /** DisconnectBlock.  A caller that asks for a report is told whether the view matched the undo data; otherwise a
      mismatch is a failure. */
  method DisconnectBlock(view: View, pindex: BlockIndex, report: bool) returns (ok: bool, clean: bool)
    requires view.Valid() && view.base != null
    requires pindex == view.Best()
    requires pindex.undo.Some? ==> pindex.pprev != null
    modifies view.levels
    ensures view.BaseKept()
    ensures ok <==> HasUndo(pindex) && (report || clean)
    ensures clean <==> HasUndo(pindex)
                       && TxsUndoCleanly(old(view.Flat()), pindex.block.txs, pindex.height, pindex.undo.value)
    ensures ok ==>
              && pindex.pprev != null && view.Best() == pindex.pprev == view.tip
              && view.Flat() == UndoTxs(old(view.Flat()), pindex.block.txs, pindex.undo.value)
  {
    ok, clean := false, false;
    var txs := pindex.block.txs;
    if pindex.undo.None? {
      return;
    }
    var undos := pindex.undo.value;
    if |undos| + 1 != |txs| {
      return;
    }
    var fits;
    fits, clean := UndoAll(view, txs, pindex.height, undos);
    if !fits {
      clean := false;
      return;
    }
    view.SetBestBlock(pindex.pprev);
    ok := report || clean;
  }

  /** Undo data that fit the block are there. */
  ghost predicate HasUndo(pindex: BlockIndex)
    reads pindex`undo
  {
    pindex.undo.Some? && pindex.block.txs != [] && FitsBlock(pindex.block.txs, pindex.undo.value)
  }

  /** The loop of DisconnectBlock over the transactions, last first. */
  method UndoAll(view: View, txs: seq<Tx>, height: int, undos: seq<seq<TxInUndo>>) returns (fits: bool, clean: bool)
    requires view.Valid() && view.base != null && |undos| + 1 == |txs|
    modifies view.levels
    ensures view.Best() == old(view.Best()) && view.BaseKept()
    ensures fits <==> FitsBlock(txs, undos)
    ensures fits ==> view.Flat() == UndoTxs(old(view.Flat()), txs, undos)
    ensures fits ==> (clean <==> TxsUndoCleanly(old(view.Flat()), txs, height, undos))
  {
    hide View.Flat, View.Best, UndoTxs, TxsUndoCleanly, RestoreInputs, RestoresCleanly, OutputsIntact;
    ghost var m := view.Flat();
    fits, clean := true, true;
    assert txs[..|txs|] == txs && UndoPrefix(undos, |txs|) == undos;
    for i := |txs| downto 0
      invariant fits && view.Best() == old(view.Best()) && view.BaseKept()
      invariant forall k :: i <= k < |txs| && k > 0 ==> |undos[k - 1]| == |txs[k].vin|
      invariant FitsBlock(txs, undos) ==> FitsBlock(txs[..i], UndoPrefix(undos, i))
      invariant FitsBlock(txs, undos) ==>
                  UndoTxs(view.Flat(), txs[..i], UndoPrefix(undos, i)) == UndoTxs(m, txs, undos)
      invariant FitsBlock(txs, undos) ==>
                  (clean && TxsUndoCleanly(view.Flat(), txs[..i], height, UndoPrefix(undos, i))
                   <==> TxsUndoCleanly(m, txs, height, undos))
    {
      if FitsBlock(txs, undos) {
        UndoStep(view.Flat(), txs, height, undos, i);
      }
      var intact := RemoveOutputs(view, txs[i], height);
      clean := clean && intact;
      if i > 0 {
        if |undos[i - 1]| != |txs[i].vin| {
          return false, clean;
        }
        var restored := RestoreAll(view, txs[i].vin, undos[i - 1]);
        clean := clean && restored;
      }
    }
    UndoNothing(view.Flat(), height);
  }
}
