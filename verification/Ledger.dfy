/** What connecting and disconnecting a block does to the set of unspent outputs, as functions of that set.
    The coin views of CoinsView.dfy carry these functions out in place. */
module Ledger {
  import opened Primitives
  import opened Coins

  type Utxo = map<Hash, Coins>

  /** The entries that still hold an unspent output.  Two maps with the same live part are the same ledger. */
  function Live(m: Utxo): Utxo {
    map k | k in m && !m[k].IsPruned() :: m[k]
  }

  predicate Available(m: Utxo, out: OutPoint) {
    out.hash in m && m[out.hash].IsAvailable(out.n)
  }

  /** Height 0 is reserved: it marks an undo record without metadata. */
  ghost predicate WellFormed(m: Utxo) {
    forall k :: k in m && !m[k].IsPruned() ==> m[k].Canonical() && m[k].height != 0
  }

  // ---------- Inputs ----------

  function SpendInput(m: Utxo, out: OutPoint): Utxo {
    if Available(m, out) then m[out.hash := SpendOut(m[out.hash], out.n)] else m
  }

  function SpendInputs(m: Utxo, vin: seq<TxIn>): Utxo {
    if vin == [] then m
    else SpendInput(SpendInputs(m, vin[..|vin| - 1]), vin[|vin| - 1].prevout)
  }

  function InputUndo(m: Utxo, out: OutPoint): TxInUndo {
    if Available(m, out) then UndoOf(m[out.hash], out.n) else TxInUndo(NULL_OUT, false, 0, 0)
  }

  function InputUndos(m: Utxo, vin: seq<TxIn>): (r: seq<TxInUndo>)
    ensures |r| == |vin|
  {
    if vin == [] then []
    else
      var init := vin[..|vin| - 1];
      InputUndos(m, init) + [InputUndo(SpendInputs(m, init), vin[|vin| - 1].prevout)]
  }

  function Lookup(m: Utxo, txid: Hash): Coins {
    if txid in m then m[txid] else NO_COINS
  }

  function RestoreInput(m: Utxo, out: OutPoint, undo: TxInUndo): Utxo {
    m[out.hash := RestoreOut(Lookup(m, out.hash), out.n, undo)]
  }

  /** DisconnectBlock walks the inputs backwards. */
  function RestoreInputs(m: Utxo, vin: seq<TxIn>, undos: seq<TxInUndo>): Utxo
    requires |vin| == |undos|
    decreases |vin|
  {
    if vin == [] then m
    else
      var last := |vin| - 1;
      RestoreInputs(RestoreInput(m, vin[last].prevout, undos[last]), vin[..last], undos[..last])
  }

  predicate RestoresCleanly(m: Utxo, vin: seq<TxIn>, undos: seq<TxInUndo>)
    requires |vin| == |undos|
    decreases |vin|
  {
    vin == [] ||
    var last := |vin| - 1;
    && RestoreIsClean(Lookup(m, vin[last].prevout.hash), vin[last].prevout.n, undos[last])
    && RestoresCleanly(RestoreInput(m, vin[last].prevout, undos[last]), vin[..last], undos[..last])
  }

  ghost predicate DistinctInputs(vin: seq<TxIn>) {
    forall i, j :: 0 <= i < j < |vin| ==> vin[i].prevout != vin[j].prevout
  }

  predicate HaveInputs(m: Utxo, vin: seq<TxIn>) {
    forall i :: 0 <= i < |vin| ==> Available(m, vin[i].prevout)
  }

  lemma SpendInputKeeps(m: Utxo, out: OutPoint)
    requires WellFormed(m)
    ensures WellFormed(SpendInput(m, out))
    ensures forall o: OutPoint :: Available(SpendInput(m, out), o) <==> Available(m, o) && o != out
    ensures Live(SpendInput(m, out)).Keys <= Live(m).Keys
  {
    if Available(m, out) {
      SpendRemovesOne(m[out.hash], out.n);
      PrunedIsEmpty(SpendOut(m[out.hash], out.n));
    }
  }

  /** Spending a transaction's inputs removes exactly those outputs. */
  lemma {:induction false} SpendInputsRemoves(m: Utxo, vin: seq<TxIn>)
    requires WellFormed(m)
    ensures WellFormed(SpendInputs(m, vin))
    ensures forall o: OutPoint :: Available(SpendInputs(m, vin), o)
              <==> Available(m, o) && forall i :: 0 <= i < |vin| ==> vin[i].prevout != o
    ensures Live(SpendInputs(m, vin)).Keys <= Live(m).Keys
  {
    if vin != [] {
      SpendInputsRemoves(m, vin[..|vin| - 1]);
      SpendInputKeeps(SpendInputs(m, vin[..|vin| - 1]), vin[|vin| - 1].prevout);
    }
  }

  lemma RestoreInputInverts(m: Utxo, out: OutPoint, d: Utxo)
    requires WellFormed(m) && Available(m, out)
    requires Live(d) == Live(SpendInput(m, out))
    ensures RestoreIsClean(Lookup(d, out.hash), out.n, InputUndo(m, out))
    ensures Live(RestoreInput(d, out, InputUndo(m, out))) == Live(m)
  {
    var c := m[out.hash];
    var s := SpendInput(m, out);
    SpendRemovesOne(c, out.n);
    assert SameCoins(Lookup(d, out.hash), SpendOut(c, out.n)) by {
      assert out.hash in Live(d) <==> out.hash in Live(s);
      if out.hash in Live(d) {
        assert Live(d)[out.hash] == Live(s)[out.hash];
      }
    }
    RestoreInvertsSpend(c, out.n, Lookup(d, out.hash));
    hide RestoreOut, RestoreIsClean;
    forall k | k != out.hash
      ensures k in Live(d) <==> k in Live(m)
      ensures k in Live(d) ==> Live(d)[k] == Live(m)[k]
    {
      assert k in Live(d) <==> k in Live(s);
    }
  }

  lemma {:induction false} RestoreInputsInverts(m: Utxo, vin: seq<TxIn>, d: Utxo)
    requires WellFormed(m) && HaveInputs(m, vin) && DistinctInputs(vin)
    requires Live(d) == Live(SpendInputs(m, vin))
    ensures RestoresCleanly(d, vin, InputUndos(m, vin))
    ensures Live(RestoreInputs(d, vin, InputUndos(m, vin))) == Live(m)
    decreases |vin|
  {
    if vin != [] {
      var init, out := vin[..|vin| - 1], vin[|vin| - 1].prevout;
      var m1 := SpendInputs(m, init);
      SpendInputsRemoves(m, init);
      RestoreInputInverts(m1, out, d);
      var undos := InputUndos(m, vin);
      assert undos[..|vin| - 1] == InputUndos(m, init);
      RestoreInputsInverts(m, init, RestoreInput(d, out, undos[|vin| - 1]));
    }
  }

  // ---------- Transactions ----------

  function ApplyTx(m: Utxo, tx: Tx, height: int): Utxo {
    (if tx.IsCoinBase() then m else SpendInputs(m, tx.vin))[tx.txid := CoinsOf(tx, height)]
  }

  /** The part of CheckTransaction that the ledger depends on: outputs exist and none is null. */
  predicate HasOutputs(tx: Tx) {
    |tx.vout| > 0 && forall i :: 0 <= i < |tx.vout| ==> !tx.vout[i].IsNull()
  }

  /** The transaction may be applied: its id is unused and its inputs are unspent and distinct. */
  ghost predicate Applicable(m: Utxo, tx: Tx) {
    && HasOutputs(tx)
    && tx.txid !in Live(m)
    && (!tx.IsCoinBase() ==> HaveInputs(m, tx.vin) && DistinctInputs(tx.vin))
  }

  /** Take back a transaction.  DisconnectBlock treats the block's first transaction as the coinbase. */
  function UndoTx(m: Utxo, tx: Tx, first: bool, undos: seq<TxInUndo>): Utxo
    requires !first ==> |undos| == |tx.vin|
  {
    var m1 := m[tx.txid := NO_COINS];
    if first then m1 else RestoreInputs(m1, tx.vin, undos)
  }

  predicate OutputsIntact(m: Utxo, tx: Tx, height: int) {
    && tx.txid in m
    && (if tx.version < 0 then m[tx.txid].(version := tx.version) else m[tx.txid]) == CoinsOf(tx, height)
  }

  predicate UndoesCleanly(m: Utxo, tx: Tx, first: bool, height: int, undos: seq<TxInUndo>)
    requires !first ==> |undos| == |tx.vin|
  {
    && OutputsIntact(m, tx, height)
    && (!first ==> RestoresCleanly(m[tx.txid := NO_COINS], tx.vin, undos))
  }

  lemma CoinsOfIsLive(tx: Tx, height: int)
    requires HasOutputs(tx)
    ensures !CoinsOf(tx, height).IsPruned() && CoinsOf(tx, height).Canonical()
  {
    assert !tx.vout[0].IsNull();
  }

  lemma ApplyTxKeeps(m: Utxo, tx: Tx, height: int)
    requires WellFormed(m) && HasOutputs(tx) && height != 0
    ensures WellFormed(ApplyTx(m, tx, height))
    ensures Live(ApplyTx(m, tx, height)).Keys <= Live(m).Keys + {tx.txid}
  {
    SpendInputsRemoves(m, tx.vin);
    CoinsOfIsLive(tx, height);
    var m1 := if tx.IsCoinBase() then m else SpendInputs(m, tx.vin);
    forall k | k in Live(ApplyTx(m, tx, height))
      ensures k in Live(m).Keys + {tx.txid}
    {
      assert k == tx.txid || k in Live(m1);
    }
  }

  /** Clearing an entry that was not live before takes an update of it back. */
  lemma LiveRemove(m: Utxo, k: Hash, c: Coins, d: Utxo)
    requires k !in Live(m) && Live(d) == Live(m[k := c])
    ensures Live(d[k := NO_COINS]) == Live(m)
  {
    var u := d[k := NO_COINS];
    forall j | j in Live(u)
      ensures j in Live(m) && Live(m)[j] == u[j]
    {
      assert j in Live(d) && Live(d)[j] == Live(m[k := c])[j];
    }
    forall j | j in Live(m)
      ensures j in Live(u)
    {
      assert j in Live(m[k := c]) && Live(d)[j] == Live(m[k := c])[j];
    }
  }

  /** Undoing a transaction restores the ledger, from any map with the same live part. */
  lemma UndoTxInverts(m: Utxo, tx: Tx, height: int, d: Utxo)
    requires WellFormed(m) && Applicable(m, tx)
    requires Live(d) == Live(ApplyTx(m, tx, height))
    ensures UndoesCleanly(d, tx, tx.IsCoinBase(), height, InputUndos(m, tx.vin))
    ensures Live(UndoTx(d, tx, tx.IsCoinBase(), InputUndos(m, tx.vin))) == Live(m)
  {
    var spent := if tx.IsCoinBase() then m else SpendInputs(m, tx.vin);
    CoinsOfIsLive(tx, height);
    SpendInputsRemoves(m, tx.vin);
    assert tx.txid in Live(ApplyTx(m, tx, height));
    assert tx.txid in Live(d) && Live(d)[tx.txid] == CoinsOf(tx, height);
    LiveRemove(spent, tx.txid, CoinsOf(tx, height), d);
    hide WellFormed, SpendInputs, RestoreInputs, RestoresCleanly, InputUndos;
    if !tx.IsCoinBase() {
      RestoreInputsInverts(m, tx.vin, d[tx.txid := NO_COINS]);
    }
  }

  // ---------- Blocks ----------

  function ApplyTxs(m: Utxo, txs: seq<Tx>, height: int): Utxo {
    if txs == [] then m
    else ApplyTx(ApplyTxs(m, txs[..|txs| - 1], height), txs[|txs| - 1], height)
  }

  /** The undo record of a block: one entry for each transaction but the coinbase, which comes first. */
  function BlockUndo(m: Utxo, txs: seq<Tx>, height: int): (r: seq<seq<TxInUndo>>)
    ensures txs != [] ==> |r| == |txs| - 1
    ensures forall i :: 1 <= i < |txs| ==> |r[i - 1]| == |txs[i].vin|
  {
    if |txs| <= 1 then []
    else
      var init := txs[..|txs| - 1];
      BlockUndo(m, init, height) + [InputUndos(ApplyTxs(m, init, height), txs[|txs| - 1].vin)]
  }

  ghost predicate FitsBlock(txs: seq<Tx>, undos: seq<seq<TxInUndo>>) {
    && (txs != [] ==> |undos| == |txs| - 1)
    && forall i :: 1 <= i < |txs| ==> |undos[i - 1]| == |txs[i].vin|
  }

  ghost function TxUndo(undos: seq<seq<TxInUndo>>, i: nat): seq<TxInUndo>
    requires i <= |undos|
  {
    if i == 0 then [] else undos[i - 1]
  }

  ghost function UndoTxs(m: Utxo, txs: seq<Tx>, undos: seq<seq<TxInUndo>>): Utxo
    requires FitsBlock(txs, undos)
    decreases |txs|
  {
    if txs == [] then m
    else
      var last := |txs| - 1;
      UndoTxs(UndoTx(m, txs[last], last == 0, TxUndo(undos, last)), txs[..last],
              if last == 0 then [] else undos[..last - 1])
  }

  ghost predicate TxsUndoCleanly(m: Utxo, txs: seq<Tx>, height: int, undos: seq<seq<TxInUndo>>)
    requires FitsBlock(txs, undos)
    decreases |txs|
  {
    txs == [] ||
    var last := |txs| - 1;
    && UndoesCleanly(m, txs[last], last == 0, height, TxUndo(undos, last))
    && TxsUndoCleanly(UndoTx(m, txs[last], last == 0, TxUndo(undos, last)), txs[..last], height,
                      if last == 0 then [] else undos[..last - 1])
  }

  /** The first transaction is the coinbase and the only one. */
  ghost predicate CoinBaseFirst(txs: seq<Tx>) {
    forall i :: 0 <= i < |txs| ==> (txs[i].IsCoinBase() <==> i == 0)
  }

  ghost predicate DistinctTxids(txs: seq<Tx>) {
    forall i, j :: 0 <= i < j < |txs| ==> txs[i].txid != txs[j].txid
  }

  /** BIP 30: no transaction of the block replaces one that still has unspent outputs. */
  ghost predicate NoOverwrite(m: Utxo, txs: seq<Tx>) {
    forall i :: 0 <= i < |txs| ==> txs[i].txid !in Live(m)
  }

  /** Every transaction finds its inputs in what the earlier ones left. */
  ghost predicate InputsFound(m: Utxo, txs: seq<Tx>, height: int) {
    forall i :: 0 <= i < |txs| && !txs[i].IsCoinBase() ==> HaveInputs(ApplyTxs(m, txs[..i], height), txs[i].vin)
  }

  ghost predicate Connects(m: Utxo, txs: seq<Tx>, height: int) {
    && txs != [] && CoinBaseFirst(txs) && DistinctTxids(txs) && NoOverwrite(m, txs)
    && (forall i :: 0 <= i < |txs| ==> HasOutputs(txs[i]) && DistinctInputs(txs[i].vin))
    && InputsFound(m, txs, height)
  }

  lemma {:induction false} ApplyTxsKeeps(m: Utxo, txs: seq<Tx>, height: int)
    requires WellFormed(m) && height != 0
    requires forall i :: 0 <= i < |txs| ==> HasOutputs(txs[i])
    ensures WellFormed(ApplyTxs(m, txs, height))
    ensures forall k :: k in Live(ApplyTxs(m, txs, height)) ==>
              k in Live(m) || exists i :: 0 <= i < |txs| && txs[i].txid == k
  {
    if txs != [] {
      var last := |txs| - 1;
      ApplyTxsKeeps(m, txs[..last], height);
      ApplyTxKeeps(ApplyTxs(m, txs[..last], height), txs[last], height);
      forall k | k in Live(ApplyTxs(m, txs, height)) && k !in Live(m)
        ensures exists i :: 0 <= i < |txs| && txs[i].txid == k
      {
        if k != txs[last].txid {
          var i :| 0 <= i < last && txs[..last][i].txid == k;
          assert txs[i].txid == k;
        }
      }
    }
  }

  lemma PrefixApplicable(m: Utxo, txs: seq<Tx>, height: int, i: nat)
    requires WellFormed(m) && height != 0 && Connects(m, txs, height) && i < |txs|
    ensures WellFormed(ApplyTxs(m, txs[..i], height))
    ensures Applicable(ApplyTxs(m, txs[..i], height), txs[i])
  {
    ApplyTxsKeeps(m, txs[..i], height);
  }

  /** The undo record of a prefix, split at its last transaction. */
  lemma BlockUndoSplit(m: Utxo, txs: seq<Tx>, height: int, i: nat)
    requires i < |txs|
    ensures var undos := BlockUndo(m, txs[..i + 1], height);
            && FitsBlock(txs[..i + 1], undos)
            && (if i == 0 then [] else undos[..i - 1]) == BlockUndo(m, txs[..i], height)
            && TxUndo(undos, i) == if i == 0 then [] else InputUndos(ApplyTxs(m, txs[..i], height), txs[i].vin)
  {
    assert txs[..i + 1][..i] == txs[..i];
  }

  /** Disconnecting the last of a prefix of transactions. */
  lemma UndoLastInverts(m: Utxo, txs: seq<Tx>, height: int, d: Utxo, i: nat)
    requires WellFormed(m) && height != 0 && Connects(m, txs, height) && i < |txs|
    requires Live(d) == Live(ApplyTxs(m, txs[..i + 1], height))
    ensures var undo := TxUndo(BlockUndo(m, txs[..i + 1], height), i);
            && (i > 0 ==> |undo| == |txs[i].vin|)
            && UndoesCleanly(d, txs[i], i == 0, height, undo)
            && Live(UndoTx(d, txs[i], i == 0, undo)) == Live(ApplyTxs(m, txs[..i], height))
  {
    hide InputsFound, NoOverwrite, DistinctTxids, RestoreInputs, RestoresCleanly, OutputsIntact, BlockUndo;
    hide SpendInputs, Live, WellFormed;
    assert txs[..i + 1][..i] == txs[..i];
    BlockUndoSplit(m, txs, height, i);
    PrefixApplicable(m, txs, height, i);
    UndoTxInverts(ApplyTxs(m, txs[..i], height), txs[i], height, d);
  }

  /** Disconnecting a prefix of a block's transactions, last first, from any map with the right live part. */
  lemma {:induction false} UndoTxsInverts(m: Utxo, txs: seq<Tx>, height: int, d: Utxo, i: nat)
    requires WellFormed(m) && height != 0 && Connects(m, txs, height) && i <= |txs|
    requires Live(d) == Live(ApplyTxs(m, txs[..i], height))
    ensures FitsBlock(txs[..i], BlockUndo(m, txs[..i], height))
    ensures TxsUndoCleanly(d, txs[..i], height, BlockUndo(m, txs[..i], height))
    ensures Live(UndoTxs(d, txs[..i], BlockUndo(m, txs[..i], height))) == Live(m)
    decreases i
  {
    hide WellFormed, Connects, UndoTx, UndoesCleanly, BlockUndo, ApplyTx, Live;
    if i > 0 {
      var last := i - 1;
      assert txs[..i][..last] == txs[..last];
      BlockUndoSplit(m, txs, height, last);
      UndoLastInverts(m, txs, height, d, last);
      var undo := TxUndo(BlockUndo(m, txs[..i], height), last);
      UndoTxsInverts(m, txs, height, UndoTx(d, txs[last], last == 0, undo), last);
    }
  }

  /** DisconnectBlock undoes ConnectBlock: with the recorded undo data it is clean and gives back the ledger,
      whether or not the transactions of the block spend each other's outputs. */
  lemma DisconnectInvertsConnect(m: Utxo, txs: seq<Tx>, height: int, d: Utxo)
    requires WellFormed(m) && height != 0 && Connects(m, txs, height)
    requires Live(d) == Live(ApplyTxs(m, txs, height))
    ensures FitsBlock(txs, BlockUndo(m, txs, height))
    ensures TxsUndoCleanly(d, txs, height, BlockUndo(m, txs, height))
    ensures Live(UndoTxs(d, txs, BlockUndo(m, txs, height))) == Live(m)
  {
    assert txs[..|txs|] == txs;
    UndoTxsInverts(m, txs, height, d, |txs|);
  }

  // ---------- Only the live part matters ----------

  lemma AvailableByLive(m: Utxo, m': Utxo, out: OutPoint)
    requires Live(m) == Live(m')
    ensures Available(m, out) <==> Available(m', out)
    ensures Available(m, out) ==> m[out.hash] == m'[out.hash]
  {
    assert Available(m, out) ==> out.hash in Live(m);
    assert Available(m', out) ==> out.hash in Live(m');
    if out.hash in Live(m) {
      assert Live(m)[out.hash] == Live(m')[out.hash];
    }
  }

  lemma LiveUpdate(m: Utxo, m': Utxo, k: Hash, c: Coins)
    requires Live(m) == Live(m')
    ensures Live(m[k := c]) == Live(m'[k := c])
  {
    var u, u' := Live(m[k := c]), Live(m'[k := c]);
    forall j | j in u
      ensures j in u' && u'[j] == u[j]
    {
      assert j == k || (j in Live(m) && Live(m)[j] == Live(m')[j]);
    }
    forall j | j in u'
      ensures j in u
    {
      assert j == k || j in Live(m');
    }
  }

  lemma WellFormedByLive(m: Utxo, m': Utxo)
    requires Live(m) == Live(m') && WellFormed(m)
    ensures WellFormed(m')
  {
    forall k | k in m' && !m'[k].IsPruned()
      ensures m'[k].Canonical() && m'[k].height != 0
    {
      assert k in Live(m');
      assert Live(m)[k] == Live(m')[k];
    }
  }

  lemma {:induction false} SpendInputsByLive(m: Utxo, m': Utxo, vin: seq<TxIn>)
    requires Live(m) == Live(m')
    ensures Live(SpendInputs(m, vin)) == Live(SpendInputs(m', vin))
    ensures InputUndos(m, vin) == InputUndos(m', vin)
    decreases |vin|
  {
    if vin != [] {
      var init, out := vin[..|vin| - 1], vin[|vin| - 1].prevout;
      SpendInputsByLive(m, m', init);
      var s, s' := SpendInputs(m, init), SpendInputs(m', init);
      AvailableByLive(s, s', out);
      if Available(s, out) {
        LiveUpdate(s, s', out.hash, SpendOut(s[out.hash], out.n));
      }
    }
  }

  lemma ApplyTxByLive(m: Utxo, m': Utxo, tx: Tx, height: int)
    requires Live(m) == Live(m')
    ensures Live(ApplyTx(m, tx, height)) == Live(ApplyTx(m', tx, height))
  {
    SpendInputsByLive(m, m', tx.vin);
    if tx.IsCoinBase() {
      LiveUpdate(m, m', tx.txid, CoinsOf(tx, height));
    } else {
      LiveUpdate(SpendInputs(m, tx.vin), SpendInputs(m', tx.vin), tx.txid, CoinsOf(tx, height));
    }
  }

  lemma {:induction false} ApplyTxsByLive(m: Utxo, m': Utxo, txs: seq<Tx>, height: int)
    requires Live(m) == Live(m')
    ensures Live(ApplyTxs(m, txs, height)) == Live(ApplyTxs(m', txs, height))
    ensures BlockUndo(m, txs, height) == BlockUndo(m', txs, height)
    decreases |txs|
  {
    if txs != [] {
      var init, last := txs[..|txs| - 1], txs[|txs| - 1];
      ApplyTxsByLive(m, m', init, height);
      ApplyTxByLive(ApplyTxs(m, init, height), ApplyTxs(m', init, height), last, height);
      SpendInputsByLive(ApplyTxs(m, init, height), ApplyTxs(m', init, height), last.vin);
    }
  }

  lemma ConnectsByLive(m: Utxo, m': Utxo, txs: seq<Tx>, height: int)
    requires Live(m) == Live(m') && Connects(m, txs, height)
    ensures Connects(m', txs, height)
  {
    forall i | 0 <= i < |txs| && !txs[i].IsCoinBase()
      ensures HaveInputs(ApplyTxs(m', txs[..i], height), txs[i].vin)
    {
      ApplyTxsByLive(m, m', txs[..i], height);
      forall j | 0 <= j < |txs[i].vin|
        ensures Available(ApplyTxs(m', txs[..i], height), txs[i].vin[j].prevout)
      {
        AvailableByLive(ApplyTxs(m, txs[..i], height), ApplyTxs(m', txs[..i], height), txs[i].vin[j].prevout);
      }
    }
  }
}
