/** Money supply: the total of all unspent outputs, and how connecting a block changes it. */
module Supply {
  import opened Primitives
  import opened Coins
  import opened Ledger

  function OutValue(o: TxOut): int {
    if o.IsNull() then 0 else o.value
  }

  /** Sum of the outputs that are not spent, as GetStats adds them up for one transaction. */
  function UnspentValue(vout: seq<TxOut>): int {
    if vout == [] then 0 else UnspentValue(vout[..|vout| - 1]) + OutValue(vout[|vout| - 1])
  }

  /** Sum over the whole map, in any order (see TotalSplit). */
  ghost function Total(m: Utxo): int {
    if m == map[] then 0
    else
      var k :| k in m;
      UnspentValue(m[k].vout) + Total(m - {k})
  }

  lemma {:induction false} TotalSplit(m: Utxo, k: Hash)
    requires k in m
    ensures Total(m) == UnspentValue(m[k].vout) + Total(m - {k})
    decreases |m|
  {
    var j :| j in m && Total(m) == UnspentValue(m[j].vout) + Total(m - {j});
    if j != k {
      TotalSplit(m - {j}, k);
      TotalSplit(m - {k}, j);
      assert m - {j} - {k} == m - {k} - {j};
    }
  }

  lemma TotalUpdate(m: Utxo, k: Hash, c: Coins)
    ensures Total(m[k := c]) == Total(m) - UnspentValue(Lookup(m, k).vout) + UnspentValue(c.vout)
  {
    TotalSplit(m[k := c], k);
    assert m[k := c] - {k} == m - {k};
    if k in m {
      TotalSplit(m, k);
    } else {
      assert m - {k} == m;
    }
  }

  lemma {:induction false} PrunedHasNoValue(vout: seq<TxOut>)
    requires forall i :: 0 <= i < |vout| ==> vout[i].IsNull()
    ensures UnspentValue(vout) == 0
  {
    if vout != [] {
      PrunedHasNoValue(vout[..|vout| - 1]);
    }
  }

  lemma LiveWithout(m: Utxo, k: Hash)
    ensures Live(m - {k}) == Live(m) - {k}
  {
  }

  /** The total depends on the live entries only. */
  lemma {:induction false} TotalOfLive(m: Utxo)
    ensures Total(m) == Total(Live(m))
    decreases |m|
  {
    if m != map[] {
      var k :| k in m;
      TotalSplit(m, k);
      TotalOfLive(m - {k});
      LiveWithout(m, k);
      if k in Live(m) {
        TotalSplit(Live(m), k);
      } else {
        PrunedHasNoValue(m[k].vout);
        assert Live(m) - {k} == Live(m);
      }
    }
  }

  lemma {:induction false} TrimKeepsValue(vout: seq<TxOut>)
    ensures UnspentValue(Trim(vout)) == UnspentValue(vout)
  {
    if |vout| > 0 && vout[|vout| - 1].IsNull() {
      TrimKeepsValue(vout[..|vout| - 1]);
    }
  }

  lemma {:induction false} SpendOutValue(vout: seq<TxOut>, n: nat)
    requires n < |vout|
    ensures UnspentValue(vout[n := NULL_OUT]) == UnspentValue(vout) - OutValue(vout[n])
  {
    var last := |vout| - 1;
    if n == last {
      assert vout[n := NULL_OUT][..last] == vout[..last];
    } else {
      SpendOutValue(vout[..last], n);
      assert vout[n := NULL_OUT][..last] == vout[..last][n := NULL_OUT];
    }
  }

  // ---------- Value in and out of a transaction ----------

  /** The output an input refers to (GetOutputFor). */
  function OutputFor(m: Utxo, out: OutPoint): TxOut
    requires Available(m, out)
  {
    m[out.hash].vout[out.n]
  }

  function ValueIn(m: Utxo, vin: seq<TxIn>): int
    requires HaveInputs(m, vin)
  {
    if vin == [] then 0
    else ValueIn(m, vin[..|vin| - 1]) + OutputFor(m, vin[|vin| - 1].prevout).value
  }

  function ValueOut(vout: seq<TxOut>): int {
    if vout == [] then 0 else ValueOut(vout[..|vout| - 1]) + vout[|vout| - 1].value
  }

  lemma {:induction false} ValueOutIsUnspent(vout: seq<TxOut>)
    requires forall i :: 0 <= i < |vout| ==> !vout[i].IsNull()
    ensures UnspentValue(vout) == ValueOut(vout)
  {
    if vout != [] {
      ValueOutIsUnspent(vout[..|vout| - 1]);
    }
  }

  lemma SpendInputTotal(m: Utxo, out: OutPoint)
    requires Available(m, out)
    ensures Total(SpendInput(m, out)) == Total(m) - OutputFor(m, out).value
  {
    var c := m[out.hash];
    TotalUpdate(m, out.hash, SpendOut(c, out.n));
    TrimKeepsValue(c.vout[out.n := NULL_OUT]);
    SpendOutValue(c.vout, out.n);
  }

  /** An output that is not spent keeps its contents while others are spent. */
  lemma {:induction false} SpendInputsKeepsOutput(m: Utxo, vin: seq<TxIn>, out: OutPoint)
    requires WellFormed(m) && Available(m, out)
    requires forall i :: 0 <= i < |vin| ==> vin[i].prevout != out
    ensures Available(SpendInputs(m, vin), out)
    ensures OutputFor(SpendInputs(m, vin), out) == OutputFor(m, out)
  {
    SpendInputsRemoves(m, vin);
    if vin != [] {
      var init, last := vin[..|vin| - 1], vin[|vin| - 1].prevout;
      SpendInputsKeepsOutput(m, init, out);
      SpendInputsRemoves(m, init);
      var m1 := SpendInputs(m, init);
      if Available(m1, last) && last.hash == out.hash {
        SpendRemovesOne(m1[out.hash], last.n);
      }
    }
  }

  lemma {:induction false} SpendInputsTotal(m: Utxo, vin: seq<TxIn>)
    requires WellFormed(m) && HaveInputs(m, vin) && DistinctInputs(vin)
    ensures Total(SpendInputs(m, vin)) == Total(m) - ValueIn(m, vin)
  {
    if vin != [] {
      var init, last := vin[..|vin| - 1], vin[|vin| - 1].prevout;
      SpendInputsTotal(m, init);
      SpendInputsKeepsOutput(m, init, last);
      SpendInputTotal(SpendInputs(m, init), last);
    }
  }

  function TxValueIn(m: Utxo, tx: Tx): int
    requires !tx.IsCoinBase() ==> HaveInputs(m, tx.vin)
  {
    if tx.IsCoinBase() then 0 else ValueIn(m, tx.vin)
  }

  lemma ApplyTxTotal(m: Utxo, tx: Tx, height: int)
    requires WellFormed(m) && Applicable(m, tx)
    ensures Total(ApplyTx(m, tx, height)) == Total(m) + ValueOut(tx.vout) - TxValueIn(m, tx)
  {
    var spent := if tx.IsCoinBase() then m else SpendInputs(m, tx.vin);
    if !tx.IsCoinBase() {
      SpendInputsTotal(m, tx.vin);
      SpendInputsRemoves(m, tx.vin);
    }
    assert tx.txid !in Live(spent);
    PrunedHasNoValue(Lookup(spent, tx.txid).vout);
    TotalUpdate(spent, tx.txid, CoinsOf(tx, height));
    ValueOutIsUnspent(tx.vout);
  }

  // ---------- Blocks ----------

  ghost function BlockValueIn(m: Utxo, txs: seq<Tx>, height: int): int
    requires InputsFound(m, txs, height)
  {
    if txs == [] then 0
    else
      var last := |txs| - 1;
      PrefixInputsFound(m, txs, height, last);
      BlockValueIn(m, txs[..last], height) + TxValueIn(ApplyTxs(m, txs[..last], height), txs[last])
  }

  ghost function BlockValueOut(txs: seq<Tx>): int {
    if txs == [] then 0 else BlockValueOut(txs[..|txs| - 1]) + ValueOut(txs[|txs| - 1].vout)
  }

  lemma PrefixInputsFound(m: Utxo, txs: seq<Tx>, height: int, i: nat)
    requires InputsFound(m, txs, height) && i <= |txs|
    ensures InputsFound(m, txs[..i], height)
  {
    forall j | 0 <= j < i && !txs[..i][j].IsCoinBase()
      ensures HaveInputs(ApplyTxs(m, txs[..i][..j], height), txs[..i][j].vin)
    {
      assert txs[..i][..j] == txs[..j];
    }
  }

  lemma FoundInPrefix(m: Utxo, txs: seq<Tx>, height: int, i: nat)
    requires Connects(m, txs, height) && i <= |txs|
    ensures InputsFound(m, txs[..i], height)
  {
    PrefixInputsFound(m, txs, height, i);
  }

  lemma {:induction false} ApplyTxsTotal(m: Utxo, txs: seq<Tx>, height: int, i: nat)
    requires WellFormed(m) && height != 0 && Connects(m, txs, height) && i <= |txs|
    ensures InputsFound(m, txs[..i], height)
    ensures Total(ApplyTxs(m, txs[..i], height))
         == Total(m) + BlockValueOut(txs[..i]) - BlockValueIn(m, txs[..i], height)
    decreases i
  {
    hide WellFormed, Connects, Total, ApplyTx;
    FoundInPrefix(m, txs, height, i);
    if i > 0 {
      var last := i - 1;
      assert txs[..i][..last] == txs[..last];
      ApplyTxsTotal(m, txs, height, last);
      PrefixApplicable(m, txs, height, last);
      ApplyTxTotal(ApplyTxs(m, txs[..last], height), txs[last], height);
    }
  }

  /** Connecting a block raises the total by exactly what its transactions create less what they spend. */
  lemma ConnectRaisesTotal(m: Utxo, txs: seq<Tx>, height: int)
    requires WellFormed(m) && height != 0 && Connects(m, txs, height)
    ensures Total(ApplyTxs(m, txs, height)) == Total(m) + BlockValueOut(txs) - BlockValueIn(m, txs, height)
  {
    assert txs[..|txs|] == txs;
    ApplyTxsTotal(m, txs, height, |txs|);
  }
}
