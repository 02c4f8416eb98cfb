/** Transactions and CCoins, the pruned form of a transaction that keeps only unspent outputs. */
module Coins {
  import opened Primitives

  const NULL_INDEX: nat := 0xffff_ffff

  datatype OutPoint = OutPoint(hash: Hash, n: nat) {
    predicate IsNull() {
      hash == 0 && n == NULL_INDEX
    }
  }

  datatype TxOut = TxOut(value: int, script: Script) {
    predicate IsNull() {
      value == -1
    }
  }

  /** What SetNull leaves behind. */
  const NULL_OUT: TxOut := TxOut(-1, [])

  datatype TxIn = TxIn(prevout: OutPoint, scriptSig: Script)

  /** A transaction together with its hash and its serialized size. */
  datatype Tx = Tx(txid: Hash, version: int, vin: seq<TxIn>, vout: seq<TxOut>, size: nat) {
    predicate IsCoinBase() {
      |vin| == 1 && vin[0].prevout.IsNull()
    }
  }

  datatype Coins = Coins(coinBase: bool, vout: seq<TxOut>, height: int, version: int) {
    predicate IsAvailable(n: nat) {
      n < |vout| && !vout[n].IsNull()
    }

    predicate IsPruned() {
      forall i :: 0 <= i < |vout| ==> vout[i].IsNull()
    }

    /** The shape every stored CCoins has: no spent output at the end, and a spent output carries no script. */
    ghost predicate Canonical() {
      && (|vout| > 0 ==> !vout[|vout| - 1].IsNull())
      && forall i :: 0 <= i < |vout| && vout[i].IsNull() ==> vout[i] == NULL_OUT
    }
  }

  const NO_COINS: Coins := Coins(false, [], 0, 0)

  function CoinsOf(tx: Tx, height: int): Coins {
    Coins(tx.IsCoinBase(), tx.vout, height, tx.version)
  }

  /** Undo information for one input.  The metadata is recorded only when the last output of a
      transaction is spent; height 0 means that it was not recorded. */
  datatype TxInUndo = TxInUndo(txout: TxOut, coinBase: bool, height: int, version: int)

  // ---------- Cleanup and Spend ----------

  function Trim(vout: seq<TxOut>): (r: seq<TxOut>)
    ensures r <= vout
    ensures |r| > 0 ==> !r[|r| - 1].IsNull()
    ensures forall i :: |r| <= i < |vout| ==> vout[i].IsNull()
  {
    if |vout| > 0 && vout[|vout| - 1].IsNull() then Trim(vout[..|vout| - 1]) else vout
  }

  method Cleanup(vout: seq<TxOut>) returns (r: seq<TxOut>)
    ensures r == Trim(vout)
  {
    r := vout;
    while |r| > 0 && r[|r| - 1].IsNull()
      invariant Trim(r) == Trim(vout)
    {
      r := r[..|r| - 1];
    }
  }

  function SpendOut(c: Coins, n: nat): Coins
    requires c.IsAvailable(n)
  {
    c.(vout := Trim(c.vout[n := NULL_OUT]))
  }

  function UndoOf(c: Coins, n: nat): TxInUndo
    requires c.IsAvailable(n)
  {
    if |SpendOut(c, n).vout| == 0
    then TxInUndo(c.vout[n], c.coinBase, c.height, c.version)
    else TxInUndo(c.vout[n], false, 0, 0)
  }

  method Spend(c: Coins, n: nat) returns (ok: bool, c': Coins, undo: TxInUndo)
    ensures ok == c.IsAvailable(n)
    ensures ok ==> c' == SpendOut(c, n) && undo == UndoOf(c, n)
    ensures !ok ==> c' == c
  {
    ok, c', undo := false, c, TxInUndo(NULL_OUT, false, 0, 0);
    if n >= |c.vout| {
      return;
    }
    if c.vout[n].IsNull() {
      return;
    }
    undo := TxInUndo(c.vout[n], false, 0, 0);
    var vout := Cleanup(c.vout[n := NULL_OUT]);
    c' := c.(vout := vout);
    if |c'.vout| == 0 {
      undo := undo.(height := c.height, coinBase := c.coinBase, version := c.version);
    }
    ok := true;
  }

  /** Spending removes exactly the one output and keeps the canonical shape. */
  lemma SpendRemovesOne(c: Coins, n: nat)
    requires c.Canonical() && c.IsAvailable(n)
    ensures var s := SpendOut(c, n);
            && s.Canonical()
            && s.(vout := c.vout) == c
            && (forall k: nat :: s.IsAvailable(k) <==> k != n && c.IsAvailable(k))
            && (forall k: nat :: s.IsAvailable(k) ==> s.vout[k] == c.vout[k])
  {
    var u := c.vout[n := NULL_OUT];
    var s := SpendOut(c, n);
    forall k: nat
      ensures s.IsAvailable(k) <==> k != n && c.IsAvailable(k)
    {
      if k < |u| && |s.vout| <= k {
        assert u[k].IsNull();
      }
    }
  }

  lemma PrunedIsEmpty(c: Coins)
    requires c.Canonical()
    ensures c.IsPruned() <==> c.vout == []
  {
    if |c.vout| > 0 {
      assert !c.vout[|c.vout| - 1].IsNull();
    }
  }

  // ---------- Restoring an output from undo data ----------

  /** The CCoins that an undo record is applied to: the current one, or a fresh one with the recorded metadata. */
  function RestoreBase(c: Coins, undo: TxInUndo): Coins {
    if undo.height != 0 then Coins(undo.coinBase, [], undo.height, undo.version) else c
  }

  function Resized(vout: seq<TxOut>, size: nat): (r: seq<TxOut>)
    ensures |r| == if |vout| < size then size else |vout|
    ensures vout <= r
    ensures forall i :: |vout| <= i < |r| ==> r[i] == NULL_OUT
  {
    if |vout| < size then vout + seq(size - |vout|, _ => NULL_OUT) else vout
  }

  function RestoreOut(c: Coins, n: nat, undo: TxInUndo): Coins {
    var base := RestoreBase(c, undo);
    base.(vout := Resized(base.vout, n + 1)[n := undo.txout])
  }

  /** None of the three consistency complaints of DisconnectBlock applies. */
  predicate RestoreIsClean(c: Coins, n: nat, undo: TxInUndo) {
    && (if undo.height != 0 then c.IsPruned() else !c.IsPruned())
    && !RestoreBase(c, undo).IsAvailable(n)
  }

  /** A missing CCoins and one with no unspent output mean the same; otherwise all fields count. */
  predicate SameCoins(a: Coins, b: Coins) {
    a == b || (a.IsPruned() && b.IsPruned())
  }

  /** The lossy undo record is enough: it brings back the CCoins exactly, metadata and padding included. */
  lemma RestoreInvertsSpend(c: Coins, n: nat, d: Coins)
    requires c.Canonical() && c.IsAvailable(n) && c.height != 0
    requires SameCoins(d, SpendOut(c, n))
    ensures RestoreIsClean(d, n, UndoOf(c, n))
    ensures RestoreOut(d, n, UndoOf(c, n)) == c
  {
    var s := SpendOut(c, n);
    var undo := UndoOf(c, n);
    SpendRemovesOne(c, n);
    PrunedIsEmpty(s);
    var base := RestoreBase(d, undo);
    assert base.vout == s.vout;
    assert !s.IsAvailable(n);
    var r := Resized(s.vout, n + 1);
    forall k | 0 <= k < |c.vout|
      ensures k < |r| && (k != n ==> r[k] == c.vout[k])
    {
      var u := c.vout[n := NULL_OUT];
      if |s.vout| <= k {
        assert u[k].IsNull();
        assert u[|u| - 1].IsNull();
      }
    }
    assert |r| <= |c.vout|;
    assert r[n := undo.txout] == c.vout;
  }
}
