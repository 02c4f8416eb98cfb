/** CTxMemPool: the transactions that wait for a block, and an index of the outputs they spend. */
module Mempool {
  import opened Primitives
  import opened Coins
  import opened Ledger
  import opened CoinsView

  /** All transactions there are: what a hash is the hash of, and an order in which a transaction comes after those
      it spends from.  There is such an order because a transaction contains the hashes of those. */
  datatype World = World(content: Hash -> Tx, rank: Hash -> nat)

  /** The hash of a transaction identifies it. */
  ghost predicate Identified(w: World, tx: Tx) {
    w.content(tx.txid) == tx
  }

  ghost predicate InputOk(w: World, tx: Tx, i: nat)
    requires i < |tx.vin|
  {
    var o := tx.vin[i].prevout;
    w.rank(o.hash) < w.rank(tx.txid) && o.n < |w.content(o.hash).vout|
  }

  /** What needs no ledger: the hash identifies the transaction, which is not a coinbase, has inputs, comes after those
      it spends from and names no output twice. */
  ghost predicate Grounded(w: World, tx: Tx) {
    && Identified(w, tx) && tx.vin != [] && !tx.IsCoinBase()
    && (forall i :: 0 <= i < |tx.vin| ==> w.rank(tx.vin[i].prevout.hash) < w.rank(tx.txid))
    && (forall i, j :: 0 <= i < j < |tx.vin| ==> tx.vin[i].prevout != tx.vin[j].prevout)
  }

  /** A transaction that passed the checks: it spends existing outputs, each once. */
  ghost predicate Checked(w: World, tx: Tx) {
    && Identified(w, tx) && tx.vin != [] && !tx.IsCoinBase()
    && (forall i :: 0 <= i < |tx.vin| ==> InputOk(w, tx, i))
    && (forall i, j :: 0 <= i < j < |tx.vin| ==> tx.vin[i].prevout != tx.vin[j].prevout)
  }

  /** The ledger holds only outputs that transactions have. */
  ghost predicate LedgerOf(w: World, m: Utxo) {
    forall o: OutPoint :: Available(m, o) ==> o.n < |w.content(o.hash).vout|
  }

  /** CInPoint: an input, by its transaction and its place there. */
  datatype InPoint = InPoint(txid: Hash, n: nat)

  type Pool = map<Hash, Tx>

  ghost predicate PoolOk(w: World, pool: Pool) {
    forall h :: h in pool ==> pool[h].txid == h && Checked(w, pool[h])
  }

  ghost predicate IsInput(pool: Pool, p: InPoint, o: OutPoint) {
    p.txid in pool && p.n < |pool[p.txid].vin| && pool[p.txid].vin[p.n].prevout == o
  }

  /** nextTx is exactly the inverse of the inputs of the pool; so no two inputs spend the same output. */
  ghost predicate IndexOk(pool: Pool, nextTx: map<OutPoint, InPoint>) {
    && (forall o :: o in nextTx ==> IsInput(pool, nextTx[o], o))
    && (forall h, i :: h in pool && 0 <= i < |pool[h].vin| ==> Indexed(nextTx, pool[h].vin[i].prevout, InPoint(h, i)))
  }

  ghost predicate Indexed(nextTx: map<OutPoint, InPoint>, o: OutPoint, p: InPoint) {
    o in nextTx && nextTx[o] == p
  }

  ghost predicate Spends(tx: Tx, o: OutPoint) {
    exists i :: 0 <= i < |tx.vin| && tx.vin[i].prevout == o
  }

  /** tx spends an output of the transaction a. */
  ghost predicate SpendsFrom(tx: Tx, a: Hash) {
    exists i :: 0 <= i < |tx.vin| && tx.vin[i].prevout.hash == a
  }

  /** No two transactions of the pool spend the same output. */
  lemma NoDoubleSpend(pool: Pool, nextTx: map<OutPoint, InPoint>, g: Hash, h: Hash, o: OutPoint)
    requires IndexOk(pool, nextTx) && g in pool && h in pool && Spends(pool[g], o) && Spends(pool[h], o)
    ensures g == h
  {
    var i :| 0 <= i < |pool[g].vin| && pool[g].vin[i].prevout == o;
    var j :| 0 <= j < |pool[h].vin| && pool[h].vin[j].prevout == o;
    assert Indexed(nextTx, o, InPoint(g, i)) && Indexed(nextTx, o, InPoint(h, j));
  }

  // ---------- The pool and the ledger ----------

  const MEMPOOL_HEIGHT: int := 0x7FFF_FFFF

  /** CCoinsViewMemPool: the ledger, and behind it the outputs of the pool. */
  ghost function Seen(m: Utxo, pool: Pool): Utxo {
    (map h | h in pool :: CoinsOf(pool[h], MEMPOOL_HEIGHT)) + m
  }

  /** The ledger or the pool has the output. */
  ghost predicate Supplied(pool: Pool, m: Utxo, o: OutPoint) {
    Available(m, o) || (o.hash in pool && o.n < |pool[o.hash].vout|)
  }

  /** Every input of the pool is supplied, or is one of some outputs that are spent or of some transactions that are
      lost. */
  ghost predicate BackedBut(pool: Pool, m: Utxo, spent: set<OutPoint>, lost: set<Hash>) {
    forall h, i :: h in pool && 0 <= i < |pool[h].vin| ==> BackedAt(pool, m, spent, lost, pool[h].vin[i].prevout)
  }

  ghost predicate BackedAt(pool: Pool, m: Utxo, spent: set<OutPoint>, lost: set<Hash>, o: OutPoint) {
    Supplied(pool, m, o) || o in spent || o.hash in lost
  }

  /** Every input of the pool is unspent in the ledger or an output of the pool. */
  ghost predicate Backed(pool: Pool, m: Utxo) {
    BackedBut(pool, m, {}, {})
  }

  /** The checks of accept against the ledger and the pool. */
  ghost predicate Fits(m: Utxo, pool: Pool, tx: Tx) {
    && tx.txid !in Seen(m, pool)
    && HaveInputs(Seen(m, pool), tx.vin)
    && (forall i :: 0 <= i < |tx.vin| ==> Unspent(pool, tx.vin[i].prevout))
  }

  lemma SeenIsSupplied(pool: Pool, m: Utxo, o: OutPoint)
    ensures Available(Seen(m, pool), o) ==> Supplied(pool, m, o)
  {
  }

  lemma FittingIsChecked(w: World, pool: Pool, m: Utxo, tx: Tx)
    requires PoolOk(w, pool) && LedgerOf(w, m) && Grounded(w, tx) && HaveInputs(Seen(m, pool), tx.vin)
    ensures Checked(w, tx)
  {
    forall i | 0 <= i < |tx.vin|
      ensures InputOk(w, tx, i)
    {
      SeenIsSupplied(pool, m, tx.vin[i].prevout);
    }
  }

  lemma EnterKeepsBacked(pool: Pool, m: Utxo, spent: set<OutPoint>, lost: set<Hash>, tx: Tx)
    requires BackedBut(pool, m, spent, lost) && tx.txid !in pool && HaveInputs(Seen(m, pool), tx.vin)
    ensures BackedBut(pool[tx.txid := tx], m, spent, lost)
  {
    var after := pool[tx.txid := tx];
    forall h, i | h in after && 0 <= i < |after[h].vin|
      ensures BackedAt(after, m, spent, lost, after[h].vin[i].prevout)
    {
      if h == tx.txid {
        SeenIsSupplied(pool, m, tx.vin[i].prevout);
      } else {
        assert BackedAt(pool, m, spent, lost, pool[h].vin[i].prevout);
      }
    }
  }

  /** Nothing that stays spends from what goes, so what stays keeps its suppliers. */
  lemma LeaveKeepsBacked(before: Pool, after: Pool, m: Utxo, spent: set<OutPoint>, lost: set<Hash>)
    requires BackedBut(before, m, spent, lost) && Within(after, before)
    requires forall h, b :: h in after && b in before && b !in after ==> !SpendsFrom(after[h], b)
    ensures BackedBut(after, m, spent, lost)
  {
    forall h, i | h in after && 0 <= i < |after[h].vin|
      ensures BackedAt(after, m, spent, lost, after[h].vin[i].prevout)
    {
      assert h in before && BackedAt(before, m, spent, lost, before[h].vin[i].prevout);
      assert SpendsFrom(after[h], after[h].vin[i].prevout.hash);
    }
  }

  // ---------- Descendants ----------

  /** h is in the pool and spends, directly or through others in the pool, from a. */
  ghost predicate Descends(w: World, pool: Pool, a: Hash, h: Hash)
    requires PoolOk(w, pool)
    decreases w.rank(h)
  {
    h in pool && exists i :: 0 <= i < |pool[h].vin| && InputOk(w, pool[h], i)
                    && var b := pool[h].vin[i].prevout.hash; b == a || Descends(w, pool, a, b)
  }

  /** after is before without some transactions that a and each other are the reason for, and nothing that is left
      spends from them. */
  ghost predicate Cut(before: Pool, after: Pool, a: Hash) {
    && (forall h :: h in after ==> h in before && after[h] == before[h])
    && (forall h :: h in after ==> !SpendsFrom(after[h], a))
    && (forall h, b :: h in after && b in before && b !in after ==> !SpendsFrom(after[h], b))
    && (forall h :: h in before && h !in after ==> h == a || Uprooted(before, after, a, before[h]))
  }

  /** tx spends from a or from a transaction that was removed. */
  ghost predicate Uprooted(before: Pool, after: Pool, a: Hash, tx: Tx) {
    SpendsFrom(tx, a) || exists b :: b in before && b !in after && SpendsFrom(tx, b)
  }

  /** What is cut is a itself and exactly its descendants. */
  lemma {:induction false} CutIsDescendants(w: World, before: Pool, after: Pool, a: Hash, h: Hash)
    requires PoolOk(w, before) && Cut(before, after, a) && a !in after && h in before && h != a
    ensures h !in after <==> Descends(w, before, a, h)
    decreases w.rank(h)
  {
    var tx := before[h];
    if h !in after {
      assert Uprooted(before, after, a, tx);
      var i: nat;
      if SpendsFrom(tx, a) {
        i :| i < |tx.vin| && tx.vin[i].prevout.hash == a;
      } else {
        var b :| b in before && b !in after && SpendsFrom(tx, b);
        i :| i < |tx.vin| && tx.vin[i].prevout.hash == b;
        assert InputOk(w, tx, i);
        CutIsDescendants(w, before, after, a, b);
      }
      assert InputOk(w, tx, i);
    } else if Descends(w, before, a, h) {
      var i :| 0 <= i < |tx.vin| && InputOk(w, tx, i)
               && var b := tx.vin[i].prevout.hash; b == a || Descends(w, before, a, b);
      var b := tx.vin[i].prevout.hash;
      assert SpendsFrom(tx, b);
      if b != a {
        CutIsDescendants(w, before, after, a, b);
      }
      assert false;
    }
  }

  /** A cut that is not complete yet: something left may still spend from a. */
  ghost predicate Pruned(before: Pool, after: Pool, a: Hash) {
    && (forall h :: h in after ==> h in before && after[h] == before[h])
    && (forall h, b :: h in after && b in before && b !in after ==> !SpendsFrom(after[h], b))
    && (forall h :: h in before && h !in after ==> h == a || Uprooted(before, after, a, before[h]))
  }

  lemma PruneMore(before: Pool, mid: Pool, after: Pool, a: Hash, child: Hash)
    requires Pruned(before, mid, a) && a != child && child in mid && SpendsFrom(mid[child], a)
    requires Cut(mid, after, child) && child !in after
    ensures Pruned(before, after, a)
  {
    forall h | h in after
      ensures h in before && after[h] == before[h]
    {
      assert h in mid;
    }
    forall h, b | h in after && b in before && b !in after
      ensures !SpendsFrom(after[h], b)
    {
      assert h in mid && mid[h] == after[h];
      assert b in mid || b !in mid;
    }
    forall h | h in before && h !in after && h != a
      ensures Uprooted(before, after, a, before[h])
    {
      hide SpendsFrom;
      if h !in mid {
        assert Uprooted(before, mid, a, before[h]);
        if !SpendsFrom(before[h], a) {
          var b :| b in before && b !in mid && SpendsFrom(before[h], b);
          assert b !in after;
        }
      } else if h != child {
        assert mid[h] == before[h];
        assert Uprooted(mid, after, child, mid[h]);
        if SpendsFrom(mid[h], child) {
          assert child in before && child !in after;
        } else {
          var b :| b in mid && b !in after && SpendsFrom(mid[h], b);
          assert b in before;
        }
      } else {
        assert mid[h] == before[h];
      }
    }
  }

  lemma PruneLast(before: Pool, mid: Pool, a: Hash)
    requires Pruned(before, mid, a) && forall h :: h in mid ==> !SpendsFrom(mid[h], a)
    ensures Cut(before, mid, a)
    ensures Cut(before, mid - {a}, a)
  {
    var after := mid - {a};
    forall h | h in before && h !in after && h != a
      ensures Uprooted(before, after, a, before[h])
    {
      hide SpendsFrom;
      assert Uprooted(before, mid, a, before[h]);
      if !SpendsFrom(before[h], a) {
        var b :| b in before && b !in mid && SpendsFrom(before[h], b);
        assert b !in after;
      }
    }
  }

  /** The transactions of the pool that come after rank r. */
  ghost function Above(w: World, pool: Pool, r: nat): set<Hash> {
    set h | h in pool && w.rank(h) > r
  }

  lemma AboveShrinks(w: World, before: Pool, pool: Pool, a: Hash, child: Hash)
    requires (forall h :: h in pool ==> h in before) && child in pool && w.rank(a) < w.rank(child)
    ensures |Above(w, pool, w.rank(child))| < |Above(w, before, w.rank(a))|
  {
    var small, large := Above(w, pool, w.rank(child)), Above(w, before, w.rank(a));
    assert child in large && child !in small;
    forall h | h in small
      ensures h in large
    {
    }
    SmallerSet(small, large, child);
  }

  lemma SmallerSet<T>(a: set<T>, b: set<T>, x: T)
    requires a <= b && x in b && x !in a
    ensures |a| < |b|
  {
    var rest := b - a;
    assert b == a + rest && x in rest;
  }

  // ---------- The index ----------

  ghost function Prevouts(tx: Tx, n: nat): set<OutPoint>
    requires n <= |tx.vin|
  {
    set i | 0 <= i < n :: tx.vin[i].prevout
  }

  lemma EraseKeeps(pool: Pool, nextTx: map<OutPoint, InPoint>, h: Hash)
    requires IndexOk(pool, nextTx) && h in pool
    ensures IndexOk(pool - {h}, nextTx - Prevouts(pool[h], |pool[h].vin|))
  {
    var tx := pool[h];
    var pool', next' := pool - {h}, nextTx - Prevouts(tx, |tx.vin|);
    forall o | o in next'
      ensures IsInput(pool', next'[o], o)
    {
      assert IsInput(pool, nextTx[o], o);
    }
    forall g, i | g in pool' && 0 <= i < |pool'[g].vin|
      ensures Indexed(next', pool'[g].vin[i].prevout, InPoint(g, i))
    {
      var o := pool[g].vin[i].prevout;
      assert Indexed(nextTx, o, InPoint(g, i));
      forall j | 0 <= j < |tx.vin|
        ensures tx.vin[j].prevout != o
      {
        assert Indexed(nextTx, tx.vin[j].prevout, InPoint(h, j));
      }
    }
  }

  /** nextTx with the first n inputs of tx added. */
  ghost predicate Added(nextTx: map<OutPoint, InPoint>, tx: Tx, n: nat, result: map<OutPoint, InPoint>)
    requires n <= |tx.vin|
  {
    && (forall o :: o in result <==> o in nextTx || o in Prevouts(tx, n))
    && (forall o :: o in nextTx ==> o in result && result[o] == nextTx[o])
    && (forall i :: 0 <= i < n ==> Indexed(result, tx.vin[i].prevout, InPoint(tx.txid, i)))
  }

  lemma AddStep(nextTx: map<OutPoint, InPoint>, tx: Tx, n: nat, result: map<OutPoint, InPoint>)
    requires n < |tx.vin| && Added(nextTx, tx, n, result)
    requires tx.vin[n].prevout !in nextTx && forall i :: 0 <= i < n ==> tx.vin[i].prevout != tx.vin[n].prevout
    ensures Added(nextTx, tx, n + 1, result[tx.vin[n].prevout := InPoint(tx.txid, n)])
  {
    var result' := result[tx.vin[n].prevout := InPoint(tx.txid, n)];
    assert Prevouts(tx, n + 1) == Prevouts(tx, n) + {tx.vin[n].prevout};
    forall i | 0 <= i < n
      ensures Indexed(result', tx.vin[i].prevout, InPoint(tx.txid, i))
    {
      assert Indexed(result, tx.vin[i].prevout, InPoint(tx.txid, i));
    }
  }

  lemma AddKeeps(pool: Pool, nextTx: map<OutPoint, InPoint>, tx: Tx, result: map<OutPoint, InPoint>)
    requires IndexOk(pool, nextTx) && tx.txid !in pool && Added(nextTx, tx, |tx.vin|, result)
    ensures IndexOk(pool[tx.txid := tx], result)
  {
    var pool' := pool[tx.txid := tx];
    forall o | o in result
      ensures IsInput(pool', result[o], o)
    {
      if o in nextTx {
        assert IsInput(pool, nextTx[o], o);
      } else {
        assert o in Prevouts(tx, |tx.vin|);
        var i :| 0 <= i < |tx.vin| && tx.vin[i].prevout == o;
        assert Indexed(result, o, InPoint(tx.txid, i));
      }
    }
    forall g, i | g in pool' && 0 <= i < |pool'[g].vin|
      ensures Indexed(result, pool'[g].vin[i].prevout, InPoint(g, i))
    {
      if g == tx.txid {
        assert Indexed(result, tx.vin[i].prevout, InPoint(tx.txid, i));
      } else {
        assert Indexed(nextTx, pool[g].vin[i].prevout, InPoint(g, i));
      }
    }
  }

  /** Nothing in the pool spends the output o. */
  ghost predicate Unspent(pool: Pool, o: OutPoint) {
    forall h :: h in pool ==> !Spends(pool[h], o)
  }

  lemma NotIndexedIsUnspent(pool: Pool, nextTx: map<OutPoint, InPoint>, o: OutPoint)
    requires IndexOk(pool, nextTx)
    ensures Unspent(pool, o) <==> o !in nextTx
  {
    if o in nextTx {
      var p := nextTx[o];
      assert IsInput(pool, p, o);
      assert Spends(pool[p.txid], o);
    } else {
      forall h | h in pool
        ensures !Spends(pool[h], o)
      {
        forall i | 0 <= i < |pool[h].vin|
          ensures pool[h].vin[i].prevout != o
        {
          assert Indexed(nextTx, pool[h].vin[i].prevout, InPoint(h, i));
        }
      }
    }
  }

  ghost predicate Within(after: Pool, before: Pool) {
    forall h :: h in after ==> h in before && after[h] == before[h]
  }

  lemma StaysUnspent(before: Pool, after: Pool, o: OutPoint)
    requires Within(after, before) && Unspent(before, o)
    ensures Unspent(after, o)
  {
  }

  /** Without its only spender an output is unspent. */
  lemma SpenderGone(before: Pool, nextTx: map<OutPoint, InPoint>, after: Pool, o: OutPoint, child: Hash)
    requires IndexOk(before, nextTx) && Within(after, before) && child in before && child !in after
    requires Spends(before[child], o)
    ensures Unspent(after, o)
  {
    hide Spends;
    forall h | h in after
      ensures !Spends(after[h], o)
    {
      if Spends(after[h], o) {
        NoDoubleSpend(before, nextTx, h, child, o);
      }
    }
  }

  lemma CutIsWithin(before: Pool, after: Pool, a: Hash)
    requires Cut(before, after, a)
    ensures Within(after, before)
  {
  }

  lemma PrunedIsWithin(before: Pool, after: Pool, a: Hash)
    requires Pruned(before, after, a)
    ensures Within(after, before) && forall h :: h in after ==> h in before
  {
  }

  /** The transaction that spends an output of tx. */
  lemma ChildOf(w: World, pool: Pool, nextTx: map<OutPoint, InPoint>, o: OutPoint)
    requires PoolOk(w, pool) && IndexOk(pool, nextTx) && o in nextTx
    ensures var h := nextTx[o].txid;
            && h in pool && pool[h].txid == h && Identified(w, pool[h])
            && Spends(pool[h], o) && SpendsFrom(pool[h], o.hash) && w.rank(o.hash) < w.rank(h)
  {
    var p := nextTx[o];
    assert IsInput(pool, p, o);
    var tx := pool[p.txid];
    assert tx.vin[p.n].prevout == o && InputOk(w, tx, p.n);
  }

  /** When all its outputs are unspent, nothing spends from a transaction. */
  lemma AllOutputsUnspent(w: World, pool: Pool, tx: Tx)
    requires PoolOk(w, pool) && Identified(w, tx)
    requires forall j :: 0 <= j < |tx.vout| ==> Unspent(pool, OutPoint(tx.txid, j))
    ensures forall h :: h in pool ==> !SpendsFrom(pool[h], tx.txid)
  {
    forall h, i | h in pool && 0 <= i < |pool[h].vin|
      ensures pool[h].vin[i].prevout.hash != tx.txid
    {
      var o := pool[h].vin[i].prevout;
      assert InputOk(w, pool[h], i) && Spends(pool[h], o);
      assert o == OutPoint(o.hash, o.n);
    }
  }

  /** t spends an output that tx spends. */
  ghost predicate Conflicts(t: Tx, tx: Tx) {
    exists i :: 0 <= i < |tx.vin| && Spends(t, tx.vin[i].prevout)
  }

  /** t is another transaction that spends an output that tx spends. */
  ghost predicate Rival(t: Tx, tx: Tx) {
    t != tx && Conflicts(t, tx)
  }

  /** h is a rival of tx or descends from one. */
  ghost predicate Displaced(w: World, pool: Pool, tx: Tx, h: Hash)
    requires PoolOk(w, pool)
  {
    h in pool && (Rival(pool[h], tx) || exists c :: c in pool && Rival(pool[c], tx) && Descends(w, pool, c, h))
  }

  /** Only rivals of tx, and what spends from a removed transaction, were removed. */
  ghost predicate Swept(before: Pool, after: Pool, tx: Tx) {
    && Within(after, before)
    && (forall h, b :: h in after && b in before && b !in after ==> !SpendsFrom(after[h], b))
    && (forall h :: h in before && h !in after ==> SweptAway(before, after, tx, before[h]))
  }

  ghost predicate SweptAway(before: Pool, after: Pool, tx: Tx, t: Tx) {
    Rival(t, tx) || exists b :: b in before && b !in after && SpendsFrom(t, b)
  }

  lemma SweepMore(before: Pool, mid: Pool, after: Pool, tx: Tx, c: Hash)
    requires Swept(before, mid, tx) && c in mid && Rival(mid[c], tx) && Cut(mid, after, c) && c !in after
    ensures Swept(before, after, tx)
  {
    hide Rival;
    forall h | h in after
      ensures h in before && after[h] == before[h]
    {
      assert h in mid;
    }
    forall h, b | h in after && b in before && b !in after
      ensures !SpendsFrom(after[h], b)
    {
      assert h in mid && mid[h] == after[h];
      assert b in mid || b !in mid;
    }
    forall h | h in before && h !in after
      ensures SweptAway(before, after, tx, before[h])
    {
      hide SpendsFrom;
      if h !in mid {
        assert SweptAway(before, mid, tx, before[h]);
        if !Rival(before[h], tx) {
          var b :| b in before && b !in mid && SpendsFrom(before[h], b);
          assert b !in after;
        }
      } else if h != c {
        assert mid[h] == before[h];
        assert Uprooted(mid, after, c, mid[h]);
        if SpendsFrom(mid[h], c) {
          assert c in before && c !in after;
        } else {
          var b :| b in mid && b !in after && SpendsFrom(mid[h], b);
          assert b in before;
        }
      } else {
        assert mid[h] == before[h];
      }
    }
  }

  /** What is swept is exactly the rivals of tx and their descendants. */
  lemma {:induction false} SweptIsDisplaced(w: World, before: Pool, after: Pool, tx: Tx, h: Hash)
    requires PoolOk(w, before) && Swept(before, after, tx) && h in before
    requires forall i :: 0 <= i < |tx.vin| ==> OnlyBy(after, tx.vin[i].prevout, tx)
    ensures h !in after <==> Displaced(w, before, tx, h)
    decreases w.rank(h)
  {
    var t := before[h];
    if h !in after {
      assert SweptAway(before, after, tx, t);
      if !Rival(t, tx) {
        var b :| b in before && b !in after && SpendsFrom(t, b);
        var i :| 0 <= i < |t.vin| && t.vin[i].prevout.hash == b;
        assert InputOk(w, t, i);
        SweptIsDisplaced(w, before, after, tx, b);
        ThroughParent(w, before, tx, h, i);
      }
    } else if c :| c in before && Rival(before[c], tx) && Descends(w, before, c, h) {
      RivalIsGone(before, after, tx, c);
      DescendantIsGone(w, before, after, tx, c, h);
    } else {
      RivalIsGone(before, after, tx, h);
    }
  }

  /** A child of a displaced transaction is displaced. */
  lemma ThroughParent(w: World, pool: Pool, tx: Tx, h: Hash, i: nat)
    requires PoolOk(w, pool) && h in pool && i < |pool[h].vin| && Displaced(w, pool, tx, pool[h].vin[i].prevout.hash)
    ensures Displaced(w, pool, tx, h)
  {
    var b := pool[h].vin[i].prevout.hash;
    assert InputOk(w, pool[h], i);
    var c := b;
    if !Rival(pool[b], tx) {
      c :| c in pool && Rival(pool[c], tx) && Descends(w, pool, c, b);
    }
    assert Descends(w, pool, c, h);
  }

  lemma RivalIsGone(before: Pool, after: Pool, tx: Tx, h: Hash)
    requires Within(after, before) && h in before
    requires forall i :: 0 <= i < |tx.vin| ==> OnlyBy(after, tx.vin[i].prevout, tx)
    ensures Rival(before[h], tx) ==> h !in after
  {
  }

  lemma {:induction false} DescendantIsGone(w: World, before: Pool, after: Pool, tx: Tx, c: Hash, h: Hash)
    requires PoolOk(w, before) && Swept(before, after, tx) && c in before && c !in after && Descends(w, before, c, h)
    ensures h !in after
    decreases w.rank(h)
  {
    var t := before[h];
    var i :| 0 <= i < |t.vin| && InputOk(w, t, i)
             && var b := t.vin[i].prevout.hash; b == c || Descends(w, before, c, b);
    var b := t.vin[i].prevout.hash;
    if b != c {
      DescendantIsGone(w, before, after, tx, c, b);
    }
    assert SpendsFrom(t, b);
  }

  /** Nothing in the pool but tx itself spends o. */
  ghost predicate OnlyBy(pool: Pool, o: OutPoint, tx: Tx) {
    forall h :: h in pool && Spends(pool[h], o) ==> pool[h] == tx
  }

  lemma StaysOnlyBy(before: Pool, after: Pool, o: OutPoint, tx: Tx)
    requires Within(after, before) && OnlyBy(before, o, tx)
    ensures OnlyBy(after, o, tx)
  {
    hide Spends;
  }

  /** An index entry tells the only spender. */
  lemma OnlySpender(pool: Pool, nextTx: map<OutPoint, InPoint>, o: OutPoint, tx: Tx)
    requires IndexOk(pool, nextTx)
    requires o in nextTx ==> nextTx[o].txid in pool && pool[nextTx[o].txid] == tx && Spends(tx, o)
    ensures OnlyBy(pool, o, tx)
  {
    NotIndexedIsUnspent(pool, nextTx, o);
    hide Spends, IndexOk;
    if o in nextTx {
      forall h | h in pool && Spends(pool[h], o)
        ensures pool[h] == tx
      {
        NoDoubleSpend(pool, nextTx, h, nextTx[o].txid, o);
      }
    }
  }

  lemma PoolGrows(w: World, pool: Pool, tx: Tx)
    requires PoolOk(w, pool) && Checked(w, tx)
    ensures PoolOk(w, pool[tx.txid := tx])
  {
  }

  lemma PoolShrinks(w: World, pool: Pool, h: Hash)
    requires PoolOk(w, pool)
    ensures PoolOk(w, pool - {h})
  {
  }

  class TxMemPool {
    ghost const w: World
    var mapTx: Pool
    var mapNextTx: map<OutPoint, InPoint>
    var updates: nat

    ghost predicate Valid()
      reads this
    {
      PoolOk(w, mapTx) && IndexOk(mapTx, mapNextTx)
    }

    constructor (ghost w: World)
      ensures Valid() && mapTx == map[] && mapNextTx == map[] && this.w == w
    {
      this.w := w;
      mapTx, mapNextTx, updates := map[], map[], 0;
    }

    method AddUnchecked(tx: Tx)
      requires Valid() && Checked(w, tx) && tx.txid !in mapTx
      requires forall i :: 0 <= i < |tx.vin| ==> tx.vin[i].prevout !in mapNextTx
      modifies this
      ensures Valid() && mapTx == old(mapTx)[tx.txid := tx]
    {
      hide IndexOk, PoolOk;
      ghost var before := mapNextTx;
      assert Added(before, tx, 0, mapNextTx);
      hide Added;
      for i := 0 to |tx.vin|
        invariant mapTx == old(mapTx) && Added(before, tx, i, mapNextTx)
      {
        AddStep(before, tx, i, mapNextTx);
        mapNextTx := mapNextTx[tx.vin[i].prevout := InPoint(tx.txid, i)];
      }
      AddKeeps(mapTx, before, tx, mapNextTx);
      mapTx := mapTx[tx.txid := tx];
      updates := updates + 1;
      assert PoolOk(w, mapTx) by {
        PoolGrows(w, old(mapTx), tx);
      }
    }

    /** What CCoinsViewMemPool finds. */
    method Find(coins: View, txid: Hash) returns (r: Option<Coins>)
      requires coins.Valid()
      modifies coins.levels
      ensures coins.Flat() == old(coins.Flat()) && coins.Best() == old(coins.Best()) && coins.tip == old(coins.tip)
      ensures r == if txid in Seen(coins.Flat(), mapTx) then Some(Seen(coins.Flat(), mapTx)[txid]) else None
    {
      r := coins.GetCoins(txid);
      if r.None? && txid in mapTx {
        r := Some(CoinsOf(mapTx[txid], MEMPOOL_HEIGHT));
      }
    }

    /** The inputs that accept asks for are there. */
    method FindInputs(coins: View, vin: seq<TxIn>) returns (ok: bool)
      requires coins.Valid()
      modifies coins.levels
      ensures coins.Flat() == old(coins.Flat()) && coins.Best() == old(coins.Best()) && coins.tip == old(coins.tip)
      ensures ok <==> HaveInputs(Seen(coins.Flat(), mapTx), vin)
    {
      ghost var m := coins.Flat();
      hide Seen;
      for i := 0 to |vin|
        invariant coins.Flat() == m && coins.Best() == old(coins.Best()) && coins.tip == old(coins.tip)
        invariant mapTx == old(mapTx)
        invariant forall j :: 0 <= j < i ==> Available(Seen(m, mapTx), vin[j].prevout)
      {
        var c := Find(coins, vin[i].prevout.hash);
        if c.None? || !c.value.IsAvailable(vin[i].prevout.n) {
          assert !Available(Seen(m, mapTx), vin[i].prevout);
          return false;
        }
      }
      ok := true;
    }

    /** No input of tx is spent in the pool. */
    method NoConflict(tx: Tx) returns (ok: bool)
      requires Valid()
      ensures ok <==> forall i :: 0 <= i < |tx.vin| ==> Unspent(mapTx, tx.vin[i].prevout)
      ensures ok ==> forall i :: 0 <= i < |tx.vin| ==> tx.vin[i].prevout !in mapNextTx
    {
      hide PoolOk, Unspent;
      for i := 0 to |tx.vin|
        invariant forall j :: 0 <= j < i ==> tx.vin[j].prevout !in mapNextTx && Unspent(mapTx, tx.vin[j].prevout)
      {
        NotIndexedIsUnspent(mapTx, mapNextTx, tx.vin[i].prevout);
        if tx.vin[i].prevout in mapNextTx {
          return false;
        }
      }
      ok := true;
    }

    /** accept; other is the outcome of all checks but those for presence in the ledger and in the pool. */
    method Accept(tx: Tx, coins: View, other: bool) returns (ok: bool)
      requires Valid() && coins.Valid() && LedgerOf(w, coins.Flat()) && (other ==> Grounded(w, tx))
      modifies this, coins.levels
      ensures Valid() && coins.Flat() == old(coins.Flat())
      ensures coins.Best() == old(coins.Best()) && coins.tip == old(coins.tip)
      ensures ok <==> other && Fits(coins.Flat(), old(mapTx), tx)
      ensures mapTx == if ok then old(mapTx)[tx.txid := tx] else old(mapTx)
      ensures old(Backed(mapTx, coins.Flat())) ==> Backed(mapTx, coins.Flat())
    {
      hide PoolOk, IndexOk, Checked, Grounded, Unspent, LedgerOf, HaveInputs, BackedBut;
      var free := NoConflict(tx);
      if !other || tx.txid in mapTx || !free {
        return false;
      }
      var known := Find(coins, tx.txid);
      if known.Some? {
        return false;
      }
      var found := FindInputs(coins, tx.vin);
      if !found {
        return false;
      }
      FittingIsChecked(w, mapTx, coins.Flat(), tx);
      AddUnchecked(tx);
      if old(Backed(mapTx, coins.Flat())) {
        EnterKeepsBacked(old(mapTx), coins.Flat(), {}, {}, tx);
      }
      ok := true;
    }

    /** Take the inputs of a transaction out of the index. */
    method Unindex(tx: Tx)
      modifies this`mapNextTx
      ensures mapNextTx == old(mapNextTx) - Prevouts(tx, |tx.vin|)
    {
      ghost var before := mapNextTx;
      assert before - Prevouts(tx, 0) == before;
      for i := 0 to |tx.vin|
        invariant mapNextTx == before - Prevouts(tx, i)
      {
        assert Prevouts(tx, i + 1) == Prevouts(tx, i) + {tx.vin[i].prevout};
        mapNextTx := mapNextTx - {tx.vin[i].prevout};
      }
    }

    /** Take one transaction out. */
    method Erase(tx: Tx)
      requires Valid() && Identified(w, tx)
      modifies this
      ensures Valid() && mapTx == old(mapTx) - {tx.txid}
    {
      assert tx.txid in mapTx ==> mapTx[tx.txid] == tx;
      PoolShrinks(w, mapTx, tx.txid);
      hide IndexOk, PoolOk, Identified, Prevouts;
      if tx.txid in mapTx {
        EraseKeeps(mapTx, mapNextTx, tx.txid);
        Unindex(tx);
        mapTx := mapTx - {tx.txid};
        updates := updates + 1;
      } else {
        assert mapTx - {tx.txid} == mapTx;
      }
    }

    /** remove.  With recursive, exactly the transaction and its descendants go. */
    method Remove(tx: Tx, recursive: bool)
      requires Valid() && Identified(w, tx)
      modifies this
      ensures Valid() && tx.txid !in mapTx
      ensures !recursive ==> mapTx == old(mapTx) - {tx.txid}
      ensures recursive ==> Cut(old(mapTx), mapTx, tx.txid)
      decreases |Above(w, mapTx, w.rank(tx.txid))|, 1
    {
      hide Cut, Pruned, IndexOk, PoolOk, Above, SpendsFrom;
      if recursive {
        RemoveDescendants(tx);
        PruneLast(old(mapTx), mapTx, tx.txid);
      }
      Erase(tx);
    }

    method RemoveDescendants(tx: Tx)
      requires Valid() && Identified(w, tx)
      modifies this
      ensures Valid() && Pruned(old(mapTx), mapTx, tx.txid)
      ensures forall h :: h in mapTx ==> !SpendsFrom(mapTx[h], tx.txid)
      decreases |Above(w, mapTx, w.rank(tx.txid))|, 0
    {
      ghost var before := mapTx;
      assert Pruned(before, mapTx, tx.txid);
      hide Cut, Pruned, IndexOk, PoolOk, Above, SpendsFrom, Unspent, Within, Spends, Identified;
      for i := 0 to |tx.vout|
        invariant Valid() && Pruned(before, mapTx, tx.txid)
        invariant forall j :: 0 <= j < i ==> Unspent(mapTx, OutPoint(tx.txid, j))
      {
        var o := OutPoint(tx.txid, i);
        NotIndexedIsUnspent(mapTx, mapNextTx, o);
        if o in mapNextTx {
          ghost var mid, next := mapTx, mapNextTx;
          ChildOf(w, mapTx, mapNextTx, o);
          var child := mapTx[mapNextTx[o].txid];
          PrunedIsWithin(before, mapTx, tx.txid);
          AboveShrinks(w, before, mapTx, tx.txid, child.txid);
          Remove(child, true);
          CutIsWithin(mid, mapTx, child.txid);
          PruneMore(before, mid, mapTx, tx.txid, child.txid);
          SpenderGone(mid, next, mapTx, o, child.txid);
          forall j | 0 <= j < i
            ensures Unspent(mapTx, OutPoint(tx.txid, j))
          {
            StaysUnspent(mid, mapTx, OutPoint(tx.txid, j));
          }
        }
      }
      AllOutputsUnspent(w, mapTx, tx);
    }

    /** removeConflicts.  Exactly the rivals of tx and their descendants go. */
    method RemoveConflicts(tx: Tx)
      requires Valid()
      modifies this
      ensures Valid() && Swept(old(mapTx), mapTx, tx)
      ensures forall h :: h in old(mapTx) ==> (h !in mapTx <==> Displaced(w, old(mapTx), tx, h))
      ensures forall i :: 0 <= i < |tx.vin| ==> OnlyBy(mapTx, tx.vin[i].prevout, tx)
    {
      ghost var before := mapTx;
      SweptNothing(before, tx);
      hide Cut, Swept, IndexOk, PoolOk, SpendsFrom, Unspent, Within, Spends, Identified, OnlyBy, Rival, Displaced;
      for i := 0 to |tx.vin|
        invariant Valid() && Swept(before, mapTx, tx)
        invariant forall j :: 0 <= j < i ==> OnlyBy(mapTx, tx.vin[j].prevout, tx)
      {
        var o := tx.vin[i].prevout;
        ghost var mid, next := mapTx, mapNextTx;
        if o in mapNextTx {
          ChildOf(w, mapTx, mapNextTx, o);
          var conflict := mapTx[mapNextTx[o].txid];
          if conflict != tx {
            InConflict(conflict, tx, i);
            Remove(conflict, true);
            CutIsWithin(mid, mapTx, conflict.txid);
            SweepMore(before, mid, mapTx, tx, conflict.txid);
            SpenderGone(mid, next, mapTx, o, conflict.txid);
            UnspentIsOnlyBy(mapTx, o, tx);
            forall j | 0 <= j < i
              ensures OnlyBy(mapTx, tx.vin[j].prevout, tx)
            {
              StaysOnlyBy(mid, mapTx, tx.vin[j].prevout, tx);
            }
          } else {
            OnlySpender(mapTx, mapNextTx, o, tx);
          }
        } else {
          OnlySpender(mapTx, mapNextTx, o, tx);
        }
      }
      forall h | h in before
        ensures h !in mapTx <==> Displaced(w, before, tx, h)
      {
        SweptIsDisplaced(w, before, mapTx, tx, h);
      }
    }

    /** Transactions of disconnected blocks come back if they can. */
    method Resurrect(coins: View, resurrect: seq<(Tx, bool)>) returns (ghost history: seq<Pool>)
      requires Valid() && coins.Valid() && LedgerOf(w, coins.Flat())
      requires forall i :: 0 <= i < |resurrect| ==>
                 Identified(w, resurrect[i].0) && (resurrect[i].1 ==> Grounded(w, resurrect[i].0))
      modifies this, coins.levels
      ensures Valid() && coins.Flat() == old(coins.Flat())
      ensures coins.Best() == old(coins.Best()) && coins.tip == old(coins.tip)
      ensures |history| == |resurrect| + 1 && history[0] == old(mapTx) && history[|resurrect|] == mapTx
      ensures forall k :: 0 <= k < |history| ==> PoolOk(w, history[k])
      ensures forall i :: 0 <= i < |resurrect| ==>
                Resurrected(coins.Flat(), history[i], history[i + 1], resurrect[i].0, resurrect[i].1)
    {
      hide Cut, IndexOk, PoolOk, Identified, Grounded, Resurrected, LedgerOf, BackedBut, Fits;
      ghost var m := coins.Flat();
      history := [mapTx];
      for k := 0 to |resurrect|
        invariant Valid() && coins.Flat() == m && coins.Best() == old(coins.Best()) && coins.tip == old(coins.tip)
        invariant |history| == k + 1 && history[0] == old(mapTx) && history[k] == mapTx
        invariant forall i :: 0 <= i <= k ==> PoolOk(w, history[i])
        invariant forall i :: 0 <= i < k ==> Resurrected(m, history[i], history[i + 1], resurrect[i].0, resurrect[i].1)
      {
        ghost var before := mapTx;
        var (tx, other) := resurrect[k];
        var ok := Accept(tx, coins, other);
        if !ok {
          Remove(tx, true);
        }
        ResurrectedStep(m, before, mapTx, tx, other, ok);
        history := history + [mapTx];
      }
    }

    /** Transactions of connected blocks go, with everything that conflicts with them. */
    method Discard(connected: seq<Tx>) returns (ghost history: seq<Pool>)
      requires Valid()
      requires forall i :: 0 <= i < |connected| ==> Identified(w, connected[i])
      modifies this
      ensures Valid()
      ensures |history| == |connected| + 1 && history[0] == old(mapTx) && history[|connected|] == mapTx
      ensures forall k :: 0 <= k < |history| ==> PoolOk(w, history[k])
      ensures forall i :: 0 <= i < |connected| ==> Discarded(history[i], history[i + 1], connected[i])
      ensures forall k, i :: 0 <= k < |connected| && 0 <= i < |connected[k].vin|
                ==> Unspent(mapTx, connected[k].vin[i].prevout)
    {
      hide Cut, Swept, IndexOk, PoolOk, Unspent, Within, Identified, OnlyBy, Discarded, Displaced;
      history := [mapTx];
      for k := 0 to |connected|
        invariant Valid()
        invariant |history| == k + 1 && history[0] == old(mapTx) && history[k] == mapTx
        invariant forall i :: 0 <= i <= k ==> PoolOk(w, history[i])
        invariant forall i :: 0 <= i < k ==> Discarded(history[i], history[i + 1], connected[i])
        invariant forall j, i :: 0 <= j < k && 0 <= i < |connected[j].vin|
                    ==> Unspent(mapTx, connected[j].vin[i].prevout)
      {
        var tx := connected[k];
        ghost var before := mapTx;
        Remove(tx, false);
        ghost var mid := mapTx;
        RemoveConflicts(tx);
        SweptIsWithin(before, mid, mapTx, tx);
        forall j, i | 0 <= j < k && 0 <= i < |connected[j].vin|
          ensures Unspent(mapTx, connected[j].vin[i].prevout)
        {
          StaysUnspent(before, mapTx, connected[j].vin[i].prevout);
        }
        forall i | 0 <= i < |tx.vin|
          ensures Unspent(mapTx, tx.vin[i].prevout)
        {
          GoneMeansUnspent(w, mapTx, tx.vin[i].prevout, tx);
        }
        DiscardedStep(before, mapTx, tx);
        history := history + [mapTx];
      }
    }

    /** The end of SetBestChain: transactions of disconnected blocks come back if they can, and those of connected
        blocks go, with everything that conflicts with them.  history is the pool before each of these steps and after
        the last one, so that what every step adds and removes is exact. */
    method Update(coins: View, resurrect: seq<(Tx, bool)>, connected: seq<Tx>) returns (ghost history: seq<Pool>)
      requires Valid() && coins.Valid() && LedgerOf(w, coins.Flat())
      requires forall i :: 0 <= i < |resurrect| ==>
                 Identified(w, resurrect[i].0) && (resurrect[i].1 ==> Grounded(w, resurrect[i].0))
      requires forall i :: 0 <= i < |connected| ==> Identified(w, connected[i])
      modifies this, coins.levels
      ensures Valid() && coins.Flat() == old(coins.Flat())
      ensures coins.Best() == old(coins.Best()) && coins.tip == old(coins.tip)
      ensures IsHistory(coins.Flat(), history, resurrect, connected)
      ensures history != [] && history[0] == old(mapTx) && history[|history| - 1] == mapTx
      ensures forall k :: 0 <= k < |history| ==> PoolOk(w, history[k])
      ensures forall k, i :: 0 <= k < |connected| && 0 <= i < |connected[k].vin|
                ==> Unspent(mapTx, connected[k].vin[i].prevout)
    {
      hide IndexOk, PoolOk, Unspent, Identified, Grounded, Resurrected, Discarded, LedgerOf;
      ghost var back := Resurrect(coins, resurrect);
      ghost var gone := Discard(connected);
      history := back + gone[1..];
    }
  }

  /** A transaction of a disconnected block: it enters if it passes and fits ledger and pool, and otherwise goes with
      its descendants. */
  ghost predicate Resurrected(m: Utxo, before: Pool, after: Pool, tx: Tx, other: bool) {
    if other && Fits(m, before, tx) then after == before[tx.txid := tx]
    else Cut(before, after, tx.txid) && tx.txid !in after
  }

  /** A transaction of a connected block: it goes, and so does what conflicts with it or spends from what went. */
  ghost predicate Discarded(before: Pool, after: Pool, tx: Tx) {
    && Swept(before - {tx.txid}, after, tx)
    && forall i :: 0 <= i < |tx.vin| ==> Unspent(after, tx.vin[i].prevout)
  }

  ghost predicate IsHistory(m: Utxo, history: seq<Pool>, resurrect: seq<(Tx, bool)>, connected: seq<Tx>) {
    var n := |resurrect|;
    && |history| == n + |connected| + 1
    && (forall i :: 0 <= i < n ==> Resurrected(m, history[i], history[i + 1], resurrect[i].0, resurrect[i].1))
    && (forall i :: n <= i < n + |connected| ==> Discarded(history[i], history[i + 1], connected[i - n]))
  }

  lemma ResurrectedStep(m: Utxo, before: Pool, after: Pool, tx: Tx, other: bool, ok: bool)
    requires ok <==> other && Fits(m, before, tx)
    requires if ok then after == before[tx.txid := tx] else Cut(before, after, tx.txid) && tx.txid !in after
    ensures Resurrected(m, before, after, tx, other)
  {
    hide Cut, Fits;
  }

  lemma DiscardedStep(before: Pool, after: Pool, tx: Tx)
    requires Swept(before - {tx.txid}, after, tx)
    requires forall i :: 0 <= i < |tx.vin| ==> Unspent(after, tx.vin[i].prevout)
    ensures Discarded(before, after, tx)
  {
    hide Swept, Unspent;
  }

  /** Why a transaction leaves the pool in one step. */
  ghost predicate LeavesFor(before: Pool, after: Pool, h: Hash, tx: Tx, connected: bool)
    requires h in before
  {
    || h == tx.txid
    || (connected && Rival(before[h], tx))
    || (!connected && SpendsFrom(before[h], tx.txid))
    || (exists b :: b in before && b !in after && SpendsFrom(before[h], b))
  }

  /** Nothing leaves but connected transactions, conflicts with them, refused resurrected ones, and what spends from
      those; nothing enters but resurrected transactions that pass. */
  lemma StepKeeps(m: Utxo, history: seq<Pool>, resurrect: seq<(Tx, bool)>, connected: seq<Tx>, k: nat, h: Hash)
    requires IsHistory(m, history, resurrect, connected) && k + 1 < |history|
    ensures var n, before, after := |resurrect|, history[k], history[k + 1];
            && (h in before && h !in after ==>
                  if k < n then LeavesFor(before, after, h, resurrect[k].0, false)
                  else LeavesFor(before, after, h, connected[k - n], true))
            && (h in after && h !in before ==>
                  k < n && resurrect[k].1 && h == resurrect[k].0.txid && after[h] == resurrect[k].0
                  && Fits(m, before, after[h]))
            && (h in before && h in after ==> after[h] == before[h])
  {
    var n, before, after := |resurrect|, history[k], history[k + 1];
    hide Rival, SpendsFrom, Unspent, Fits;
    if k < n {
      assert Resurrected(m, before, after, resurrect[k].0, resurrect[k].1);
      if h in before && h !in after && h != resurrect[k].0.txid {
        assert Uprooted(before, after, resurrect[k].0.txid, before[h]);
      }
    } else {
      var tx := connected[k - n];
      assert Discarded(before, after, tx);
      if h in before && h !in after && h != tx.txid {
        assert SweptAway(before - {tx.txid}, after, tx, before[h]);
      }
    }
  }

  /** Over the whole update: what was in the pool and is not any more left in one of the steps, for the reason there. */
  lemma {:induction false} LeftForAReason(m: Utxo, history: seq<Pool>, resurrect: seq<(Tx, bool)>, connected: seq<Tx>,
                                          h: Hash, n: nat) returns (k: nat)
    requires IsHistory(m, history, resurrect, connected) && n < |history| && h in history[0] && h !in history[n]
    ensures k < n && h in history[k] && h !in history[k + 1]
    ensures if k < |resurrect| then LeavesFor(history[k], history[k + 1], h, resurrect[k].0, false)
            else k - |resurrect| < |connected|
                 && LeavesFor(history[k], history[k + 1], h, connected[k - |resurrect|], true)
  {
    hide LeavesFor, Resurrected, Discarded;
    if h in history[n - 1] {
      k := n - 1;
      StepKeeps(m, history, resurrect, connected, k, h);
    } else {
      k := LeftForAReason(m, history, resurrect, connected, h, n - 1);
    }
  }

  // ---------- The pool stays backed ----------

  /** tx came back and supplies what spends from it, or went with everything that does. */
  lemma ResurrectedBacks(w: World, m: Utxo, before: Pool, after: Pool, tx: Tx, other: bool,
                         spent: set<OutPoint>, lost: set<Hash>)
    requires PoolOk(w, before) && PoolOk(w, after) && Identified(w, tx) && Resurrected(m, before, after, tx, other)
    requires BackedBut(before, m, spent, lost + {tx.txid})
    ensures BackedBut(after, m, spent, lost)
  {
    if other && Fits(m, before, tx) {
      EnterKeepsBacked(before, m, spent, lost + {tx.txid}, tx);
    } else {
      CutIsWithin(before, after, tx.txid);
      LeaveKeepsBacked(before, after, m, spent, lost + {tx.txid});
    }
    forall h, i | h in after && 0 <= i < |after[h].vin|
      ensures BackedAt(after, m, spent, lost, after[h].vin[i].prevout)
    {
      assert BackedAt(after, m, spent, lost + {tx.txid}, after[h].vin[i].prevout);
      assert InputOk(w, after[h], i) && SpendsFrom(after[h], after[h].vin[i].prevout.hash);
    }
  }

  /** The ledger supplies the outputs of a transaction that left for a block, as far as they are not spent. */
  ghost predicate Deposited(m: Utxo, tx: Tx, spent: set<OutPoint>) {
    forall n: nat :: n < |tx.vout| ==> Available(m, OutPoint(tx.txid, n)) || OutPoint(tx.txid, n) in spent
  }

  lemma DiscardedBacks(w: World, m: Utxo, before: Pool, after: Pool, tx: Tx, spent: set<OutPoint>, lost: set<Hash>)
    requires PoolOk(w, before) && Identified(w, tx) && Discarded(before, after, tx) && Deposited(m, tx, spent)
    requires BackedBut(before, m, spent, lost)
    ensures BackedBut(after, m, spent, lost)
  {
    var mid := before - {tx.txid};
    forall h, i | h in mid && 0 <= i < |mid[h].vin|
      ensures BackedAt(mid, m, spent, lost, mid[h].vin[i].prevout)
    {
      var o := mid[h].vin[i].prevout;
      assert BackedAt(before, m, spent, lost, before[h].vin[i].prevout);
      assert o == OutPoint(o.hash, o.n);
    }
    LeaveKeepsBacked(mid, after, m, spent, lost);
  }

  /** The transactions from place k on. */
  ghost function Ids(resurrect: seq<(Tx, bool)>, k: nat): set<Hash> {
    set i | k <= i < |resurrect| :: resurrect[i].0.txid
  }

  ghost function Inputs(txs: seq<Tx>): set<OutPoint> {
    set k, i | 0 <= k < |txs| && 0 <= i < |txs[k].vin| :: txs[k].vin[i].prevout
  }

  ghost predicate AllOk(w: World, history: seq<Pool>, resurrect: seq<(Tx, bool)>, connected: seq<Tx>) {
    && (forall k :: 0 <= k < |history| ==> PoolOk(w, history[k]))
    && (forall k :: 0 <= k < |resurrect| ==> Identified(w, resurrect[k].0))
    && (forall k :: 0 <= k < |connected| ==> Identified(w, connected[k]))
  }

  lemma {:induction false} ResurrectionBacks(w: World, m: Utxo, history: seq<Pool>, resurrect: seq<(Tx, bool)>,
                                             connected: seq<Tx>, spent: set<OutPoint>, lost: set<Hash>, k: nat)
    requires IsHistory(m, history, resurrect, connected) && AllOk(w, history, resurrect, connected)
    requires BackedBut(history[0], m, spent, lost + Ids(resurrect, 0)) && k <= |resurrect|
    ensures BackedBut(history[k], m, spent, lost + Ids(resurrect, k))
  {
    hide PoolOk, Identified, Resurrected, Discarded, BackedBut;
    if k > 0 {
      ResurrectionBacks(w, m, history, resurrect, connected, spent, lost, k - 1);
      var tx := resurrect[k - 1].0;
      assert lost + Ids(resurrect, k - 1) == lost + Ids(resurrect, k) + {tx.txid};
      ResurrectedBacks(w, m, history[k - 1], history[k], tx, resurrect[k - 1].1, spent, lost + Ids(resurrect, k));
    }
  }

  lemma {:induction false} DiscardBacks(w: World, m: Utxo, history: seq<Pool>, resurrect: seq<(Tx, bool)>,
                                        connected: seq<Tx>, spent: set<OutPoint>, lost: set<Hash>, k: nat)
    requires IsHistory(m, history, resurrect, connected) && AllOk(w, history, resurrect, connected)
    requires BackedBut(history[|resurrect|], m, spent, lost) && k <= |connected|
    requires forall j :: 0 <= j < |connected| ==> Deposited(m, connected[j], spent)
    ensures BackedBut(history[|resurrect| + k], m, spent, lost)
  {
    hide PoolOk, Identified, Resurrected, Discarded, BackedBut, Deposited;
    if k > 0 {
      DiscardBacks(w, m, history, resurrect, connected, spent, lost, k - 1);
      var n := |resurrect| + k - 1;
      assert connected[n - |resurrect|] == connected[k - 1];
      DiscardedBacks(w, m, history[n], history[n + 1], connected[k - 1], spent, lost);
    }
  }

  /** If before an update the inputs of the pool are in the new ledger, in the pool, spent by the connected blocks or
      from transactions that are disconnected, then after it they are in the new ledger or in the pool, except where
      they are from a disconnected transaction that the update does not look at. */
  lemma UpdateBacks(w: World, m: Utxo, history: seq<Pool>, resurrect: seq<(Tx, bool)>, connected: seq<Tx>,
                    lost: set<Hash>)
    requires IsHistory(m, history, resurrect, connected) && AllOk(w, history, resurrect, connected)
    requires BackedBut(history[0], m, Inputs(connected), lost + Ids(resurrect, 0))
    requires forall j :: 0 <= j < |connected| ==> Deposited(m, connected[j], Inputs(connected))
    requires forall o :: o in Inputs(connected) ==> Unspent(history[|history| - 1], o)
    ensures BackedBut(history[|history| - 1], m, {}, lost)
  {
    hide PoolOk, Identified, Resurrected, Discarded, Deposited, Unspent, Inputs;
    var spent, last := Inputs(connected), history[|history| - 1];
    ResurrectionBacks(w, m, history, resurrect, connected, spent, lost, |resurrect|);
    assert lost + Ids(resurrect, |resurrect|) == lost;
    DiscardBacks(w, m, history, resurrect, connected, spent, lost, |connected|);
    forall h, i | h in last && 0 <= i < |last[h].vin|
      ensures BackedAt(last, m, {}, lost, last[h].vin[i].prevout)
    {
      assert BackedAt(last, m, spent, lost, last[h].vin[i].prevout);
      SpenderIsNamed(last, h, i);
    }
  }

  /** On an empty ledger only an empty pool is backed. */
  lemma {:induction false} NothingToSpend(w: World, pool: Pool, h: Hash)
    requires PoolOk(w, pool) && Backed(pool, map[])
    ensures h !in pool
    decreases w.rank(h)
  {
    if h in pool {
      var o := pool[h].vin[0].prevout;
      assert InputOk(w, pool[h], 0) && BackedAt(pool, map[], {}, {}, o);
      NothingToSpend(w, pool, o.hash);
    }
  }

  lemma {:induction false} EmptyStaysEmpty(m: Utxo, history: seq<Pool>, connected: seq<Tx>, k: nat)
    requires IsHistory(m, history, [], connected) && history[0] == map[] && k < |history|
    ensures history[k] == map[]
  {
    if k > 0 {
      EmptyStaysEmpty(m, history, connected, k - 1);
      assert Discarded(history[k - 1], history[k], connected[k - 1 - 0]);
    }
  }

  lemma BackedByLive(pool: Pool, m: Utxo, m': Utxo, spent: set<OutPoint>, lost: set<Hash>)
    requires Live(m) == Live(m') && BackedBut(pool, m, spent, lost)
    ensures BackedBut(pool, m', spent, lost)
  {
    forall h, i | h in pool && 0 <= i < |pool[h].vin|
      ensures BackedAt(pool, m', spent, lost, pool[h].vin[i].prevout)
    {
      assert BackedAt(pool, m, spent, lost, pool[h].vin[i].prevout);
      AvailableByLive(m, m', pool[h].vin[i].prevout);
    }
  }

  lemma SpenderIsNamed(pool: Pool, h: Hash, i: nat)
    requires h in pool && i < |pool[h].vin|
    ensures !Unspent(pool, pool[h].vin[i].prevout)
  {
  }

  lemma SweptNothing(pool: Pool, tx: Tx)
    ensures Swept(pool, pool, tx)
  {
  }

  lemma InConflict(t: Tx, tx: Tx, i: nat)
    requires i < |tx.vin| && Spends(t, tx.vin[i].prevout) && t != tx
    ensures Rival(t, tx)
  {
  }

  lemma UnspentIsOnlyBy(pool: Pool, o: OutPoint, tx: Tx)
    requires Unspent(pool, o)
    ensures OnlyBy(pool, o, tx)
  {
  }

  lemma SweptIsWithin(before: Pool, mid: Pool, after: Pool, tx: Tx)
    requires mid == before - {tx.txid} && Swept(mid, after, tx)
    ensures Within(after, before) && tx.txid !in after
  {
  }

  lemma GoneMeansUnspent(w: World, pool: Pool, o: OutPoint, tx: Tx)
    requires PoolOk(w, pool) && OnlyBy(pool, o, tx) && tx.txid !in pool
    ensures Unspent(pool, o)
  {
  }
}
