/** Coin views: write-back caches stacked on a coin database.
    Reads fill caches at every level, writes stay in the top cache until Flush pushes them one level down,
    and the database drops entries that have no unspent output left. */
module CoinsView {
  import opened Primitives
  import opened Coins
  import opened Ledger
  import opened BlockTree

  /** What a batch does to stored entries: a cache takes every entry over, the database erases spent ones. */
  function Merged(coins: Utxo, batch: Utxo, drop: bool): Utxo {
    map k | k in coins.Keys + batch.Keys && !(drop && k in batch && batch[k].IsPruned())
      :: if k in batch then batch[k] else coins[k]
  }

  lemma MergedIsLive(coins: Utxo, batch: Utxo, drop: bool)
    ensures Live(Merged(coins, batch, drop)) == Live(coins + batch)
    ensures !drop ==> Merged(coins, batch, drop) == coins + batch
  {
  }

  lemma LiveDrop(coins: Utxo, txid: Hash, c: Coins)
    requires c.IsPruned()
    ensures Live(coins - {txid}) == Live(coins[txid := c])
  {
  }

  lemma MergedStep(coins: Utxo, batch: Utxo, drop: bool, k: Hash, c: Coins)
    requires k !in batch
    ensures Merged(coins, batch[k := c], drop)
         == if drop && c.IsPruned() then Merged(coins, batch, drop) - {k} else Merged(coins, batch, drop)[k := c]
  {
  }

  /** BatchWriteCoins for every entry of a batch, in any order. */
  method MergeBatch(coins: Utxo, batch: Utxo, drop: bool) returns (r: Utxo)
    ensures r == Merged(coins, batch, drop)
  {
    r := coins;
    var todo := batch.Keys;
    ghost var done: Utxo := map[];
    while todo != {}
      invariant todo <= batch.Keys
      invariant done == batch - todo
      invariant r == Merged(coins, done, drop)
      decreases todo
    {
      var k :| k in todo;
      MergedStep(coins, done, drop, k, batch[k]);
      if drop && batch[k].IsPruned() {
        r := r - {k};
      } else {
        r := r[k := batch[k]];
      }
      done := done[k := batch[k]];
      todo := todo - {k};
    }
    assert done == batch;
  }

  /** CCoinsViewCache, or CCoinsViewDB when base is null. */
  class View {
    var coins: Utxo
    var tip: BlockIndex?
    const base: View?

    /** This view and the ones below it, ending with the database. */
    ghost const levels: seq<View>

    ghost predicate Valid() {
      && |levels| > 0 && levels[0] == this
      && levels[|levels| - 1].base == null
      && forall i :: 0 <= i < |levels| ==> LevelValid(i)
    }

    ghost predicate LevelValid(i: nat)
      requires i < |levels|
    {
      && levels[i].levels == levels[i..]
      && (i + 1 < |levels| ==> levels[i].base == levels[i + 1])
    }

    /** The one flat map that the stack stands for. */
    ghost function Flat(): Utxo
      requires Valid()
      reads levels
      decreases |levels|
    {
      if base == null then coins else (BaseValid(this); base.Flat() + coins)
    }

    /** The best block that the stack stands for. */
    ghost function Best(): BlockIndex?
      requires Valid()
      reads levels
      decreases |levels|
    {
      if base == null || tip != null then tip else (BaseValid(this); base.Best())
    }

    /** The level below still stands for the same ledger and best block; only a flush changes that. */
    twostate predicate BaseKept()
      requires Valid()
      reads levels
    {
      BaseValid(this);
      base != null ==>
        && base.Flat() == old(base.Flat())
        && base.Best() == old(base.Best())
        && (old(base.tip == base.Best()) ==> base.tip == base.Best())
    }

    constructor Database(coins: Utxo, tip: BlockIndex?)
      ensures Valid() && base == null && levels == [this]
      ensures this.coins == coins && this.tip == tip
    {
      this.coins, this.tip, base := coins, tip, null;
      levels := [this];
    }

    constructor Cache(base: View)
      requires base.Valid()
      ensures Valid() && this.base == base && levels == [this] + base.levels
      ensures coins == map[] && tip == null
      ensures Flat() == base.Flat() && Best() == base.Best()
    {
      this.base := base;
      coins, tip := map[], null;
      levels := [this] + base.levels;
      new;
      forall i | 0 <= i < |levels|
        ensures LevelValid(i)
      {
        if i > 0 {
          assert base.LevelValid(i - 1);
          assert levels[i..] == base.levels[i - 1..];
        }
      }
    }

    /** GetCoins and FetchCoins: look a transaction up, remembering what was read. */
    method GetCoins(txid: Hash) returns (r: Option<Coins>)
      requires Valid()
      modifies levels
      ensures Flat() == old(Flat()) && Best() == old(Best())
      ensures BaseKept()
      ensures forall v :: v in levels ==> v.tip == old(v.tip)
      ensures r == if txid in Flat() then Some(Flat()[txid]) else None
      ensures r.Some? ==> txid in coins
      decreases |levels|
    {
      if base == null {
        return if txid in coins then Some(coins[txid]) else None;
      }
      BaseValid(this);
      if txid in coins {
        return Some(coins[txid]);
      }
      r := base.GetCoins(txid);
      if r.Some? {
        coins := coins[txid := r.value];
      }
      BestByTips(this);
    }

    method HaveCoins(txid: Hash) returns (found: bool)
      requires Valid()
      modifies levels
      ensures Flat() == old(Flat()) && Best() == old(Best())
      ensures BaseKept()
      ensures found <==> txid in Flat()
    {
      var r := GetCoins(txid);
      found := r.Some?;
    }

    /** A cache remembers the entry as it is; the database stores it unless it is fully spent. */
    method SetCoins(txid: Hash, c: Coins)
      requires Valid()
      modifies this`coins
      ensures base != null ==> Flat() == old(Flat())[txid := c]
      ensures BaseKept()
      ensures Live(Flat()) == Live(old(Flat())[txid := c])
      ensures Best() == old(Best())
    {
      hide Live;
      BaseValid(this);
      if c.IsPruned() {
        LiveDrop(coins, txid, c);
      }
      if base == null && c.IsPruned() {
        coins := coins - {txid};
      } else {
        coins := coins[txid := c];
      }
      BestByTips(this);
    }

    method GetBestBlock() returns (r: BlockIndex?)
      requires Valid()
      modifies levels
      ensures r == Best()
      ensures base != null ==> tip == Best()
      ensures Flat() == old(Flat()) && Best() == old(Best())
      ensures BaseKept()
      ensures forall v :: v in levels ==> v.coins == old(v.coins)
      decreases |levels|
    {
      BaseValid(this);
      if base != null && tip == null {
        tip := base.GetBestBlock();
      }
      FlatByCoins(this);
      return tip;
    }

    method SetBestBlock(pindex: BlockIndex)
      requires Valid()
      modifies this`tip
      ensures Best() == pindex && tip == pindex
      ensures Flat() == old(Flat())
      ensures BaseKept()
    {
      BaseValid(this);
      tip := pindex;
      FlatByCoins(this);
    }

    /** Take over a batch of entries and a best block.  The database ignores a null best block. */
    method BatchWrite(batch: Utxo, pindex: BlockIndex?)
      requires Valid()
      modifies this
      ensures base != null ==> Flat() == old(Flat()) + batch
      ensures Live(Flat()) == Live(old(Flat()) + batch)
      ensures tip == if base == null && pindex == null then old(tip) else pindex
      ensures BaseKept()
    {
      hide Live, Merged;
      BaseValid(this);
      MergedIsLive(coins, batch, base == null);
      coins := MergeBatch(coins, batch, base == null);
      if base != null || pindex != null {
        tip := pindex;
      }
      if base != null {
        assert base.Flat() + (old(coins) + batch) == base.Flat() + old(coins) + batch;
      }
    }

    /** Push everything one level down.  The ledger seen from here does not change, and the view below now shows it. */
    method Flush()
      requires Valid() && base != null
      modifies this, base
      ensures Valid() && base.Valid() && (base.base != null ==> base.base.Valid())
      ensures coins == map[]
      ensures Live(Flat()) == old(Live(Flat()))
      ensures Flat() == base.Flat()
      ensures tip == old(tip)
      ensures base.tip == if base.base == null && tip == null then old(base.tip) else tip
      ensures Best() == base.Best()
      // A view that was never asked for its best block hands a null pointer down, and the cache below forgets its own.
      ensures Best() == old(Best())
         <==> old(tip != null || base.base == null || base.tip == null || base.base.Best() == base.tip)
    {
      hide Live;
      BaseValid(this);
      BaseValid(base);
      assert base.base != null ==> base.base.Valid() by {
        BaseValid(base);
      }
      base.BatchWrite(coins, tip);
      coins := map[];
      assert Flat() == base.Flat();
    }
  }

  lemma BaseValid(v: View)
    requires v.Valid()
    ensures v.base == null <==> |v.levels| == 1
    ensures v.base != null ==> v.base.Valid() && v.base.levels == v.levels[1..] && v !in v.base.levels
    ensures v.base != null ==> forall w :: w in v.levels <==> w == v || w in v.base.levels
  {
    assert v.LevelValid(0);
    if |v.levels| > 1 {
      var b := v.levels[1];
      assert v.LevelValid(1);
      forall i | 0 <= i < |b.levels|
        ensures b.LevelValid(i)
      {
        assert v.LevelValid(i + 1);
        assert v.levels[1..][i..] == v.levels[i + 1..];
      }
      forall i | 1 <= i < |v.levels|
        ensures v.levels[i] != v
      {
        assert v.LevelValid(i);
      }
    }
  }

  twostate lemma BestByTips(v: View)
    requires v.Valid()
    requires forall w :: w in v.levels ==> w.tip == old(w.tip)
    ensures v.Best() == old(v.Best())
    decreases |v.levels|
  {
    BaseValid(v);
    if v.base != null {
      BestByTips(v.base);
    }
  }

  twostate lemma FlatByCoins(v: View)
    requires v.Valid()
    requires forall w :: w in v.levels ==> w.coins == old(w.coins)
    ensures v.Flat() == old(v.Flat())
    decreases |v.levels|
  {
    BaseValid(v);
    if v.base != null {
      FlatByCoins(v.base);
    }
  }

  /** The best block does get lost: a database at a, above it a cache at b, and on top a view never asked for it. */
  method FlushForgets(a: BlockIndex, b: BlockIndex) returns (ghost before: BlockIndex?, after: BlockIndex?)
    requires a != b
    ensures before == b && after == a
  {
    var db := new View.Database(map[], a);
    var cache := new View.Cache(db);
    cache.SetBestBlock(b);
    var view := new View.Cache(cache);
    before := view.Best();
    view.Flush();
    BaseValid(view);
    BaseValid(cache);
    after := view.GetBestBlock();
  }
}
