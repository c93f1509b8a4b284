/** The coin database and the stack of write-back caches over it. */
module CoinsViews {
  import opened Wrappers
  import opened Coins
  import opened Utxo
  import opened Rollbacks
  import opened BlockIndexes

  /** The coin database: completely spent records are erased on writing, and the format of the others
      has no negative versions. */
  class CoinsViewDB {
    var coins: CoinMap
    var best: BlockIndex?

    ghost predicate Valid() reads this { AsStored(coins) }

    constructor ()
      ensures Valid() && coins == map[] && best == null
    {
      coins, best := map[], null;
    }

    method BatchWrite(m: CoinMap, pindex: BlockIndex?)
      requires Valid()
      modifies this
      ensures Valid() && coins == Overlay(old(coins), m)
      ensures best == if pindex != null then pindex else old(best)
    {
      OverlayStored(coins, m);
      coins := WriteOrErase(coins, m);
      if pindex != null { best := pindex; }
    }
  }

  ghost predicate AsStored(coins: CoinMap) { forall t :: t in coins ==> coins[t].nVersion >= 0 }

  /** `coins` after writing `m` over it and erasing what is completely spent in `m`. */
  function Overlay(coins: CoinMap, m: CoinMap): CoinMap {
    map t | t in coins.Keys + m.Keys && (t in m ==> !m[t].IsPruned()) :: if t in m then StoredRecord(m[t]) else coins[t]
  }

  /** The writes of one batch to the database. */
  method WriteOrErase(coins: CoinMap, m: CoinMap) returns (r: CoinMap)
    ensures r == Overlay(coins, m)
  {
    r := coins;
    var todo := m.Keys;
    while todo != {}
      invariant todo <= m.Keys
      invariant forall t :: t in r <==> if t in m && t !in todo then !m[t].IsPruned() else t in coins
      invariant forall t :: t in r ==> r[t] == if t in m && t !in todo then StoredRecord(m[t]) else coins[t]
    {
      var t :| t in todo;
      todo := todo - {t};
      r := if m[t].IsPruned() then r - {t} else r[t := StoredRecord(m[t])];
    }
    assert r == Overlay(coins, m);
  }

  /** The writes of one batch to a cache. */
  method WriteAll(coins: CoinMap, m: CoinMap) returns (r: CoinMap)
    ensures r == coins + m
  {
    r := coins;
    var todo := m.Keys;
    while todo != {}
      invariant todo <= m.Keys
      invariant r.Keys == coins.Keys + (m.Keys - todo)
      invariant forall t :: t in r ==> r[t] == if t in m && t !in todo then m[t] else coins[t]
    {
      var t :| t in todo;
      todo := todo - {t};
      r := r[t := m[t]];
    }
    assert r == coins + m;
  }

  /** Writing to the database keeps the unspent outputs, but for negative versions, and the heights. */
  lemma {:induction false} OverlaySameLive(coins: CoinMap, m: CoinMap)
    ensures SameLive(Overlay(coins, m), coins + m, true) && HeightsFrom(Overlay(coins, m), coins + m)
  {
  }

  lemma {:induction false} OverlayStored(coins: CoinMap, m: CoinMap)
    requires AsStored(coins)
    ensures AsStored(Overlay(coins, m))
  {
  }

  lemma {:induction false} SameLiveReflexive(m: CoinMap, disk: bool)
    ensures SameLive(m, m, disk) && HeightsFrom(m, m)
  {
  }

  /** What a cache reads from when it misses: a database, another cache, or the view that knows
      nothing. */
  datatype Backend = Database(db: CoinsViewDB) | Cache(view: CoinsViewCache) | Nothing

  class CoinsViewCache {
    var base: Backend
    var cacheCoins: CoinMap
    var pindexTip: BlockIndex?

    /** What the whole stack from here down looks like: one flat map and one best block. */
    ghost var Contents: CoinMap
    ghost var Best: BlockIndex?
    ghost var Below: CoinMap
    ghost var BestBelow: BlockIndex?
    ghost var Repr: set<object>

    ghost predicate Valid()
      reads this, Repr
      ensures Valid() ==> this in Repr
      decreases Repr
    {
      && this in Repr
      && (match base
          case Database(db) => Repr == {this, db} && db.Valid() && Below == db.coins && BestBelow == db.best
          case Cache(v) =>
            && v in Repr && this !in v.Repr && Repr == {this} + v.Repr
            && v.Valid() && Below == v.Contents && BestBelow == v.Best
          case Nothing => Repr == {this} && Below == map[] && BestBelow == null)
      && Contents == Below + cacheCoins
      && Best == (if pindexTip != null then pindexTip else BestBelow)
    }

    /** A cache over a database. */
    constructor OverDatabase(db: CoinsViewDB)
      requires db.Valid()
      ensures Valid() && base == Database(db) && Repr == {this, db}
      ensures Contents == db.coins && Best == db.best && cacheCoins == map[] && pindexTip == null
    {
      base, cacheCoins, pindexTip := Database(db), map[], null;
      Contents, Below, Best, BestBelow := db.coins, db.coins, db.best, db.best;
      Repr := {this, db};
    }

    /** A cache over another cache. */
    constructor Over(v: CoinsViewCache)
      requires v.Valid()
      ensures Valid() && base == Cache(v) && Repr == {this} + v.Repr && this !in v.Repr
      ensures Contents == v.Contents && Best == v.Best && cacheCoins == map[] && pindexTip == null
    {
      base, cacheCoins, pindexTip := Cache(v), map[], null;
      Contents, Below, Best, BestBelow := v.Contents, v.Contents, v.Best, v.Best;
      Repr := {this} + v.Repr;
    }

    /** The layers below look the same. */
    twostate predicate BelowUnchanged()
      reads this
    {
      && base == old(base) && Repr == old(Repr) && Below == old(Below) && BestBelow == old(BestBelow)
      && (old(pindexTip) != null ==> pindexTip != null)
    }

    /** Nothing that a reader can see has changed, here or below. */
    twostate predicate Unchanged()
      reads this
    {
      BelowUnchanged() && Contents == old(Contents) && Best == old(Best)
    }

    /** CCoinsViewCache::GetCoins / FetchCoins: read through, remembering what was found. */
    method GetCoins(txid: TxId) returns (r: Option<CoinRecord>)
      requires Valid()
      modifies Repr
      ensures Valid() && Unchanged() && pindexTip == old(pindexTip)
      ensures r == if txid in Contents then Some(Contents[txid]) else None
      ensures r.Some? ==> txid in cacheCoins
      decreases Repr
    {
      if txid in cacheCoins {
        return Some(cacheCoins[txid]);
      }
      match base {
        case Database(db) => r := if txid in db.coins then Some(db.coins[txid]) else None;
        case Cache(v) => r := v.GetCoins(txid);
        case Nothing => r := None;
      }
      if r.Some? {
        cacheCoins := cacheCoins[txid := r.value];
      }
    }

    method HaveCoins(txid: TxId) returns (have: bool)
      requires Valid()
      modifies Repr
      ensures Valid() && Unchanged() && pindexTip == old(pindexTip)
      ensures have <==> txid in Contents
    {
      var r := GetCoins(txid);
      have := r.Some?;
    }

    method SetCoins(txid: TxId, coins: CoinRecord)
      requires Valid()
      modifies this
      ensures Valid() && BelowUnchanged() && pindexTip == old(pindexTip)
      ensures Contents == old(Contents)[txid := coins] && Best == old(Best)
    {
      cacheCoins := cacheCoins[txid := coins];
      Contents := Contents[txid := coins];
    }

    method GetBestBlock() returns (best: BlockIndex?)
      requires Valid()
      modifies Repr
      ensures Valid() && Unchanged()
      ensures best == Best == pindexTip
      decreases Repr
    {
      if pindexTip == null {
        match base {
          case Database(db) => pindexTip := db.best;
          case Cache(v) =>
            var b := v.GetBestBlock();
            pindexTip := b;
          case Nothing =>
        }
      }
      best := pindexTip;
    }

    method SetBestBlock(pindex: BlockIndex)
      requires Valid()
      modifies this
      ensures Valid() && BelowUnchanged()
      ensures Contents == old(Contents) && Best == pindexTip == pindex
    {
      pindexTip, Best := pindex, pindex;
    }

    method BatchWrite(m: CoinMap, pindex: BlockIndex?)
      requires Valid()
      modifies this
      ensures Valid() && base == old(base) && Repr == old(Repr)
      ensures Contents == old(Contents) + m && Below == old(Below) && BestBelow == old(BestBelow)
      ensures pindexTip == pindex && Best == if pindex != null then pindex else BestBelow
    {
      cacheCoins := WriteAll(cacheCoins, m);
      assert Below + (old(cacheCoins) + m) == (Below + old(cacheCoins)) + m;
      pindexTip := pindex;
      Contents := Contents + m;
      Best := if pindex != null then pindex else BestBelow;
    }

    /** CCoinsViewCache::Flush.  What is seen from here stays: exactly over another cache, and up
        to completely spent records and negative versions over the database.  A flush without a tip of its own makes
        the layer below forget its tip. */
    method Flush() returns (ok: bool)
      requires Valid()
      modifies Repr
      ensures Valid() && base == old(base) && Repr == old(Repr) && pindexTip == old(pindexTip)
      ensures ok <==> !base.Nothing?
      ensures !ok ==> Unchanged() && cacheCoins == old(cacheCoins)
      ensures ok ==> cacheCoins == map[] && Below == Contents
      ensures base.Cache? ==> Contents == old(Contents)
      ensures base.Database? ==> Contents == Overlay(old(Below), old(cacheCoins))
      ensures base.Database? ==> AsStored(Contents)
      ensures SameLive(Contents, old(Contents), base.Database?) && HeightsFrom(Contents, old(Contents))
      ensures ok && pindexTip != null ==> Best == BestBelow == old(Best)
      ensures base.Database? ==> Best == old(Best)
    {
      hide SameLive; hide Overlay; hide Valid; hide AsStored; hide HeightsFrom;
      SameLiveReflexive(Contents, false);
      match base {
        case Database(db) =>
          OverlaySameLive(Below, cacheCoins);
          FlushToDatabase(db);
          ok := true;
        case Cache(v) =>
          FlushToCache(v);
          ok := true;
        case Nothing => ok := false;
      }
    }

    method FlushToDatabase(db: CoinsViewDB)
      requires Valid() && base == Database(db)
      modifies Repr
      ensures Valid() && base == old(base) && Repr == old(Repr) && pindexTip == old(pindexTip)
      ensures cacheCoins == map[] && Below == Contents == Overlay(old(Below), old(cacheCoins))
      ensures AsStored(Contents)
      ensures Best == BestBelow == old(Best) && old(Contents) == old(Below) + old(cacheCoins)
    {
      db.BatchWrite(cacheCoins, pindexTip);
      Below, BestBelow, cacheCoins := db.coins, db.best, map[];
      Contents := Below;
    }

    method FlushToCache(v: CoinsViewCache)
      requires Valid() && base == Cache(v)
      modifies Repr
      ensures Valid() && base == old(base) && Repr == old(Repr) && pindexTip == old(pindexTip)
      ensures cacheCoins == map[] && Below == Contents == old(Contents)
      ensures pindexTip != null ==> Best == BestBelow == old(Best)
    {
      v.BatchWrite(cacheCoins, pindexTip);
      Settle(v);
    }

    /** The bookkeeping after the layer below has taken over everything cached here. */
    method Settle(v: CoinsViewCache)
      requires base == Cache(v) && this in Repr && v in Repr && this !in v.Repr && Repr == {this} + v.Repr
      requires v.Valid() && v.Contents == Contents
      modifies this
      ensures Valid() && base == old(base) && Repr == old(Repr) && pindexTip == old(pindexTip)
      ensures cacheCoins == map[] && Below == Contents == old(Contents) && BestBelow == v.Best
    {
      Below, BestBelow, cacheCoins := v.Contents, v.Best, map[];
      Best := if pindexTip != null then pindexTip else BestBelow;
    }

    /** CCoinsViewBacked::SetBackend: what has been fetched stays visible, the rest is read from
        the new backend. */
    method SetBackend(v: CoinsViewCache)
      requires Valid() && v.Valid() && this !in v.Repr
      modifies this
      ensures Valid() && base == Cache(v) && Repr == {this} + v.Repr && cacheCoins == old(cacheCoins)
      ensures Contents == v.Contents + cacheCoins
      ensures forall t :: t in cacheCoins ==> t in Contents && Contents[t] == old(Contents[t])
      ensures pindexTip != null ==> Best == old(Best)
    {
      base, Repr := Cache(v), {this} + v.Repr;
      Below, BestBelow := v.Contents, v.Best;
      Contents := Below + cacheCoins;
      Best := if pindexTip != null then pindexTip else BestBelow;
    }

    /** Switching to the view that knows nothing leaves exactly what was fetched or written. */
    method DropBackend()
      requires Valid()
      modifies this
      ensures Valid() && base == Nothing && Repr == {this} && cacheCoins == old(cacheCoins)
      ensures Contents == cacheCoins
      ensures forall t :: t in cacheCoins ==> Contents[t] == old(Contents[t])
      ensures pindexTip != null ==> Best == old(Best)
    {
      base, Repr, Below, BestBelow := Nothing, {this}, map[], null;
      Contents, Best := cacheCoins, pindexTip;
    }
  }
}
