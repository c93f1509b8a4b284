/** How the money supply grows along a branch of the block tree. */
module Issuance {
  import opened Wrappers
  import opened Coins
  import opened Utxo
  import opened Money
  import opened BlockIndexes
  import opened Connecting
  import opened Chain

  /** The service fees that may be paid out again in the blocks above height `from` up to `to`. */
  function RegeneratedSum(rules: Rules, from: nat, to: nat): nat {
    if to <= from then 0
    else RegeneratedSum(rules, from, to - 1)
         + if to >= MM_FEEREGEN_HARDFORK || rules.testNet then rules.regenerated(to) else 0
  }

  /** Every block of the branch above height `from` passes. */
  ghost predicate PassesAbove(rules: Rules, b: BlockIndex, from: nat)
    requires b.Linked()
  {
    forall h {:trigger b.Ancestor(h)} :: from < h <= b.nHeight ==> Passes(rules, b.Ancestor(h))
  }

  /** Replaying a block that passes creates at most its subsidy and the regenerated fees. */
  lemma {:induction false} BlockIssuance(rules: Rules, b: BlockIndex)
    requires b.Linked() && b.nHeight >= HARDFORK_LAUNCH && Replay(b).Some? && Passes(rules, b)
    ensures Total(Replay(b).value) - Total(Replay(b.pprev).value) <=
              Subsidy(b.nHeight, rules.testNet) + RegeneratedSum(rules, b.nHeight - 1, b.nHeight)
  {
    hide Connect; hide Total; hide WellFormed; hide BlockValuesOk; hide BlockFees; hide CoinbaseAllowed; hide BlockOk;
    ReplayWellFormed(b.pprev);
    var m := Replay(b.pprev).value;
    var (m2, undos) := Connect(m, b.vtx, b.nHeight).value;
    BoundedIssuance(m, b.vtx, b.nHeight, m2, undos, rules.regenerated(b.nHeight), rules.testNet);
  }

  /** Between any two heights from the hard fork on, the total unspent value of a branch whose blocks pass
      grows by at most the subsidies in between plus the regenerated service fees. */
  lemma {:induction false} ChainIssuance(rules: Rules, b: BlockIndex, from: nat)
    requires b.Linked() && HARDFORK_LAUNCH - 1 <= from <= b.nHeight && Replay(b).Some? && PassesAbove(rules, b, from)
    ensures Replay(b.Ancestor(from)).Some?
    ensures Total(Replay(b).value) - Total(Replay(b.Ancestor(from)).value) <=
              SubsidySum(b.nHeight, rules.testNet) - SubsidySum(from, rules.testNet) +
                RegeneratedSum(rules, from, b.nHeight)
    decreases b.nHeight
  {
    hide Passes; hide Total; hide Subsidy; hide Connect;
    if from < b.nHeight {
      assert b.Ancestor(b.nHeight) == b;
      assert PassesAbove(rules, b.pprev, from) by {
        forall h | from < h <= b.pprev.nHeight
          ensures Passes(rules, b.pprev.Ancestor(h))
        {
          assert b.Ancestor(h) == b.pprev.Ancestor(h);
        }
      }
      ChainIssuance(rules, b.pprev, from);
      BlockIssuance(rules, b);
    }
  }

  lemma {:induction false} SameRecordValue(x: CoinRecord, y: CoinRecord, disk: bool)
    requires SameRecord(x, y, disk)
    ensures UnspentValue(x.vout) == UnspentValue(y.vout)
  {
    if x.IsPruned() && y.IsPruned() {
      UnspentValuePruned(x.vout);
      UnspentValuePruned(y.vout);
    }
  }

  lemma {:induction false} TotalDrop(m: CoinMap, t: TxId)
    ensures Total(m) == UnspentValue(Find(m, t).vout) + Total(m - {t})
  {
    if t in m { TotalRemove(m, t); } else { assert m - {t} == m; }
  }

  lemma {:induction false} DropSameLive(a: CoinMap, b: CoinMap, t: TxId, disk: bool)
    requires SameLive(a, b, disk)
    ensures SameLive(a - {t}, b - {t}, disk)
  {
    var a1, b1 := a - {t}, b - {t};
    forall x ensures SameRecord(Find(a1, x), Find(b1, x), disk) {
      assert SameRecord(Find(a, x), Find(b, x), disk);
    }
  }

  /** The total unspent value depends on the unspent outputs only. */
  lemma {:induction false} TotalLive(a: CoinMap, b: CoinMap, disk: bool)
    requires SameLive(a, b, disk)
    ensures Total(a) == Total(b)
    decreases |a| + |b|
  {
    hide SameLive; hide UnspentValue;
    if a != map[] || b != map[] {
      var t :| t in a.Keys + b.Keys;
      assert SameRecord(Find(a, t), Find(b, t), disk) by { SameRecordAt(a, b, t, disk); }
      SameRecordValue(Find(a, t), Find(b, t), disk);
      TotalDrop(a, t);
      TotalDrop(b, t);
      DropSameLive(a, b, t, disk);
      DropSize(a, t);
      DropSize(b, t);
      TotalLive(a - {t}, b - {t}, disk);
    }
  }

  lemma {:induction false} SameRecordAt(a: CoinMap, b: CoinMap, t: TxId, disk: bool)
    requires SameLive(a, b, disk)
    ensures SameRecord(Find(a, t), Find(b, t), disk)
  {
  }

  lemma {:induction false} DropSize(m: CoinMap, t: TxId)
    ensures |m - {t}| == if t in m then |m| - 1 else |m|
  {
    if t in m { assert m == (m - {t})[t := m[t]]; } else { assert m - {t} == m; }
  }

  /** So the same bound holds of the coins a node keeps, whatever caches and disks they went through. */
  lemma {:induction false} SupplyBounded(rules: Rules, b: BlockIndex, from: nat, start: CoinMap, now: CoinMap)
    requires b.Linked() && HARDFORK_LAUNCH - 1 <= from <= b.nHeight && PassesAbove(rules, b, from)
    requires AtBlock(now, b) && AtBlock(start, b.Ancestor(from))
    ensures Total(now) - Total(start) <=
              SubsidySum(b.nHeight, rules.testNet) - SubsidySum(from, rules.testNet) +
                RegeneratedSum(rules, from, b.nHeight)
  {
    hide Passes; hide Total; hide SameLive;
    ChainIssuance(rules, b, from);
    TotalLive(now, Replay(b).value, true);
    TotalLive(start, Replay(b.Ancestor(from)).value, true);
  }
}
