/** Money rules: the total value of the unspent outputs, how a block changes it, and the subsidy
    schedule. */
module Money {
  import opened Wrappers
  import opened Coins
  import opened Utxo

  // ------------------------------------------------------------ total unspent value

  function UnspentValue(vout: seq<TxOut>): int {
    if vout == [] then 0
    else
      var last := vout[|vout| - 1];
      UnspentValue(vout[..|vout| - 1]) + if last.IsNull() then 0 else last.nValue
  }

  /** The value of all unspent outputs of a coin state. */
  ghost function Total(m: CoinMap): int
    decreases |m|
  {
    if m == map[] then 0
    else var t :| t in m; UnspentValue(m[t].vout) + Total(m - {t})
  }

  lemma {:induction false} TotalRemove(m: CoinMap, t: TxId)
    requires t in m
    ensures Total(m) == UnspentValue(m[t].vout) + Total(m - {t})
    decreases |m|
  {
    var s :| s in m && Total(m) == UnspentValue(m[s].vout) + Total(m - {s});
    if s != t {
      TotalRemove(m - {s}, t);
      TotalRemove(m - {t}, s);
      assert m - {s} - {t} == m - {t} - {s};
    }
  }

  lemma {:induction false} TotalUpdate(m: CoinMap, t: TxId, c: CoinRecord)
    ensures Total(m[t := c]) == Total(m) - UnspentValue(Find(m, t).vout) + UnspentValue(c.vout)
  {
    TotalRemove(m[t := c], t);
    assert m[t := c] - {t} == m - {t};
    if t in m { TotalRemove(m, t); } else { assert m - {t} == m; }
  }

  lemma {:induction false} UnspentValuePruned(vout: seq<TxOut>)
    requires forall i :: 0 <= i < |vout| ==> vout[i].IsNull()
    ensures UnspentValue(vout) == 0
  {
    if vout != [] { UnspentValuePruned(vout[..|vout| - 1]); }
  }

  lemma {:induction false} UnspentValueTrim(vout: seq<TxOut>)
    ensures UnspentValue(Trim(vout)) == UnspentValue(vout)
  {
    if vout != [] && vout[|vout| - 1].IsNull() { UnspentValueTrim(vout[..|vout| - 1]); }
  }

  lemma {:induction false} UnspentValueSpend(vout: seq<TxOut>, n: nat)
    requires n < |vout| && !vout[n].IsNull()
    ensures UnspentValue(vout[n := NULL_OUT]) == UnspentValue(vout) - vout[n].nValue
  {
    var k := |vout| - 1;
    if n < k {
      UnspentValueSpend(vout[..k], n);
      assert vout[n := NULL_OUT][..k] == vout[..k][n := NULL_OUT];
    } else {
      assert vout[n := NULL_OUT][..k] == vout[..k];
    }
  }

  lemma {:induction false} UnspentValueNew(vout: seq<TxOut>)
    requires forall i :: 0 <= i < |vout| ==> vout[i].nValue >= 0
    ensures UnspentValue(vout) == ValueOut(vout)
  {
    if vout != [] { UnspentValueNew(vout[..|vout| - 1]); }
  }

  // ------------------------------------------------------------ conservation

  function OutputValue(m: CoinMap, out: OutPoint): int {
    if Unspent(m, out) then Find(m, out.hash).vout[out.n].nValue else 0
  }

  /** CTransaction::GetValueIn on a state in which all inputs are unspent. */
  function ValueIn(m: CoinMap, vin: seq<TxIn>): int {
    if vin == [] then 0
    else ValueIn(m, vin[..|vin| - 1]) + OutputValue(m, vin[|vin| - 1].prevout)
  }

  function TxFee(m: CoinMap, tx: Tx): int {
    if tx.IsCoinBase() then 0 else ValueIn(m, tx.vin) - ValueOut(tx.vout)
  }

  /** The fees of a block: each transaction's inputs are valued on the state left by the
      transactions before it. */
  function BlockFees(m: CoinMap, vtx: seq<Tx>, height: nat): int
    requires ConnectTxs(m, vtx, height).Some?
  {
    if vtx == [] then 0
    else
      var k := |vtx| - 1;
      BlockFees(m, vtx[..k], height) + TxFee(ConnectTxs(m, vtx[..k], height).value.0, vtx[k])
  }

  /** The value part of CheckInputs: input values and their running sums in range, and no more paid
      out than paid in. */
  predicate ValuesOk(m: CoinMap, tx: Tx) {
    (forall i :: 0 <= i < |tx.vin| ==> InputInRange(m, tx.vin, i)) && ValueIn(m, tx.vin) >= ValueOut(tx.vout)
  }

  predicate InputInRange(m: CoinMap, vin: seq<TxIn>, i: nat)
    requires i < |vin|
  {
    MoneyRange(OutputValue(m, vin[i].prevout)) && MoneyRange(ValueIn(m, vin[..i + 1]))
  }

  /** Every transaction passes it on the state left by the transactions before it. */
  predicate BlockValuesOk(m: CoinMap, vtx: seq<Tx>, height: nat)
    requires ConnectTxs(m, vtx, height).Some?
  {
    vtx == [] ||
    var k := |vtx| - 1;
    BlockValuesOk(m, vtx[..k], height) &&
      (vtx[k].IsCoinBase() || ValuesOk(ConnectTxs(m, vtx[..k], height).value.0, vtx[k]))
  }

  /** What connects as a whole connects up to any point. */
  lemma {:induction false} PrefixConnects(m: CoinMap, vtx: seq<Tx>, height: nat, i: nat)
    requires ConnectTxs(m, vtx, height).Some? && i <= |vtx|
    ensures ConnectTxs(m, vtx[..i], height).Some?
    ensures BlockValuesOk(m, vtx, height) ==> BlockValuesOk(m, vtx[..i], height)
    decreases |vtx|
  {
    hide ApplyTx; hide ValuesOk;
    if i < |vtx| {
      var pre := vtx[..|vtx| - 1];
      PrefixConnects(m, pre, height, i);
      assert pre[..i] == vtx[..i];
    } else {
      assert vtx[..i] == vtx;
    }
  }

  lemma {:induction false} FeesNotNegative(m: CoinMap, vtx: seq<Tx>, height: nat)
    requires ConnectTxs(m, vtx, height).Some? && BlockValuesOk(m, vtx, height)
    ensures BlockFees(m, vtx, height) >= 0
    decreases |vtx|
  {
    hide ApplyTx;
    if vtx != [] { FeesNotNegative(m, vtx[..|vtx| - 1], height); }
  }

  // ------------------------------------------------------------ values depend on the unspent outputs only

  lemma {:induction false} ValueInLive(a: CoinMap, b: CoinMap, vin: seq<TxIn>, disk: bool)
    requires SameLive(a, b, disk)
    ensures ValueIn(a, vin) == ValueIn(b, vin)
  {
    if vin != [] {
      OutputValueLive(a, b, vin[|vin| - 1].prevout, disk);
      hide SameLive;
      ValueInLive(a, b, vin[..|vin| - 1], disk);
    }
  }

  lemma {:induction false} OutputValueLive(a: CoinMap, b: CoinMap, out: OutPoint, disk: bool)
    requires SameLive(a, b, disk)
    ensures OutputValue(a, out) == OutputValue(b, out)
  {
    assert SameRecord(Find(a, out.hash), Find(b, out.hash), disk);
  }

  lemma {:induction false} ValuesLive(a: CoinMap, b: CoinMap, tx: Tx, disk: bool)
    requires SameLive(a, b, disk)
    ensures TxFee(a, tx) == TxFee(b, tx) && (ValuesOk(a, tx) <==> ValuesOk(b, tx))
  {
    hide SameLive; hide OutputValue; hide ValueIn; hide MoneyRange;
    forall i | 0 <= i < |tx.vin| ensures InputInRange(a, tx.vin, i) <==> InputInRange(b, tx.vin, i) {
      OutputValueLive(a, b, tx.vin[i].prevout, disk);
      ValueInLive(a, b, tx.vin[..i + 1], disk);
    }
    ValueInLive(a, b, tx.vin, disk);
  }

  lemma {:induction false} BlockValuesLive(a: CoinMap, b: CoinMap, vtx: seq<Tx>, height: nat, disk: bool)
    requires SameLive(a, b, disk) && ConnectTxs(a, vtx, height).Some? && ConnectTxs(b, vtx, height).Some?
    ensures BlockFees(a, vtx, height) == BlockFees(b, vtx, height)
    ensures BlockValuesOk(a, vtx, height) <==> BlockValuesOk(b, vtx, height)
    decreases |vtx|
  {
    hide SameLive; hide ApplyTx; hide TxFee; hide ValuesOk;
    if vtx != [] {
      var k := |vtx| - 1;
      ConnectTxsLive(a, b, vtx[..k], height, disk);
      BlockValuesLive(a, b, vtx[..k], height, disk);
      ValuesLive(ConnectTxs(a, vtx[..k], height).value.0, ConnectTxs(b, vtx[..k], height).value.0, vtx[k], disk);
    }
  }

  // ------------------------------------------------------------ conservation

  lemma {:induction false} SpendInputTotal(m: CoinMap, out: OutPoint)
    requires SpendInput(m, out).Some?
    ensures Total(SpendInput(m, out).value.0) == Total(m) - OutputValue(m, out)
  {
    var c := m[out.hash];
    var spent := c.vout[out.n := NULL_OUT];
    UnspentValueSpend(c.vout, out.n);
    UnspentValueTrim(spent);
    TotalUpdate(m, out.hash, c.(vout := Trim(spent)));
  }

  /** Spending the earlier inputs does not change the value of a later, different one. */
  lemma {:induction false} OutputValueKept(m: CoinMap, vin: seq<TxIn>, out: OutPoint)
    requires SpendInputs(m, vin).Some? && !Spends(vin, out)
    ensures OutputValue(SpendInputs(m, vin).value.0, out) == OutputValue(m, out)
  {
    if vin != [] {
      var k := |vin| - 1;
      SpendsSplit(vin, out);
      OutputValueKept(m, vin[..k], out);
      var m1 := SpendInputs(m, vin[..k]).value.0;
      SpendInputUnspent(m1, vin[k].prevout, out);
    }
  }

  lemma {:induction false} SpendInputsTotal(m: CoinMap, vin: seq<TxIn>)
    requires DistinctInputs(vin) && SpendInputs(m, vin).Some?
    ensures Total(SpendInputs(m, vin).value.0) == Total(m) - ValueIn(m, vin)
  {
    hide SpendInput; hide OutputValue;
    if vin != [] {
      var k := |vin| - 1;
      SpendInputsTotal(m, vin[..k]);
      assert !Spends(vin[..k], vin[k].prevout);
      OutputValueKept(m, vin[..k], vin[k].prevout);
      SpendInputTotal(SpendInputs(m, vin[..k]).value.0, vin[k].prevout);
    }
  }

  lemma {:induction false} ApplyTxTotal(m: CoinMap, tx: Tx, height: nat, m2: CoinMap, us: TxUndo)
    requires WellFormed(m) && TxOk(tx) && ApplyTx(m, tx, height) == Some((m2, us)) && !Alive(m, tx.hash)
    ensures Total(m2) == Total(m) - TxFee(m, tx) + if tx.IsCoinBase() then ValueOut(tx.vout) else 0
  {
    var m1 := if tx.IsCoinBase() then m else SpendInputs(m, tx.vin).value.0;
    if !tx.IsCoinBase() {
      SpendInputsTotal(m, tx.vin);
      SpendInputsFacts(m, tx.vin, m1, us);
    }
    assert !Alive(m1, tx.hash);
    UnspentValuePruned(Find(m1, tx.hash).vout);
    UnspentValueNew(tx.vout);
    TotalUpdate(m1, tx.hash, CoinsOf(tx, height));
  }

  /** Connecting a block changes the total unspent value by exactly the coinbase's outputs minus
      the fees of the other transactions. */
  lemma {:induction false} ConnectConserves(m: CoinMap, vtx: seq<Tx>, height: nat, m2: CoinMap, undos: seq<TxUndo>)
    requires WellFormed(m) && height >= 1 && Connectable(m, vtx)
    requires ConnectTxs(m, vtx, height) == Some((m2, undos))
    ensures Total(m2) == Total(m) + ValueOut(vtx[0].vout) - BlockFees(m, vtx, height)
    decreases |vtx|
  {
    hide WellFormed; hide TxOk; hide NoOverwrite; hide Alive;
    var k := |vtx| - 1;
    var (m1, undos1) := ConnectTxs(m, vtx[..k], height).value;
    NotAliveAfterPrefix(m, vtx, height, m1, undos1);
    ApplyTxTotal(m1, vtx[k], height, m2, ApplyTx(m1, vtx[k], height).value.1);
    hide ApplyTx;
    if k > 0 {
      PrefixConnectable(m, vtx);
      ConnectConserves(m, vtx[..k], height, m1, undos1);
      assert vtx[..k][0] == vtx[0];
    }
  }

  // ------------------------------------------------------------ subsidy

  const HARDFORK_LAUNCH := 1660
  const MM_FEEREGEN_HARDFORK := 17000

  /** The subsidy part of GetBlockValue, in satoshi. */
  function Subsidy(height: nat, testNet: bool): (r: nat)
    ensures r <= 364222858 * COIN
  {
    if height == 0 then 1024 * COIN
    else if height == 1 then 364222858 * COIN
    else if 259440 < height <= 777840 then 96 * COIN
    else if 777840 < height <= 1814640 then 80 * COIN
    else if 1814640 < height <= 3369840 then 64 * COIN
    else if 3369840 < height <= 5443440 then 48 * COIN
    else if 5443440 < height <= 8035440 then 40 * COIN
    else if 8035440 < height <= 35913640 then 32 * COIN
    else if !testNet && (height > 35913640 || height < 241) then 0
    else if testNet && height > 35913640 then 0
    else 128 * COIN
  }

  /** GetBlockValue; `regenerated` is the sum of the three service fee subsidies. */
  function BlockValue(height: nat, fees: int, regenerated: int, testNet: bool): int {
    Subsidy(height, testNet) + fees +
    if height < HARDFORK_LAUNCH || height >= MM_FEEREGEN_HARDFORK || testNet then regenerated else 0
  }

  /** What ConnectBlock lets a coinbase pay above height 1500. */
  function CoinbaseLimit(height: nat, fees: int, regenerated: int, testNet: bool): int {
    var v := BlockValue(height, fees, regenerated, testNet);
    if height < HARDFORK_LAUNCH then v + v * 8 else v
  }

  /** Whether ConnectBlock's test on the coinbase value passes. */
  predicate CoinbaseAllowed(height: nat, paid: int, fees: int, regenerated: int, testNet: bool) {
    !(fees >= 0 && paid > CoinbaseLimit(height, fees, regenerated, testNet) && height > 1500)
  }

  /** From the hard fork on, a connected block creates at most its subsidy plus, once service fees
      are regenerated, those. */
  lemma {:induction false} BoundedIssuance(m: CoinMap, vtx: seq<Tx>, height: nat, m2: CoinMap, undos: seq<TxUndo>,
                                           regenerated: nat, testNet: bool)
    requires WellFormed(m) && height >= HARDFORK_LAUNCH
    requires Connect(m, vtx, height) == Some((m2, undos))
    requires BlockValuesOk(m, vtx, height)
    requires CoinbaseAllowed(height, ValueOut(vtx[0].vout), BlockFees(m, vtx, height), regenerated, testNet)
    ensures Total(m2) - Total(m) <= Subsidy(height, testNet) +
              if height >= MM_FEEREGEN_HARDFORK || testNet then regenerated else 0
  {
    FeesNotNegative(m, vtx, height);
    ConnectConserves(m, vtx, height, m2, undos);
  }

  function SubsidySum(height: nat, testNet: bool): nat {
    Subsidy(height, testNet) + if height == 0 then 0 else SubsidySum(height - 1, testNet)
  }

  /** How many of the heights from..to have been reached. */
  function Reached(height: nat, from: nat, to: nat): nat
    requires from <= to + 1
  {
    if height < from then 0 else if height > to then to + 1 - from else height + 1 - from
  }

  lemma {:induction false} SubsidySumClosed(height: nat, testNet: bool)
    ensures SubsidySum(height, testNet) == COIN * (
              1024 + (if height >= 1 then 364222858 else 0)
              + 128 * Reached(height, if testNet then 2 else 241, 259440) + 96 * Reached(height, 259441, 777840)
              + 80 * Reached(height, 777841, 1814640) + 64 * Reached(height, 1814641, 3369840)
              + 48 * Reached(height, 3369841, 5443440) + 40 * Reached(height, 5443441, 8035440)
              + 32 * Reached(height, 8035441, 35913640))
  {
    hide Reached;
    ReachedNext(height, if testNet then 2 else 241, 259440);
    ReachedNext(height, 259441, 777840);
    ReachedNext(height, 777841, 1814640);
    ReachedNext(height, 1814641, 3369840);
    ReachedNext(height, 3369841, 5443440);
    ReachedNext(height, 5443441, 8035440);
    ReachedNext(height, 8035441, 35913640);
    if height > 0 { SubsidySumClosed(height - 1, testNet); }
  }

  lemma {:induction false} ReachedNext(height: nat, from: nat, to: nat)
    requires 0 < from <= to + 1
    ensures Reached(height, from, to) ==
              if height == 0 then 0 else Reached(height - 1, from, to) + if from <= height <= to then 1 else 0
  {
  }

  /** All subsidies ever paid, up to any height, stay below MAX_MONEY (by 13.75 %), on the main
      network and on the test networks. */
  lemma {:induction false} SubsidyBounded(height: nat, testNet: bool)
    ensures SubsidySum(height, testNet) <= 1_724_990_474 * COIN < MAX_MONEY
    ensures !testNet && height >= 35913640 ==> SubsidySum(height, testNet) == 1_724_959_882 * COIN
  {
    SubsidySumClosed(height, testNet);
  }
}
