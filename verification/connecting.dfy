/** ConnectBlock and DisconnectBlock as they run, on a stack of coin caches. */
module Connecting {
  import opened Wrappers
  import opened Coins
  import opened Utxo
  import opened Money
  import opened BlockIndexes
  import opened CoinsViews

  // ------------------------------------------------------------ context-free checks

  /** CTransaction::CheckTransaction (size limits left out). */
  method CheckTransaction(tx: Tx) returns (ok: bool)
    ensures ok <==> TxOk(tx)
  {
    if tx.vin == [] { return false; }
    if tx.vout == [] && tx.data == [] { return false; }
    var sums := CheckValues(tx.vout);
    if !sums { return false; }
    var distinct := CheckDistinct(tx.vin);
    if !distinct { return false; }
    if tx.IsCoinBase() {
      return 2 <= |tx.vin[0].scriptSig| <= 100;
    }
    for i := 0 to |tx.vin|
      invariant forall j :: 0 <= j < i ==> !tx.vin[j].prevout.IsNull()
    {
      if tx.vin[i].prevout.IsNull() { return false; }
    }
    return true;
  }

  lemma {:induction false} SumsBetween(vout: seq<TxOut>, i: nat)
    requires i <= |vout| && forall j :: 0 <= j < |vout| ==> vout[j].nValue >= 0
    ensures 0 <= ValueOut(vout[..i]) <= ValueOut(vout)
    decreases |vout|
  {
    if i < |vout| {
      assert vout[..|vout| - 1][..i] == vout[..i];
      SumsBetween(vout[..|vout| - 1], i);
    } else {
      assert vout[..i] == vout;
      if i > 0 { SumsBetween(vout[..i - 1], i - 1); }
    }
  }

  /** What CheckTransaction decides, in plain numbers.  The running sums add nothing to the sum. */
  lemma {:induction false} TxOkIff(tx: Tx)
    ensures TxOk(tx) <==>
              && |tx.vin| >= 1 && |tx.vout| + |tx.data| >= 1
              && (forall i :: 0 <= i < |tx.vout| ==> 0 <= tx.vout[i].nValue <= 200_000_000_000_000_000)
              && ValueOut(tx.vout) <= 200_000_000_000_000_000
              && (forall i, j :: 0 <= i < j < |tx.vin| ==>
                    tx.vin[i].prevout.hash != tx.vin[j].prevout.hash || tx.vin[i].prevout.n != tx.vin[j].prevout.n)
              && (if |tx.vin| == 1 && tx.vin[0].prevout == OutPoint(0, 0xFFFF_FFFF)
                  then 2 <= |tx.vin[0].scriptSig| <= 100
                  else forall i :: 0 <= i < |tx.vin| ==> tx.vin[i].prevout != OutPoint(0, 0xFFFF_FFFF))
  {
    assert tx.vout[..|tx.vout|] == tx.vout;
    if forall i :: 0 <= i < |tx.vout| ==> 0 <= tx.vout[i].nValue {
      forall i | 0 <= i <= |tx.vout| ensures 0 <= ValueOut(tx.vout[..i]) <= ValueOut(tx.vout) {
        SumsBetween(tx.vout, i);
      }
    }
  }

  method CheckValues(vout: seq<TxOut>) returns (ok: bool)
    ensures ok <==> (forall i :: 0 <= i < |vout| ==> MoneyRange(vout[i].nValue))
                    && forall i :: 0 <= i <= |vout| ==> MoneyRange(ValueOut(vout[..i]))
  {
    var sum := 0;
    for i := 0 to |vout|
      invariant sum == ValueOut(vout[..i])
      invariant forall j :: 0 <= j < i ==> MoneyRange(vout[j].nValue)
      invariant forall j :: 0 <= j <= i ==> MoneyRange(ValueOut(vout[..j]))
    {
      if vout[i].nValue < 0 || vout[i].nValue > MAX_MONEY { return false; }
      sum := sum + vout[i].nValue;
      assert vout[..i + 1][..i] == vout[..i];
      if !MoneyRange(sum) {
        assert !MoneyRange(ValueOut(vout[..i + 1]));
        return false;
      }
    }
    return true;
  }

  method CheckDistinct(vin: seq<TxIn>) returns (ok: bool)
    ensures ok <==> DistinctInputs(vin)
  {
    var seen: set<OutPoint> := {};
    for i := 0 to |vin|
      invariant forall out :: out in seen <==> exists j :: 0 <= j < i && vin[j].prevout == out
      invariant forall j, k :: 0 <= j < k < i ==> vin[j].prevout != vin[k].prevout
    {
      if vin[i].prevout in seen { return false; }
      seen := seen + {vin[i].prevout};
    }
    return true;
  }

  /** CBlock::CheckBlock (sizes, proof of work, timestamp, sigops and Merkle root left out). */
  method CheckBlock(vtx: seq<Tx>) returns (ok: bool)
    ensures ok <==> BlockOk(vtx)
  {
    hide TxOk;
    if vtx == [] || !vtx[0].IsCoinBase() { return false; }
    for i := 1 to |vtx|
      invariant forall j :: 1 <= j < i ==> !vtx[j].IsCoinBase()
    {
      if vtx[i].IsCoinBase() { return false; }
    }
    for i := 0 to |vtx|
      invariant forall j :: 0 <= j < i ==> TxOk(vtx[j])
    {
      var txOk := CheckTransaction(vtx[i]);
      if !txOk { return false; }
    }
    var seen: set<TxId> := {};
    for i := 0 to |vtx|
      invariant forall t :: t in seen <==> exists j :: 0 <= j < i && vtx[j].hash == t
      invariant forall j, k :: 0 <= j < k < i ==> vtx[j].hash != vtx[k].hash
    {
      if vtx[i].hash in seen { return false; }
      seen := seen + {vtx[i].hash};
    }
    return true;
  }

  // ------------------------------------------------------------ transactions on a view

  method HaveInputs(tx: Tx, view: CoinsViewCache) returns (have: bool)
    requires view.Valid()
    modifies view.Repr
    ensures view.Valid() && view.Unchanged()
    ensures have <==> tx.IsCoinBase() || AllUnspent(view.Contents, tx.vin)
  {
    if tx.IsCoinBase() { return true; }
    for i := 0 to |tx.vin|
      invariant view.Valid() && view.Unchanged()
    {
      var known := view.HaveCoins(tx.vin[i].prevout.hash);
      if !known {
        assert !Unspent(view.Contents, tx.vin[i].prevout);
        return false;
      }
    }
    for i := 0 to |tx.vin|
      invariant view.Valid() && view.Unchanged()
      invariant forall j :: 0 <= j < i ==> Unspent(view.Contents, tx.vin[j].prevout)
    {
      var coins := view.GetCoins(tx.vin[i].prevout.hash);
      if coins.None? || !coins.value.IsAvailable(tx.vin[i].prevout.n) {
        assert !Unspent(view.Contents, tx.vin[i].prevout);
        return false;
      }
    }
    return true;
  }

  /** The value part of CheckInputs: input values and their running sums in range, and no more
      paid out than paid in.  Maturity, minimum fee, scripts and service rules are decided
      elsewhere. */
  method CheckInputValues(tx: Tx, view: CoinsViewCache) returns (ok: bool, valueIn: int)
    requires view.Valid() && AllUnspent(view.Contents, tx.vin)
    modifies view.Repr
    ensures view.Valid() && view.Unchanged()
    ensures ok <==> ValuesOk(view.Contents, tx)
    ensures ok ==> valueIn == ValueIn(view.Contents, tx.vin)
  {
    hide CoinsViewCache.Valid;
    valueIn := 0;
    for i := 0 to |tx.vin|
      invariant view.Valid() && view.Unchanged()
      invariant valueIn == ValueIn(view.Contents, tx.vin[..i])
      invariant forall k :: 0 <= k < i ==> InputInRange(view.Contents, tx.vin, k)
    {
      assert Unspent(view.Contents, tx.vin[i].prevout);
      var coins := view.GetCoins(tx.vin[i].prevout.hash);
      var v := coins.value.vout[tx.vin[i].prevout.n].nValue;
      valueIn := valueIn + v;
      assert tx.vin[..i + 1][..i] == tx.vin[..i];
      assert InputInRange(view.Contents, tx.vin, i) <==> MoneyRange(v) && MoneyRange(valueIn);
      if !MoneyRange(v) || !MoneyRange(valueIn) { return false, valueIn; }
    }
    assert tx.vin[..|tx.vin|] == tx.vin;
    var valueOut := SumOutputs(tx.vout);
    ok := valueIn >= valueOut;
  }

  method SumOutputs(vout: seq<TxOut>) returns (sum: int)
    ensures sum == ValueOut(vout)
  {
    sum := 0;
    for i := 0 to |vout|
      invariant sum == ValueOut(vout[..i])
    {
      assert vout[..i + 1][..i] == vout[..i];
      sum := sum + vout[i].nValue;
    }
    assert vout[..|vout|] == vout;
  }

  lemma {:induction false} SpendInputsPrefix(m: CoinMap, vin: seq<TxIn>, i: nat)
    requires i <= |vin| && SpendInputs(m, vin).Some?
    ensures SpendInputs(m, vin[..i]).Some?
    decreases |vin|
  {
    if i < |vin| {
      assert vin[..|vin| - 1][..i] == vin[..i];
      SpendInputsPrefix(m, vin[..|vin| - 1], i);
    } else {
      assert vin[..i] == vin;
    }
  }

  /** One more input is spent. */
  lemma {:induction false} SpendInputsNext(m: CoinMap, vin: seq<TxIn>, i: nat, m1: CoinMap, us: TxUndo)
    requires i < |vin| && SpendInputs(m, vin).Some?
    requires SpendInputs(m, vin[..i]) == Some((m1, us))
    ensures SpendInput(m1, vin[i].prevout).Some?
    ensures var (m2, u) := SpendInput(m1, vin[i].prevout).value;
            SpendInputs(m, vin[..i + 1]) == Some((m2, us + [u]))
  {
    SpendInputsPrefix(m, vin, i + 1);
    assert vin[..i + 1][..i] == vin[..i];
  }

  /** CTransaction::UpdateCoins.  Its assertions cannot fail after HaveInputs. */
  method UpdateCoins(tx: Tx, view: CoinsViewCache, height: nat) returns (us: TxUndo)
    requires view.Valid()
    requires tx.IsCoinBase() || SpendInputs(view.Contents, tx.vin).Some?
    modifies view.Repr
    ensures view.Valid() && view.BelowUnchanged() && view.Best == old(view.Best)
    ensures ApplyTx(old(view.Contents), tx, height) == Some((view.Contents, us))
  {
    hide CoinsViewCache.Valid; hide SpendInput;
    us := [];
    if !tx.IsCoinBase() {
      for i := 0 to |tx.vin|
        invariant view.Valid() && view.BelowUnchanged() && view.Best == old(view.Best)
        invariant SpendInputs(old(view.Contents), tx.vin[..i]) == Some((view.Contents, us))
      {
        SpendInputsNext(old(view.Contents), tx.vin, i, view.Contents, us);
        var out := tx.vin[i].prevout;
        var u := SpendFrom(view, out);
        us := us + [u];
      }
      assert tx.vin[..|tx.vin|] == tx.vin;
    }
    view.SetCoins(tx.hash, CoinRecord(tx.IsCoinBase(), tx.vout, height, tx.nVersion));
  }

  /** Fetch the record of an outpoint and spend from it in place. */
  method SpendFrom(view: CoinsViewCache, out: OutPoint) returns (u: TxInUndo)
    requires view.Valid() && SpendInput(view.Contents, out).Some?
    modifies view.Repr
    ensures view.Valid() && view.BelowUnchanged() && view.Best == old(view.Best)
    ensures SpendInput(old(view.Contents), out) == Some((view.Contents, u))
  {
    var coins := view.GetCoins(out.hash);
    var ok, rest;
    ok, rest, u := Spend(coins.value, out.n);
    assert ok;
    view.SetCoins(out.hash, rest);
  }

  // ------------------------------------------------------------ blocks on a view

  method CheckOverwrite(vtx: seq<Tx>, view: CoinsViewCache) returns (ok: bool)
    requires view.Valid()
    modifies view.Repr
    ensures view.Valid() && view.Unchanged()
    ensures ok <==> NoOverwrite(view.Contents, vtx)
  {
    for i := 0 to |vtx|
      invariant view.Valid() && view.Unchanged()
      invariant forall j :: 0 <= j < i ==> Find(view.Contents, vtx[j].hash).IsPruned()
    {
      var coins := view.GetCoins(vtx[i].hash);
      if coins.Some? && !coins.value.IsPruned() {
        assert !Find(view.Contents, vtx[i].hash).IsPruned();
        return false;
      }
    }
    return true;
  }

  lemma {:induction false} ConnectTxsNext(m: CoinMap, vtx: seq<Tx>, i: nat, height: nat, m1: CoinMap,
                                          undos: seq<TxUndo>)
    requires i < |vtx| && ConnectTxs(m, vtx[..i], height) == Some((m1, undos))
    ensures ConnectTxs(m, vtx[..i + 1], height).Some? <==> ApplyTx(m1, vtx[i], height).Some?
    ensures ApplyTx(m1, vtx[i], height).Some? ==>
              var (m2, us) := ApplyTx(m1, vtx[i], height).value;
              ConnectTxs(m, vtx[..i + 1], height) == Some((m2, if vtx[i].IsCoinBase() then undos else undos + [us]))
    ensures ApplyTx(m1, vtx[i], height).Some? ==>
              && BlockFees(m, vtx[..i + 1], height) == BlockFees(m, vtx[..i], height) + TxFee(m1, vtx[i])
              && (BlockValuesOk(m, vtx[..i + 1], height) <==>
                BlockValuesOk(m, vtx[..i], height) && (vtx[i].IsCoinBase() || ValuesOk(m1, vtx[i])))
  {
    hide ApplyTx; hide TxFee; hide ValuesOk;
    assert vtx[..i + 1][..i] == vtx[..i];
  }

  lemma {:induction false} ApplyIffUnspent(m: CoinMap, tx: Tx, height: nat)
    requires DistinctInputs(tx.vin)
    ensures ApplyTx(m, tx, height).Some? <==> tx.IsCoinBase() || AllUnspent(m, tx.vin)
  {
    HaveInputsIffSpendable(m, tx.vin);
    hide SpendInputs; hide AllUnspent;
  }

  /** One round of ConnectBlock's loop over the transactions. */
  method ConnectTx(tx: Tx, view: CoinsViewCache, height: nat) returns (ok: bool, fee: int, us: TxUndo)
    requires view.Valid() && DistinctInputs(tx.vin)
    modifies view.Repr
    ensures view.Valid() && view.BelowUnchanged() && view.Best == old(view.Best)
    ensures ok ==> ApplyTx(old(view.Contents), tx, height) == Some((view.Contents, us))
    ensures ok <==> tx.IsCoinBase() || (AllUnspent(old(view.Contents), tx.vin) && ValuesOk(old(view.Contents), tx))
    ensures ok ==> fee == TxFee(old(view.Contents), tx) && fee >= 0
  {
    fee, us := 0, [];
    if !tx.IsCoinBase() {
      var have := HaveInputs(tx, view);
      if !have { return false, fee, us; }
      HaveInputsIffSpendable(view.Contents, tx.vin);
      var valueOk, valueIn := CheckInputValues(tx, view);
      if !valueOk { return false, fee, us; }
      var valueOut := SumOutputs(tx.vout);
      fee := valueIn - valueOut;
    }
    us := UpdateCoins(tx, view, height);
    ok := true;
  }

  /** The loop of ConnectBlock over the transactions. */
  method ConnectTransactions(vtx: seq<Tx>, view: CoinsViewCache, height: nat)
    returns (ok: bool, fees: int, undos: seq<TxUndo>)
    requires view.Valid() && forall i :: 0 <= i < |vtx| ==> DistinctInputs(vtx[i].vin)
    modifies view.Repr
    ensures view.Valid() && view.BelowUnchanged() && view.Best == old(view.Best)
    ensures ok <==> ConnectTxs(old(view.Contents), vtx, height).Some? && BlockValuesOk(old(view.Contents), vtx, height)
    ensures ok ==> ConnectTxs(old(view.Contents), vtx, height) == Some((view.Contents, undos))
    ensures ok ==> fees == BlockFees(old(view.Contents), vtx, height) && fees >= 0
  {
    hide DistinctInputs; hide ApplyTx; hide TxFee; hide ValuesOk; hide AllUnspent;
    undos, fees := [], 0;
    for i := 0 to |vtx|
      invariant view.Valid() && view.BelowUnchanged() && view.Best == old(view.Best)
      invariant ConnectTxs(old(view.Contents), vtx[..i], height) == Some((view.Contents, undos))
      invariant fees == BlockFees(old(view.Contents), vtx[..i], height) && fees >= 0
      invariant BlockValuesOk(old(view.Contents), vtx[..i], height)
    {
      ghost var m, m1 := old(view.Contents), view.Contents;
      ConnectTxsNext(m, vtx, i, height, m1, undos);
      ApplyIffUnspent(m1, vtx[i], height);
      var txOk, fee, us := ConnectTx(vtx[i], view, height);
      if !txOk {
        if ConnectTxs(m, vtx, height).Some? { PrefixConnects(m, vtx, height, i + 1); }
        return false, fees, undos;
      }
      fees := fees + fee;
      if !vtx[i].IsCoinBase() { undos := undos + [us]; }
    }
    assert vtx[..|vtx|] == vtx;
    ok := true;
  }

  /** The coin and value rules for a block on top of a state: it connects, every transaction keeps the
      value rules, and the coinbase keeps its limit. */
  ghost predicate Acceptable(m: CoinMap, vtx: seq<Tx>, height: nat, regenerated: nat, testNet: bool) {
    Connect(m, vtx, height).Some? && BlockValuesOk(m, vtx, height) &&
    CoinbaseAllowed(height, ValueOut(vtx[0].vout), BlockFees(m, vtx, height), regenerated, testNet)
  }

  lemma {:induction false} AcceptableLive(a: CoinMap, b: CoinMap, vtx: seq<Tx>, height: nat, regenerated: nat,
                                          testNet: bool, disk: bool)
    requires SameLive(a, b, disk)
    ensures Acceptable(a, vtx, height, regenerated, testNet) <==> Acceptable(b, vtx, height, regenerated, testNet)
  {
    hide SameLive; hide ConnectTxs; hide BlockValuesOk; hide BlockFees; hide CoinbaseAllowed; hide BlockOk;
    hide NoOverwrite;
    ConnectLive(a, b, vtx, height, disk);
    if Connect(a, vtx, height).Some? { BlockValuesLive(a, b, vtx, height, disk); }
  }

  /** What the coinbase test decides, said through the money in circulation.  From height 1660 a block is
      acceptable exactly if it makes no more new money than its subsidy and, from height 17000 and on test
      networks, the regenerated service fees; so all fees may be collected.  From 1501 to 1659 the
      coinbase may pay nine times subsidy, fees and regenerated fees.  Up to 1500 there is no limit. */
  lemma {:induction false} AcceptableIff(m: CoinMap, vtx: seq<Tx>, height: nat, m2: CoinMap, undos: seq<TxUndo>,
                                         regenerated: nat, testNet: bool)
    requires WellFormed(m) && height >= 1
    requires Connect(m, vtx, height) == Some((m2, undos)) && BlockValuesOk(m, vtx, height)
    ensures height <= 1500 ==> Acceptable(m, vtx, height, regenerated, testNet)
    ensures 1501 <= height <= 1659 ==>
              (Acceptable(m, vtx, height, regenerated, testNet) <==>
               ValueOut(vtx[0].vout) <= 9 * (Subsidy(height, testNet) + BlockFees(m, vtx, height) + regenerated))
    ensures height >= 1660 ==>
              (Acceptable(m, vtx, height, regenerated, testNet) <==>
               Total(m2) - Total(m) <= Subsidy(height, testNet) + if height >= 17000 || testNet then regenerated else 0)
  {
    FeesNotNegative(m, vtx, height);
    assert Connectable(m, vtx);
    hide ConnectTxs; hide BlockFees; hide BlockValuesOk; hide Total; hide WellFormed; hide Subsidy;
    ConnectConserves(m, vtx, height, m2, undos);
  }

  /** CBlock::ConnectBlock.  `othersPass` stands for the checks that are not modelled (proof of
      work, scripts, maturity, minimum fees, service rules); `regenerated` for the service fee
      subsidies.  It succeeds exactly for acceptable blocks; then the view has moved by exactly
      `Connect` and undo data is on record in its stored form (the data written the first time the block
      was connected, if it was connected before).  The genesis block, recognised by having no parent, connects
      nothing. */
  method ConnectBlock(pindex: BlockIndex, view: CoinsViewCache, othersPass: bool, regenerated: nat,
                      testNet: bool) returns (ok: bool)
    requires view.Valid() && view.Best == pindex.pprev && pindex !in view.Repr
    modifies view.Repr, pindex`undo
    ensures view.Valid() && view.BelowUnchanged()
    ensures ok <==>
              othersPass && BlockOk(pindex.vtx) &&
              (pindex.pprev == null || Acceptable(old(view.Contents), pindex.vtx, pindex.nHeight, regenerated, testNet))
    ensures !ok ==> pindex.undo == old(pindex.undo)
    ensures ok ==> view.Best == pindex
    ensures ok && pindex.pprev == null ==> view.Contents == old(view.Contents) && pindex.undo == old(pindex.undo)
    ensures ok && pindex.pprev != null ==>
              var r := Connect(old(view.Contents), pindex.vtx, pindex.nHeight);
              && r.Some? && r.value.0 == view.Contents
              && pindex.undo == Some(if old(pindex.undo).Some? then old(pindex.undo).value else StoredUndos(r.value.1))
  {
    hide CoinsViewCache.Valid; hide ConnectTxs; hide BlockFees; hide BlockValuesOk;
    var vtx := pindex.vtx;
    ok := CheckBlock(vtx);
    if !ok { return; }
    if !othersPass { return false; }
    if pindex.pprev == null {
      view.SetBestBlock(pindex);
      return true;
    }
    ok := CheckOverwrite(vtx, view);
    if !ok { return; }
    assert forall i :: 0 <= i < |vtx| ==> TxOk(vtx[i]);
    var fees, undos;
    ok, fees, undos := ConnectTransactions(vtx, view, pindex.nHeight);
    if !ok { return; }
    var paid := SumOutputs(vtx[0].vout);
    var bValue := BlockValue(pindex.nHeight, fees, regenerated, testNet);
    if pindex.nHeight < HARDFORK_LAUNCH { bValue := bValue + bValue * 8; }
    if fees >= 0 && paid > bValue && pindex.nHeight > 1500 {
      return false;
    }
    if pindex.undo.None? {
      pindex.undo := Some(StoredUndos(undos));
    }
    view.SetBestBlock(pindex);
    ok := true;
  }

  /** The inner loop of DisconnectBlock: restore the inputs of one transaction. */
  method RestoreInputs(tx: Tx, us: TxUndo, view: CoinsViewCache) returns (clean: bool)
    requires view.Valid() && |us| == |tx.vin|
    modifies view.Repr
    ensures view.Valid() && view.BelowUnchanged() && view.Best == old(view.Best)
    ensures UndoInputs(old(view.Contents), tx.vin, us) == (view.Contents, clean)
  {
    hide UndoInput;
    clean := true;
    var j := |tx.vin|;
    assert tx.vin[..j] == tx.vin && us[..j] == us;
    while j > 0
      invariant 0 <= j <= |tx.vin|
      invariant view.Valid() && view.BelowUnchanged() && view.Best == old(view.Best)
      invariant var (m, c) := UndoInputs(view.Contents, tx.vin[..j], us[..j]);
                UndoInputs(old(view.Contents), tx.vin, us) == (m, clean && c)
    {
      j := j - 1;
      assert tx.vin[..j + 1][..j] == tx.vin[..j] && us[..j + 1][..j] == us[..j];
      var c := RestoreInput(tx.vin[j].prevout, us[j], view);
      clean := clean && c;
    }
  }

  method RestoreInput(out: OutPoint, undo: TxInUndo, view: CoinsViewCache) returns (clean: bool)
    requires view.Valid()
    modifies view.Repr
    ensures view.Valid() && view.BelowUnchanged() && view.Best == old(view.Best)
    ensures UndoInput(old(view.Contents), out, undo) == (view.Contents, clean)
  {
    clean := true;
    var r := view.GetCoins(out.hash);
    var coins := if r.Some? then r.value else NO_COINS;
    if undo.nHeight != 0 {
      if !coins.IsPruned() { clean := false; }
      coins := CoinRecord(undo.fCoinBase, [], undo.nHeight, undo.nVersion);
    } else {
      if coins.IsPruned() { clean := false; }
    }
    if coins.IsAvailable(out.n) { clean := false; }
    if |coins.vout| < out.n + 1 { coins := coins.(vout := Widen(coins.vout, out.n + 1)); }
    coins := coins.(vout := coins.vout[out.n := undo.txout]);
    view.SetCoins(out.hash, coins);
  }

  /** The part of DisconnectBlock that checks and removes the outputs of one transaction. */
  method RemoveOutputs(tx: Tx, view: CoinsViewCache, height: nat) returns (clean: bool)
    requires view.Valid()
    modifies view.Repr
    ensures view.Valid() && view.BelowUnchanged() && view.Best == old(view.Best)
    ensures view.Contents == old(view.Contents)[tx.hash := NO_COINS]
    ensures clean ==> OutputsMatch(old(view.Contents), tx, height)
    ensures OutputsMatch(old(view.Contents), tx, height) ==> clean
  {
    clean := true;
    var have := view.HaveCoins(tx.hash);
    if !have {
      clean := false;
      view.SetCoins(tx.hash, NO_COINS);
    }
    var r := view.GetCoins(tx.hash);
    var outs := r.value;
    if tx.nVersion < 0 { outs := outs.(nVersion := tx.nVersion); }
    if outs != CoinsOf(tx, height) { clean := false; }
    view.SetCoins(tx.hash, NO_COINS);
  }

  /** Undoing one transaction; `us` is absent for the coinbase. */
  ghost function UndoTx(m: CoinMap, tx: Tx, us: Option<TxUndo>, height: nat): Option<(CoinMap, bool)> {
    var m0, c0 := m[tx.hash := NO_COINS], OutputsMatch(m, tx, height);
    if us.None? then Some((m0, c0))
    else if |us.value| != |tx.vin| then None
    else var (m1, c1) := UndoInputs(m0, tx.vin, us.value); Some((m1, c0 && c1))
  }

  /** What is left to do when the first `i` transactions are still to be undone. */
  ghost function Remaining(m: CoinMap, vtx: seq<Tx>, undos: seq<TxUndo>, i: nat, height: nat): Option<(CoinMap, bool)>
    requires i <= |vtx| == |undos| + 1
  {
    DisconnectTxs(m, vtx[..i], if i == 0 then [] else undos[..i - 1], height)
  }

  lemma {:induction false} RemainingStep(m: CoinMap, vtx: seq<Tx>, undos: seq<TxUndo>, i: nat, height: nat)
    requires i < |vtx| == |undos| + 1
    ensures Remaining(m, vtx, undos, i + 1, height) ==
              match UndoTx(m, vtx[i], if i == 0 then None else Some(undos[i - 1]), height)
              case None => None
              case Some((m1, c1)) =>
                match Remaining(m1, vtx, undos, i, height)
                case None => None
                case Some((m2, c2)) => Some((m2, c1 && c2))
  {
    hide UndoInputs; hide OutputsMatch;
    var pre, us := vtx[..i + 1], undos[..i];
    assert pre[..i] == vtx[..i] && pre[i] == vtx[i];
    if i > 0 { assert us[i - 1] == undos[i - 1] && us[..i - 1] == undos[..i - 1]; }
  }

  method DisconnectTx(tx: Tx, us: Option<TxUndo>, view: CoinsViewCache, height: nat) returns (ok: bool, clean: bool)
    requires view.Valid()
    modifies view.Repr
    ensures view.Valid() && view.BelowUnchanged() && view.Best == old(view.Best)
    ensures ok <==> UndoTx(old(view.Contents), tx, us, height).Some?
    ensures ok ==> UndoTx(old(view.Contents), tx, us, height).value == (view.Contents, clean)
  {
    clean := RemoveOutputs(tx, view, height);
    ok := true;
    if us.Some? {
      if |us.value| != |tx.vin| { return false, clean; }
      var c := RestoreInputs(tx, us.value, view);
      clean := clean && c;
    }
  }

  /** CBlock::DisconnectBlock.  `ok` is false on missing or misshapen undo data; `clean` is what
      the caller gets as verdict when it does not ask for it separately. */
  method DisconnectBlock(pindex: BlockIndex, view: CoinsViewCache) returns (ok: bool, clean: bool)
    requires view.Valid() && view.Best == pindex && pindex.pprev != null && pindex !in view.Repr
    modifies view.Repr
    ensures view.Valid() && view.BelowUnchanged()
    ensures var r := if pindex.undo.None? then None
                     else Disconnect(old(view.Contents), pindex.vtx, pindex.undo.value, pindex.nHeight);
            && (ok <==> r.Some?)
            && (ok ==> r.value == (view.Contents, clean) && view.Best == pindex.pprev)
  {
    hide DisconnectTxs; hide UndoTx;
    clean := true;
    if pindex.undo.None? { return false, clean; }
    var undos, vtx, height := pindex.undo.value, pindex.vtx, pindex.nHeight;
    if |undos| + 1 != |vtx| { return false, clean; }
    var i := |vtx|;
    assert vtx[..i] == vtx && undos[..i - 1] == undos;
    ghost var all := Remaining(view.Contents, vtx, undos, i, height);
    while i > 0
      invariant 0 <= i <= |vtx| == |undos| + 1
      invariant view.Valid() && view.BelowUnchanged() && view.Best == pindex
      invariant var rest := Remaining(view.Contents, vtx, undos, i, height);
                && (rest.None? <==> all.None?)
                && (rest.Some? ==> all.value == (rest.value.0, clean && rest.value.1))
    {
      i := i - 1;
      RemainingStep(view.Contents, vtx, undos, i, height);
      var txOk, c := DisconnectTx(vtx[i], if i == 0 then None else Some(undos[i - 1]), view, height);
      if !txOk { return false, clean; }
      clean := clean && c;
    }
    assert Remaining(view.Contents, vtx, undos, 0, height) == Some((view.Contents, true)) by {
      NothingRemains(view.Contents, vtx, undos, height);
    }
    view.SetBestBlock(pindex.pprev);
    ok := true;
  }

  lemma {:induction false} NothingRemains(m: CoinMap, vtx: seq<Tx>, undos: seq<TxUndo>, height: nat)
    requires |vtx| == |undos| + 1
    ensures Remaining(m, vtx, undos, 0, height) == Some((m, true))
  {
  }
}
