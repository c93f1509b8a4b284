/** Everything the node writes to disk about coins is in the domain of the disk formats, so that what the
    database and the undo files give back is what the formats give back. */
module StoredCoins {
  import opened Wrappers
  import opened Coins
  import opened Utxo
  import opened BlockIndexes
  import opened Chain
  import opened CoinFiles

  ghost predicate AllStorable(m: CoinMap) { forall t :: Storable(Find(m, t).vout) }

  predicate InRange(u: TxInUndo) { 0 <= u.txout.nValue <= MAX_MONEY }

  ghost predicate UndosInRange(us: TxUndo) { forall i :: 0 <= i < |us| ==> InRange(us[i]) }

  ghost predicate BlockUndosInRange(undos: seq<TxUndo>) { forall i :: 0 <= i < |undos| ==> UndosInRange(undos[i]) }

  lemma {:induction false} SpendInputStorable(m: CoinMap, out: OutPoint, m1: CoinMap, u: TxInUndo)
    requires AllStorable(m) && SpendInput(m, out) == Some((m1, u))
    ensures AllStorable(m1) && InRange(u)
  {
    assert Storable(Find(m, out.hash).vout);
    forall t ensures Storable(Find(m1, t).vout) {
      if t != out.hash { assert Find(m1, t) == Find(m, t); }
    }
  }

  lemma {:induction false} SpendInputsStorable(m: CoinMap, vin: seq<TxIn>, m2: CoinMap, us: TxUndo)
    requires AllStorable(m) && SpendInputs(m, vin) == Some((m2, us))
    ensures AllStorable(m2) && UndosInRange(us)
  {
    hide AllStorable; hide SpendInput; hide InRange;
    if vin != [] {
      var k := |vin| - 1;
      var m1 := SpendInputsStep(m, vin, m2, us);
      SpendInputsStorable(m, vin[..k], m1, us[..k]);
      SpendInputStorable(m1, vin[k].prevout, m2, us[k]);
    }
  }

  lemma {:induction false} ApplyTxStorable(m: CoinMap, tx: Tx, height: nat, m2: CoinMap, us: TxUndo)
    requires AllStorable(m) && TxOk(tx) && ApplyTx(m, tx, height) == Some((m2, us))
    ensures AllStorable(m2) && UndosInRange(us)
  {
    var m1 := if tx.IsCoinBase() then m else SpendInputs(m, tx.vin).value.0;
    if !tx.IsCoinBase() { SpendInputsStorable(m, tx.vin, m1, us); }
    assert Storable(CoinsOf(tx, height).vout);
    forall t ensures Storable(Find(m2, t).vout) {
      if t != tx.hash { assert Find(m2, t) == Find(m1, t); }
    }
  }

  lemma {:induction false} ConnectTxsStorable(m: CoinMap, vtx: seq<Tx>, height: nat, m2: CoinMap, undos: seq<TxUndo>)
    requires AllStorable(m) && ConnectTxs(m, vtx, height) == Some((m2, undos))
    requires forall i :: 0 <= i < |vtx| ==> TxOk(vtx[i])
    ensures AllStorable(m2) && BlockUndosInRange(undos)
  {
    hide AllStorable; hide ApplyTx; hide TxOk; hide UndosInRange; hide ConnectTxs;
    if vtx == [] {
      ConnectTxsNone(m, height);
    } else {
      var m1, undos1, us := ConnectTxsSplit(m, vtx, height, m2, undos);
      ConnectTxsStorable(m, vtx[..|vtx| - 1], height, m1, undos1);
      ApplyTxStorable(m1, vtx[|vtx| - 1], height, m2, us);
    }
  }

  lemma {:induction false} ReplayStorable(b: BlockIndex)
    requires b.Linked() && Replay(b).Some?
    ensures AllStorable(Replay(b).value) && (b.pprev != null ==> BlockUndosInRange(UndoOf(b)))
    decreases b.nHeight
  {
    hide AllStorable; hide BlockUndosInRange; hide ConnectTxs;
    if b.pprev == null {
      NothingStored();
    } else {
      ReplayStorable(b.pprev);
      var m := Replay(b.pprev).value;
      var (m2, undos) := Connect(m, b.vtx, b.nHeight).value;
      ConnectTxsStorable(m, b.vtx, b.nHeight, m2, undos);
    }
  }

  lemma {:induction false} NothingStored()
    ensures AllStorable(map[])
  {
  }

  /** Every record with something unspent, in every state a branch can leave, can be written, and so can
      all undo data of the branch: what the serialisers ask for holds. */
  lemma {:induction false} CanBeWritten(m: CoinMap, b: BlockIndex, t: TxId)
    requires b.Linked() && AtBlock(m, b) && t in m && !m[t].IsPruned()
    ensures m[t].Canonical() && Storable(m[t].vout)
    ensures b.pprev != null ==> BlockUndosInRange(UndoOf(b))
  {
    ReplayStorable(b);
    ReplayWellFormed(b);
    hide BlockUndosInRange; hide Connect;
    var r := Replay(b).value;
    assert SameRecord(Find(m, t), Find(r, t), true);
  }

  /** Writing such a record to the database and reading it back gives its stored form. */
  method WriteAndRead(ghost m: CoinMap, ghost b: BlockIndex, ghost t: TxId, c: CoinRecord) returns (r: CoinRecord)
    requires b.Linked() && AtBlock(m, b) && t in m && m[t] == c && !c.IsPruned()
    ensures r == StoredRecord(c)
  {
    hide AtBlock; hide Storable;
    CanBeWritten(m, b, t);
    r := RoundTrip(c);
  }
}
