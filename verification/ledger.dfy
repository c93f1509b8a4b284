/** What the coins are, said in terms of the transactions of the blocks alone: which outputs are unspent
    after a block and along a branch, and what is known about each. */
module Ledger {
  import opened Wrappers
  import opened Coins
  import opened Utxo
  import opened Rollbacks
  import opened BlockIndexes
  import opened Chain

  /** `out` is an output of a transaction of the block. */
  predicate Makes(vtx: seq<Tx>, out: OutPoint) {
    exists i :: 0 <= i < |vtx| && vtx[i].hash == out.hash && out.n < |vtx[i].vout|
  }

  /** A transaction of the block other than the coinbase spends `out`. */
  predicate SpentIn(vtx: seq<Tx>, out: OutPoint) {
    exists i :: 0 < i < |vtx| && Spends(vtx[i].vin, out)
  }

  /** Output `n` of a record is that output of `tx`, included at `height`, as the coinbase or not. */
  ghost predicate MadeBy(c: CoinRecord, n: nat, tx: Tx, first: bool, height: nat) {
    && n < |c.vout| && n < |tx.vout|
    && c.vout[n].nValue == tx.vout[n].nValue && c.vout[n].scriptPubKey == tx.vout[n].scriptPubKey
    && c.fCoinBase == first && c.nVersion == tx.nVersion && c.nHeight == height
  }

  /** Output `n` is the same in both records, and so is what is known about their transactions. */
  ghost predicate SameOutput(c: CoinRecord, d: CoinRecord, n: nat) {
    && n < |c.vout| && n < |d.vout| && c.vout[n] == d.vout[n]
    && c.fCoinBase == d.fCoinBase && c.nVersion == d.nVersion && c.nHeight == d.nHeight
  }

  // ------------------------------------------------------------ one transaction

  lemma {:induction false} SpendInputKeeps(m: CoinMap, last: OutPoint, out: OutPoint)
    requires SpendInput(m, last).Some? && Unspent(SpendInput(m, last).value.0, out)
    ensures SameOutput(Find(SpendInput(m, last).value.0, out.hash), Find(m, out.hash), out.n)
  {
    SpendInputUnspent(m, last, out);
  }

  lemma {:induction false} SpendInputsKeep(m: CoinMap, vin: seq<TxIn>, out: OutPoint)
    requires SpendInputs(m, vin).Some? && Unspent(SpendInputs(m, vin).value.0, out)
    ensures SameOutput(Find(SpendInputs(m, vin).value.0, out.hash), Find(m, out.hash), out.n)
  {
    hide SpendInput;
    if vin != [] {
      var k := |vin| - 1;
      var m1 := SpendInputs(m, vin[..k]).value.0;
      SpendInputUnspent(m1, vin[k].prevout, out);
      SpendInputKeeps(m1, vin[k].prevout, out);
      SpendInputsKeep(m, vin[..k], out);
    }
  }

  lemma {:induction false} ApplyTxLaw(m: CoinMap, tx: Tx, height: nat, m2: CoinMap, us: TxUndo, out: OutPoint)
    requires WellFormed(m) && TxOk(tx) && ApplyTx(m, tx, height) == Some((m2, us)) && !Alive(m, tx.hash)
    ensures Unspent(m2, out) <==>
              if out.hash == tx.hash then out.n < |tx.vout|
              else Unspent(m, out) && (tx.IsCoinBase() || !Spends(tx.vin, out))
    ensures Unspent(m2, out) && out.hash == tx.hash ==>
              MadeBy(Find(m2, out.hash), out.n, tx, tx.IsCoinBase(), height)
    ensures Unspent(m2, out) && out.hash != tx.hash ==> SameOutput(Find(m2, out.hash), Find(m, out.hash), out.n)
  {
    var m1 := if tx.IsCoinBase() then m else SpendInputs(m, tx.vin).value.0;
    if !tx.IsCoinBase() {
      HaveInputsIffSpendable(m, tx.vin);
      if Unspent(m1, out) { SpendInputsKeep(m, tx.vin, out); }
    }
    hide SpendInputs; hide Spends;
    assert out.hash != tx.hash ==> Find(m2, out.hash) == Find(m1, out.hash);
  }

  // ------------------------------------------------------------ one block

  lemma {:induction false} MakesSplit(vtx: seq<Tx>, out: OutPoint)
    requires vtx != []
    ensures var k := |vtx| - 1;
            && (Makes(vtx, out) <==> Makes(vtx[..k], out) || (vtx[k].hash == out.hash && out.n < |vtx[k].vout|))
            && (SpentIn(vtx, out) <==> SpentIn(vtx[..k], out) || (k > 0 && Spends(vtx[k].vin, out)))
  {
    var k := |vtx| - 1;
    hide Spends;
    if Makes(vtx, out) {
      var i :| 0 <= i < |vtx| && vtx[i].hash == out.hash && out.n < |vtx[i].vout|;
      if i < k { assert vtx[..k][i] == vtx[i]; }
    }
    if SpentIn(vtx, out) {
      var i :| 0 < i < |vtx| && Spends(vtx[i].vin, out);
      if i < k { assert vtx[..k][i] == vtx[i]; }
    }
  }

  /** An output of the last transaction was not there before and nothing in the block spends it. */
  lemma {:induction false} LastOutputs(m: CoinMap, vtx: seq<Tx>, height: nat, out: OutPoint)
    requires WellFormed(m) && height >= 1 && Connectable(m, vtx) && ConnectTxs(m, vtx, height).Some?
    requires out.hash == vtx[|vtx| - 1].hash
    ensures !Unspent(m, out) && !SpentIn(vtx, out) && !Makes(vtx[..|vtx| - 1], out)
  {
    hide WellFormed; hide ConnectTxs; hide TxOk;
    assert Find(m, out.hash).IsPruned();
    if SpentIn(vtx, out) {
      var i :| 0 < i < |vtx| && Spends(vtx[i].vin, out);
      NotFromLater(m, vtx, height, i, |vtx| - 1);
    }
  }

  /** The law of a block: afterwards unspent is exactly what was unspent before or is an output of the
      block, and is not spent in the block; an output of the block is known with its value and script,
      the block's height, the version of its transaction, and as coinbase exactly if that is the first;
      every other output is known as before. */
  ghost predicate BlockLaw(m: CoinMap, vtx: seq<Tx>, height: nat, m2: CoinMap, out: OutPoint) {
    && (Unspent(m2, out) <==> (Unspent(m, out) || Makes(vtx, out)) && !SpentIn(vtx, out))
    && (forall i :: Unspent(m2, out) && 0 <= i < |vtx| && vtx[i].hash == out.hash ==>
          MadeBy(Find(m2, out.hash), out.n, vtx[i], i == 0, height))
    && (Unspent(m2, out) && !HashIn(vtx, out.hash) ==> SameOutput(Find(m2, out.hash), Find(m, out.hash), out.n))
  }

  lemma {:induction false} ConnectTxsLaw(m: CoinMap, vtx: seq<Tx>, height: nat, m2: CoinMap, undos: seq<TxUndo>,
                                         out: OutPoint)
    requires WellFormed(m) && height >= 1 && Connectable(m, vtx)
    requires ConnectTxs(m, vtx, height) == Some((m2, undos))
    ensures BlockLaw(m, vtx, height, m2, out)
    decreases |vtx|
  {
    hide WellFormed; hide TxOk; hide NoOverwrite; hide Alive; hide ApplyTx; hide ConnectTxs; hide Unspent;
    hide MadeBy; hide SameOutput; hide Makes; hide SpentIn; hide HashIn; hide Spends;
    var k := |vtx| - 1;
    var m1, undos1, us := ConnectTxsSplit(m, vtx, height, m2, undos);
    NotAliveAfterPrefix(m, vtx, height, m1, undos1);
    ApplyTxLaw(m1, vtx[k], height, m2, us, out);
    MakesSplit(vtx, out);
    HashInSplit(vtx, out.hash);
    if out.hash == vtx[k].hash {
      LastOutputs(m, vtx, height, out);
      assert forall i :: 0 <= i < k ==> vtx[i].hash != vtx[k].hash;
    } else if k > 0 {
      PrefixConnectable(m, vtx);
      ConnectTxsLaw(m, vtx[..k], height, m1, undos1, out);
      KeepsMade(m2, m1, vtx[..k], vtx, out, height);
      KeepsSame(m2, m1, m, out);
    } else {
      ConnectTxsNone(m, height);
      NothingMade(out);
    }
  }

  lemma {:induction false} NothingMade(out: OutPoint)
    ensures !Makes([], out) && !SpentIn([], out) && !HashIn([], out.hash)
  {
  }

  lemma {:induction false} KeepsMade(m2: CoinMap, m1: CoinMap, pre: seq<Tx>, vtx: seq<Tx>, out: OutPoint, height: nat)
    requires vtx != [] && pre == vtx[..|vtx| - 1] && out.hash != vtx[|vtx| - 1].hash
    requires Unspent(m2, out) ==> Unspent(m1, out) && SameOutput(Find(m2, out.hash), Find(m1, out.hash), out.n)
    requires forall i :: Unspent(m1, out) && 0 <= i < |pre| && pre[i].hash == out.hash ==>
               MadeBy(Find(m1, out.hash), out.n, pre[i], i == 0, height)
    ensures forall i :: Unspent(m2, out) && 0 <= i < |vtx| && vtx[i].hash == out.hash ==>
              MadeBy(Find(m2, out.hash), out.n, vtx[i], i == 0, height)
  {
    forall i | Unspent(m2, out) && 0 <= i < |vtx| && vtx[i].hash == out.hash
      ensures MadeBy(Find(m2, out.hash), out.n, vtx[i], i == 0, height)
    {
      assert pre[i] == vtx[i];
    }
  }

  lemma {:induction false} KeepsSame(m2: CoinMap, m1: CoinMap, m: CoinMap, out: OutPoint)
    ensures SameOutput(Find(m2, out.hash), Find(m1, out.hash), out.n)
            && SameOutput(Find(m1, out.hash), Find(m, out.hash), out.n)
            ==> SameOutput(Find(m2, out.hash), Find(m, out.hash), out.n)
  {
  }

  lemma {:induction false} ConnectLaw(m: CoinMap, vtx: seq<Tx>, height: nat, m2: CoinMap, undos: seq<TxUndo>,
                                      out: OutPoint)
    requires WellFormed(m) && height >= 1 && Connect(m, vtx, height) == Some((m2, undos))
    ensures BlockLaw(m, vtx, height, m2, out)
  {
    assert Connectable(m, vtx);
    hide WellFormed; hide ConnectTxs; hide Connectable; hide BlockLaw;
    ConnectTxsLaw(m, vtx, height, m2, undos, out);
  }

  // ------------------------------------------------------------ a branch

  /** The block at height `h` of the branch makes `out`, and from there on nothing on the branch spends it. */
  ghost predicate LastsFrom(b: BlockIndex, h: nat, out: OutPoint)
    requires b.Linked()
  {
    && 1 <= h <= b.nHeight && Makes(b.Ancestor(h).vtx, out)
    && forall g {:trigger b.Ancestor(g)} :: h <= g <= b.nHeight ==> !SpentIn(b.Ancestor(g).vtx, out)
  }

  ghost predicate UnspentOn(b: BlockIndex, out: OutPoint)
    requires b.Linked()
  {
    exists h: nat :: LastsFrom(b, h, out)
  }

  /** The record is that of a transaction of the block at height `h`. */
  ghost predicate RecordedAt(b: BlockIndex, h: nat, c: CoinRecord, out: OutPoint)
    requires b.Linked()
  {
    1 <= h <= b.nHeight &&
    exists i :: && 0 <= i < |b.Ancestor(h).vtx| && b.Ancestor(h).vtx[i].hash == out.hash
                && MadeBy(c, out.n, b.Ancestor(h).vtx[i], i == 0, h)
  }

  lemma {:induction false} LastsBack(b: BlockIndex, h: nat, out: OutPoint)
    requires b.Linked() && b.pprev != null && h < b.nHeight
    ensures LastsFrom(b, h, out) <==> LastsFrom(b.pprev, h, out) && !SpentIn(b.vtx, out)
  {
    hide SpentIn; hide Makes;
    assert b.Ancestor(b.nHeight) == b;
    forall g | 0 <= g < b.nHeight ensures b.Ancestor(g) == b.pprev.Ancestor(g) {}
  }

  lemma {:induction false} LastsHere(b: BlockIndex, out: OutPoint)
    requires b.Linked() && b.pprev != null
    ensures LastsFrom(b, b.nHeight, out) <==> Makes(b.vtx, out) && !SpentIn(b.vtx, out)
  {
    hide SpentIn; hide Makes;
    assert b.Ancestor(b.nHeight) == b;
  }

  /** Unspent along a branch, step by step. */
  lemma {:induction false} UnspentOnStep(b: BlockIndex, out: OutPoint)
    requires b.Linked() && b.pprev != null
    ensures UnspentOn(b, out) <==> (UnspentOn(b.pprev, out) || Makes(b.vtx, out)) && !SpentIn(b.vtx, out)
  {
    hide SpentIn; hide Makes;
    LastsHere(b, out);
    if UnspentOn(b, out) {
      var h: nat :| LastsFrom(b, h, out);
      if h < b.nHeight { LastsBack(b, h, out); }
    }
    if UnspentOn(b.pprev, out) && !SpentIn(b.vtx, out) {
      var h: nat :| LastsFrom(b.pprev, h, out);
      LastsBack(b, h, out);
    }
  }

  /** The ledger law: the unspent outputs of a replayed branch are exactly the outputs made by its blocks
      and not spent by them since, each recorded with value, script, height, version and coinbase flag
      of the transaction that made it. */
  lemma {:induction false} ReplayLaw(b: BlockIndex, out: OutPoint)
    requires b.Linked() && Replay(b).Some?
    ensures Unspent(Replay(b).value, out) <==> UnspentOn(b, out)
    ensures Unspent(Replay(b).value, out) ==> exists h: nat :: RecordedAt(b, h, Find(Replay(b).value, out.hash), out)
    decreases b.nHeight
  {
    hide SpentIn; hide Makes; hide MadeBy; hide SameOutput; hide Unspent; hide Connect; hide WellFormed; hide HashIn;
    hide UnspentOn; hide RecordedAt; hide BlockLaw;
    if b.pprev == null {
      NothingYet(b, out);
    } else {
      ReplayLaw(b.pprev, out);
      ReplayWellFormed(b.pprev);
      UnspentOnStep(b, out);
      var m := Replay(b.pprev).value;
      var (m2, undos) := Connect(m, b.vtx, b.nHeight).value;
      ConnectLaw(m, b.vtx, b.nHeight, m2, undos, out);
      RecordStep(b, m, m2, out);
    }
  }

  lemma {:induction false} NothingYet(b: BlockIndex, out: OutPoint)
    requires b.Linked() && b.pprev == null
    ensures !Unspent(map[], out) && !UnspentOn(b, out)
  {
  }

  lemma {:induction false} RecordStep(b: BlockIndex, m: CoinMap, m2: CoinMap, out: OutPoint)
    requires b.Linked() && b.pprev != null && BlockLaw(m, b.vtx, b.nHeight, m2, out)
    requires Unspent(m, out) ==> exists h: nat :: RecordedAt(b.pprev, h, Find(m, out.hash), out)
    ensures Unspent(m2, out) <==> (Unspent(m, out) || Makes(b.vtx, out)) && !SpentIn(b.vtx, out)
    ensures Unspent(m2, out) ==> exists h: nat :: RecordedAt(b, h, Find(m2, out.hash), out)
  {
    hide SpentIn; hide Unspent;
    if Unspent(m2, out) {
      assert b.Ancestor(b.nHeight) == b;
      if HashIn(b.vtx, out.hash) {
        var i :| 0 <= i < |b.vtx| && b.vtx[i].hash == out.hash;
        assert RecordedAt(b, b.nHeight, Find(m2, out.hash), out);
      } else {
        assert Unspent(m, out) by { if Makes(b.vtx, out) {} }
        var h: nat :| RecordedAt(b.pprev, h, Find(m, out.hash), out);
        assert b.Ancestor(h) == b.pprev.Ancestor(h);
        assert RecordedAt(b, h, Find(m2, out.hash), out);
      }
    }
  }

  /** And so for the coins a node holds at a block, whatever caches and disks they went through; only
      negative versions may be changed. */
  lemma {:induction false} TipLaw(m: CoinMap, b: BlockIndex, out: OutPoint)
    requires b.Linked() && AtBlock(m, b)
    ensures Unspent(m, out) <==> UnspentOn(b, out)
    ensures Unspent(m, out) ==>
              exists h: nat, v :: RecordedAt(b, h, Find(m, out.hash).(nVersion := v), out)
                             && VersionLike(Find(m, out.hash).nVersion, v, true)
  {
    hide UnspentOn; hide RecordedAt;
    ReplayLaw(b, out);
    var r := Replay(b).value;
    assert SameRecord(Find(m, out.hash), Find(r, out.hash), true);
    if Unspent(m, out) {
      var h: nat :| RecordedAt(b, h, Find(r, out.hash), out);
      var v := Find(r, out.hash).nVersion;
      assert Find(m, out.hash).(nVersion := v) == Find(r, out.hash);
    }
  }
}
