/** What a roll-back does to the records that earlier blocks left behind.  Whether a block can be rolled
    back without warnings depends on its dead records being there; these lemmas show that rolling back
    later blocks neither makes nor destroys them. */
module Rollbacks {
  import opened Wrappers
  import opened Coins
  import opened Utxo

  /** Every record of `a` that carries a height carries the one it has in `b`. */
  ghost predicate HeightsFrom(a: CoinMap, b: CoinMap) {
    forall t :: t in a ==> a[t].nHeight == 0 || (t in b && a[t].nHeight == b[t].nHeight)
  }

  predicate HashIn(vtx: seq<Tx>, t: TxId) { exists i :: 0 <= i < |vtx| && vtx[i].hash == t }

  // ------------------------------------------------------------ heights, connecting

  /** `b` has the records of `a`, with the same heights. */
  ghost predicate SameHeights(a: CoinMap, b: CoinMap) {
    a.Keys == b.Keys && forall t :: t in a ==> a[t].nHeight == b[t].nHeight
  }

  lemma {:induction false} SpendInputsHeights(m: CoinMap, vin: seq<TxIn>)
    requires SpendInputs(m, vin).Some?
    ensures SameHeights(SpendInputs(m, vin).value.0, m)
  {
    if vin != [] {
      SpendInputsHeights(m, vin[..|vin| - 1]);
    }
  }

  lemma {:induction false} ApplyTxHeights(m: CoinMap, tx: Tx, height: nat)
    requires ApplyTx(m, tx, height).Some?
    ensures var m2 := ApplyTx(m, tx, height).value.0;
            && m2.Keys == m.Keys + {tx.hash}
            && forall t :: t in m2 ==> m2[t].nHeight == if t == tx.hash then height else m[t].nHeight
  {
    if !tx.IsCoinBase() { SpendInputsHeights(m, tx.vin); }
    hide SpendInputs;
  }

  /** A connected block gives its own height to its transactions and changes no other. */
  lemma {:induction false} ConnectTxsHeights(m: CoinMap, vtx: seq<Tx>, height: nat, m2: CoinMap, undos: seq<TxUndo>)
    requires ConnectTxs(m, vtx, height) == Some((m2, undos))
    ensures forall t :: t in m2 <==> t in m || HashIn(vtx, t)
    ensures forall t :: t in m2 ==> m2[t].nHeight == if HashIn(vtx, t) then height else m[t].nHeight
  {
    hide ApplyTx; hide HashIn;
    if vtx == [] {
      forall t ensures !HashIn(vtx, t) { HashInSplit(vtx, t); }
    } else {
      var k := |vtx| - 1;
      var (m1, undos1) := ConnectTxs(m, vtx[..k], height).value;
      ConnectTxsHeights(m, vtx[..k], height, m1, undos1);
      ApplyTxHeights(m1, vtx[k], height);
      forall t ensures HashIn(vtx, t) <==> HashIn(vtx[..k], t) || vtx[k].hash == t { HashInSplit(vtx, t); }
    }
  }

  lemma {:induction false} HashInSplit(vtx: seq<Tx>, t: TxId)
    ensures vtx == [] ==> !HashIn(vtx, t)
    ensures vtx != [] ==> (HashIn(vtx, t) <==> HashIn(vtx[..|vtx| - 1], t) || vtx[|vtx| - 1].hash == t)
  {
    if HashIn(vtx, t) {
      var i :| 0 <= i < |vtx| && vtx[i].hash == t;
      if i < |vtx| - 1 { assert vtx[..|vtx| - 1][i].hash == t; }
    }
  }

  /** Connecting the same block on both states. */
  lemma {:induction false} ConnectHeightsFrom(a: CoinMap, b: CoinMap, vtx: seq<Tx>, height: nat,
                                              a2: CoinMap, b2: CoinMap, xs: seq<TxUndo>, us: seq<TxUndo>)
    requires HeightsFrom(a, b)
    requires ConnectTxs(a, vtx, height) == Some((a2, xs)) && ConnectTxs(b, vtx, height) == Some((b2, us))
    ensures HeightsFrom(a2, b2)
  {
    hide ConnectTxs; hide HashIn;
    ConnectTxsHeights(a, vtx, height, a2, xs);
    ConnectTxsHeights(b, vtx, height, b2, us);
  }

  // ------------------------------------------------------------ what a block touches

  predicate TouchedBy(vtx: seq<Tx>, t: TxId) {
    exists i :: 0 < i < |vtx| && Touches(vtx[i].vin, t)
  }

  lemma {:induction false} InputsAlive(m: CoinMap, tx: Tx, height: nat, t: TxId)
    requires WellFormed(m) && ApplyTx(m, tx, height).Some? && !tx.IsCoinBase() && Touches(tx.vin, t)
    ensures Alive(m, t)
  {
    var (spent, us) := SpendInputs(m, tx.vin).value;
    SpendInputsFacts(m, tx.vin, spent, us);
  }

  /** What the i-th transaction spends from was there before the block or was created earlier in it. */
  lemma {:induction false} TouchedAlive(m: CoinMap, vtx: seq<Tx>, height: nat, i: nat, t: TxId)
    requires WellFormed(m) && height >= 1 && ConnectTxs(m, vtx, height).Some?
    requires CoinbaseFirst(vtx) && forall j :: 0 <= j < |vtx| ==> TxOk(vtx[j])
    requires 0 < i < |vtx| && Touches(vtx[i].vin, t)
    ensures Alive(m, t) || Creates(vtx[..i], t)
    decreases |vtx|
  {
    hide WellFormed; hide Alive; hide Creates; hide TxOk; hide ApplyTx; hide Touches;
    var k := |vtx| - 1;
    var (m1, undos1) := ConnectTxs(m, vtx[..k], height).value;
    if i < k {
      TouchedAlive(m, vtx[..k], height, i, t);
      assert vtx[..k][..i] == vtx[..i];
    } else {
      ConnectTxsFacts(m, vtx[..k], height, m1, undos1);
      InputsAlive(m1, vtx[k], height, t);
    }
  }

  /** No transaction spends from itself or from a later one. */
  lemma {:induction false} NotFromLater(m: CoinMap, vtx: seq<Tx>, height: nat, i: nat, j: nat)
    requires WellFormed(m) && height >= 1 && ConnectTxs(m, vtx, height).Some? && Connectable(m, vtx)
    requires 0 < i <= j < |vtx|
    ensures !Touches(vtx[i].vin, vtx[j].hash)
  {
    if Touches(vtx[i].vin, vtx[j].hash) {
      TouchedAlive(m, vtx, height, i, vtx[j].hash);
      assert false;
    }
  }

  // ------------------------------------------------------------ what a roll-back leaves alone

  lemma {:induction false} DisconnectTxsFrame(m: CoinMap, vtx: seq<Tx>, xs: seq<TxUndo>, height: nat, t: TxId)
    requires vtx == [] || |xs| + 1 == |vtx|
    requires DisconnectTxs(m, vtx, xs, height).Some? && !HashIn(vtx, t) && !TouchedBy(vtx, t)
    ensures SameAt(DisconnectTxs(m, vtx, xs, height).value.0, m, t)
    decreases |vtx|
  {
    hide UndoInputs; hide OutputsMatch;
    if |vtx| > 1 {
      var k := |vtx| - 1;
      var m0 := m[vtx[k].hash := NO_COINS];
      UndoInputsFrame(m0, vtx[k].vin, xs[k - 1], t);
      DisconnectTxsFrame(UndoInputs(m0, vtx[k].vin, xs[k - 1]).0, vtx[..k], xs[..k - 1], height, t);
    }
  }

  /** The transactions of the block itself end up with the blank record. */
  lemma {:induction false} DisconnectTxsBlanks(m: CoinMap, vtx: seq<Tx>, xs: seq<TxUndo>, height: nat, j: nat)
    requires j < |vtx| == |xs| + 1 && DisconnectTxs(m, vtx, xs, height).Some? && DistinctIds(vtx)
    requires forall i :: 0 < i <= j ==> !Touches(vtx[i].vin, vtx[j].hash)
    ensures Find(DisconnectTxs(m, vtx, xs, height).value.0, vtx[j].hash) == NO_COINS
    decreases |vtx|
  {
    hide UndoInputs; hide OutputsMatch; hide Touches;
    if |vtx| > 1 {
      var k := |vtx| - 1;
      var m0 := m[vtx[k].hash := NO_COINS];
      var m1 := UndoInputs(m0, vtx[k].vin, xs[k - 1]).0;
      if j < k {
        DisconnectTxsBlanks(m1, vtx[..k], xs[..k - 1], height, j);
      } else {
        UndoInputsFrame(m0, vtx[k].vin, xs[k - 1], vtx[k].hash);
        DisconnectTxsFrame(m1, vtx[..k], xs[..k - 1], height, vtx[k].hash);
      }
    }
  }

  /** Where a record of the rolled-back state comes from: it is blank, it is restored from the undo data
      as it was before the block, or it has not been touched. */
  lemma {:induction false} RolledBack(r: CoinMap, vtx: seq<Tx>, height: nat, r2: CoinMap, undos: seq<TxUndo>,
                                      m: CoinMap, xs: seq<TxUndo>, m2: CoinMap, clean: bool, t: TxId)
    requires WellFormed(r) && height >= 1 && Connect(r, vtx, height) == Some((r2, undos))
    requires |xs| + 1 == |vtx| && DisconnectTxs(m, vtx, xs, height) == Some((m2, clean))
    ensures HashIn(vtx, t) ==> Find(m2, t) == NO_COINS && t in r2 && r2[t].nHeight == height
    ensures !HashIn(vtx, t) ==> (t in r2 <==> t in r) && (t in r ==> r2[t].nHeight == r[t].nHeight)
    ensures !HashIn(vtx, t) ==> SameAt(m2, m, t) || Alive(r, t)
  {
    hide WellFormed; hide DisconnectTxs; hide ConnectTxs; hide TxOk; hide Alive; hide Touches;
    ConnectTxsHeights(r, vtx, height, r2, undos);
    assert Connectable(r, vtx);
    hide NoOverwrite;
    if HashIn(vtx, t) {
      var j :| 0 <= j < |vtx| && vtx[j].hash == t;
      forall i | 0 < i <= j ensures !Touches(vtx[i].vin, vtx[j].hash) { NotFromLater(r, vtx, height, i, j); }
      DisconnectTxsBlanks(m, vtx, xs, height, j);
    } else if TouchedBy(vtx, t) {
      var i :| 0 < i < |vtx| && Touches(vtx[i].vin, t);
      TouchedAlive(r, vtx, height, i, t);
      assert !Creates(vtx[..i], t);
    } else {
      DisconnectTxsFrame(m, vtx, xs, height, t);
    }
  }

  lemma {:induction false} RolledBackHeights(r: CoinMap, vtx: seq<Tx>, height: nat, r2: CoinMap, undos: seq<TxUndo>,
                                             m: CoinMap, xs: seq<TxUndo>, m2: CoinMap, clean: bool)
    requires WellFormed(r) && height >= 1 && Connect(r, vtx, height) == Some((r2, undos))
    requires |xs| + 1 == |vtx| && DisconnectTxs(m, vtx, xs, height) == Some((m2, clean))
    requires HeightsFrom(m, r2) && SameLive(m2, r, true)
    ensures HeightsFrom(m2, r)
  {
    hide WellFormed; hide DisconnectTxs; hide Connect; hide SameLive; hide Alive; hide HashIn;
    forall t | t in m2 ensures m2[t].nHeight == 0 || (t in r && m2[t].nHeight == r[t].nHeight) {
      RolledBack(r, vtx, height, r2, undos, m, xs, m2, clean, t);
      if !HashIn(vtx, t) && Alive(r, t) { AliveHeights(m2, r, t); }
    }
  }

  lemma {:induction false} AliveHeights(a: CoinMap, b: CoinMap, t: TxId)
    requires SameLive(a, b, true) && Alive(b, t)
    ensures t in a && t in b && a[t].nHeight == b[t].nHeight && Alive(a, t)
  {
    assert SameRecord(Find(a, t), Find(b, t), true);
  }

  /** A dead record left by an earlier block is there after the roll-back exactly if it was before. */
  lemma {:induction false} DeadRecordKept(r: CoinMap, vtx: seq<Tx>, height: nat, r2: CoinMap, undos: seq<TxUndo>,
                                          m: CoinMap, xs: seq<TxUndo>, m2: CoinMap, clean: bool, tx: Tx, h: nat)
    requires WellFormed(r) && Connect(r, vtx, height) == Some((r2, undos))
    requires |xs| + 1 == |vtx| && DisconnectTxs(m, vtx, xs, height) == Some((m2, clean))
    requires HeightsFrom(m, r2) && SameLive(m2, r, true)
    requires 1 <= h < height && tx.vout == []
    requires tx.hash in r && r[tx.hash].nHeight == h ==> !Alive(r, tx.hash)
    ensures OutputsMatch(m2, tx, h) <==> OutputsMatch(m, tx, h)
  {
    hide WellFormed; hide DisconnectTxs; hide Connect; hide SameLive; hide HashIn;
    var t := tx.hash;
    RolledBack(r, vtx, height, r2, undos, m, xs, m2, clean, t);
    if !HashIn(vtx, t) && Alive(r, t) { AliveHeights(m2, r, t); }
  }
}
