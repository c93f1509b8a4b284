/** Connecting and disconnecting a block on the coin state seen as one flat map, and the proof
    that disconnecting is the exact inverse of connecting. */
module Utxo {
  import opened Wrappers
  import opened Coins

  type CoinMap = map<TxId, CoinRecord>
  type TxUndo = seq<TxInUndo>

  function Find(m: CoinMap, t: TxId): CoinRecord {
    if t in m then m[t] else NO_COINS
  }

  /** The unspent part of the coin state.  A completely spent record means the same as no record:
      the database erases such records, the caches keep them. */
  function Live(m: CoinMap): CoinMap {
    map t | t in m && !m[t].IsPruned() :: m[t]
  }

  predicate Alive(m: CoinMap, t: TxId) { !Find(m, t).IsPruned() }

  predicate SameRecord(x: CoinRecord, y: CoinRecord, disk: bool) {
    RecordLike(x, y, disk) || (x.IsPruned() && y.IsPruned())
  }

  /** `a` has the same unspent part as `b`; with `disk`, records of `a` may have been on disk, where
      negative versions change. */
  ghost predicate SameLive(a: CoinMap, b: CoinMap, disk: bool) {
    forall t :: SameRecord(Find(a, t), Find(b, t), disk)
  }

  ghost predicate WellFormed(m: CoinMap) {
    forall t :: Find(m, t).Canonical()
  }

  lemma {:induction false} LiveIff(m: CoinMap, t: TxId)
    ensures t in Live(m) <==> Alive(m, t)
    ensures Alive(m, t) ==> t in m && Live(m)[t] == m[t] == Find(m, t)
  {
  }

  /** What the relation says about the unspent parts. */
  lemma {:induction false} SameLiveIff(a: CoinMap, b: CoinMap, disk: bool)
    ensures SameLive(a, b, disk) <==>
              Live(a).Keys == Live(b).Keys &&
                forall t :: t in Live(b) ==> t in Live(a) && RecordLike(Live(a)[t], Live(b)[t], disk)
    ensures SameLive(a, b, false) <==> Live(a) == Live(b)
  {
    forall t ensures t in Live(a) <==> Alive(a, t) ensures t in Live(b) <==> Alive(b, t) {}
    SameLiveKeys(a, b, disk);
    SameLiveKeys(a, b, false);
    assert Live(a) == Live(b) <==>
      Live(a).Keys == Live(b).Keys && forall t :: t in Live(b) ==> t in Live(a) && Live(a)[t] == Live(b)[t];
  }

  lemma {:induction false} SameLiveKeys(a: CoinMap, b: CoinMap, disk: bool)
    ensures SameLive(a, b, disk) <==>
              Live(a).Keys == Live(b).Keys &&
                forall t :: t in Live(b) ==> t in Live(a) && RecordLike(Live(a)[t], Live(b)[t], disk)
  {
    if SameLive(a, b, disk) {
      forall t ensures t in Live(a) <==> t in Live(b)
               ensures t in Live(b) ==> t in Live(a) && RecordLike(Live(a)[t], Live(b)[t], disk)
      {
        LiveIff(a, t);
        LiveIff(b, t);
        assert SameRecord(Find(a, t), Find(b, t), disk);
      }
    }
    if && Live(a).Keys == Live(b).Keys
       && forall t :: t in Live(b) ==> t in Live(a) && RecordLike(Live(a)[t], Live(b)[t], disk)
    {
      forall t ensures SameRecord(Find(a, t), Find(b, t), disk) {
        LiveIff(a, t);
        LiveIff(b, t);
        assert t in Live(a).Keys <==> t in Live(b).Keys;
      }
    }
  }

  lemma {:induction false} SameLiveTrans(a: CoinMap, b: CoinMap, c: CoinMap, disk: bool)
    requires SameLive(a, b, disk) && SameLive(b, c, disk)
    ensures SameLive(a, c, disk)
  {
    forall t ensures SameRecord(Find(a, t), Find(c, t), disk) {
      assert SameRecord(Find(a, t), Find(b, t), disk) && SameRecord(Find(b, t), Find(c, t), disk);
    }
  }

  /** No unspent output belongs to a transaction with a negative version. */
  predicate NoNegative(m: CoinMap) { forall t :: t in m && !m[t].IsPruned() ==> m[t].nVersion >= 0 }

  /** Without negative versions the disk changes nothing. */
  lemma {:induction false} ExactIfNoNegative(a: CoinMap, b: CoinMap)
    requires SameLive(a, b, true) && NoNegative(b)
    ensures Live(a) == Live(b)
  {
    forall t ensures SameRecord(Find(a, t), Find(b, t), false) {
      assert SameRecord(Find(a, t), Find(b, t), true);
    }
    SameLiveIff(a, b, false);
  }

  /** And a state all of whose records have been on disk is exact only then. */
  lemma {:induction false} ExactOnDiskIff(a: CoinMap, b: CoinMap)
    requires SameLive(a, b, true) && NoNegative(a)
    ensures Live(a) == Live(b) <==> NoNegative(b)
  {
    if NoNegative(b) { ExactIfNoNegative(a, b); }
    if Live(a) == Live(b) {
      forall t | t in b && !b[t].IsPruned() ensures b[t].nVersion >= 0 {
        LiveIff(b, t);
        LiveIff(a, t);
      }
    }
  }

  // ---------------------------------------------------------------- connecting

  function SpendInput(m: CoinMap, out: OutPoint): (r: Option<(CoinMap, TxInUndo)>)
    ensures r.Some? <==> Find(m, out.hash).IsAvailable(out.n)
  {
    match SpendOutput(Find(m, out.hash), out.n)
    case None => None
    case Some((c, u)) => Some((m[out.hash := c], u))
  }

  function SpendInputs(m: CoinMap, vin: seq<TxIn>): (r: Option<(CoinMap, TxUndo)>)
    ensures r.Some? ==> |r.value.1| == |vin|
  {
    if vin == [] then Some((m, []))
    else
      match SpendInputs(m, vin[..|vin| - 1])
      case None => None
      case Some((m1, us)) =>
        match SpendInput(m1, vin[|vin| - 1].prevout)
        case None => None
        case Some((m2, u)) => Some((m2, us + [u]))
  }

  function ApplyTx(m: CoinMap, tx: Tx, height: nat): Option<(CoinMap, TxUndo)> {
    if tx.IsCoinBase() then Some((m[tx.hash := CoinsOf(tx, height)], []))
    else
      match SpendInputs(m, tx.vin)
      case None => None
      case Some((m1, us)) => Some((m1[tx.hash := CoinsOf(tx, height)], us))
  }

  function ConnectTxs(m: CoinMap, vtx: seq<Tx>, height: nat): Option<(CoinMap, seq<TxUndo>)> {
    if vtx == [] then Some((m, []))
    else
      var tx := vtx[|vtx| - 1];
      match ConnectTxs(m, vtx[..|vtx| - 1], height)
      case None => None
      case Some((m1, undos)) =>
        match ApplyTx(m1, tx, height)
        case None => None
        case Some((m2, us)) => Some((m2, if tx.IsCoinBase() then undos else undos + [us]))
  }

  predicate DistinctInputs(vin: seq<TxIn>) {
    forall i, j :: 0 <= i < j < |vin| ==> vin[i].prevout != vin[j].prevout
  }

  predicate DistinctIds(vtx: seq<Tx>) {
    forall i, j :: 0 <= i < j < |vtx| ==> vtx[i].hash != vtx[j].hash
  }

  predicate MoneyRange(v: int) { 0 <= v <= MAX_MONEY }

  function ValueOut(vout: seq<TxOut>): int {
    if vout == [] then 0 else ValueOut(vout[..|vout| - 1]) + vout[|vout| - 1].nValue
  }

  /** CheckTransaction, without the limits on serialized sizes. */
  predicate TxOk(tx: Tx) {
    && tx.vin != []
    && (tx.vout != [] || tx.data != [])
    && (forall i :: 0 <= i < |tx.vout| ==> MoneyRange(tx.vout[i].nValue))
    && (forall i :: 0 <= i <= |tx.vout| ==> MoneyRange(ValueOut(tx.vout[..i])))
    && DistinctInputs(tx.vin)
    && (if tx.IsCoinBase() then 2 <= |tx.vin[0].scriptSig| <= 100
        else forall i :: 0 <= i < |tx.vin| ==> !tx.vin[i].prevout.IsNull())
  }

  /** CheckBlock, without size limits, proof of work, timestamp, sigops and Merkle root. */
  predicate BlockOk(vtx: seq<Tx>) {
    && vtx != []
    && (forall i :: 0 <= i < |vtx| ==> (vtx[i].IsCoinBase() <==> i == 0))
    && (forall i :: 0 <= i < |vtx| ==> TxOk(vtx[i]))
    && DistinctIds(vtx)
  }

  /** BIP30: no transaction of the block overwrites one that still has unspent outputs. */
  predicate NoOverwrite(m: CoinMap, vtx: seq<Tx>) {
    forall i :: 0 <= i < |vtx| ==> Find(m, vtx[i].hash).IsPruned()
  }

  /** The effect of connecting a block on the coin state, with its undo records. */
  function Connect(m: CoinMap, vtx: seq<Tx>, height: nat): Option<(CoinMap, seq<TxUndo>)> {
    if BlockOk(vtx) && NoOverwrite(m, vtx) then ConnectTxs(m, vtx, height) else None
  }

  // ------------------------------------------------------------- disconnecting

  function UndoInput(m: CoinMap, out: OutPoint, undo: TxInUndo): (CoinMap, bool) {
    var found := Find(m, out.hash);
    (m[out.hash := RestoreOutput(found, out.n, undo)], RestoreClean(found, out.n, undo))
  }

  function UndoInputs(m: CoinMap, vin: seq<TxIn>, us: TxUndo): (CoinMap, bool)
    requires |vin| == |us|
    decreases |vin|
  {
    if vin == [] then (m, true)
    else
      var k := |vin| - 1;
      var (m1, c1) := UndoInput(m, vin[k].prevout, us[k]);
      var (m2, c2) := UndoInputs(m1, vin[..k], us[..k]);
      (m2, c1 && c2)
  }

  /** Negative versions do not survive the database, so they are not compared. */
  function FixVersion(outs: CoinRecord, tx: Tx): CoinRecord {
    if tx.nVersion < 0 then outs.(nVersion := tx.nVersion) else outs
  }

  predicate OutputsMatch(m: CoinMap, tx: Tx, height: nat) {
    tx.hash in m && FixVersion(m[tx.hash], tx) == CoinsOf(tx, height)
  }

  /** Undo the transactions of a block from last to first; None stands for the error return on
      undo data of the wrong shape, the flag for the absence of warnings. */
  function DisconnectTxs(m: CoinMap, vtx: seq<Tx>, undos: seq<TxUndo>, height: nat): Option<(CoinMap, bool)>
    requires vtx == [] || |undos| + 1 == |vtx|
    decreases |vtx|
  {
    if vtx == [] then Some((m, true))
    else
      var i := |vtx| - 1;
      var tx := vtx[i];
      var c0 := OutputsMatch(m, tx, height);
      var m0 := m[tx.hash := NO_COINS];
      if i == 0 then Some((m0, c0))
      else if |undos[i - 1]| != |tx.vin| then None
      else
        var (m1, c1) := UndoInputs(m0, tx.vin, undos[i - 1]);
        match DisconnectTxs(m1, vtx[..i], undos[..i - 1], height)
        case None => None
        case Some((m2, c2)) => Some((m2, c0 && c1 && c2))
  }

  function Disconnect(m: CoinMap, vtx: seq<Tx>, undos: seq<TxUndo>, height: nat): Option<(CoinMap, bool)> {
    if |undos| + 1 != |vtx| then None else DisconnectTxs(m, vtx, undos, height)
  }

  // ----------------------------------------------------------- inputs, there and back

  /** Spending keeps states canonical, needs a live record and brings none to life. */
  lemma {:induction false} SpendInputFacts(m: CoinMap, out: OutPoint, m1: CoinMap, u: TxInUndo)
    requires WellFormed(m) && SpendInput(m, out) == Some((m1, u))
    ensures WellFormed(m1) && Alive(m, out.hash)
    ensures forall t :: Alive(m1, t) ==> Alive(m, t)
  {
    SpendCanonical(m[out.hash], out.n);
    forall t ensures Find(m1, t).Canonical() ensures Alive(m1, t) ==> Alive(m, t) {
      assert t != out.hash ==> Find(m1, t) == Find(m, t);
    }
  }

  lemma {:induction false} SpendInputsStep(m: CoinMap, vin: seq<TxIn>, m2: CoinMap, us: TxUndo) returns (m1: CoinMap)
    requires vin != [] && SpendInputs(m, vin) == Some((m2, us))
    ensures SpendInputs(m, vin[..|vin| - 1]) == Some((m1, us[..|vin| - 1]))
    ensures SpendInput(m1, vin[|vin| - 1].prevout) == Some((m2, us[|vin| - 1]))
  {
    hide SpendInput;
    m1 := SpendInputs(m, vin[..|vin| - 1]).value.0;
    assert us[..|vin| - 1] == SpendInputs(m, vin[..|vin| - 1]).value.1;
  }

  lemma {:induction false} SpendInputsFacts(m: CoinMap, vin: seq<TxIn>, m2: CoinMap, us: TxUndo)
    requires WellFormed(m) && SpendInputs(m, vin) == Some((m2, us))
    ensures WellFormed(m2)
    ensures forall i :: 0 <= i < |vin| ==> Alive(m, vin[i].prevout.hash)
    ensures forall t :: Alive(m2, t) ==> Alive(m, t)
  {
    if vin == [] {
    } else {
      hide SpendInput; hide SpendInputs; hide WellFormed; hide Alive;
      var k := |vin| - 1;
      var m1 := SpendInputsStep(m, vin, m2, us);
      SpendInputsFacts(m, vin[..k], m1, us[..k]);
      SpendInputFacts(m1, vin[k].prevout, m2, us[k]);
      forall i | 0 <= i < |vin| ensures Alive(m, vin[i].prevout.hash) {
        if i < k { assert vin[..k][i] == vin[i]; }
      }
    }
  }

  lemma {:induction false} SpendInputsFrame(m: CoinMap, vin: seq<TxIn>, t: TxId)
    requires SpendInputs(m, vin).Some?
    requires forall i :: 0 <= i < |vin| ==> vin[i].prevout.hash != t
    ensures var m2 := SpendInputs(m, vin).value.0; (t in m2 <==> t in m) && Find(m2, t) == Find(m, t)
  {
    if vin != [] { SpendInputsFrame(m, vin[..|vin| - 1], t); }
  }

  predicate Unspent(m: CoinMap, out: OutPoint) { Find(m, out.hash).IsAvailable(out.n) }

  ghost predicate AllUnspent(m: CoinMap, vin: seq<TxIn>) {
    forall i :: 0 <= i < |vin| ==> Unspent(m, vin[i].prevout)
  }

  predicate Spends(vin: seq<TxIn>, out: OutPoint) {
    exists i :: 0 <= i < |vin| && vin[i].prevout == out
  }

  lemma {:induction false} SpendInputUnspent(m: CoinMap, last: OutPoint, out: OutPoint)
    requires SpendInput(m, last).Some?
    ensures Unspent(SpendInput(m, last).value.0, out) <==> Unspent(m, out) && out != last
  {
    if out.hash == last.hash {
      var spent := m[last.hash].vout[last.n := NULL_OUT];
      var t := Trim(spent);
      if out.n < |spent| && |t| <= out.n { assert spent[out.n].IsNull(); }
    }
  }

  lemma {:induction false} SpendableIff(m: CoinMap, out: OutPoint)
    ensures SpendInput(m, out).Some? <==> Unspent(m, out)
  {
  }

  /** HaveInputs decides exactly whether the spends of UpdateCoins succeed, and what they remove
      from the unspent outputs is exactly the inputs. */
  lemma {:induction false} HaveInputsIffSpendable(m: CoinMap, vin: seq<TxIn>)
    requires DistinctInputs(vin)
    ensures SpendInputs(m, vin).Some? <==> AllUnspent(m, vin)
    ensures SpendInputs(m, vin).Some? ==> forall out: OutPoint ::
              Unspent(SpendInputs(m, vin).value.0, out) <==> Unspent(m, out) && !Spends(vin, out)
  {
    hide SpendInput; hide Unspent;
    if vin != [] {
      var k := |vin| - 1;
      var pre, last := vin[..k], vin[k].prevout;
      HaveInputsIffSpendable(m, pre);
      assert AllUnspent(m, vin) <==> AllUnspent(m, pre) && Unspent(m, last) by {
        assert forall i :: 0 <= i < k ==> pre[i] == vin[i];
      }
      if SpendInputs(m, pre).Some? {
        var m1 := SpendInputs(m, pre).value.0;
        assert !Spends(pre, last);
        assert SpendInput(m1, last).Some? <==> Unspent(m1, last) by { SpendableIff(m1, last); }
        if SpendInput(m1, last).Some? {
          var m2 := SpendInputs(m, vin).value.0;
          forall out: OutPoint ensures Unspent(m2, out) <==> Unspent(m, out) && !Spends(vin, out) {
            SpendInputUnspent(m1, last, out);
            SpendsSplit(vin, out);
          }
        }
      }
    }
  }

  lemma {:induction false} SpendsSplit(vin: seq<TxIn>, out: OutPoint)
    requires vin != []
    ensures Spends(vin, out) <==> Spends(vin[..|vin| - 1], out) || vin[|vin| - 1].prevout == out
  {
  }

  ghost predicate UndosLike(xs: TxUndo, us: TxUndo, disk: bool) {
    |xs| == |us| && forall i :: 0 <= i < |us| ==> UndoLike(xs[i], us[i], disk)
  }

  lemma {:induction false} SpendInputLive(a: CoinMap, b: CoinMap, out: OutPoint, disk: bool)
    requires SameLive(a, b, disk)
    ensures SpendInput(a, out).Some? <==> SpendInput(b, out).Some?
    ensures SpendInput(a, out).Some? ==>
              && SameLive(SpendInput(a, out).value.0, SpendInput(b, out).value.0, disk)
              && UndoLike(SpendInput(a, out).value.1, SpendInput(b, out).value.1, disk)
              && (!disk ==> SpendInput(a, out).value.1 == SpendInput(b, out).value.1)
  {
    assert SameRecord(Find(a, out.hash), Find(b, out.hash), disk);
    if SpendInput(a, out).Some? {
      var a1, b1 := SpendInput(a, out).value.0, SpendInput(b, out).value.0;
      forall t ensures SameRecord(Find(a1, t), Find(b1, t), disk) {
        assert SameRecord(Find(a, t), Find(b, t), disk);
      }
    }
  }

  /** Spending depends on the live coins only, and so do the undo records. */
  lemma {:induction false} SpendInputsLive(a: CoinMap, b: CoinMap, vin: seq<TxIn>, disk: bool)
    requires SameLive(a, b, disk)
    ensures SpendInputs(a, vin).Some? <==> SpendInputs(b, vin).Some?
    ensures SpendInputs(a, vin).Some? ==>
              && SameLive(SpendInputs(a, vin).value.0, SpendInputs(b, vin).value.0, disk)
              && UndosLike(SpendInputs(a, vin).value.1, SpendInputs(b, vin).value.1, disk)
              && (!disk ==> SpendInputs(a, vin).value.1 == SpendInputs(b, vin).value.1)
  {
    hide SpendInput; hide SameLive; hide UndoLike;
    if vin != [] {
      var k := |vin| - 1;
      SpendInputsLive(a, b, vin[..k], disk);
      if SpendInputs(a, vin[..k]).Some? {
        SpendInputLive(SpendInputs(a, vin[..k]).value.0, SpendInputs(b, vin[..k]).value.0, vin[k].prevout, disk);
      }
    }
  }

  /** The two states have the same entry under `t`, or both none. */
  ghost predicate SameAt(a: CoinMap, b: CoinMap, t: TxId) {
    (t in a <==> t in b) && Find(a, t) == Find(b, t)
  }

  lemma {:induction false} UndoInputInverts(m: CoinMap, out: OutPoint, m1: CoinMap, u: TxInUndo,
                                            m2: CoinMap, x: TxInUndo, disk: bool)
    requires WellFormed(m) && SpendInput(m, out) == Some((m1, u)) && SameLive(m2, m1, disk) && UndoLike(x, u, disk)
    ensures var (m3, clean) := UndoInput(m2, out, x);
            clean && SameLive(m3, m, disk) && forall t :: t != out.hash ==> SameAt(m3, m2, t)
  {
    var c, found := m[out.hash], Find(m2, out.hash);
    assert SameRecord(found, Find(m1, out.hash), disk);
    SpendCanonical(c, out.n);
    CanonicalPruned(m1[out.hash]);
    SpendThenRestore(c, out.n, found, x, disk);
    var m3 := UndoInput(m2, out, x).0;
    hide RestoreOutput; hide RestoreClean; hide SpendOutput; hide RecordLike;
    forall t ensures SameRecord(Find(m3, t), Find(m, t), disk) {
      assert SameRecord(Find(m2, t), Find(m1, t), disk);
      assert t != out.hash ==> Find(m1, t) == Find(m, t);
    }
  }

  predicate Touches(vin: seq<TxIn>, t: TxId) {
    exists i :: 0 <= i < |vin| && vin[i].prevout.hash == t
  }

  lemma {:induction false} UndoInputsFrame(m: CoinMap, vin: seq<TxIn>, us: TxUndo, t: TxId)
    requires |vin| == |us| && !Touches(vin, t)
    ensures SameAt(UndoInputs(m, vin, us).0, m, t)
    decreases |vin|
  {
    if vin != [] {
      var k := |vin| - 1;
      UndoInputsFrame(UndoInput(m, vin[k].prevout, us[k]).0, vin[..k], us[..k], t);
    }
  }

  lemma {:induction false} UndoInputsInvert(m: CoinMap, vin: seq<TxIn>, m1: CoinMap, us: TxUndo,
                                            m2: CoinMap, xs: TxUndo, disk: bool)
    requires WellFormed(m) && SpendInputs(m, vin) == Some((m1, us)) && SameLive(m2, m1, disk) && UndosLike(xs, us, disk)
    ensures var (m3, clean) := UndoInputs(m2, vin, xs);
            clean && SameLive(m3, m, disk) && forall t :: !Touches(vin, t) ==> SameAt(m3, m2, t)
    decreases |vin|
  {
    hide SpendInput; hide WellFormed; hide SameLive; hide UndoInput; hide Find; hide UndoLike;
    if vin != [] {
      var k := |vin| - 1;
      var (mid, us') := SpendInputs(m, vin[..k]).value;
      SpendInputsFacts(m, vin[..k], mid, us');
      UndoInputInverts(mid, vin[k].prevout, m1, us[k], m2, xs[k], disk);
      assert us[..k] == us';
      var m' := UndoInput(m2, vin[k].prevout, xs[k]).0;
      UndoInputsInvert(m, vin[..k], mid, us', m', xs[..k], disk);
    }
    forall t | !Touches(vin, t) ensures SameAt(UndoInputs(m2, vin, xs).0, m2, t) { UndoInputsFrame(m2, vin, xs, t); }
  }

  // ----------------------------------------------------------- blocks, there and back

  lemma {:induction false} ApplyTxFacts(m: CoinMap, tx: Tx, height: nat, m2: CoinMap, us: TxUndo)
    requires WellFormed(m) && ApplyTx(m, tx, height) == Some((m2, us)) && TxOk(tx) && height >= 1
    ensures WellFormed(m2)
    ensures forall t :: Alive(m2, t) ==> Alive(m, t) || (t == tx.hash && tx.vout != [])
  {
    var m1 := if tx.IsCoinBase() then m else SpendInputs(m, tx.vin).value.0;
    if !tx.IsCoinBase() { SpendInputsFacts(m, tx.vin, m1, us); }
    assert CoinsOf(tx, height).Canonical();
    forall t ensures Find(m2, t).Canonical()
             ensures Alive(m2, t) ==> Alive(m, t) || (t == tx.hash && tx.vout != [])
    {
      if t != tx.hash { assert Find(m2, t) == Find(m1, t); }
    }
  }

  /** A transaction of the block that has outputs. */
  predicate Creates(vtx: seq<Tx>, t: TxId) {
    exists i :: 0 <= i < |vtx| && vtx[i].hash == t && vtx[i].vout != []
  }

  lemma {:induction false} CreatesMore(vtx: seq<Tx>, k: nat, t: TxId)
    requires k <= |vtx| && Creates(vtx[..k], t)
    ensures Creates(vtx, t)
  {
  }

  /** Only transactions of the block that have outputs come to life. */
  lemma {:induction false} ConnectTxsFacts(m: CoinMap, vtx: seq<Tx>, height: nat, m2: CoinMap, undos: seq<TxUndo>)
    requires WellFormed(m) && ConnectTxs(m, vtx, height) == Some((m2, undos)) && height >= 1
    requires forall i :: 0 <= i < |vtx| ==> TxOk(vtx[i])
    ensures WellFormed(m2)
    ensures forall t :: Alive(m2, t) ==> Alive(m, t) || Creates(vtx, t)
  {
    if vtx == [] {
    } else {
      var k := |vtx| - 1;
      var (m1, undos1) := ConnectTxs(m, vtx[..k], height).value;
      ConnectTxsFacts(m, vtx[..k], height, m1, undos1);
      ApplyTxFacts(m1, vtx[k], height, m2, ApplyTx(m1, vtx[k], height).value.1);
      hide ApplyTx; hide TxOk; hide WellFormed; hide Alive;
      forall t | Alive(m2, t) && !Alive(m, t) ensures Creates(vtx, t) {
        if Alive(m1, t) { CreatesMore(vtx, k, t); } else { assert vtx[k].hash == t; }
      }
    }
  }

  ghost predicate CoinbaseFirst(vtx: seq<Tx>) {
    forall i :: 0 <= i < |vtx| ==> (vtx[i].IsCoinBase() <==> i == 0)
  }

  lemma {:induction false} ConnectTxsShape(m: CoinMap, vtx: seq<Tx>, height: nat)
    requires ConnectTxs(m, vtx, height).Some?
    requires vtx != [] && CoinbaseFirst(vtx)
    ensures |ConnectTxs(m, vtx, height).value.1| + 1 == |vtx|
  {
    hide ApplyTx;
    if |vtx| > 1 { ConnectTxsShape(m, vtx[..|vtx| - 1], height); }
    else { assert vtx[..0] == []; }
  }

  lemma {:induction false} ApplyTxLive(a: CoinMap, b: CoinMap, tx: Tx, height: nat, disk: bool)
    requires SameLive(a, b, disk)
    ensures ApplyTx(a, tx, height).Some? <==> ApplyTx(b, tx, height).Some?
    ensures ApplyTx(a, tx, height).Some? ==>
              && SameLive(ApplyTx(a, tx, height).value.0, ApplyTx(b, tx, height).value.0, disk)
              && UndosLike(ApplyTx(a, tx, height).value.1, ApplyTx(b, tx, height).value.1, disk)
              && (!disk ==> ApplyTx(a, tx, height).value.1 == ApplyTx(b, tx, height).value.1)
  {
    hide SpendInputs; hide SameLive; hide UndosLike;
    UndosReflexive([], disk);
    SpendInputsLive(a, b, tx.vin, disk);
    if ApplyTx(a, tx, height).Some? {
      var a1, b1 := if tx.IsCoinBase() then a else SpendInputs(a, tx.vin).value.0,
                    if tx.IsCoinBase() then b else SpendInputs(b, tx.vin).value.0;
      SetSameLive(a1, b1, tx.hash, CoinsOf(tx, height), disk);
    }
  }

  lemma {:induction false} SetSameLive(a: CoinMap, b: CoinMap, t: TxId, c: CoinRecord, disk: bool)
    requires SameLive(a, b, disk)
    ensures SameLive(a[t := c], b[t := c], disk)
  {
    var a2, b2 := a[t := c], b[t := c];
    forall x ensures SameRecord(Find(a2, x), Find(b2, x), disk) {
      assert SameRecord(Find(a, x), Find(b, x), disk);
    }
  }

  lemma {:induction false} UndosReflexive(us: TxUndo, disk: bool)
    ensures UndosLike(us, us, disk)
  {
  }

  ghost predicate BlockUndosLike(xs: seq<TxUndo>, us: seq<TxUndo>, disk: bool) {
    |xs| == |us| && forall i :: 0 <= i < |us| ==> UndosLike(xs[i], us[i], disk)
  }

  /** The undo data of a block as it is read back. */
  function StoredUndos(us: seq<TxUndo>): (r: seq<TxUndo>) {
    seq(|us|, i requires 0 <= i < |us| => seq(|us[i]|, j requires 0 <= j < |us[i]| => StoredUndo(us[i][j])))
  }

  lemma {:induction false} StoredUndosLike(xs: seq<TxUndo>, us: seq<TxUndo>)
    requires BlockUndosLike(xs, us, true)
    ensures BlockUndosLike(StoredUndos(xs), us, true)
  {
  }

  lemma {:induction false} ConnectTxsLive(a: CoinMap, b: CoinMap, vtx: seq<Tx>, height: nat, disk: bool)
    requires SameLive(a, b, disk)
    ensures ConnectTxs(a, vtx, height).Some? <==> ConnectTxs(b, vtx, height).Some?
    ensures ConnectTxs(a, vtx, height).Some? ==>
              && SameLive(ConnectTxs(a, vtx, height).value.0, ConnectTxs(b, vtx, height).value.0, disk)
              && BlockUndosLike(ConnectTxs(a, vtx, height).value.1, ConnectTxs(b, vtx, height).value.1, disk)
              && (!disk ==> ConnectTxs(a, vtx, height).value.1 == ConnectTxs(b, vtx, height).value.1)
  {
    hide ApplyTx; hide SameLive; hide UndosLike;
    if vtx == [] {
    } else {
      var k := |vtx| - 1;
      ConnectTxsLive(a, b, vtx[..k], height, disk);
      if ConnectTxs(a, vtx[..k], height).Some? {
        ApplyTxLive(ConnectTxs(a, vtx[..k], height).value.0, ConnectTxs(b, vtx[..k], height).value.0, vtx[k], height,
          disk);
      }
    }
  }

  /** Whether a block connects, what it leaves unspent and its undo records depend on the unspent
      outputs only; the disk may have changed negative versions and changes nothing else. */
  lemma {:induction false} ConnectLive(a: CoinMap, b: CoinMap, vtx: seq<Tx>, height: nat, disk: bool)
    requires SameLive(a, b, disk)
    ensures Connect(a, vtx, height).Some? <==> Connect(b, vtx, height).Some?
    ensures Connect(a, vtx, height).Some? ==>
              && SameLive(Connect(a, vtx, height).value.0, Connect(b, vtx, height).value.0, disk)
              && BlockUndosLike(Connect(a, vtx, height).value.1, Connect(b, vtx, height).value.1, disk)
              && (!disk ==> Connect(a, vtx, height).value.1 == Connect(b, vtx, height).value.1)
  {
    ConnectTxsLive(a, b, vtx, height, disk);
    assert NoOverwrite(a, vtx) <==> NoOverwrite(b, vtx) by {
      forall i | 0 <= i < |vtx|
        ensures Find(a, vtx[i].hash).IsPruned() <==> Find(b, vtx[i].hash).IsPruned()
      {
        assert SameRecord(Find(a, vtx[i].hash), Find(b, vtx[i].hash), disk);
      }
    }
    hide ConnectTxs; hide SameLive; hide NoOverwrite; hide BlockOk;
  }

  /** Removing the outputs of the last transaction of a block.  The comparison passes also when a
      negative version has been on disk, because then versions are not compared. */
  lemma {:induction false} RemoveLastOutputs(tx: Tx, height: nat, spent: CoinMap, m2: CoinMap, disk: bool)
    requires TxOk(tx)
    requires !Alive(spent, tx.hash) && SameLive(m2, spent[tx.hash := CoinsOf(tx, height)], disk)
    ensures tx.vout != [] ==> OutputsMatch(m2, tx, height)
    ensures SameLive(m2[tx.hash := NO_COINS], spent, disk)
  {
    var after := spent[tx.hash := CoinsOf(tx, height)];
    assert SameRecord(Find(m2, tx.hash), Find(after, tx.hash), disk);
    if tx.vout != [] {
      assert !CoinsOf(tx, height).IsPruned() by { assert !tx.vout[0].IsNull(); }
    }
    var removed := m2[tx.hash := NO_COINS];
    forall t ensures SameRecord(Find(removed, t), Find(spent, t), disk) {
      assert SameRecord(Find(m2, t), Find(after, t), disk);
    }
  }

  /** Undoing the last transaction of a block: remove its outputs, restore its inputs. */
  lemma {:induction false} UndoLastTx(m1: CoinMap, tx: Tx, height: nat, after: CoinMap, us: TxUndo,
                                      m2: CoinMap, xs: TxUndo, disk: bool)
    requires WellFormed(m1) && TxOk(tx)
    requires ApplyTx(m1, tx, height) == Some((after, us)) && !Alive(m1, tx.hash)
    requires SameLive(m2, after, disk) && UndosLike(xs, us, disk)
    ensures tx.vout != [] ==> OutputsMatch(m2, tx, height)
    ensures tx.IsCoinBase() ==> SameLive(m2[tx.hash := NO_COINS], m1, disk)
    ensures !tx.IsCoinBase() ==>
              && |xs| == |tx.vin|
              && var (m3, clean) := UndoInputs(m2[tx.hash := NO_COINS], tx.vin, xs);
                 && clean && SameLive(m3, m1, disk)
                 && forall t :: t != tx.hash && !Alive(m1, t) ==> SameAt(m3, m2, t)
  {
    var spent := if tx.IsCoinBase() then m1 else SpendInputs(m1, tx.vin).value.0;
    if !tx.IsCoinBase() { SpendInputsFacts(m1, tx.vin, spent, us); }
    RemoveLastOutputs(tx, height, spent, m2, disk);
    hide TxOk; hide OutputsMatch; hide Alive;
    if !tx.IsCoinBase() {
      var removed := m2[tx.hash := NO_COINS];
      UndoInputsInvert(m1, tx.vin, spent, us, removed, xs, disk);
      forall t | t != tx.hash && !Alive(m1, t) ensures !Touches(tx.vin, t) && SameAt(removed, m2, t) {}
      hide SpendInputs; hide UndoInputs; hide SameLive; hide WellFormed; hide Touches;
    }
  }

  /** The condition under which a state can be rolled back over a block without warnings: the
      record of every transaction without outputs is still there. */
  ghost predicate EmptyTxsCached(m2: CoinMap, vtx: seq<Tx>, height: nat) {
    forall i :: 0 <= i < |vtx| && vtx[i].vout == [] ==> OutputsMatch(m2, vtx[i], height)
  }

  lemma {:induction false} CachedSplit(m2: CoinMap, m3: CoinMap, vtx: seq<Tx>, height: nat)
    requires vtx != []
    requires forall i :: 0 <= i < |vtx| - 1 && vtx[i].vout == [] ==> SameAt(m3, m2, vtx[i].hash)
    ensures EmptyTxsCached(m2, vtx, height) <==>
            EmptyTxsCached(m3, vtx[..|vtx| - 1], height) &&
            (vtx[|vtx| - 1].vout == [] ==> OutputsMatch(m2, vtx[|vtx| - 1], height))
  {
  }

  /** What Connect's checks say about a block and the state under it. */
  ghost predicate Connectable(m: CoinMap, vtx: seq<Tx>) {
    && vtx != [] && CoinbaseFirst(vtx) && DistinctIds(vtx) && NoOverwrite(m, vtx)
    && forall i :: 0 <= i < |vtx| ==> TxOk(vtx[i])
  }

  lemma {:induction false} NotCreated(vtx: seq<Tx>, k: nat, i: nat)
    requires DistinctIds(vtx) && k < |vtx| && i <= k && (i == k || vtx[i].vout == [])
    ensures !Creates(vtx[..k], vtx[i].hash)
  {
  }

  /** After a proper prefix of the block, the records of its last transaction and of the earlier
      transactions without outputs are not alive. */
  lemma {:induction false} NotAliveAfterPrefix(m: CoinMap, vtx: seq<Tx>, height: nat, m1: CoinMap, undos: seq<TxUndo>)
    requires WellFormed(m) && height >= 1 && Connectable(m, vtx)
    requires ConnectTxs(m, vtx[..|vtx| - 1], height) == Some((m1, undos))
    ensures WellFormed(m1) && !Alive(m1, vtx[|vtx| - 1].hash)
    ensures forall i :: 0 <= i < |vtx| && vtx[i].vout == [] ==> !Alive(m1, vtx[i].hash)
  {
    var k := |vtx| - 1;
    ConnectTxsFacts(m, vtx[..k], height, m1, undos);
    hide ConnectTxs; hide WellFormed; hide TxOk;
    forall i | 0 <= i < |vtx| && (i == k || vtx[i].vout == []) ensures !Alive(m1, vtx[i].hash) {
      assert !Alive(m, vtx[i].hash);
      NotCreated(vtx, k, i);
    }
  }

  lemma {:induction false} DisconnectTxsInverts(m: CoinMap, vtx: seq<Tx>, height: nat, after: CoinMap,
                                                undos: seq<TxUndo>, m2: CoinMap, xs: seq<TxUndo>, disk: bool)
    requires WellFormed(m) && height >= 1 && Connectable(m, vtx)
    requires ConnectTxs(m, vtx, height) == Some((after, undos))
    requires SameLive(m2, after, disk) && BlockUndosLike(xs, undos, disk)
    ensures |xs| + 1 == |vtx|
    ensures var r := DisconnectTxs(m2, vtx, xs, height);
            && r.Some? && SameLive(r.value.0, m, disk)
            && (r.value.1 <==> EmptyTxsCached(m2, vtx, height))
    decreases |vtx|
  {
    hide OutputsMatch; hide TxOk; hide NoOverwrite; hide Alive; hide UndosLike; hide ApplyTx; hide WellFormed;
    hide SameLive;
    hide ConnectTxs; hide DisconnectTxs; hide EmptyTxsCached; hide SameAt;
    var k := |vtx| - 1;
    var tx, pre := vtx[k], vtx[..k];
    ConnectTxsShape(m, vtx, height);
    var m1, undos1, us := ConnectTxsSplit(m, vtx, height, after, undos);
    NotAliveAfterPrefix(m, vtx, height, m1, undos1);
    UndosReflexive(us, disk);
    UndoLastTx(m1, tx, height, after, us, m2, if k == 0 then us else xs[k - 1], disk);
    DisconnectTxsSplit(m2, vtx, xs, height);
    if k == 0 {
      ConnectTxsNone(m, height);
      CachedSplit(m2, m2, vtx, height);
    } else {
      PrefixConnectable(m, vtx);
      var m3 := UndoInputs(m2[tx.hash := NO_COINS], tx.vin, xs[k - 1]).0;
      DisconnectTxsInverts(m, pre, height, m1, undos1, m3, xs[..k - 1], disk);
      CachedSplit(m2, m3, vtx, height);
    }
  }

  lemma {:induction false} ConnectTxsNone(m: CoinMap, height: nat)
    ensures ConnectTxs(m, [], height) == Some((m, [])) && forall c :: EmptyTxsCached(c, [], height)
  {
  }

  lemma {:induction false} ConnectTxsSplit(m: CoinMap, vtx: seq<Tx>, height: nat, after: CoinMap, undos: seq<TxUndo>)
    returns (m1: CoinMap, undos1: seq<TxUndo>, us: TxUndo)
    requires vtx != [] && ConnectTxs(m, vtx, height) == Some((after, undos))
    ensures var k := |vtx| - 1;
            && ConnectTxs(m, vtx[..k], height) == Some((m1, undos1)) && ApplyTx(m1, vtx[k], height) == Some((after, us))
            && undos == if vtx[k].IsCoinBase() then undos1 else undos1 + [us]
  {
    hide ApplyTx;
    var k := |vtx| - 1;
    m1, undos1 := ConnectTxs(m, vtx[..k], height).value.0, ConnectTxs(m, vtx[..k], height).value.1;
    us := ApplyTx(m1, vtx[k], height).value.1;
  }

  lemma {:induction false} DisconnectTxsSplit(m: CoinMap, vtx: seq<Tx>, xs: seq<TxUndo>, height: nat)
    requires |xs| + 1 == |vtx|
    ensures var k := |vtx| - 1;
            var tx, m0 := vtx[k], m[vtx[k].hash := NO_COINS];
            var r := DisconnectTxs(m, vtx, xs, height);
            && (k == 0 ==> r == Some((m0, OutputsMatch(m, tx, height))))
            && (k > 0 && |xs[k - 1]| == |tx.vin| ==>
                  var (m1, c1) := UndoInputs(m0, tx.vin, xs[k - 1]);
                  var rest := DisconnectTxs(m1, vtx[..k], xs[..k - 1], height);
                  rest.Some? ==> r == Some((rest.value.0, OutputsMatch(m, tx, height) && c1 && rest.value.1)))
  {
    hide OutputsMatch; hide UndoInputs;
  }

  lemma {:induction false} PrefixConnectable(m: CoinMap, vtx: seq<Tx>)
    requires Connectable(m, vtx) && |vtx| > 1
    ensures Connectable(m, vtx[..|vtx| - 1])
  {
  }

  /** The inverse law: for every block that connects, DisconnectBlock with the undo records of
      ConnectBlock restores the unspent outputs from before, from every state with the same unspent
      outputs, and it reports clean exactly when the records of the transactions without outputs are
      still there.  In memory this is exact; through disk it is exact but for negative versions. */
  lemma {:induction false} DisconnectInvertsConnect(m: CoinMap, vtx: seq<Tx>, height: nat, after: CoinMap,
                                                    undos: seq<TxUndo>, m2: CoinMap, xs: seq<TxUndo>, disk: bool)
    requires WellFormed(m) && height >= 1
    requires Connect(m, vtx, height) == Some((after, undos))
    requires SameLive(m2, after, disk) && BlockUndosLike(xs, undos, disk)
    ensures WellFormed(after)
    ensures var r := Disconnect(m2, vtx, xs, height);
            && r.Some? && SameLive(r.value.0, m, disk) && (!disk ==> Live(r.value.0) == Live(m))
            && (r.value.1 <==> EmptyTxsCached(m2, vtx, height))
  {
    ConnectTxsFacts(m, vtx, height, after, undos);
    DisconnectTxsInverts(m, vtx, height, after, undos, m2, xs, disk);
    SameLiveIff(Disconnect(m2, vtx, xs, height).value.0, m, false);
  }

  /** As long as nothing was erased since the block was connected, rolling it back is clean. */
  lemma {:induction false} CleanWhenUnflushed(m: CoinMap, vtx: seq<Tx>, height: nat, after: CoinMap, undos: seq<TxUndo>)
    requires WellFormed(m) && height >= 1 && Connect(m, vtx, height) == Some((after, undos))
    ensures EmptyTxsCached(after, vtx, height)
  {
    forall i | 0 <= i < |vtx| && vtx[i].vout == [] ensures OutputsMatch(after, vtx[i], height) {
      EmptyRecordStays(m, vtx, height, i);
    }
  }

  lemma {:induction false} ApplyTxFrame(m1: CoinMap, tx: Tx, height: nat, t: TxId)
    requires WellFormed(m1) && ApplyTx(m1, tx, height).Some? && t != tx.hash && !Alive(m1, t)
    ensures SameAt(ApplyTx(m1, tx, height).value.0, m1, t)
  {
    if !tx.IsCoinBase() {
      var (spent, us) := SpendInputs(m1, tx.vin).value;
      SpendInputsFacts(m1, tx.vin, spent, us);
      SpendInputsFrame(m1, tx.vin, t);
    }
  }

  lemma {:induction false} EmptyRecordStays(m: CoinMap, vtx: seq<Tx>, height: nat, i: nat)
    requires WellFormed(m) && height >= 1 && ConnectTxs(m, vtx, height).Some? && Connectable(m, vtx)
    requires i < |vtx| && vtx[i].vout == []
    ensures var m2 := ConnectTxs(m, vtx, height).value.0;
            vtx[i].hash in m2 && Find(m2, vtx[i].hash) == CoinsOf(vtx[i], height)
    decreases |vtx|
  {
    hide WellFormed; hide TxOk; hide NoOverwrite; hide Alive;
    var k := |vtx| - 1;
    if i < k {
      var (m1, undos1) := ConnectTxs(m, vtx[..k], height).value;
      PrefixConnectable(m, vtx);
      EmptyRecordStays(m, vtx[..k], height, i);
      NotAliveAfterPrefix(m, vtx, height, m1, undos1);
      ApplyTxFrame(m1, vtx[k], height, vtx[i].hash);
    }
  }

  /** Once completely spent records have been erased by the database, the roll-back is clean
      exactly for blocks in which every transaction has an output. */
  lemma {:induction false} CleanAfterFlushIff(m: CoinMap, vtx: seq<Tx>, height: nat, after: CoinMap, undos: seq<TxUndo>)
    requires WellFormed(m) && height >= 1 && Connect(m, vtx, height) == Some((after, undos))
    ensures Live(Live(after)) == Live(after)
    ensures EmptyTxsCached(Live(after), vtx, height) <==> forall i :: 0 <= i < |vtx| ==> vtx[i].vout != []
  {
  }

  /** So clean roll-backs are not guaranteed: a coinbase that carries data but no output connects on
      the empty state, and rolling it back after a flush reports a mismatch. */
  lemma {:induction false} DataOnlyBlockIsUnclean()
    ensures exists vtx, after, undos ::
              Connect(map[], vtx, 1) == Some((after, undos)) &&
                Disconnect(Live(after), vtx, undos, 1) == Some((map[8 := NO_COINS], false))
  {
    var tx := Tx(8, 1, [TxIn(OutPoint(0, NULL_INDEX), [1, 2], 0)], [], 0, [1]);
    var after := map[8 := CoinsOf(tx, 1)];
    assert TxOk(tx) && [tx][..0] == [] && ConnectTxs(map[], [], 1) == Some((map[], []));
    assert Connect(map[], [tx], 1) == Some((after, []));
    assert Live(after) == map[];
    assert Disconnect(map[], [tx], [], 1) == Some((map[8 := NO_COINS], false));
  }

  function NegativeTx(): Tx { Tx(8, -1, [TxIn(OutPoint(0, NULL_INDEX), [1, 2], 0)], [TxOut(5, [])], 0, []) }

  lemma {:induction false} NegativeConnects()
    ensures var tx := NegativeTx();
            Connect(map[], [tx], 1) == Some((map[8 := CoinsOf(tx, 1)], [])) && !CoinsOf(tx, 1).IsPruned()
  {
    var tx := NegativeTx();
    assert !tx.vout[0].IsNull();
    assert TxOk(tx) by {
      assert tx.vout[..0] == [] && tx.vout[..1] == tx.vout;
      assert ValueOut(tx.vout[..0]) == 0 && ValueOut(tx.vout[..1]) == 5;
    }
    assert [tx][..0] == [] && ConnectTxs(map[], [], 1) == Some((map[], []));
  }

  /** And the disk is not exact: a coinbase with version -1 connects on the empty state, comes back from
      disk with version 127, and rolls back cleanly from there. */
  lemma {:induction false} NegativeVersionChanges()
    ensures var tx := NegativeTx();
            var after, stored := map[8 := CoinsOf(tx, 1)], map[8 := StoredRecord(CoinsOf(tx, 1))];
            && Connect(map[], [tx], 1) == Some((after, []))
            && stored[8].nVersion == 127 && SameLive(stored, after, true) && Live(stored) != Live(after)
            && Disconnect(stored, [tx], StoredUndos([]), 1) == Some((map[8 := NO_COINS], true))
  {
    hide Connect;
    NegativeConnects();
    var tx := NegativeTx();
    var after, stored := map[8 := CoinsOf(tx, 1)], map[8 := StoredRecord(CoinsOf(tx, 1))];
    LiveIff(stored, 8);
    LiveIff(after, 8);
    hide Live;
    assert stored[8 := NO_COINS] == map[8 := NO_COINS];
  }
}
