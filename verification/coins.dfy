/** The value types of the coin state: transactions, outputs, the per-transaction
    record `Coins` of unspent outputs, and the undo record of one spent output. */
module Coins {
  import opened Wrappers

  type TxId = nat
  type Script = seq<nat>

  const COIN: int := 100_000_000
  const MAX_MONEY: int := 2_000_000_000 * COIN

  const NULL_INDEX: nat := 0xFFFF_FFFF

  datatype OutPoint = OutPoint(hash: TxId, n: nat) {
    predicate IsNull() { hash == 0 && n == NULL_INDEX }
  }

  datatype TxOut = TxOut(nValue: int, scriptPubKey: Script) {
    predicate IsNull() { nValue == -1 }
  }

  const NULL_OUT := TxOut(-1, [])

  datatype TxIn = TxIn(prevout: OutPoint, scriptSig: Script, nSequence: nat)

  /** A transaction.  `hash` is the value of GetHash(), which is not computed here. */
  datatype Tx = Tx(hash: TxId, nVersion: int, vin: seq<TxIn>, vout: seq<TxOut>,
                   nLockTime: nat, data: seq<nat>) {
    predicate IsCoinBase() { |vin| == 1 && vin[0].prevout.IsNull() }
  }

  /** Undo information for one input: the output that was spent and, when it was the last
      unspent output of its transaction, that transaction's metadata (else height 0). */
  datatype TxInUndo = TxInUndo(txout: TxOut, fCoinBase: bool, nHeight: nat, nVersion: int)

  datatype CoinRecord = CoinRecord(fCoinBase: bool, vout: seq<TxOut>, nHeight: nat, nVersion: int) {

    predicate IsAvailable(n: nat) { n < |vout| && !vout[n].IsNull() }

    predicate IsPruned() { forall i :: 0 <= i < |vout| ==> vout[i].IsNull() }

    /** The form every record in the coin state has: no trailing spent output, spent outputs
        blanked completely, and a positive height as soon as something is unspent. */
    predicate Canonical() {
      && (vout != [] ==> !vout[|vout| - 1].IsNull() && nHeight >= 1)
      && forall i :: 0 <= i < |vout| && vout[i].IsNull() ==> vout[i] == NULL_OUT
    }
  }

  const NO_COINS := CoinRecord(false, [], 0, 0)

  /** The number that is read back after `v` has been written to disk as a VARINT: a negative number
      passes the test for one byte at once, so only its seven lowest bits are kept. */
  function StoredInt(v: int): nat { if v >= 0 then v else v % 128 }

  function StoredRecord(c: CoinRecord): CoinRecord { c.(nVersion := StoredInt(c.nVersion)) }

  /** Undo records carry a version only together with a height. */
  function StoredUndo(u: TxInUndo): TxInUndo { u.(nVersion := if u.nHeight > 0 then StoredInt(u.nVersion) else 0) }

  /** `x` is `v` or, with `disk`, what the disk has made of `v`. */
  predicate VersionLike(x: int, v: int, disk: bool) { x == v || (disk && x == StoredInt(v)) }

  /** `x` is `c` but perhaps for the version. */
  predicate RecordLike(x: CoinRecord, c: CoinRecord, disk: bool) {
    x == c.(nVersion := x.nVersion) && VersionLike(x.nVersion, c.nVersion, disk)
  }

  predicate UndoLike(x: TxInUndo, u: TxInUndo, disk: bool) {
    x == u.(nVersion := x.nVersion) && (u.nHeight > 0 ==> VersionLike(x.nVersion, u.nVersion, disk))
  }

  function CoinsOf(tx: Tx, height: nat): CoinRecord {
    CoinRecord(tx.IsCoinBase(), tx.vout, height, tx.nVersion)
  }

  function Trim(vout: seq<TxOut>): (r: seq<TxOut>)
    ensures r <= vout
    ensures r != [] ==> !r[|r| - 1].IsNull()
    ensures forall i :: |r| <= i < |vout| ==> vout[i].IsNull()
  {
    if vout != [] && vout[|vout| - 1].IsNull() then Trim(vout[..|vout| - 1]) else vout
  }

  /** A sequence has only one prefix that ends unspent and leaves out spent outputs only. */
  lemma {:induction false} TrimUnique(vout: seq<TxOut>, r: seq<TxOut>)
    requires r <= vout
    requires r != [] ==> !r[|r| - 1].IsNull()
    requires forall i :: |r| <= i < |vout| ==> vout[i].IsNull()
    ensures Trim(vout) == r
  {
  }

  /** CCoins::Cleanup: drop the spent outputs at the end of vout. */
  method Cleanup(coins: CoinRecord) returns (r: CoinRecord)
    ensures r == coins.(vout := Trim(coins.vout))
  {
    var vout := coins.vout;
    while |vout| > 0 && vout[|vout| - 1].IsNull()
      invariant vout <= coins.vout
      invariant forall i :: |vout| <= i < |coins.vout| ==> coins.vout[i].IsNull()
    {
      vout := vout[..|vout| - 1];
    }
    TrimUnique(coins.vout, vout);
    r := coins.(vout := vout);
  }

  /** What spending output `n` leaves behind and what it takes to put it back. */
  function SpendOutput(coins: CoinRecord, n: nat): (r: Option<(CoinRecord, TxInUndo)>)
    ensures r.Some? <==> coins.IsAvailable(n)
  {
    if !coins.IsAvailable(n) then None
    else
      var rest := coins.(vout := Trim(coins.vout[n := NULL_OUT]));
      var undo := if rest.vout == []
                  then TxInUndo(coins.vout[n], coins.fCoinBase, coins.nHeight, coins.nVersion)
                  else TxInUndo(coins.vout[n], false, 0, 0);
      Some((rest, undo))
  }

  /** CCoins::Spend. */
  method Spend(coins: CoinRecord, n: nat) returns (ok: bool, rest: CoinRecord, undo: TxInUndo)
    ensures ok <==> coins.IsAvailable(n)
    ensures ok ==> SpendOutput(coins, n) == Some((rest, undo))
    ensures !ok ==> rest == coins
  {
    rest := coins;
    undo := TxInUndo(NULL_OUT, false, 0, 0);
    if n >= |coins.vout| { return false, rest, undo; }
    if coins.vout[n].IsNull() { return false, rest, undo; }
    undo := TxInUndo(coins.vout[n], false, 0, 0);
    rest := Cleanup(coins.(vout := coins.vout[n := NULL_OUT]));
    if |rest.vout| == 0 {
      undo := undo.(nHeight := coins.nHeight, fCoinBase := coins.fCoinBase, nVersion := coins.nVersion);
    }
    ok := true;
  }

  /** `vout` lengthened to at least `len` with blank outputs (vector::resize). */
  function Widen(vout: seq<TxOut>, len: nat): (r: seq<TxOut>)
    ensures |r| == if |vout| < len then len else |vout|
    ensures forall i :: 0 <= i < |vout| ==> r[i] == vout[i]
    ensures forall i :: |vout| <= i < |r| ==> r[i] == NULL_OUT
  {
    if |vout| < len then vout + seq(len - |vout|, _ => NULL_OUT) else vout
  }

  /** The record that DisconnectBlock writes back for one input, from what it finds. */
  function RestoreOutput(found: CoinRecord, n: nat, undo: TxInUndo): CoinRecord {
    var c := if undo.nHeight != 0
             then CoinRecord(undo.fCoinBase, [], undo.nHeight, undo.nVersion) else found;
    c.(vout := Widen(c.vout, n + 1)[n := undo.txout])
  }

  /** Whether none of the three warnings about inconsistent undo data fires. */
  predicate RestoreClean(found: CoinRecord, n: nat, undo: TxInUndo) {
    if undo.nHeight != 0 then found.IsPruned() else !found.IsPruned() && !found.IsAvailable(n)
  }

  lemma {:induction false} CanonicalPruned(c: CoinRecord)
    requires c.Canonical()
    ensures c.IsPruned() <==> c.vout == []
  {
  }

  /** Spending keeps records canonical. */
  lemma {:induction false} SpendCanonical(coins: CoinRecord, n: nat)
    requires coins.Canonical() && coins.IsAvailable(n)
    ensures SpendOutput(coins, n).value.0.Canonical()
  {
  }

  /** The outputs of a spent record, widened again, are the outputs before. */
  lemma {:induction false} WidenBack(coins: CoinRecord, n: nat)
    requires coins.Canonical() && coins.IsAvailable(n)
    ensures var rest := Trim(coins.vout[n := NULL_OUT]);
            && Widen(rest, n + 1)[n := coins.vout[n]] == coins.vout
            && (n < |rest| ==> rest[n].IsNull()) && (rest != [] ==> !rest[|rest| - 1].IsNull())
  {
  }

  /** Undoing a spend gives the record back exactly, whatever blank record (or none) is found once the
      transaction was completely spent; and if record or undo record have been on disk, all but a
      negative version. */
  lemma {:induction false} SpendThenRestore(coins: CoinRecord, n: nat, found: CoinRecord, undo: TxInUndo, disk: bool)
    requires coins.Canonical() && coins.IsAvailable(n) && UndoLike(undo, SpendOutput(coins, n).value.1, disk)
    requires var rest := SpendOutput(coins, n).value.0;
             RecordLike(found, rest, disk) || (rest.vout == [] && found.IsPruned())
    ensures RecordLike(RestoreOutput(found, n, undo), coins, disk) && RestoreClean(found, n, undo)
    ensures !disk ==> RestoreOutput(found, n, undo) == coins
  {
    hide Trim; hide Widen;
    WidenBack(coins, n);
  }
}
