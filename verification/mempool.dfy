/** The memory pool: transactions by id and the index of the outputs they spend. */
module MemPools {
  import opened Coins
  import opened Utxo

  type TxMap = map<TxId, Tx>

  /** A reference to input `n` of pool transaction `ptx`. */
  datatype InPoint = InPoint(ptx: TxId, n: nat)

  type SpendIndex = map<OutPoint, InPoint>

  /** Every input of a pool transaction is indexed, under that transaction, and nothing else is.  In
      particular an outpoint has one spender at most. */
  ghost predicate IndexExact(mapTx: TxMap, mapNextTx: SpendIndex) {
    && (forall h :: h in mapTx ==> mapTx[h].hash == h)
    && (forall h, i :: h in mapTx && 0 <= i < |mapTx[h].vin| ==>
          mapTx[h].vin[i].prevout in mapNextTx && mapNextTx[mapTx[h].vin[i].prevout] == InPoint(h, i))
    && (forall o :: o in mapNextTx ==>
          var p := mapNextTx[o]; p.ptx in mapTx && p.n < |mapTx[p.ptx].vin| && mapTx[p.ptx].vin[p.n].prevout == o)
  }

  /** The code's equality of transactions, which does not look at the data field. */
  predicate SameTx(a: Tx, b: Tx) {
    a.nVersion == b.nVersion && a.vin == b.vin && a.vout == b.vout && a.nLockTime == b.nLockTime
  }

  // ------------------------------------------------------------ descendants

  /** `child` spends an output that `parent` has. */
  predicate SpendsFrom(child: Tx, parent: Tx) {
    exists i :: 0 <= i < |child.vin| && child.vin[i].prevout.hash == parent.hash &&
      child.vin[i].prevout.n < |parent.vout|
  }

  /** Dependencies go up in rank. */
  ghost predicate Acyclic(pool: TxMap, rank: TxId -> nat) {
    forall h, i :: h in pool && 0 <= i < |pool[h].vin| ==> rank(pool[h].vin[i].prevout.hash) < rank(h)
  }

  ghost predicate Consistent(pool: TxMap, root: Tx) {
    && (forall h :: h in pool ==> pool[h].hash == h)
    && (root.hash in pool ==> pool[root.hash] == root)
  }

  /** `h` is `root` or spends, through pool transactions, from it. */
  ghost predicate Depends(pool: TxMap, rank: TxId -> nat, root: Tx, h: TxId)
    requires Acyclic(pool, rank) && Consistent(pool, root)
    decreases rank(h)
  {
    h in pool &&
    (h == root.hash || SpendsFrom(pool[h], root) ||
     exists i :: 0 <= i < |pool[h].vin| &&
       var p := pool[h].vin[i].prevout;
       rank(p.hash) < rank(h) && p.hash in pool && p.n < |pool[p.hash].vout| && Depends(pool, rank, root, p.hash))
  }

  lemma {:induction false} DependsStep(pool: TxMap, rank: TxId -> nat, root: Tx, p: TxId, h: TxId)
    requires Acyclic(pool, rank) && Consistent(pool, root)
    requires h in pool && p in pool && SpendsFrom(pool[h], pool[p]) && Depends(pool, rank, root, p)
    ensures Depends(pool, rank, root, h)
  {
  }

  /** What depends on a dependant depends on the root. */
  lemma {:induction false} DependsTrans(pool: TxMap, rank: TxId -> nat, root: Tx, c: TxId, h: TxId)
    requires Acyclic(pool, rank) && Consistent(pool, root) && c in pool && Consistent(pool, pool[c])
    requires Depends(pool, rank, root, c) && Depends(pool, rank, pool[c], h)
    ensures Depends(pool, rank, root, h)
    decreases rank(h)
  {
    if h != c {
      if SpendsFrom(pool[h], pool[c]) {
        DependsStep(pool, rank, root, c, h);
      } else {
        var i :| 0 <= i < |pool[h].vin| &&
          var p := pool[h].vin[i].prevout;
          rank(p.hash) < rank(h) && p.hash in pool && p.n < |pool[p.hash].vout| && Depends(pool, rank, pool[c], p.hash);
        var p := pool[h].vin[i].prevout.hash;
        DependsTrans(pool, rank, root, c, p);
        assert SpendsFrom(pool[h], pool[p]);
        DependsStep(pool, rank, root, p, h);
      }
    }
  }

  /** Every dependant other than the root depends on a child of the root. */
  lemma {:induction false} DependsViaChild(pool: TxMap, rank: TxId -> nat, root: Tx, h: TxId) returns (c: TxId)
    requires Acyclic(pool, rank) && Consistent(pool, root) && Depends(pool, rank, root, h) && h != root.hash
    ensures c in pool && SpendsFrom(pool[c], root) && Consistent(pool, pool[c]) && Depends(pool, rank, pool[c], h)
    decreases rank(h)
  {
    if SpendsFrom(pool[h], root) {
      c := h;
    } else {
      var i :| 0 <= i < |pool[h].vin| &&
        var p := pool[h].vin[i].prevout;
        rank(p.hash) < rank(h) && p.hash in pool && p.n < |pool[p.hash].vout| && Depends(pool, rank, root, p.hash);
      var p := pool[h].vin[i].prevout.hash;
      assert SpendsFrom(pool[h], pool[p]);
      c := DependsViaChild(pool, rank, root, p);
      DependsStep(pool, rank, pool[c], p, h);
    }
  }

  /** `rest` is `pool` without a set of transactions that is closed under spending. */
  ghost predicate Closed(pool: TxMap, rest: TxMap) {
    && (forall h :: h in rest ==> h in pool && rest[h] == pool[h])
    && forall h, p :: h in rest && p in pool && SpendsFrom(pool[h], pool[p]) ==> p in rest
  }

  /** Leaving out a closed set does not change who depends on whom among the others. */
  lemma {:induction false} DependsInRest(pool: TxMap, rest: TxMap, rank: TxId -> nat, root: Tx, h: TxId)
    requires Acyclic(pool, rank) && Consistent(pool, root) && Closed(pool, rest) && h in rest
    ensures Acyclic(rest, rank) && Consistent(rest, root)
    ensures Depends(rest, rank, root, h) <==> Depends(pool, rank, root, h)
    decreases rank(h)
  {
    forall i | 0 <= i < |pool[h].vin| && pool[h].vin[i].prevout.hash in pool
               && pool[h].vin[i].prevout.n < |pool[pool[h].vin[i].prevout.hash].vout|
      ensures pool[h].vin[i].prevout.hash in rest
      ensures Depends(rest, rank, root, pool[h].vin[i].prevout.hash) <==>
                Depends(pool, rank, root, pool[h].vin[i].prevout.hash)
    {
      var p := pool[h].vin[i].prevout.hash;
      assert SpendsFrom(pool[h], pool[p]);
      DependsInRest(pool, rest, rank, root, p);
    }
  }

  /** `h` depends on one of the `seeds`. */
  ghost predicate Gone(pool: TxMap, rank: TxId -> nat, seeds: set<TxId>, h: TxId)
    requires Acyclic(pool, rank) && WellKeyed(pool)
  {
    exists c :: c in seeds && c in pool && Depends(pool, rank, pool[c], h)
  }

  ghost predicate WellKeyed(pool: TxMap) { forall h :: h in pool ==> pool[h].hash == h }

  /** `rest` is the pool without everything that depends on the seeds. */
  ghost predicate Left(pool: TxMap, rest: TxMap, rank: TxId -> nat, seeds: set<TxId>)
    requires Acyclic(pool, rank) && WellKeyed(pool)
    ensures Left(pool, rest, rank, seeds) ==> Within(rest, pool)
  {
    && Within(rest, pool)
    && forall h :: h in pool ==> (h in rest <==> !Gone(pool, rank, seeds, h))
  }

  ghost predicate Within(rest: TxMap, pool: TxMap) {
    forall h :: h in rest ==> h in pool && rest[h] == pool[h]
  }

  lemma {:induction false} LeftClosed(pool: TxMap, rest: TxMap, rank: TxId -> nat, seeds: set<TxId>)
    requires Acyclic(pool, rank) && WellKeyed(pool) && Left(pool, rest, rank, seeds)
    ensures Closed(pool, rest)
  {
  }

  /** Removing everything that depends on `c` from what is left adds `c` to the seeds. */
  lemma {:induction false} LeftAdd(pool: TxMap, rest: TxMap, after: TxMap, rank: TxId -> nat, seeds: set<TxId>, c: TxId)
    requires Acyclic(pool, rank) && WellKeyed(pool) && Left(pool, rest, rank, seeds) && c in rest
    requires forall h :: h in after ==> h in rest && after[h] == rest[h]
    requires Acyclic(rest, rank) && Consistent(rest, rest[c])
    requires forall h :: h in rest ==> (h in after <==> !Depends(rest, rank, rest[c], h))
    ensures Left(pool, after, rank, seeds + {c})
  {
    LeftClosed(pool, rest, rank, seeds);
    forall h | h in pool ensures h in after <==> !Gone(pool, rank, seeds + {c}, h) {
      GoneSplit(pool, rank, seeds, {c}, h);
      if h in rest { DependsInRest(pool, rest, rank, rest[c], h); }
    }
  }

  lemma {:induction false} GoneSplit(pool: TxMap, rank: TxId -> nat, a: set<TxId>, b: set<TxId>, h: TxId)
    requires Acyclic(pool, rank) && WellKeyed(pool)
    ensures Gone(pool, rank, a + b, h) <==> Gone(pool, rank, a, h) || Gone(pool, rank, b, h)
  {
  }

  /** Seeds that are already gone change nothing. */
  lemma {:induction false} LeftMore(pool: TxMap, rest: TxMap, rank: TxId -> nat, seeds: set<TxId>, more: set<TxId>)
    requires Acyclic(pool, rank) && WellKeyed(pool) && Left(pool, rest, rank, seeds)
    requires forall c :: c in more && c in pool ==> c !in rest
    ensures Left(pool, rest, rank, seeds + more)
  {
    forall h | h in pool ensures Gone(pool, rank, seeds + more, h) <==> Gone(pool, rank, seeds, h) {
      GoneSplit(pool, rank, seeds, more, h);
      if Gone(pool, rank, more, h) {
        var c :| c in more && c in pool && Depends(pool, rank, pool[c], h);
        var d :| d in seeds && d in pool && Depends(pool, rank, pool[d], c);
        DependsTrans(pool, rank, pool[d], c, h);
      }
    }
  }

  /** The pool transactions that spend an outpoint. */
  ghost function Spenders(pool: TxMap, o: OutPoint): set<TxId> {
    set c | c in pool && exists k :: 0 <= k < |pool[c].vin| && pool[c].vin[k].prevout == o
  }

  /** In an indexed pool only the indexed transaction spends an outpoint. */
  lemma {:induction false} OneSpender(pool: TxMap, rest: TxMap, mapNextTx: SpendIndex, o: OutPoint, c: TxId)
    requires IndexExact(rest, mapNextTx) && Within(rest, pool)
    requires c in Spenders(pool, o) && c in rest
    ensures o in mapNextTx && mapNextTx[o].ptx == c
  {
  }

  lemma {:induction false} IndexedSpender(pool: TxMap, rest: TxMap, mapNextTx: SpendIndex, rank: TxId -> nat,
                                          o: OutPoint)
    requires IndexExact(rest, mapNextTx) && Within(rest, pool) && Acyclic(pool, rank) && o in mapNextTx
    ensures var c := mapNextTx[o].ptx; c in rest && c in pool && c in Spenders(pool, o) && rank(o.hash) < rank(c)
  {
  }

  /** After the indexed spender is gone, no spender is left. */
  lemma {:induction false} NoSpenderLeft(pool: TxMap, rest: TxMap, after: TxMap, mapNextTx: SpendIndex, o: OutPoint)
    requires IndexExact(rest, mapNextTx) && Within(rest, pool) && forall h :: h in after ==> h in rest
    requires o in mapNextTx ==> mapNextTx[o].ptx !in after
    ensures forall c :: c in Spenders(pool, o) ==> c !in after
  {
  }

  /** The spenders of the first `i` outputs of `root`. */
  ghost function ChildrenBelow(pool: TxMap, root: Tx, i: nat): set<TxId> {
    if i == 0 then {} else ChildrenBelow(pool, root, i - 1) + Spenders(pool, OutPoint(root.hash, i - 1))
  }

  lemma {:induction false} ChildrenBelowIff(pool: TxMap, root: Tx, i: nat, c: TxId)
    ensures c in ChildrenBelow(pool, root, i) <==>
            c in pool && exists k :: && 0 <= k < |pool[c].vin|
                                     && pool[c].vin[k].prevout.hash == root.hash && pool[c].vin[k].prevout.n < i
  {
    if i > 0 {
      ChildrenBelowIff(pool, root, i - 1, c);
      if c in pool {
        forall k | 0 <= k < |pool[c].vin| && pool[c].vin[k].prevout.hash == root.hash &&
          pool[c].vin[k].prevout.n == i - 1
          ensures pool[c].vin[k].prevout == OutPoint(root.hash, i - 1) {}
      }
    }
  }

  /** When all outputs have been looked at, exactly the root's dependants are affected. */
  lemma {:induction false} GoneAll(pool: TxMap, rank: TxId -> nat, root: Tx, h: TxId)
    requires Acyclic(pool, rank) && Consistent(pool, root) && h in pool
    ensures Depends(pool, rank, root, h) <==>
              h == root.hash || Gone(pool, rank, ChildrenBelow(pool, root, |root.vout|), h)
  {
    var children := ChildrenBelow(pool, root, |root.vout|);
    if Depends(pool, rank, root, h) && h != root.hash {
      var c := DependsViaChild(pool, rank, root, h);
      ChildrenBelowIff(pool, root, |root.vout|, c);
      assert c in children;
    }
    if Gone(pool, rank, children, h) {
      var c :| c in children && c in pool && Depends(pool, rank, pool[c], h);
      ChildrenBelowIff(pool, root, |root.vout|, c);
      assert SpendsFrom(pool[c], root);
      assert Depends(pool, rank, root, c);
      DependsTrans(pool, rank, root, c, h);
    }
  }

  /** The pool transactions that spend one of the first `j` inputs of `tx` and differ from it under
      the code's equality. */
  ghost function ConflictsBelow(pool: TxMap, tx: Tx, j: nat): set<TxId>
    requires j <= |tx.vin|
  {
    if j == 0 then {} else ConflictsBelow(pool, tx, j - 1) + Conflicts(pool, tx, tx.vin[j - 1].prevout)
  }

  ghost function Conflicts(pool: TxMap, tx: Tx, o: OutPoint): set<TxId> {
    set c | c in Spenders(pool, o) && c in pool && !SameTx(pool[c], tx)
  }

  lemma {:induction false} ConflictsBelowIff(pool: TxMap, tx: Tx, j: nat, c: TxId)
    requires j <= |tx.vin|
    ensures c in ConflictsBelow(pool, tx, j) <==>
            c in pool && !SameTx(pool[c], tx) && exists k :: 0 <= k < j && c in Spenders(pool, tx.vin[k].prevout)
  {
    if j > 0 { ConflictsBelowIff(pool, tx, j - 1, c); }
  }

  /** `a` and `tx` spend an output both. */
  ghost predicate Clash(a: Tx, tx: Tx) {
    exists k, j :: 0 <= k < |a.vin| && 0 <= j < |tx.vin| && a.vin[k].prevout == tx.vin[j].prevout
  }

  lemma {:induction false} ClashIff(pool: TxMap, tx: Tx, c: TxId)
    requires c in pool
    ensures Clash(pool[c], tx) <==> exists j :: 0 <= j < |tx.vin| && c in Spenders(pool, tx.vin[j].prevout)
  {
    if Clash(pool[c], tx) {
      var k, j :| 0 <= k < |pool[c].vin| && 0 <= j < |tx.vin| && pool[c].vin[k].prevout == tx.vin[j].prevout;
      assert c in Spenders(pool, tx.vin[j].prevout);
    }
  }

  /** The pool transactions that spend an output `tx` spends and differ from it in version, inputs,
      outputs or lock time. */
  ghost function Rivals(pool: TxMap, tx: Tx): set<TxId> {
    set c | c in pool && Clash(pool[c], tx) &&
      !(pool[c].nVersion == tx.nVersion && pool[c].vin == tx.vin && pool[c].vout == tx.vout
        && pool[c].nLockTime == tx.nLockTime)
  }

  lemma {:induction false} ConflictsAreRivals(pool: TxMap, tx: Tx)
    ensures ConflictsBelow(pool, tx, |tx.vin|) == Rivals(pool, tx)
  {
    hide Clash; hide Spenders; hide ConflictsBelow;
    forall c ensures c in ConflictsBelow(pool, tx, |tx.vin|) <==> c in Rivals(pool, tx) {
      ConflictsBelowIff(pool, tx, |tx.vin|, c);
      if c in pool { ClashIff(pool, tx, c); }
    }
  }

  lemma {:induction false} NoConflictYet(pool: TxMap, mapNextTx: SpendIndex, rank: TxId -> nat, tx: Tx)
    requires IndexExact(pool, mapNextTx) && Acyclic(pool, rank)
    ensures WellKeyed(pool) && Left(pool, pool, rank, ConflictsBelow(pool, tx, 0))
  {
  }

  /** What is left of those that spend an output of `tx` agrees with it in everything but the data field;
      if ids are determined by what transactions contain, it is `tx` itself or has other data. */
  lemma {:induction false} Leftover(pool: TxMap, rest: TxMap, rank: TxId -> nat, tx: Tx, h: TxId)
    requires Acyclic(pool, rank) && WellKeyed(pool) && Left(pool, rest, rank, Rivals(pool, tx))
    requires h in rest && Clash(rest[h], tx)
    ensures rest[h].nVersion == tx.nVersion && rest[h].vin == tx.vin && rest[h].vout == tx.vout
    ensures rest[h].nLockTime == tx.nLockTime
    ensures rest[h] == tx.(hash := h, data := rest[h].data)
    ensures (rest[h] == tx.(hash := h) ==> h == tx.hash) && h != tx.hash ==> rest[h].data != tx.data
  {
    hide Depends; hide Clash;
    OwnDependant(pool, rank, h);
  }

  lemma {:induction false} OwnDependant(pool: TxMap, rank: TxId -> nat, h: TxId)
    requires Acyclic(pool, rank) && WellKeyed(pool) && h in pool
    ensures Depends(pool, rank, pool[h], h)
  {
  }

  predicate PointsInto(tx: Tx, p: InPoint, o: OutPoint, i: nat) {
    p.ptx == tx.hash && p.n < i && p.n < |tx.vin| && tx.vin[p.n].prevout == o
  }

  // ------------------------------------------------------------ the object

  class TxMemPool {
    var mapTx: TxMap
    var mapNextTx: SpendIndex
    var nTransactionsUpdated: nat

    ghost predicate Valid()
      reads this
    {
      IndexExact(mapTx, mapNextTx)
    }

    constructor ()
      ensures Valid() && mapTx == map[]
    {
      mapTx, mapNextTx, nTransactionsUpdated := map[], map[], 0;
    }

    /** CTxMemPool::addUnchecked. */
    method AddUnchecked(tx: Tx)
      requires Valid() && tx.hash !in mapTx && DistinctInputs(tx.vin)
      requires forall i :: 0 <= i < |tx.vin| ==> tx.vin[i].prevout !in mapNextTx
      modifies this
      ensures Valid() && mapTx == old(mapTx)[tx.hash := tx]
    {
      mapTx := mapTx[tx.hash := tx];
      for i := 0 to |tx.vin|
        invariant mapTx == old(mapTx)[tx.hash := tx]
        invariant forall o :: o in old(mapNextTx) ==> o in mapNextTx && mapNextTx[o] == old(mapNextTx)[o]
        invariant forall k :: 0 <= k < i ==>
                  tx.vin[k].prevout in mapNextTx && mapNextTx[tx.vin[k].prevout] == InPoint(tx.hash, k)
        invariant forall o :: o in mapNextTx && o !in old(mapNextTx) ==> PointsInto(tx, mapNextTx[o], o, i)
      {
        mapNextTx := mapNextTx[tx.vin[i].prevout := InPoint(tx.hash, i)];
      }
      nTransactionsUpdated := nTransactionsUpdated + 1;
    }

    /** The pool's part of CTxMemPool::accept: refuse known ids and conflicts, replacement being
        switched off.  `othersPass` stands for all checks outside the pool. */
    method Accept(tx: Tx, othersPass: bool) returns (ok: bool)
      requires Valid() && DistinctInputs(tx.vin)
      modifies this
      ensures Valid()
      ensures ok <==>
                othersPass && tx.hash !in old(mapTx) &&
                forall i :: 0 <= i < |tx.vin| ==> tx.vin[i].prevout !in old(mapNextTx)
      ensures mapTx == if ok then old(mapTx)[tx.hash := tx] else old(mapTx)
    {
      if tx.hash in mapTx { return false; }
      for i := 0 to |tx.vin|
        invariant forall k :: 0 <= k < i ==> tx.vin[k].prevout !in mapNextTx
      {
        if tx.vin[i].prevout in mapNextTx { return false; }
      }
      if !othersPass { return false; }
      AddUnchecked(tx);
      ok := true;
    }

    /** The part of CTxMemPool::remove that takes out the transaction itself. */
    method RemoveOne(tx: Tx)
      requires Valid() && (tx.hash in mapTx ==> mapTx[tx.hash] == tx)
      modifies this
      ensures Valid() && mapTx == old(mapTx) - {tx.hash}
    {
      if tx.hash in mapTx {
        for i := 0 to |tx.vin|
          invariant mapTx == old(mapTx)
          invariant forall o :: o in mapNextTx <==>
                    o in old(mapNextTx) && forall k :: 0 <= k < i ==> tx.vin[k].prevout != o
          invariant forall o :: o in mapNextTx ==> mapNextTx[o] == old(mapNextTx)[o]
        {
          mapNextTx := mapNextTx - {tx.vin[i].prevout};
        }
        mapTx := mapTx - {tx.hash};
        nTransactionsUpdated := nTransactionsUpdated + 1;
      }
    }

    /** CTxMemPool::remove.  With `fRecursive` exactly the transaction and its dependants in the pool
        go; it ends because dependencies are acyclic. */
    method Remove(tx: Tx, fRecursive: bool, ghost rank: TxId -> nat, ghost top: nat)
      requires Valid() && Acyclic(mapTx, rank) && Consistent(mapTx, tx) && forall h :: h in mapTx ==> rank(h) < top
      modifies this
      ensures Valid() && (forall h :: h in mapTx ==> h in old(mapTx) && mapTx[h] == old(mapTx)[h])
      ensures !fRecursive ==> mapTx == old(mapTx) - {tx.hash}
      ensures fRecursive ==> forall h :: h in old(mapTx) ==> (h in mapTx <==> !Depends(old(mapTx), rank, tx, h))
      decreases if rank(tx.hash) < top then top - rank(tx.hash) else 0, 1
    {
      ghost var pool := mapTx;
      if fRecursive {
        assert Left(pool, mapTx, rank, ChildrenBelow(pool, tx, 0));
        for i := 0 to |tx.vout|
          invariant Valid() && Left(pool, mapTx, rank, ChildrenBelow(pool, tx, i))
        {
          RemoveSpender(tx, i, pool, rank, top);
        }
      }
      RemoveOne(tx);
      forall h | h in pool && fRecursive ensures h in mapTx <==> !Depends(pool, rank, tx, h) {
        GoneAll(pool, rank, tx, h);
      }
    }

    /** One round of the recursive loop: remove the spender of one output, if there is one. */
    method RemoveSpender(tx: Tx, i: nat, ghost pool: TxMap, ghost rank: TxId -> nat, ghost top: nat)
      requires Valid() && Acyclic(pool, rank) && Consistent(pool, tx) && i < |tx.vout|
      requires Left(pool, mapTx, rank, ChildrenBelow(pool, tx, i)) && forall h :: h in pool ==> rank(h) < top
      modifies this
      ensures Valid() && Left(pool, mapTx, rank, ChildrenBelow(pool, tx, i + 1))
      decreases if rank(tx.hash) < top then top - rank(tx.hash) else 0, 0
    {
      hide Left; hide Acyclic; hide IndexExact; hide Within; hide Spenders;
      ghost var rest, index, seeds := mapTx, mapNextTx, ChildrenBelow(pool, tx, i);
      var o := OutPoint(tx.hash, i);
      if o in mapNextTx {
        var c := mapNextTx[o].ptx;
        IndexedSpender(pool, rest, index, rank, o);
        RemoveDependants(c, pool, rank, top, seeds);
        seeds := seeds + {c};
      }
      NoSpenderLeft(pool, rest, mapTx, index, o);
      LeftMore(pool, mapTx, rank, seeds, Spenders(pool, o));
      assert seeds + Spenders(pool, o) == ChildrenBelow(pool, tx, i + 1);
    }

    /** The recursive call, seen from the pool at the start. */
    method RemoveDependants(c: TxId, ghost pool: TxMap, ghost rank: TxId -> nat, ghost top: nat, ghost seeds: set<TxId>)
      requires Valid() && Acyclic(pool, rank) && WellKeyed(pool) && Left(pool, mapTx, rank, seeds)
      requires c in mapTx && forall h :: h in pool ==> rank(h) < top
      modifies this
      ensures Valid() && Left(pool, mapTx, rank, seeds + {c}) && c !in mapTx
      ensures forall h :: h in mapTx ==> h in old(mapTx)
      decreases if rank(c) < top then top - rank(c) else 0, 2
    {
      ghost var rest := mapTx;
      assert Acyclic(rest, rank) && Consistent(rest, rest[c]);
      Remove(mapTx[c], true, rank, top);
      LeftAdd(pool, rest, mapTx, rank, seeds, c);
      assert Depends(rest, rank, rest[c], c);
    }

    /** CTxMemPool::removeConflicts: exactly what depends on a rival goes, and whoever is left and spends
        an output `tx` spends agrees with it in all that the code compares. */
    method RemoveConflicts(tx: Tx, ghost rank: TxId -> nat, ghost top: nat)
      requires Valid() && Acyclic(mapTx, rank) && forall h :: h in mapTx ==> rank(h) < top
      modifies this
      ensures Valid() && Left(old(mapTx), mapTx, rank, Rivals(old(mapTx), tx))
      ensures forall h :: h in mapTx && Clash(mapTx[h], tx) ==>
                && mapTx[h].nVersion == tx.nVersion && mapTx[h].vin == tx.vin && mapTx[h].vout == tx.vout
                && mapTx[h].nLockTime == tx.nLockTime
    {
      hide Clash; hide Rivals; hide Depends; hide Left; hide Acyclic; hide IndexExact; hide ConflictsBelow; hide Within;
      ghost var pool := mapTx;
      NoConflictYet(pool, mapNextTx, rank, tx);
      for j := 0 to |tx.vin|
        invariant Valid() && Left(pool, mapTx, rank, ConflictsBelow(pool, tx, j))
      {
        RemoveConflict(tx, j, pool, rank, top);
      }
      ConflictsAreRivals(pool, tx);
      forall h | h in mapTx && Clash(mapTx[h], tx)
        ensures && mapTx[h].nVersion == tx.nVersion && mapTx[h].vin == tx.vin && mapTx[h].vout == tx.vout
                && mapTx[h].nLockTime == tx.nLockTime
      {
        Leftover(pool, mapTx, rank, tx, h);
      }
    }

    method RemoveConflict(tx: Tx, j: nat, ghost pool: TxMap, ghost rank: TxId -> nat, ghost top: nat)
      requires Valid() && Acyclic(pool, rank) && WellKeyed(pool) && j < |tx.vin|
      requires Left(pool, mapTx, rank, ConflictsBelow(pool, tx, j)) && forall h :: h in pool ==> rank(h) < top
      modifies this
      ensures Valid() && Left(pool, mapTx, rank, ConflictsBelow(pool, tx, j + 1))
    {
      hide Left; hide Acyclic; hide IndexExact; hide Spenders;
      ghost var rest, index, seeds := mapTx, mapNextTx, ConflictsBelow(pool, tx, j);
      var o := tx.vin[j].prevout;
      if o in mapNextTx {
        IndexedSpender(pool, rest, index, rank, o);
        var c := mapNextTx[o].ptx;
        var txConflict := mapTx[c];
        if txConflict.nVersion != tx.nVersion || txConflict.vin != tx.vin || txConflict.vout != tx.vout
           || txConflict.nLockTime != tx.nLockTime {
          RemoveDependants(c, pool, rank, top, seeds);
          seeds := seeds + {c};
          assert c in Conflicts(pool, tx, o);
        }
      }
      NoConflictLeft(pool, rest, mapTx, index, tx, o);
      LeftMore(pool, mapTx, rank, seeds, Conflicts(pool, tx, o));
      assert seeds + Conflicts(pool, tx, o) == ConflictsBelow(pool, tx, j + 1);
    }
  }

  lemma {:induction false} NoConflictLeft(pool: TxMap, rest: TxMap, after: TxMap, mapNextTx: SpendIndex, tx: Tx,
                                          o: OutPoint)
    requires IndexExact(rest, mapNextTx) && Within(rest, pool) && forall h :: h in after ==> h in rest
    requires o in mapNextTx && !SameTx(rest[mapNextTx[o].ptx], tx) ==> mapNextTx[o].ptx !in after
    ensures forall c :: c in Conflicts(pool, tx, o) ==> c !in after
  {
  }
}
