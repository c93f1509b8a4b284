/** The active chain: reorganisation, its links, and the choice of the best block. */
module Chain {
  import opened Wrappers
  import opened Coins
  import opened Utxo
  import opened Rollbacks
  import opened Money
  import opened BlockIndexes
  import opened CoinsViews
  import opened Connecting

  // ------------------------------------------------------------ replaying a branch

  /** The coins obtained by connecting all ancestors of `b`, and `b`, from genesis. */
  ghost function Replay(b: BlockIndex): Option<CoinMap>
    requires b.Linked()
    decreases b.nHeight
  {
    if b.pprev == null then Some(map[])
    else
      match Replay(b.pprev)
      case None => None
      case Some(m) =>
        match Connect(m, b.vtx, b.nHeight)
        case None => None
        case Some((m2, _)) => Some(m2)
  }

  /** The undo records that belong to a block of a replayable branch. */
  ghost function UndoOf(b: BlockIndex): seq<TxUndo>
    requires b.Linked() && b.pprev != null && Replay(b).Some?
  {
    Connect(Replay(b.pprev).value, b.vtx, b.nHeight).value.1
  }

  /** The unspent outputs of `m` are those of the branch ending in `b`, but for negative versions that
      have been on disk, and what `m` keeps of spent records has its height from there. */
  ghost predicate AtBlock(m: CoinMap, b: BlockIndex)
    requires b.Linked()
  {
    Replay(b).Some? && SameLive(m, Replay(b).value, true) && HeightsFrom(m, Replay(b).value)
  }

  lemma {:induction false} ReplayWellFormed(b: BlockIndex)
    requires b.Linked() && Replay(b).Some?
    ensures WellFormed(Replay(b).value)
    decreases b.nHeight
  {
    if b.pprev != null {
      ReplayWellFormed(b.pprev);
      var m := Replay(b.pprev).value;
      var (m2, undos) := Connect(m, b.vtx, b.nHeight).value;
      ConnectTxsFacts(m, b.vtx, b.nHeight, m2, undos);
    }
  }

  /** Connecting the next block of a branch, from any state with the branch's unspent outputs. */
  lemma {:induction false} ConnectAt(m: CoinMap, b: BlockIndex)
    requires b.Linked() && b.pprev != null && AtBlock(m, b.pprev)
    requires Connect(m, b.vtx, b.nHeight).Some?
    ensures AtBlock(Connect(m, b.vtx, b.nHeight).value.0, b)
    ensures BlockUndosLike(Connect(m, b.vtx, b.nHeight).value.1, UndoOf(b), true)
  {
    var r := Replay(b.pprev).value;
    ConnectLive(m, r, b.vtx, b.nHeight, true);
    var (m2, xs) := Connect(m, b.vtx, b.nHeight).value;
    var (r2, us) := Connect(r, b.vtx, b.nHeight).value;
    ConnectHeightsFrom(m, r, b.vtx, b.nHeight, m2, r2, xs, us);
    hide Connect; hide SameLive; hide HeightsFrom;
  }

  /** Disconnecting the last block of a branch with the undo records that belong to it. */
  lemma {:induction false} DisconnectAt(m: CoinMap, b: BlockIndex, xs: seq<TxUndo>)
    requires b.Linked() && b.pprev != null && AtBlock(m, b) && BlockUndosLike(xs, UndoOf(b), true)
    ensures var r := Disconnect(m, b.vtx, xs, b.nHeight);
            && r.Some? && AtBlock(r.value.0, b.pprev)
            && (r.value.1 <==> EmptyTxsCached(m, b.vtx, b.nHeight))
  {
    hide SameLive; hide HeightsFrom; hide WellFormed; hide ConnectTxs; hide DisconnectTxs; hide EmptyTxsCached;
    hide BlockUndosLike;
    ReplayWellFormed(b.pprev);
    var m0 := Replay(b.pprev).value;
    var (after, undos) := Connect(m0, b.vtx, b.nHeight).value;
    assert Connectable(m0, b.vtx);
    DisconnectTxsInverts(m0, b.vtx, b.nHeight, after, undos, m, xs, true);
    var (m2, clean) := Disconnect(m, b.vtx, xs, b.nHeight).value;
    RolledBackHeights(m0, b.vtx, b.nHeight, after, undos, m, xs, m2, clean);
  }

  /** A transaction without outputs never comes to life: if the record under its id is still the one of
      its block, nothing in it is unspent. */
  lemma {:induction false} ReplayDead(x: BlockIndex, c: BlockIndex, i: nat)
    requires x.Linked() && x.HasAncestor(c) && c.nHeight >= 1 && Replay(x).Some?
    requires i < |c.vtx| && c.vtx[i].vout == []
    ensures var r, t := Replay(x).value, c.vtx[i].hash;
            t in r && r[t].nHeight == c.nHeight ==> !Alive(r, t)
    decreases x.nHeight
  {
    hide WellFormed; hide ConnectTxs; hide TxOk; hide Alive; hide NoOverwrite; hide HashIn;
    var r0, t := Replay(x.pprev).value, c.vtx[i].hash;
    var (r, undos) := Connect(r0, x.vtx, x.nHeight).value;
    ReplayWellFormed(x.pprev);
    assert Connectable(r0, x.vtx);
    if x == c {
      EmptyRecordStays(r0, x.vtx, x.nHeight, i);
      DeadIfEmpty(r, t);
    } else {
      ReplayDead(x.pprev, c, i);
      ConnectTxsHeights(r0, x.vtx, x.nHeight, r, undos);
      ConnectTxsFacts(r0, x.vtx, x.nHeight, r, undos);
      CreatesHash(x.vtx, t);
    }
  }

  lemma {:induction false} DeadIfEmpty(m: CoinMap, t: TxId)
    requires Find(m, t).vout == []
    ensures !Alive(m, t)
  {
  }

  lemma {:induction false} CreatesHash(vtx: seq<Tx>, t: TxId)
    ensures Creates(vtx, t) ==> HashIn(vtx, t)
  {
  }

  /** Whether an earlier block can be rolled back cleanly does not change when a later one is rolled
      back. */
  lemma {:induction false} CachedKept(m: CoinMap, b: BlockIndex, xs: seq<TxUndo>, c: BlockIndex)
    requires b.Linked() && b.pprev != null && AtBlock(m, b) && BlockUndosLike(xs, UndoOf(b), true)
    requires b.pprev.HasAncestor(c) && c.nHeight >= 1
    ensures var r := Disconnect(m, b.vtx, xs, b.nHeight);
            r.Some? && (EmptyTxsCached(r.value.0, c.vtx, c.nHeight) <==> EmptyTxsCached(m, c.vtx, c.nHeight))
  {
    hide SameLive; hide HeightsFrom; hide WellFormed; hide DisconnectTxs; hide BlockUndosLike; hide Connect;
    DisconnectAt(m, b, xs);
    ReplayWellFormed(b.pprev);
    var m0 := Replay(b.pprev).value;
    var (after, undos) := Connect(m0, b.vtx, b.nHeight).value;
    var (m2, clean) := Disconnect(m, b.vtx, xs, b.nHeight).value;
    hide OutputsMatch; hide Alive;
    forall i | 0 <= i < |c.vtx| && c.vtx[i].vout == []
      ensures OutputsMatch(m2, c.vtx[i], c.nHeight) <==> OutputsMatch(m, c.vtx[i], c.nHeight)
    {
      ReplayDead(b.pprev, c, i);
      DeadRecordKept(m0, b.vtx, b.nHeight, after, undos, m, xs, m2, clean, c.vtx[i], c.nHeight);
    }
  }

  // ------------------------------------------------------------ the tree and its links

  ghost predicate TreeOk(tree: set<BlockIndex>) {
    && (forall b {:trigger b.Linked()} :: b in tree ==> b.Linked())
    && (forall b {:trigger b.pprev} :: b in tree && b.pprev != null ==> b.pprev in tree)
  }

  lemma {:induction false} AncestorInTree(tree: set<BlockIndex>, b: BlockIndex, h: nat)
    requires TreeOk(tree) && b in tree && h <= b.nHeight
    ensures b.Ancestor(h) in tree
    decreases b.nHeight
  {
    assert b.Linked();
    if h < b.nHeight { AncestorInTree(tree, b.pprev, h); }
  }

  /** The successor of `b` on the path to `best`, if `b` is a proper ancestor of `best`. */
  ghost function Next(best: BlockIndex?, b: BlockIndex): BlockIndex?
    requires best != null ==> best.Linked()
  {
    if best != null && b.nHeight < best.nHeight && best.Ancestor(b.nHeight) == b
    then best.Ancestor(b.nHeight + 1) else null
  }

  ghost predicate LinksOk(tree: set<BlockIndex>, best: BlockIndex?)
    requires best != null ==> best.Linked()
    reads tree`pnext
  {
    forall b :: b in tree ==> b.pnext == Next(best, b)
  }

  /** Whatever undo data is stored is the undo data of the branch the block ends, as the disk keeps it. */
  ghost predicate UndoOk(tree: set<BlockIndex>)
    requires TreeOk(tree)
    reads tree`undo
  {
    forall b :: b in tree && b.undo.Some? ==>
      b.pprev != null && Replay(b).Some? && BlockUndosLike(b.undo.value, UndoOf(b), true)
  }

  /** Every block of the branch ending in `best` except genesis has its undo data stored. */
  ghost predicate UndoStored(tree: set<BlockIndex>, best: BlockIndex?)
    requires TreeOk(tree) && (best != null ==> best in tree)
    reads tree`undo
  {
    best != null ==> forall h {:trigger best.Ancestor(h)} :: 0 < h <= best.nHeight ==>
      best.Ancestor(h) in tree && best.Ancestor(h).undo.Some?
  }

  lemma {:induction false} NextBack(b: BlockIndex, x: BlockIndex)
    requires b.Linked() && b.pprev != null
    ensures x != b.pprev ==> Next(b, x) == Next(b.pprev, x)
    ensures Next(b, b.pprev) == b && Next(b.pprev, b.pprev) == null
  {
    var p := b.pprev;
    assert b.Ancestor(p.nHeight) == p.Ancestor(p.nHeight) == p && b.Ancestor(b.nHeight) == b;
    if x.nHeight < p.nHeight {
      assert b.Ancestor(x.nHeight) == p.Ancestor(x.nHeight);
      assert b.Ancestor(x.nHeight + 1) == p.Ancestor(x.nHeight + 1);
    }
  }

  // ------------------------------------------------------------ finding the fork

  ghost function HeightOf(b: BlockIndex?): int { if b == null then -1 else b.nHeight }

  /** The first loop of SetBestChain: the last common ancestor of the old and the new tip. */
  method FindFork(best: BlockIndex?, pindexNew: BlockIndex) returns (fork: BlockIndex?)
    requires pindexNew.Linked() && (best != null ==> best.Linked() && best.Ancestor(0) == pindexNew.Ancestor(0))
    ensures best == null <==> fork == null
    ensures fork != null ==> best.HasAncestor(fork) && pindexNew.HasAncestor(fork)
    ensures fork != null ==> forall h {:trigger best.Ancestor(h)} {:trigger pindexNew.Ancestor(h)} ::
              fork.nHeight < h <= best.nHeight && h <= pindexNew.nHeight ==> best.Ancestor(h) != pindexNew.Ancestor(h)
  {
    if best == null { return null; }
    var pfork: BlockIndex, plonger: BlockIndex := best, pindexNew;
    while pfork != plonger
      invariant best.HasAncestor(pfork) && pindexNew.HasAncestor(plonger)
      invariant plonger == pindexNew || plonger.nHeight >= pfork.nHeight
      invariant forall h {:trigger best.Ancestor(h)} {:trigger pindexNew.Ancestor(h)} ::
                  pfork.nHeight < h <= best.nHeight && h <= pindexNew.nHeight ==>
                    best.Ancestor(h) != pindexNew.Ancestor(h)
      decreases pfork.nHeight
    {
      while plonger.nHeight > pfork.nHeight
        invariant pindexNew.HasAncestor(plonger)
        invariant plonger == pindexNew || plonger.nHeight >= pfork.nHeight
        decreases plonger.nHeight
      {
        StepBack(pindexNew, plonger);
        plonger := plonger.pprev;
      }
      if pfork == plonger { break; }
      RootsMeet(best, pindexNew, pfork, plonger);
      StepBack(best, pfork);
      pfork := pfork.pprev;
    }
    fork := pfork;
  }

  lemma {:induction false} StepBack(tip: BlockIndex, b: BlockIndex)
    requires tip.Linked() && tip.HasAncestor(b)
    ensures b.Linked()
    ensures b.nHeight > 0 ==> b.pprev != null && b.pprev.nHeight == b.nHeight - 1 && tip.HasAncestor(b.pprev)
  {
    if b.nHeight > 0 { tip.AncestorOfAncestor(b.nHeight, b.nHeight - 1); }
  }

  /** Two different ancestors of equal or lower height under one root: the higher is not genesis. */
  lemma {:induction false} RootsMeet(best: BlockIndex, other: BlockIndex, fork: BlockIndex, plonger: BlockIndex)
    requires best.Linked() && other.Linked() && best.Ancestor(0) == other.Ancestor(0)
    requires best.HasAncestor(fork) && other.HasAncestor(plonger)
    requires plonger.nHeight <= fork.nHeight && fork != plonger
    ensures fork.nHeight > 0
  {
  }

  // ------------------------------------------------------------ the phases of SetBestChain

  /** `path` leads from `tip` down to, and without, `fork`. */
  ghost predicate PathDown(path: seq<BlockIndex>, tip: BlockIndex?, fork: BlockIndex?) {
    if path == [] then tip == fork
    else
      && tip != null && path[0] == tip && tip.Linked()
      && PathDown(path[1..], tip.pprev, fork)
  }

  /** `path` leads from above `fork` up to `tip`. */
  ghost predicate PathUp(path: seq<BlockIndex>, fork: BlockIndex?, tip: BlockIndex?) {
    if path == [] then tip == fork
    else
      && path[0].Linked() && path[0].pprev == fork
      && PathUp(path[1..], path[0], tip)
  }

  lemma {:induction false} PathUpSnoc(path: seq<BlockIndex>, fork: BlockIndex?, b: BlockIndex)
    requires PathUp(path, fork, b.pprev) && b.Linked()
    ensures PathUp(path + [b], fork, b)
  {
    if path == [] {
      assert (path + [b])[1..] == [];
    } else {
      PathUpSnoc(path[1..], path[0], b);
      assert (path + [b])[1..] == path[1..] + [b];
    }
  }

  /** The blocks on the way up are the ancestors of the tip above the fork. */
  lemma {:induction false} PathUpAncestors(path: seq<BlockIndex>, fork: BlockIndex?, tip: BlockIndex)
    requires PathUp(path, fork, tip) && tip.Linked()
    ensures |path| == tip.nHeight - HeightOf(fork)
    ensures forall i :: 0 <= i < |path| ==>
              path[i].Linked() && tip.HasAncestor(path[i]) && path[i].nHeight == HeightOf(fork) + 1 + i
  {
    if path != [] {
      PathUpAncestors(path[1..], path[0], tip);
      if |path| > 1 {
        assert path[1..][0] == path[1];
        StepBack(tip, path[1]);
      }
      forall i | 1 <= i < |path|
        ensures path[i].Linked() && tip.HasAncestor(path[i]) && path[i].nHeight == HeightOf(fork) + 1 + i
      {
        assert path[i] == path[1..][i - 1];
      }
    }
  }

  function Reverse<T>(s: seq<T>): (r: seq<T>)
    ensures |r| == |s| && forall i :: 0 <= i < |s| ==> r[i] == s[|s| - 1 - i]
  {
    if s == [] then [] else Reverse(s[1..]) + [s[0]]
  }

  lemma {:induction false} ReversePath(path: seq<BlockIndex>, tip: BlockIndex?, fork: BlockIndex?)
    requires PathDown(path, tip, fork)
    ensures PathUp(Reverse(path), fork, tip)
  {
    if path != [] {
      ReversePath(path[1..], tip.pprev, fork);
      PathUpSnoc(Reverse(path[1..]), fork, tip);
    }
  }

  lemma {:induction false} PathDownSnoc(path: seq<BlockIndex>, tip: BlockIndex?, b: BlockIndex)
    requires PathDown(path, tip, b) && b.Linked()
    ensures PathDown(path + [b], tip, b.pprev)
  {
    if path == [] {
      assert (path + [b])[1..] == [];
    } else {
      PathDownSnoc(path[1..], tip.pprev, b);
      assert (path + [b])[1..] == path[1..] + [b];
    }
  }

  /** The loops that list what to disconnect and what to connect. */
  method CollectPath(tip: BlockIndex?, fork: BlockIndex?) returns (path: seq<BlockIndex>)
    requires fork == null || (tip != null && tip.Linked() && tip.HasAncestor(fork))
    requires tip != null ==> tip.Linked()
    ensures PathDown(path, tip, fork)
    ensures |path| == HeightOf(tip) - HeightOf(fork)
  {
    path := [];
    var pindex := tip;
    while pindex != fork
      invariant HeightOf(fork) <= HeightOf(pindex)
      invariant pindex != null ==> pindex.Linked()
      invariant fork != null ==> pindex != null && pindex.HasAncestor(fork)
      invariant PathDown(path, tip, pindex) && |path| == HeightOf(tip) - HeightOf(pindex)
      decreases HeightOf(pindex)
    {
      PathDownSnoc(path, tip, pindex);
      path := path + [pindex];
      pindex := pindex.pprev;
    }
  }

  /** Disconnect the shorter branch, block by block. */
  method DisconnectAll(view: CoinsViewCache, path: seq<BlockIndex>, ghost fork: BlockIndex?,
                       ghost tree: set<BlockIndex>) returns (ok: bool)
    requires view.Valid() && PathDown(path, view.Best, fork) && (fork == null ==> path == [])
    requires TreeOk(tree) && tree !! view.Repr && UndoOk(tree)
    requires view.Best != null ==> view.Best in tree && AtBlock(view.Contents, view.Best) && UndoStored(tree, view.Best)
    modifies view.Repr
    ensures view.Valid() && view.BelowUnchanged()
    ensures ok ==> view.Best == fork && (fork == null ==> view.Contents == old(view.Contents))
    ensures ok && fork != null ==> fork in tree && AtBlock(view.Contents, fork) && UndoStored(tree, fork)
    ensures ok <==> AllCached(old(view.Contents), path)
  {
    hide AtBlock; hide EmptyTxsCached; hide UndoOk; hide UndoStored; hide CoinsViewCache.Valid;
    ghost var m0 := view.Contents;
    assert path[0..] == path;
    for i := 0 to |path|
      invariant view.Valid() && view.BelowUnchanged() && PathDown(path[i..], view.Best, fork)
      invariant fork == null ==> view.Contents == m0
      invariant view.Best != null ==>
                view.Best in tree && AtBlock(view.Contents, view.Best) && UndoStored(tree, view.Best)
      invariant AllCached(m0, path[..i]) && SameCached(view.Contents, m0, path[i..])
    {
      var b := path[i];
      assert path[i..][0] == b && path[i..][1..] == path[i + 1..];
      PathDownHeights(path[i + 1..], b.pprev, fork);
      ok := DisconnectOne(b, view, path[i + 1..], fork, tree);
      if !ok { return; }
      assert path[..i + 1] == path[..i] + [b];
    }
    assert path[..|path|] == path;
    ok := true;
  }

  /** Disconnect the tip; `rest` is what will be disconnected after it. */
  method DisconnectOne(b: BlockIndex, view: CoinsViewCache, ghost rest: seq<BlockIndex>, ghost fork: BlockIndex?,
                       ghost tree: set<BlockIndex>) returns (ok: bool)
    requires view.Valid() && view.Best == b && TreeOk(tree) && b in tree && tree !! view.Repr && UndoOk(tree)
    requires b.pprev != null && fork != null && PathDown(rest, b.pprev, fork)
    requires AtBlock(view.Contents, b) && UndoStored(tree, b)
    modifies view.Repr
    ensures view.Valid() && view.BelowUnchanged()
    ensures ok <==> EmptyTxsCached(old(view.Contents), b.vtx, b.nHeight)
    ensures ok ==>
              view.Best == b.pprev && b.pprev in tree && AtBlock(view.Contents, b.pprev) && UndoStored(tree, b.pprev)
    ensures ok ==> SameCached(view.Contents, old(view.Contents), rest)
  {
    hide AtBlock; hide Disconnect; hide EmptyTxsCached; hide BlockUndosLike; hide CoinsViewCache.Valid; hide SameCached;
    hide PathDown;
    UndoOfTip(tree, b);
    DisconnectAt(view.Contents, b, b.undo.value);
    CachedAllKept(view.Contents, b, b.undo.value, rest, fork);
    var clean;
    ok, clean := DisconnectBlock(b, view);
    ok := ok && clean;
  }

  /** Every listed block can be rolled back cleanly, as far as its dead records go. */
  ghost predicate AllCached(m: CoinMap, path: seq<BlockIndex>) {
    forall i :: 0 <= i < |path| ==> EmptyTxsCached(m, path[i].vtx, path[i].nHeight)
  }

  ghost predicate SameCached(a: CoinMap, b: CoinMap, path: seq<BlockIndex>) {
    forall i :: 0 <= i < |path| ==>
      (EmptyTxsCached(a, path[i].vtx, path[i].nHeight) <==> EmptyTxsCached(b, path[i].vtx, path[i].nHeight))
  }

  lemma {:induction false} CachedAllKept(m: CoinMap, b: BlockIndex, xs: seq<TxUndo>, path: seq<BlockIndex>,
                                         fork: BlockIndex?)
    requires b.Linked() && b.pprev != null && AtBlock(m, b) && BlockUndosLike(xs, UndoOf(b), true)
    requires fork != null && PathDown(path, b.pprev, fork)
    ensures var r := Disconnect(m, b.vtx, xs, b.nHeight); r.Some? && SameCached(r.value.0, m, path)
  {
    hide AtBlock; hide Disconnect; hide BlockUndosLike; hide EmptyTxsCached; hide PathDown; hide Reverse;
    DisconnectAt(m, b, xs);
    ReversePath(path, b.pprev, fork);
    PathUpAncestors(Reverse(path), fork, b.pprev);
    forall i | 0 <= i < |path|
      ensures var m2 := Disconnect(m, b.vtx, xs, b.nHeight).value.0;
              EmptyTxsCached(m2, path[i].vtx, path[i].nHeight) <==> EmptyTxsCached(m, path[i].vtx, path[i].nHeight)
    {
      assert path[i] == Reverse(path)[|path| - 1 - i];
      CachedKept(m, b, xs, path[i]);
    }
  }

  lemma {:induction false} PathDownHeights(path: seq<BlockIndex>, tip: BlockIndex?, fork: BlockIndex?)
    requires PathDown(path, tip, fork)
    ensures HeightOf(tip) >= HeightOf(fork)
    decreases |path|
  {
    if path != [] { PathDownHeights(path[1..], tip.pprev, fork); }
  }

  lemma {:induction false} UndoOfTip(tree: set<BlockIndex>, b: BlockIndex)
    requires TreeOk(tree) && b in tree && UndoOk(tree) && UndoStored(tree, b)
    ensures b.pprev != null ==>
              Replay(b).Some? && b.undo.Some? && BlockUndosLike(b.undo.value, UndoOf(b), true) &&
              UndoStored(tree, b.pprev)
  {
    assert b.Ancestor(b.nHeight) == b;
    if b.pprev != null {
      forall h | 0 < h <= b.pprev.nHeight ensures b.pprev.Ancestor(h) == b.Ancestor(h) {}
    }
  }

  /** The outcomes of the checks that are not modelled: which blocks pass them, for which ones a failure
      leaves no verdict in the validation state, the service fees regenerated at a height, and whether
      this is a test network. */
  datatype Rules = Rules(passes: set<BlockIndex>, silent: set<BlockIndex>, regenerated: nat -> nat, testNet: bool) {
    /** state.IsInvalid() after `b` has failed: all checks that are modelled leave a verdict. */
    predicate Verdict(b: BlockIndex) { b in passes || b !in silent }
  }

  /** A block passes: the checks that are not modelled, those of CheckBlock and, but for genesis, the
      coin and value rules on the coins of its parent's branch. */
  ghost predicate Passes(rules: Rules, b: BlockIndex)
    requires b.Linked()
  {
    b in rules.passes && BlockOk(b.vtx) &&
    (b.pprev == null ||
     (Replay(b.pprev).Some? &&
       Acceptable(Replay(b.pprev).value, b.vtx, b.nHeight, rules.regenerated(b.nHeight), rules.testNet)))
  }

  /** A view that stands at its best block: the unspent outputs are the replayed ones and the undo
      data of the whole branch is stored. */
  ghost predicate Standing(tree: set<BlockIndex>, coins: CoinMap, best: BlockIndex?)
    requires TreeOk(tree)
    reads tree`undo
    ensures Standing(tree, coins, best) && best != null ==> best in tree && AtBlock(coins, best)
  {
    if best == null then coins == map[]
    else best in tree && AtBlock(coins, best) && UndoStored(tree, best)
  }

  /** No stored undo data is lost or overwritten. */
  twostate predicate UndoKept(tree: set<BlockIndex>)
    reads tree`undo
  {
    forall b :: b in tree && old(b.undo).Some? ==> b.undo == old(b.undo)
  }

  lemma {:induction false} GenesisStands(tree: set<BlockIndex>, b: BlockIndex)
    requires TreeOk(tree) && b in tree && b.pprev == null
    ensures Standing(tree, map[], b)
  {
    assert b.Linked() && SameLive(map[], map[], true);
  }

  /** Having connected `b` on top of its parent. */
  lemma {:induction false} StandsOnTop(tree: set<BlockIndex>, b: BlockIndex, m: CoinMap)
    requires TreeOk(tree) && b in tree && b.pprev != null
    requires AtBlock(m, b) && b.undo.Some? && UndoStored(tree, b.pprev)
    ensures Standing(tree, m, b)
  {
    hide AtBlock;
    forall h | 0 < h <= b.nHeight ensures b.Ancestor(h) in tree && b.Ancestor(h).undo.Some? {
      if h < b.nHeight { assert b.Ancestor(h) == b.pprev.Ancestor(h); }
    }
  }

  method ConnectOne(b: BlockIndex, view: CoinsViewCache, rules: Rules, ghost tree: set<BlockIndex>) returns (ok: bool)
    requires view.Valid() && view.Best == b.pprev && b in tree
    requires TreeOk(tree) && tree !! view.Repr && UndoOk(tree) && Standing(tree, view.Contents, view.Best)
    modifies view.Repr, tree`undo
    ensures view.Valid() && view.BelowUnchanged() && UndoOk(tree) && UndoKept(tree)
    ensures b.Linked() && (ok <==> Passes(rules, b))
    ensures ok ==> view.Best == b && Standing(tree, view.Contents, b)
  {
    hide Connect; hide SameLive; hide HeightsFrom; hide Replay; hide Acceptable; hide BlockOk; hide BlockUndosLike;
    hide StoredUndos;
    assert b.Linked();
    ghost var m := view.Contents;
    if b.pprev != null {
      AcceptableLive(m, Replay(b.pprev).value, b.vtx, b.nHeight, rules.regenerated(b.nHeight), rules.testNet, true);
    }
    ok := ConnectBlock(b, view, b in rules.passes, rules.regenerated(b.nHeight), rules.testNet);
    if ok {
      if b.pprev == null {
        GenesisStands(tree, b);
      } else {
        assert Connect(m, b.vtx, b.nHeight).Some?;
        ConnectAt(m, b);
        StoredUndosLike(Connect(m, b.vtx, b.nHeight).value.1, UndoOf(b));
        StandsOnTop(tree, b, view.Contents);
      }
    }
  }

  /** Connect the longer branch, block by block; on failure name the offending block. */
  method ConnectAll(view: CoinsViewCache, path: seq<BlockIndex>, rules: Rules, ghost tip: BlockIndex?,
                    ghost tree: set<BlockIndex>)
    returns (ok: bool, failed: BlockIndex?)
    requires view.Valid() && PathUp(path, view.Best, tip)
    requires TreeOk(tree) && tree !! view.Repr && UndoOk(tree) && Standing(tree, view.Contents, view.Best)
    requires forall i :: 0 <= i < |path| ==> path[i] in tree
    modifies view.Repr, tree`undo
    ensures view.Valid() && view.BelowUnchanged() && UndoOk(tree) && UndoKept(tree)
    ensures ok ==> view.Best == tip && Standing(tree, view.Contents, tip)
    ensures ok ==> forall i :: 0 <= i < |path| ==> path[i].Linked() && Passes(rules, path[i])
    ensures !ok ==> failed != null && failed in path && failed.Linked() && !Passes(rules, failed)
  {
    hide Passes; hide AtBlock; hide UndoOk; hide CoinsViewCache.Valid;
    failed := null;
    for i := 0 to |path|
      invariant view.Valid() && view.BelowUnchanged() && PathUp(path[i..], view.Best, tip)
      invariant UndoOk(tree) && UndoKept(tree) && Standing(tree, view.Contents, view.Best)
      invariant forall k :: 0 <= k < i ==> path[k].Linked() && Passes(rules, path[k])
    {
      var b := path[i];
      assert path[i..][0] == b && path[i..][1..] == path[i + 1..];
      var done := ConnectOne(b, view, rules, tree);
      if !done { return false, b; }
    }
    ok := true;
  }

  /** Why a switch fails: a block to disconnect has lost a dead record, or a block to connect does not
      pass. */
  ghost predicate Blocked(failed: BlockIndex?, coins: CoinMap, down: seq<BlockIndex>, up: seq<BlockIndex>,
                          rules: Rules) {
    if failed == null then !AllCached(coins, down) else failed in up && failed.Linked() && !Passes(rules, failed)
  }

  /** Both branches on one view: what remains standing when it fails is the old tip's undo data. */
  method SwitchBranch(view: CoinsViewCache, down: seq<BlockIndex>, up: seq<BlockIndex>, rules: Rules,
                      ghost fork: BlockIndex?, ghost tip: BlockIndex, ghost tree: set<BlockIndex>)
    returns (ok: bool, failed: BlockIndex?)
    requires view.Valid() && PathDown(down, view.Best, fork) && PathUp(up, fork, tip)
    requires fork == null <==> view.Best == null
    requires TreeOk(tree) && tree !! view.Repr && UndoOk(tree) && Standing(tree, view.Contents, view.Best)
    requires forall i :: 0 <= i < |up| ==> up[i] in tree
    modifies view.Repr, tree`undo
    ensures view.Valid() && view.BelowUnchanged() && UndoOk(tree)
    ensures Standing(tree, old(view.Contents), old(view.Best))
    ensures ok ==> view.Best == tip && Standing(tree, view.Contents, tip)
    ensures ok ==>
              AllCached(old(view.Contents), down) &&
              forall i :: 0 <= i < |up| ==> up[i].Linked() && Passes(rules, up[i])
    ensures !ok ==> Blocked(failed, old(view.Contents), down, up, rules)
  {
    hide AtBlock; hide PathUp; hide UndoOk; hide CoinsViewCache.Valid; hide Passes;
    failed := null;
    ok := DisconnectAll(view, down, fork, tree);
    if !ok { return; }
    ok, failed := ConnectAll(view, up, rules, tip, tree);
  }

  /** The loops that move the forward links from the old branch to the new one. */
  method MoveLinks(down: seq<BlockIndex>, up: seq<BlockIndex>, ghost tree: set<BlockIndex>,
                   ghost best: BlockIndex?, ghost fork: BlockIndex?, ghost tip: BlockIndex)
    requires TreeOk(tree) && (best != null ==> best in tree) && tip in tree
    requires PathDown(down, best, fork) && PathUp(up, fork, tip) && LinksOk(tree, best)
    requires forall i :: 0 <= i < |down| ==> down[i] in tree
    requires forall i :: 0 <= i < |up| ==> up[i] in tree
    modifies tree`pnext
    ensures LinksOk(tree, tip)
  {
    assert down[0..] == down;
    hide Next; hide PathDown; hide PathUp;
    ghost var cur := best;
    for i := 0 to |down|
      invariant cur != null ==> cur.Linked()
      invariant LinksOk(tree, cur) && PathDown(down[i..], cur, fork)
    {
      var b := down[i];
      PathDownStep(down, i, cur, fork);
      NextStep(tree, b);
      if b.pprev != null { b.pprev.pnext := null; }
      cur := b.pprev;
    }
    assert cur == fork by { PathDownEnd(down, cur, fork); }
    assert up[0..] == up;
    for i := 0 to |up|
      invariant cur != null ==> cur.Linked()
      invariant LinksOk(tree, cur) && PathUp(up[i..], cur, tip)
    {
      var b := up[i];
      PathUpStep(up, i, cur, tip);
      NextStep(tree, b);
      if b.pprev != null { b.pprev.pnext := b; }
      cur := b;
    }
    assert cur == tip by { PathUpEnd(up, cur, tip); }
  }

  /** Moving the tip from `b` to its parent, or back, changes the parent's link and no other. */
  lemma {:induction false} NextStep(tree: set<BlockIndex>, b: BlockIndex)
    requires b.Linked()
    ensures forall x :: x in tree && x != b.pprev ==> Next(b, x) == Next(b.pprev, x)
    ensures b.pprev != null ==> Next(b, b.pprev) == b && Next(b.pprev, b.pprev) == null
  {
    forall x | x in tree && x != b.pprev ensures Next(b, x) == Next(b.pprev, x) {
      if b.pprev != null { NextBack(b, x); }
    }
    if b.pprev != null { NextBack(b, b); }
  }

  lemma {:induction false} PathDownStep(path: seq<BlockIndex>, i: nat, tip: BlockIndex?, fork: BlockIndex?)
    requires i < |path| && PathDown(path[i..], tip, fork)
    ensures path[i] == tip && path[i].Linked() && PathDown(path[i + 1..], path[i].pprev, fork)
  {
    assert path[i..][0] == path[i] && path[i..][1..] == path[i + 1..];
  }

  lemma {:induction false} PathDownEnd(path: seq<BlockIndex>, tip: BlockIndex?, fork: BlockIndex?)
    requires PathDown(path[|path|..], tip, fork)
    ensures tip == fork
  {
  }

  lemma {:induction false} PathUpStep(path: seq<BlockIndex>, i: nat, fork: BlockIndex?, tip: BlockIndex?)
    requires i < |path| && PathUp(path[i..], fork, tip)
    ensures path[i].Linked() && path[i].pprev == fork && PathUp(path[i + 1..], path[i], tip)
  {
    assert path[i..][0] == path[i] && path[i..][1..] == path[i + 1..];
  }

  lemma {:induction false} PathUpEnd(path: seq<BlockIndex>, fork: BlockIndex?, tip: BlockIndex?)
    requires PathUp(path[|path|..], fork, tip)
    ensures fork == tip
  {
  }
}
