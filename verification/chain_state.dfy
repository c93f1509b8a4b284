/** The node's chain state: block tree, coins, active chain and candidates. */
module ChainStates {
  import opened Wrappers
  import opened Coins
  import opened Utxo
  import opened Rollbacks
  import opened BlockIndexes
  import opened CoinsViews
  import opened Chain
  import opened Ledger

  ghost predicate OneRoot(tree: set<BlockIndex>) {
    forall a, b :: a in tree && b in tree && a.pprev == null && b.pprev == null ==> a == b
  }

  lemma {:induction false} SameRoot(tree: set<BlockIndex>, a: BlockIndex, b: BlockIndex)
    requires TreeOk(tree) && OneRoot(tree) && a in tree && b in tree
    ensures a.Ancestor(0) == b.Ancestor(0)
  {
    AncestorInTree(tree, a, 0);
    AncestorInTree(tree, b, 0);
  }

  lemma {:induction false} PathDownInTree(tree: set<BlockIndex>, path: seq<BlockIndex>, tip: BlockIndex?,
                                          fork: BlockIndex?)
    requires TreeOk(tree) && (tip != null ==> tip in tree) && PathDown(path, tip, fork)
    ensures forall i :: 0 <= i < |path| ==> path[i] in tree
  {
    if path != [] {
      PathDownInTree(tree, path[1..], tip.pprev, fork);
      assert forall i :: 1 <= i < |path| ==> path[i] == path[1..][i - 1];
    }
  }

  lemma {:induction false} StandingSameLive(tree: set<BlockIndex>, a: CoinMap, b: CoinMap, best: BlockIndex)
    requires TreeOk(tree) && Standing(tree, a, best) && SameLive(b, a, true) && HeightsFrom(b, a)
    ensures Standing(tree, b, best)
  {
    var r := Replay(best).value;
    SameLiveTrans(b, a, r, true);
    hide SameLive;
  }

  /** The unspent outputs are those of replaying the branch, versions included. */
  ghost predicate Exact(m: CoinMap, b: BlockIndex)
    requires b.Linked()
  {
    Replay(b).Some? && Live(m) == Live(Replay(b).value)
  }

  /** No surviving transaction of the branch has a negative version. */
  ghost predicate NoneNegative(b: BlockIndex)
    requires b.Linked()
  {
    Replay(b).Some? && NoNegative(Replay(b).value)
  }

  lemma {:induction false} StoredNoNegative(m: CoinMap)
    requires AsStored(m)
    ensures NoNegative(m)
  {
  }

  lemma {:induction false} ExactIff(m: CoinMap, b: BlockIndex)
    requires b.Linked() && AtBlock(m, b)
    ensures NoneNegative(b) ==> Exact(m, b)
    ensures AsStored(m) ==> (Exact(m, b) <==> NoneNegative(b))
  {
    hide SameLive; hide HeightsFrom; hide Live; hide NoNegative;
    if NoneNegative(b) { ExactIfNoNegative(m, Replay(b).value); }
    if AsStored(m) {
      StoredNoNegative(m);
      ExactOnDiskIff(m, Replay(b).value);
    }
  }

  /** The first loop of FindBlockByHeight: back along pprev. */
  method WalkBack(start: BlockIndex, nHeight: nat, ghost best: BlockIndex) returns (p: BlockIndex)
    requires best.Linked() && best.HasAncestor(start)
    ensures best.HasAncestor(p) && p.nHeight <= nHeight && (p == start || p.nHeight == nHeight)
  {
    p := start;
    while p.nHeight > nHeight
      invariant best.HasAncestor(p) && (p == start || p.nHeight >= nHeight)
      decreases p.nHeight
    {
      StepBack(best, p);
      p := p.pprev;
    }
  }

  /** The second loop: forward along pnext. */
  method WalkForward(start: BlockIndex, nHeight: nat, ghost best: BlockIndex, ghost tree: set<BlockIndex>)
    returns (p: BlockIndex)
    requires TreeOk(tree) && best in tree && LinksOk(tree, best)
    requires best.HasAncestor(start) && start.nHeight <= nHeight <= best.nHeight
    ensures p == best.Ancestor(nHeight)
  {
    hide LinksOk; hide BlockIndex.Linked; hide BlockIndex.Ancestor;
    p := start;
    while p.nHeight < nHeight
      invariant best.HasAncestor(p) && p.nHeight <= nHeight
      decreases nHeight - p.nHeight
    {
      LinkForward(tree, best, p);
      p := p.pnext;
    }
  }

  lemma {:induction false} LinkForward(tree: set<BlockIndex>, best: BlockIndex, p: BlockIndex)
    requires TreeOk(tree) && best in tree && LinksOk(tree, best) && best.HasAncestor(p) && p.nHeight < best.nHeight
    ensures p in tree && p.pnext == best.Ancestor(p.nHeight + 1) && p.pnext.nHeight == p.nHeight + 1
  {
    AncestorInTree(tree, best, p.nHeight);
  }

  /** IsInMainChain holds exactly for the tip and its ancestors. */
  lemma {:induction false} InMainChainIff(tree: set<BlockIndex>, best: BlockIndex, b: BlockIndex)
    requires TreeOk(tree) && best in tree && LinksOk(tree, best) && b in tree
    ensures (b.pnext != null || b == best) <==> best.HasAncestor(b)
  {
    assert best.Linked() && b.pnext == Next(best, b);
  }

  lemma {:induction false} OwnAncestor(b: BlockIndex)
    requires b.Linked()
    ensures b.HasAncestor(b)
  {
  }

  lemma {:induction false} OnlyOneThere(tree: set<BlockIndex>, best: BlockIndex, h: nat)
    requires TreeOk(tree) && best in tree && LinksOk(tree, best) && h <= best.nHeight
    ensures forall b :: b in tree && b.nHeight == h && (b.pnext != null || b == best) ==> b == best.Ancestor(h)
  {
  }

  /** `b` is on the branch of `to` but not on that of `from`. */
  ghost predicate Joins(from: BlockIndex?, to: BlockIndex?, b: BlockIndex)
    ensures Joins(from, to, b) ==> b.Linked()
  {
    && to != null && to.Linked() && b.Linked() && to.HasAncestor(b)
    && (from != null ==> from.Linked() && !from.HasAncestor(b))
  }

  /** Every block that joins passes. */
  ghost predicate NewBlocksPass(tree: set<BlockIndex>, from: BlockIndex?, to: BlockIndex, rules: Rules) {
    forall b :: b in tree && Joins(from, to, b) ==> Passes(rules, b)
  }

  /** The coins still hold the dead records of every block that leaves. */
  ghost predicate LeavingCached(tree: set<BlockIndex>, from: BlockIndex?, to: BlockIndex, coins: CoinMap) {
    forall b :: b in tree && Joins(to, from, b) ==> EmptyTxsCached(coins, b.vtx, b.nHeight)
  }

  /** `fork` is the last common ancestor. */
  ghost predicate LastCommon(best: BlockIndex?, pindexNew: BlockIndex, fork: BlockIndex?)
    requires pindexNew.Linked() && (best != null ==> best.Linked())
  {
    if best == null || fork == null then best == fork
    else
      && best.HasAncestor(fork) && pindexNew.HasAncestor(fork)
      && forall h {:trigger best.Ancestor(h)} {:trigger pindexNew.Ancestor(h)} ::
           fork.nHeight < h <= best.nHeight && h <= pindexNew.nHeight ==> best.Ancestor(h) != pindexNew.Ancestor(h)
  }

  /** A block on a branch is common exactly if it is not above the fork. */
  lemma {:induction false} CommonIff(best: BlockIndex, other: BlockIndex, fork: BlockIndex, b: BlockIndex)
    requires other.Linked() && best.Linked() && b.Linked() && LastCommon(best, other, fork) && other.HasAncestor(b)
    ensures best.HasAncestor(b) <==> b.nHeight <= fork.nHeight
  {
    if b.nHeight <= fork.nHeight {
      other.AncestorOfAncestor(fork.nHeight, b.nHeight);
      best.AncestorOfAncestor(fork.nHeight, b.nHeight);
    }
  }

  lemma {:induction false} LastCommonSym(best: BlockIndex, other: BlockIndex, fork: BlockIndex)
    requires other.Linked() && best.Linked() && LastCommon(best, other, fork)
    ensures LastCommon(other, best, fork)
  {
  }

  /** The blocks to connect are those that join the active chain. */
  lemma {:induction false} UpJoins(up: seq<BlockIndex>, best: BlockIndex?, fork: BlockIndex?, pindexNew: BlockIndex,
                                   b: BlockIndex)
    requires pindexNew.Linked() && (best != null ==> best.Linked()) && (fork == null <==> best == null)
    requires PathUp(up, fork, pindexNew) && LastCommon(best, pindexNew, fork)
    ensures b in up <==> Joins(best, pindexNew, b)
  {
    hide LastCommon;
    PathUpAncestors(up, fork, pindexNew);
    hide PathUp;
    if b in up {
      var i :| 0 <= i < |up| && up[i] == b;
      if best != null { CommonIff(best, pindexNew, fork, b); }
    }
    if Joins(best, pindexNew, b) {
      if best != null { CommonIff(best, pindexNew, fork, b); }
      assert up[b.nHeight - HeightOf(fork) - 1] == b;
    }
  }

  /** The blocks to disconnect are those that leave it. */
  lemma {:induction false} DownJoins(down: seq<BlockIndex>, best: BlockIndex?, fork: BlockIndex?, pindexNew: BlockIndex,
                                     b: BlockIndex)
    requires pindexNew.Linked() && (best != null ==> best.Linked()) && (fork == null <==> best == null)
    requires PathDown(down, best, fork) && LastCommon(best, pindexNew, fork)
    ensures b in down <==> Joins(pindexNew, best, b)
  {
    hide LastCommon; hide PathDown;
    if best == null {
      NothingDown(down);
    } else {
      LastCommonSym(best, pindexNew, fork);
      ReversePath(down, best, fork);
      ReverseMember(down, b);
      hide Joins;
      UpJoins(Reverse(down), pindexNew, fork, best, b);
    }
  }

  /** A switch that went through met no obstacle. */
  lemma {:induction false} AllUpPass(tree: set<BlockIndex>, coins: CoinMap, down: seq<BlockIndex>, up: seq<BlockIndex>,
                                     best: BlockIndex?, fork: BlockIndex?, pindexNew: BlockIndex, rules: Rules)
    requires pindexNew.Linked() && (best != null ==> best.Linked()) && (fork == null <==> best == null)
    requires PathDown(down, best, fork) && PathUp(up, fork, pindexNew) && LastCommon(best, pindexNew, fork)
    requires AllCached(coins, down) && forall i :: 0 <= i < |up| ==> up[i].Linked() && Passes(rules, up[i])
    ensures NewBlocksPass(tree, best, pindexNew, rules) && LeavingCached(tree, best, pindexNew, coins)
  {
    hide Passes; hide PathUp; hide PathDown; hide LastCommon; hide Joins; hide EmptyTxsCached;
    forall b | b in tree && Joins(best, pindexNew, b) ensures Passes(rules, b) {
      UpJoins(up, best, fork, pindexNew, b);
      var i :| 0 <= i < |up| && up[i] == b;
    }
    forall b | b in tree && Joins(pindexNew, best, b) ensures EmptyTxsCached(coins, b.vtx, b.nHeight) {
      DownJoins(down, best, fork, pindexNew, b);
      var i :| 0 <= i < |down| && down[i] == b;
    }
  }

  /** One that failed met one. */
  lemma {:induction false} BlockedBy(tree: set<BlockIndex>, failed: BlockIndex?, coins: CoinMap, down: seq<BlockIndex>,
                                     up: seq<BlockIndex>, best: BlockIndex?, fork: BlockIndex?, pindexNew: BlockIndex,
                                       rules: Rules)
    requires pindexNew.Linked() && (best != null ==> best.Linked()) && (fork == null <==> best == null)
    requires PathDown(down, best, fork) && PathUp(up, fork, pindexNew) && LastCommon(best, pindexNew, fork)
    requires forall i :: 0 <= i < |up| ==> up[i] in tree
    requires forall i :: 0 <= i < |down| ==> down[i] in tree
    requires Blocked(failed, coins, down, up, rules)
    ensures !(NewBlocksPass(tree, best, pindexNew, rules) && LeavingCached(tree, best, pindexNew, coins))
    ensures failed != null ==> failed in up && failed in tree
  {
    hide Passes; hide PathUp; hide PathDown; hide LastCommon; hide Joins; hide EmptyTxsCached;
    if failed != null {
      UpJoins(up, best, fork, pindexNew, failed);
    } else {
      var i :| 0 <= i < |down| && !EmptyTxsCached(coins, down[i].vtx, down[i].nHeight);
      DownJoins(down, best, fork, pindexNew, down[i]);
    }
  }

  lemma {:induction false} NothingDown(down: seq<BlockIndex>)
    requires PathDown(down, null, null)
    ensures down == []
  {
  }

  lemma {:induction false} ReverseMember<T>(s: seq<T>, x: T)
    ensures x in s <==> x in Reverse(s)
  {
    var r := Reverse(s);
    if x in s {
      var i :| 0 <= i < |s| && s[i] == x;
      assert r[|s| - 1 - i] == x;
    }
  }

  /** A fresh block whose parent is in the tree disturbs nothing. */
  lemma {:induction false} GrowTree(tree: set<BlockIndex>, n: BlockIndex)
    requires TreeOk(tree) && OneRoot(tree) && n !in tree && n.Linked()
    requires if n.pprev == null then tree == {} else n.pprev in tree
    ensures TreeOk(tree + {n}) && OneRoot(tree + {n})
  {
  }

  lemma {:induction false} GrowLinks(tree: set<BlockIndex>, n: BlockIndex, best: BlockIndex?)
    requires TreeOk(tree) && n !in tree && n.pnext == null && (best != null ==> best in tree) && LinksOk(tree, best)
    ensures LinksOk(tree + {n}, best)
  {
    if best != null && n.nHeight < best.nHeight { AncestorInTree(tree, best, n.nHeight); }
    assert Next(best, n) == null;
  }

  lemma {:induction false} GrowUndo(tree: set<BlockIndex>, n: BlockIndex, coins: CoinMap, best: BlockIndex?)
    requires TreeOk(tree) && TreeOk(tree + {n}) && n.undo == None
    requires UndoOk(tree) && Standing(tree, coins, best)
    ensures UndoOk(tree + {n}) && Standing(tree + {n}, coins, best)
  {
  }

  class ChainState {
    var tree: set<BlockIndex>
    const pcoinsTip: CoinsViewCache
    var pindexGenesis: BlockIndex?
    var pindexBest: BlockIndex?
    var nBestHeight: int
    var pblockindexFBBHLast: BlockIndex?
    var setBlockIndexValid: set<BlockIndex>

    /** The coins part: the coins at the tip are those obtained by replaying the branch ending in
        `best` from genesis, and every piece of stored undo data is right. */
    ghost predicate CoinsAt(best: BlockIndex?)
      reads `tree, pcoinsTip, pcoinsTip.Repr, tree`undo
      ensures CoinsAt(best) ==> TreeOk(tree) && OneRoot(tree) && tree !! pcoinsTip.Repr && this !in pcoinsTip.Repr
      ensures CoinsAt(best) && best != null ==> best in tree && best.Linked() && AtBlock(pcoinsTip.Contents, best)
    {
      && TreeOk(tree) && OneRoot(tree)
      && pcoinsTip.Valid() && pcoinsTip.base.Database?
      && tree !! pcoinsTip.Repr && this !in pcoinsTip.Repr
      && pcoinsTip.Best == best
      && Standing(tree, pcoinsTip.Contents, best)
      && UndoOk(tree)
    }

    ghost predicate CoinsRight()
      reads `tree, `pindexBest, pcoinsTip, pcoinsTip.Repr, tree`undo
      ensures CoinsRight() ==> TreeOk(tree) && (pindexBest != null ==> pindexBest in tree)
    {
      CoinsAt(pindexBest)
    }

    /** The links part: forward links lead from genesis to the tip and nowhere else. */
    ghost predicate LinksRight()
      requires TreeOk(tree) && (pindexBest != null ==> pindexBest in tree)
      reads `tree, `pindexBest, `nBestHeight, `pblockindexFBBHLast, `pindexGenesis, tree`pnext
    {
      && LinksOk(tree, pindexBest)
      && nBestHeight == HeightOf(pindexBest)
      && (pblockindexFBBHLast != null ==> pindexBest != null && pindexBest.HasAncestor(pblockindexFBBHLast))
      && (pindexBest != null ==> pindexGenesis == pindexBest.Ancestor(0))
    }

    /** The candidates part: no candidate is marked as failed. */
    ghost predicate CandidatesRight()
      reads `tree, `setBlockIndexValid, tree`fFailedValid, tree`fFailedChild
    {
      && setBlockIndexValid <= tree
      && forall b :: b in setBlockIndexValid ==> b in tree && !b.fFailedValid && !b.fFailedChild
    }

    ghost predicate Valid()
      reads this, pcoinsTip, pcoinsTip.Repr, tree
      ensures Valid() ==> TreeOk(tree) && (pindexBest != null ==> pindexBest in tree) && LinksOk(tree, pindexBest)
    {
      CoinsRight() && LinksRight() && CandidatesRight()
    }

    constructor (db: CoinsViewDB)
      requires db.Valid() && db.coins == map[] && db.best == null
      ensures Valid() && tree == {} && pindexBest == null && fresh(pcoinsTip)
    {
      tree, setBlockIndexValid, nBestHeight := {}, {}, -1;
      pindexGenesis, pindexBest, pblockindexFBBHLast := null, null, null;
      pcoinsTip := new CoinsViewCache.OverDatabase(db);
    }

    /** InvalidBlockFound.  The offending block is never on the active chain, so the reorganisation
        away from it does not take place here. */
    method InvalidBlockFound(pindex: BlockIndex)
      requires pindex in tree && pindex.pnext == null && CandidatesRight()
      modifies `setBlockIndexValid, pindex`fFailedValid
      ensures CandidatesRight() && setBlockIndexValid == old(setBlockIndexValid) - {pindex}
      ensures pindex.fFailedValid
    {
      pindex.fFailedValid := true;
      setBlockIndexValid := setBlockIndexValid - {pindex};
    }

    /** The coin work of SetBestChain, in a cache of its own that is only written back when all
        blocks have been disconnected and connected. */
    method SwitchCoins(pindexNew: BlockIndex, down: seq<BlockIndex>, up: seq<BlockIndex>, ghost fork: BlockIndex?,
                       rules: Rules, flushToDisk: bool) returns (ok: bool, failed: BlockIndex?)
      requires CoinsRight() && pindexNew in tree
      requires PathDown(down, pindexBest, fork) && PathUp(up, fork, pindexNew) && (fork == null <==> pindexBest == null)
      requires forall i :: 0 <= i < |up| ==> up[i] in tree
      modifies pcoinsTip.Repr, tree`undo
      ensures pcoinsTip.Repr == old(pcoinsTip.Repr)
      ensures ok ==> CoinsAt(pindexNew) && (flushToDisk ==> AsStored(pcoinsTip.Contents))
      ensures !ok ==> CoinsRight() && pcoinsTip.Contents == old(pcoinsTip.Contents)
      ensures ok ==> AllCached(old(pcoinsTip.Contents), down)
      ensures ok ==> forall i :: 0 <= i < |up| ==> up[i].Linked() && Passes(rules, up[i])
      ensures !ok ==> Blocked(failed, old(pcoinsTip.Contents), down, up, rules)
    {
      hide AtBlock; hide SameLive; hide HeightsFrom; hide Standing; hide UndoOk; hide PathDown; hide PathUp;
      hide Passes; hide Blocked;
      hide AllCached; hide AsStored;
      var view := new CoinsViewCache.Over(pcoinsTip);
      var best := view.GetBestBlock();
      ok, failed := SwitchBranch(view, down, up, rules, fork, pindexNew, tree);
      if !ok { return; }
      var flushed := view.Flush();
      if flushToDisk {
        ghost var m := pcoinsTip.Contents;
        var written := pcoinsTip.Flush();
        StandingSameLive(tree, m, pcoinsTip.Contents, pindexNew);
      }
    }

    /** A block above the fork on the new branch has no forward link. */
    lemma {:induction false} OffActiveChain(b: BlockIndex, up: seq<BlockIndex>, fork: BlockIndex?,
                                            pindexNew: BlockIndex)
      requires TreeOk(tree) && pindexNew in tree && b in up && b in tree
      requires pindexBest != null ==> pindexBest in tree
      requires PathUp(up, fork, pindexNew) && LastCommon(pindexBest, pindexNew, fork)
      requires LinksOk(tree, pindexBest)
      ensures b.pnext == null
    {
      PathUpAncestors(up, fork, pindexNew);
    }

    /** What SetBestChain works out first: the fork, what to disconnect and what to connect. */
    method PlanSwitch(pindexNew: BlockIndex) returns (down: seq<BlockIndex>, up: seq<BlockIndex>, fork: BlockIndex?)
      requires TreeOk(tree) && OneRoot(tree) && pindexNew in tree && (pindexBest != null ==> pindexBest in tree)
      ensures PathDown(down, pindexBest, fork) && PathUp(up, fork, pindexNew) && (fork == null <==> pindexBest == null)
      ensures |up| > 0 ==> up[0].pprev == fork
      ensures forall i :: 0 <= i < |up| ==> up[i] in tree
      ensures forall i :: 0 <= i < |down| ==> down[i] in tree
      ensures LastCommon(pindexBest, pindexNew, fork)
    {
      if pindexBest != null { SameRoot(tree, pindexBest, pindexNew); }
      fork := FindFork(pindexBest, pindexNew);
      down := CollectPath(pindexBest, fork);
      var path := CollectPath(pindexNew, fork);
      ReversePath(path, pindexNew, fork);
      up := Reverse(path);
      PathDownInTree(tree, down, pindexBest, fork);
      PathDownInTree(tree, path, pindexNew, fork);
    }

    /** SetBestChain.  It succeeds exactly when every block that joins the active chain passes and the
        coins still hold the dead records of every block that leaves it.  On success the coins are
        those of replaying the new branch from genesis and the links lead to the new tip; on failure
        coins, tip and links are as before.  Negative versions are the exception: after a flush to disk
        the coins are exact if and only if no surviving transaction has one. */
    method SetBestChain(pindexNew: BlockIndex, rules: Rules, flushToDisk: bool) returns (ok: bool)
      requires Valid() && pindexNew in tree
      modifies this, pcoinsTip.Repr, tree
      ensures Valid() && tree == old(tree) && pcoinsTip.Repr == old(pcoinsTip.Repr)
      ensures ok <==> && NewBlocksPass(tree, old(pindexBest), pindexNew, rules)
                      && LeavingCached(tree, old(pindexBest), pindexNew, old(pcoinsTip.Contents))
      ensures ok ==> pindexBest == pindexNew && AtBlock(pcoinsTip.Contents, pindexNew)
      ensures ok ==> (NoneNegative(pindexNew) ==> Exact(pcoinsTip.Contents, pindexNew))
      ensures ok && flushToDisk ==> (Exact(pcoinsTip.Contents, pindexNew) <==> NoneNegative(pindexNew))
      ensures ok ==> setBlockIndexValid == old(setBlockIndexValid)
      ensures !ok ==> pindexBest == old(pindexBest) && pcoinsTip.Contents == old(pcoinsTip.Contents)
      ensures !ok ==> forall b :: b in tree ==> b.pnext == old(b.pnext)
      ensures !ok ==> setBlockIndexValid <= old(setBlockIndexValid)
    {
      hide CoinsAt; hide AtBlock; hide LinksOk; hide PathDown; hide PathUp; hide LastCommon; hide OneRoot; hide Passes;
      hide Blocked;
      hide NewBlocksPass; hide LeavingCached; hide AllCached; hide Exact; hide NoneNegative; hide AsStored;
      ghost var best, coins := pindexBest, pcoinsTip.Contents;
      var down, up, fork := PlanSwitch(pindexNew);
      var failed;
      ok, failed := SwitchCoins(pindexNew, down, up, fork, rules, flushToDisk);
      if ok {
        AllUpPass(tree, coins, down, up, best, fork, pindexNew, rules);
        ExactIff(pcoinsTip.Contents, pindexNew);
        MoveTip(pindexNew, down, up, fork);
      } else {
        BlockedBy(tree, failed, coins, down, up, best, fork, pindexNew, rules);
        RecordFailure(failed, pindexNew, up, rules, fork);
      }
    }

    /** Marking the offending block, if a block failed to connect and left a verdict. */
    method RecordFailure(failed: BlockIndex?, pindexNew: BlockIndex, up: seq<BlockIndex>, rules: Rules,
                         ghost fork: BlockIndex?)
      requires Valid() && pindexNew in tree
      requires PathUp(up, fork, pindexNew) && LastCommon(pindexBest, pindexNew, fork)
      requires failed != null ==> failed in up && failed in tree
      modifies `setBlockIndexValid, `pindexGenesis, tree`fFailedValid
      ensures Valid()
      ensures var marked := if failed != null && (failed in rules.passes || failed !in rules.silent)
                            then {failed} else {};
              && setBlockIndexValid == old(setBlockIndexValid) - marked
              && forall b :: b in tree ==> b.fFailedValid == (old(b.fFailedValid) || b in marked)
    {
      if |up| > 0 && up[0].pprev == null && failed != null && failed != up[0] {
        pindexGenesis := up[0];
      }
      if failed != null && rules.Verdict(failed) {
        OffActiveChain(failed, up, fork, pindexNew);
        InvalidBlockFound(failed);
      }
    }

    static lemma {:induction false} GenesisOf(up: seq<BlockIndex>, fork: BlockIndex?, pindexNew: BlockIndex)
      requires PathUp(up, fork, pindexNew) && pindexNew.Linked()
      ensures |up| > 0 ==> up[0].pprev == fork
      ensures fork == null ==> |up| > 0 && up[0] == pindexNew.Ancestor(0)
    {
      PathUpAncestors(up, fork, pindexNew);
    }

    /** The memory structures after the coins have been switched. */
    method MoveTip(pindexNew: BlockIndex, down: seq<BlockIndex>, up: seq<BlockIndex>, ghost fork: BlockIndex?)
      requires TreeOk(tree) && OneRoot(tree) && pindexNew in tree && (pindexBest != null ==> pindexBest in tree)
      requires LinksOk(tree, pindexBest)
      requires pindexBest != null ==> pindexGenesis == pindexBest.Ancestor(0)
      requires PathDown(down, pindexBest, fork) && PathUp(up, fork, pindexNew) && (fork == null <==> pindexBest == null)
      requires forall i :: 0 <= i < |up| ==> up[i] in tree
      requires forall i :: 0 <= i < |down| ==> down[i] in tree
      modifies `pindexGenesis, `pindexBest, `pblockindexFBBHLast, `nBestHeight, tree`pnext
      ensures pindexBest == pindexNew && LinksRight()
    {
      GenesisOf(up, fork, pindexNew);
      if pindexBest != null { SameRoot(tree, pindexBest, pindexNew); }
      hide PathDown; hide PathUp; hide LinksOk; hide OneRoot;
      if |up| > 0 && up[0].pprev == null {
        pindexGenesis := up[0];
      }
      MoveLinks(down, up, tree, pindexBest, fork, pindexNew);
      pindexBest, pblockindexFBBHLast, nBestHeight := pindexNew, null, pindexNew.nHeight;
    }

    /** FindBlockByHeight with its remembered last answer: the block of the active chain at that
        height. */
    method FindBlockByHeight(nHeight: nat) returns (r: BlockIndex)
      requires Valid() && pindexBest != null && nHeight <= pindexBest.nHeight
      modifies `pblockindexFBBHLast
      ensures Valid() && pblockindexFBBHLast == r
      ensures r == pindexBest.Ancestor(nHeight)
      ensures forall b :: b in tree && b.nHeight == nHeight && (b.pnext != null || b == pindexBest) ==> b == r
    {
      hide CoinsAt; hide LinksOk; hide CandidatesRight; hide UndoOk; hide Standing; hide CoinsViewCache.Valid;
      hide BlockIndex.Linked; hide BlockIndex.Ancestor;
      OwnAncestor(pindexBest);
      var p: BlockIndex := if nHeight < nBestHeight / 2 then pindexGenesis else pindexBest;
      if pblockindexFBBHLast != null && Abs(nHeight - p.nHeight) > Abs(nHeight - pblockindexFBBHLast.nHeight) {
        p := pblockindexFBBHLast;
      }
      p := WalkBack(p, nHeight, pindexBest);
      r := WalkForward(p, nHeight, pindexBest, tree);
      OnlyOneThere(tree, pindexBest, nHeight);
      pblockindexFBBHLast := r;
    }

    /** The tree part of AddToBlockIndex: a new entry, which becomes a candidate. */
    method AddToBlockIndex(hash: nat, pprev: BlockIndex?, work: nat, vtx: seq<Tx>) returns (b: BlockIndex?)
      requires Valid() && work > 0 && (if pprev == null then tree == {} else pprev in tree)
      modifies this
      ensures Valid() && pindexBest == old(pindexBest)
      ensures b == null <==> exists x :: x in old(tree) && x.hash == hash
      ensures b == null ==> tree == old(tree) && setBlockIndexValid == old(setBlockIndexValid)
      ensures b != null ==> fresh(b) && tree == old(tree) + {b} && setBlockIndexValid == old(setBlockIndexValid) + {b}
      ensures b != null ==> b.hash == hash && b.pprev == pprev && b.vtx == vtx
    {
      hide LinksOk; hide Standing; hide UndoOk; hide CoinsViewCache.Valid;
      if exists x | x in tree :: x.hash == hash {
        return null;
      }
      var n := new BlockIndex(hash, pprev, work, vtx);
      Insert(n);
      b := n;
    }

    method Insert(n: BlockIndex)
      requires Valid() && n !in tree && n.Linked() && (if n.pprev == null then tree == {} else n.pprev in tree)
      requires n.pnext == null && n.undo == None && !n.fFailedValid && !n.fFailedChild && n !in pcoinsTip.Repr
      modifies `tree, `setBlockIndexValid
      ensures Valid() && tree == old(tree) + {n} && setBlockIndexValid == old(setBlockIndexValid) + {n}
    {
      hide AtBlock; hide CoinsViewCache.Valid; hide Standing; hide UndoOk; hide LinksOk; hide TreeOk; hide OneRoot;
      hide BlockIndex.Linked; hide BlockIndex.Ancestor;
      GrowTree(tree, n);
      GrowLinks(tree, n, pindexBest);
      GrowUndo(tree, n, pcoinsTip.Contents, pindexBest);
      tree := tree + {n};
      setBlockIndexValid := setBlockIndexValid + {n};
    }

    /** The greatest candidate in the order of CBlockIndexWorkComparator: most work, and the
        smallest hash among those. */
    method BestCandidate() returns (r: BlockIndex)
      requires setBlockIndexValid != {}
      ensures r in setBlockIndexValid
      ensures forall c :: c in setBlockIndexValid ==>
                c.nChainWork <= r.nChainWork && (c.nChainWork == r.nChainWork ==> r.hash <= c.hash)
    {
      var todo := setBlockIndexValid;
      r :| r in todo;
      while todo != {}
        invariant todo <= setBlockIndexValid && r in setBlockIndexValid
        invariant forall c :: c in setBlockIndexValid && c !in todo ==> !WorkLess(r, c)
      {
        var c :| c in todo;
        todo := todo - {c};
        if WorkLess(r, c) { r := c; }
      }
    }

    /** The walk of ConnectBestBlock from a candidate towards the active chain: it either meets a
        failed block or lists exactly the candidate's ancestors that have more work than the tip. */
    method CheckAncestry(pindexNewBest: BlockIndex) returns (attach: seq<BlockIndex>, failedAt: BlockIndex?)
      requires TreeOk(tree) && pindexNewBest in tree && (pindexBest != null ==> pindexBest in tree)
      requires LinksOk(tree, pindexBest)
      ensures failedAt != null ==>
                pindexNewBest.HasAncestor(failedAt) && (failedAt.fFailedValid || failedAt.fFailedChild)
      ensures forall i :: 0 <= i < |attach| ==>
                && attach[i] in tree && attach[i].Linked() && WorkOf(pindexBest) < attach[i].nChainWork
                && pindexNewBest.HasAncestor(attach[i]) && !attach[i].fFailedValid && !attach[i].fFailedChild
      ensures forall i, j :: 0 <= i < j < |attach| ==> attach[i].nChainWork > attach[j].nChainWork
      ensures failedAt == null ==> ListsAbove(attach, WorkOf(pindexBest), pindexNewBest, 0)
    {
      hide LinksOk;
      attach := [];
      var pindexTest: BlockIndex := pindexNewBest;
      while true
        invariant pindexNewBest.HasAncestor(pindexTest) && pindexTest in tree
        invariant forall i :: 0 <= i < |attach| ==>
                    && attach[i] in tree && WorkOf(pindexBest) < attach[i].nChainWork &&
                      pindexTest.nChainWork < attach[i].nChainWork
                    && pindexNewBest.HasAncestor(attach[i]) && !attach[i].fFailedValid && !attach[i].fFailedChild
        invariant forall i, j :: 0 <= i < j < |attach| ==> attach[i].nChainWork > attach[j].nChainWork
        invariant ListsAbove(attach, WorkOf(pindexBest), pindexNewBest, pindexTest.nHeight + 1)
        decreases pindexTest.nHeight
      {
        if pindexTest.fFailedValid || pindexTest.fFailedChild { return attach, pindexTest; }
        if pindexBest == null || pindexTest.nChainWork > pindexBest.nChainWork {
          attach := attach + [pindexTest];
        }
        if pindexTest.pprev == null || pindexTest.pnext != null {
          NothingBelow(tree, pindexBest, pindexNewBest, pindexTest);
          return attach, null;
        }
        StepBack(pindexNewBest, pindexTest);
        pindexTest := pindexTest.pprev;
      }
    }

    /** Marking the descendants of a failed block on the way to the candidate: these and no others. */
    method MarkFailed(pindexNewBest: BlockIndex, failedAt: BlockIndex)
      requires Valid() && pindexNewBest in tree
      requires pindexNewBest.HasAncestor(failedAt) && failedAt != pindexNewBest
      modifies `setBlockIndexValid, tree`fFailedChild
      ensures Valid() && setBlockIndexValid <= old(setBlockIndexValid) && pindexNewBest !in setBlockIndexValid
      ensures forall b :: b in tree ==>
                b.fFailedChild == (old(b.fFailedChild) || Above(pindexNewBest, failedAt.nHeight, b))
      ensures forall b :: b in setBlockIndexValid <==>
                b in old(setBlockIndexValid) && !Above(pindexNewBest, failedAt.nHeight, b)
    {
      hide CoinsAt; hide LinksOk;
      var p: BlockIndex := pindexNewBest;
      AboveTop(pindexNewBest);
      assert Above(pindexNewBest, failedAt.nHeight, pindexNewBest);
      while p != failedAt
        invariant p in tree && pindexNewBest.HasAncestor(p) && p.nHeight >= failedAt.nHeight
        invariant Valid()
        invariant forall b :: b in tree ==>
                  b.fFailedChild == (old(b.fFailedChild) || Above(pindexNewBest, p.nHeight, b))
        invariant forall b :: b in setBlockIndexValid <==>
                  b in old(setBlockIndexValid) && !Above(pindexNewBest, p.nHeight, b)
        decreases p.nHeight
      {
        p.fFailedChild := true;
        setBlockIndexValid := setBlockIndexValid - {p};
        StepBack(pindexNewBest, p);
        AboveStep(pindexNewBest, p);
        p := p.pprev;
      }
    }

    /** ConnectBestBlock.  `tips` lists the blocks that became the tip, in order: each has more work
        than the one before.  On success no candidate has more work than the tip. */
    method ConnectBestBlock(rules: Rules, flushToDisk: bool) returns (ok: bool, ghost tips: seq<BlockIndex>)
      requires Valid()
      modifies this, pcoinsTip.Repr, tree
      ensures Valid() && tree == old(tree) && pcoinsTip.Repr == old(pcoinsTip.Repr)
      ensures pindexBest == if tips == [] then old(pindexBest) else tips[|tips| - 1]
      ensures tips != [] ==> WorkOf(old(pindexBest)) < tips[0].nChainWork
      ensures forall i, j :: 0 <= i < j < |tips| ==> tips[i].nChainWork < tips[j].nChainWork
      ensures ok ==> forall c :: c in setBlockIndexValid ==> c.nChainWork <= WorkOf(pindexBest)
    {
      hide CoinsRight; hide LinksRight; hide LinksOk; hide AtBlock; hide ListsAbove; hide Above;
      tips := [];
      while setBlockIndexValid != {}
        invariant Valid() && tree == old(tree) && pcoinsTip.Repr == old(pcoinsTip.Repr) && pindexBest == old(pindexBest)
        invariant tips == []
        decreases setBlockIndexValid
      {
        var pindexNewBest := BestCandidate();
        if pindexNewBest == pindexBest || (pindexBest != null && pindexNewBest.nChainWork == pindexBest.nChainWork) {
          return true, tips;
        }
        var attach, failedAt := CheckAncestry(pindexNewBest);
        if failedAt == null {
          if WorkOf(pindexBest) < pindexNewBest.nChainWork { FirstListed(attach, WorkOf(pindexBest), pindexNewBest); }
          ok, tips := Attach(attach, rules, flushToDisk);
          return;
        }
        MarkFailed(pindexNewBest, failedAt);
      }
      ok := true;
    }

    /** The loop of ConnectBestBlock that switches to the listed blocks, lowest first. */
    method Attach(attach: seq<BlockIndex>, rules: Rules, flushToDisk: bool)
      returns (ok: bool, ghost tips: seq<BlockIndex>)
      requires Valid()
      requires forall i :: 0 <= i < |attach| ==> attach[i] in tree && WorkOf(pindexBest) < attach[i].nChainWork
      requires forall i, j :: 0 <= i < j < |attach| ==> attach[i].nChainWork > attach[j].nChainWork
      modifies this, pcoinsTip.Repr, tree
      ensures Valid() && tree == old(tree) && pcoinsTip.Repr == old(pcoinsTip.Repr)
      ensures setBlockIndexValid <= old(setBlockIndexValid)
      ensures pindexBest == if tips == [] then old(pindexBest) else tips[|tips| - 1]
      ensures tips <= Reverse(attach) && (ok ==> tips == Reverse(attach))
    {
      hide CoinsAt; hide LinksOk; hide AtBlock; hide CandidatesRight; hide NewBlocksPass; hide LeavingCached;
      hide Reverse; hide LinksRight; hide CoinsRight; hide Exact; hide NoneNegative;
      var order := Reverse(attach);
      tips := [];
      for i := 0 to |order|
        invariant Valid() && tree == old(tree) && pcoinsTip.Repr == old(pcoinsTip.Repr)
        invariant setBlockIndexValid <= old(setBlockIndexValid)
        invariant tips == order[..i] && pindexBest == if i == 0 then old(pindexBest) else order[i - 1]
      {
        ok := SetBestChain(order[i], rules, flushToDisk);
        if !ok { return; }
        tips := tips + [order[i]];
      }
      ok := true;
    }

    /** Any run of SetBestChain calls, successful or not, ends in a state whose unspent outputs are those
        of replaying the tip's branch from genesis: exactly if no surviving transaction has a negative
        version, and up to these versions otherwise. */
    method Run(targets: seq<BlockIndex>, rules: seq<Rules>, flushes: seq<bool>)
      requires Valid() && |targets| == |rules| == |flushes| && forall i :: 0 <= i < |targets| ==> targets[i] in tree
      modifies this, pcoinsTip.Repr, tree
      ensures Valid() && tree == old(tree)
      ensures pindexBest != null ==>
                && pindexBest.Linked() && Replay(pindexBest).Some?
                && var now, r := Live(pcoinsTip.Contents), Live(Replay(pindexBest).value);
                   && now.Keys == r.Keys && (forall t :: t in r ==> t in now && RecordLike(now[t], r[t], true))
                   && (NoneNegative(pindexBest) ==> now == r)
      ensures pindexBest != null ==> forall out :: Unspent(pcoinsTip.Contents, out) <==> UnspentOn(pindexBest, out)
      ensures pindexBest == old(pindexBest) || pindexBest in targets
    {
      for i := 0 to |targets|
        invariant Valid() && tree == old(tree) && pcoinsTip.Repr == old(pcoinsTip.Repr)
        invariant pindexBest == old(pindexBest) || pindexBest in targets
      {
        hide CoinsAt; hide LinksOk; hide CandidatesRight; hide NewBlocksPass; hide LeavingCached; hide Exact;
        var ok := SetBestChain(targets[i], rules[i], flushes[i]);
      }
      if pindexBest != null {
        SameLiveIff(pcoinsTip.Contents, Replay(pindexBest).value, true);
        ExactIff(pcoinsTip.Contents, pindexBest);
        forall out ensures Unspent(pcoinsTip.Contents, out) <==> UnspentOn(pindexBest, out) {
          TipLaw(pcoinsTip.Contents, pindexBest, out);
        }
      }
    }
  }

  /** `b` is an ancestor of `tip`, or `tip`, above height `h`. */
  ghost predicate Above(tip: BlockIndex, h: int, b: BlockIndex) {
    tip.Linked() && tip.HasAncestor(b) && b.nHeight > h
  }

  lemma {:induction false} AboveTop(tip: BlockIndex)
    ensures forall b :: !Above(tip, tip.nHeight, b)
  {
  }

  lemma {:induction false} AboveStep(tip: BlockIndex, p: BlockIndex)
    requires tip.Linked() && tip.HasAncestor(p) && p.nHeight > 0
    ensures forall b :: Above(tip, p.nHeight - 1, b) <==> Above(tip, p.nHeight, b) || b == p
  {
    forall b ensures Above(tip, p.nHeight - 1, b) <==> Above(tip, p.nHeight, b) || b == p {
      if b.nHeight == p.nHeight {}
    }
  }

  /** `list` holds every ancestor of `tip` from height `h` up that has more work than `work`. */
  ghost predicate ListsAbove(list: seq<BlockIndex>, work: int, tip: BlockIndex, h: nat)
    requires tip.Linked()
  {
    forall g {:trigger tip.Ancestor(g)} :: h <= g <= tip.nHeight && work < tip.Ancestor(g).nChainWork ==>
      tip.Ancestor(g) in list
  }

  lemma {:induction false} FirstListed(list: seq<BlockIndex>, work: int, tip: BlockIndex)
    requires tip.Linked() && work < tip.nChainWork && ListsAbove(list, work, tip, 0)
    requires forall i :: 0 <= i < |list| ==> list[i].Linked() && tip.HasAncestor(list[i])
    requires forall i, j :: 0 <= i < j < |list| ==> list[i].nChainWork > list[j].nChainWork
    ensures list != [] && list[0] == tip
  {
    assert tip.Ancestor(tip.nHeight) == tip;
    var i :| 0 <= i < |list| && list[i] == tip;
    assert tip.Ancestor(list[0].nHeight) == list[0];
  }

  /** Below genesis there is nothing, and below a block of the active chain nothing with more work. */
  lemma {:induction false} NothingBelow(tree: set<BlockIndex>, best: BlockIndex?, tip: BlockIndex, p: BlockIndex)
    requires TreeOk(tree) && (best != null ==> best in tree) && LinksOk(tree, best) && tip in tree && p in tree
    requires tip.HasAncestor(p)
    requires p.pprev == null || p.pnext != null
    ensures forall g {:trigger tip.Ancestor(g)} :: 0 <= g < p.nHeight ==> tip.Ancestor(g).nChainWork <= WorkOf(best)
  {
    if p.pprev != null {
      assert p.pnext == Next(best, p);
      forall g | 0 <= g < p.nHeight ensures tip.Ancestor(g).nChainWork <= WorkOf(best) {
        tip.AncestorOfAncestor(p.nHeight, g);
      }
    }
  }

  function Abs(x: int): nat { if x < 0 then -x else x }

  function WorkOf(b: BlockIndex?): int { if b == null then -1 else b.nChainWork }

  /** CBlockIndexWorkComparator. */
  predicate WorkLess(a: BlockIndex, b: BlockIndex) {
    a.nChainWork < b.nChainWork || (a.nChainWork == b.nChainWork && a.hash > b.hash)
  }
}
