/** Block locators: a node describes its branch by a few hashes, dense near the tip and exponentially
    sparser below; another node finds the last block they share, approximately. */
module Locators {
  import opened BlockIndexes
  import opened Chain
  import ChainStates
  import opened Bits

  /** The step taken after entry `k`. */
  function Step(k: nat): nat { if k <= 10 then 1 else 2 * Step(k - 1) }

  /** How far below the tip entry `k` stands. */
  function Back(k: nat): nat { if k == 0 then 0 else Back(k - 1) + Step(k - 1) }

  lemma {:induction false} BackClosed(k: nat)
    ensures k <= 11 ==> Back(k) == k
    ensures k >= 11 ==> Step(k) == Pow2(k - 10) && Back(k) == 9 + Pow2(k - 10)
  {
    if k > 11 {
      BackClosed(k - 1);
    } else if k == 11 {
      BackClosed(10);
      assert Step(10) == 1 && Pow2(1) == 2 * Pow2(0);
    } else if k > 0 {
      BackClosed(k - 1);
    }
  }

  /** An entry is less than twice as far back as the one before it. */
  lemma {:induction false} BackAtMostDoubles(k: nat)
    ensures Back(k) < Back(k + 1) <= 2 * Back(k) + 1
    ensures k >= 1 ==> Back(k + 1) <= 2 * Back(k)
  {
    BackClosed(k);
    BackClosed(k + 1);
    if k < 11 { assert Step(k) == 1; }
  }

  // ------------------------------------------------------------ the sender

  /** `b` is the block `d` below the tip, null if the chain does not reach so far. */
  ghost predicate At(tip: BlockIndex, d: nat, b: BlockIndex?)
    requires tip.Linked()
  {
    if d <= tip.nHeight then b == tip.Ancestor(tip.nHeight - d) else b == null
  }

  /** The hashes of the tip's ancestors at the distances Back(0), Back(1), ... */
  ghost predicate Spaced(vHave: seq<nat>, tip: BlockIndex)
    requires tip.Linked()
  {
    forall k :: 0 <= k < |vHave| ==> Back(k) <= tip.nHeight && vHave[k] == tip.Ancestor(tip.nHeight - Back(k)).hash
  }

  /** What Set leaves: such hashes as far as the chain reaches, then the genesis hash. */
  ghost predicate Locates(vHave: seq<nat>, tip: BlockIndex?, hashGenesis: nat) {
    && |vHave| >= 1 && vHave[|vHave| - 1] == hashGenesis
    && if tip == null then |vHave| == 1
       else tip.Linked() && Back(|vHave| - 1) > tip.nHeight && Spaced(vHave[..|vHave| - 1], tip)
  }

  method Walk(from: BlockIndex, nStep: nat, ghost tip: BlockIndex, ghost d: nat) returns (pindex: BlockIndex?)
    requires tip.Linked() && At(tip, d, from) && nStep > 0
    ensures At(tip, d + nStep, pindex)
    ensures pindex != null ==> pindex.nHeight < from.nHeight
  {
    pindex := from;
    var i := 0;
    while pindex != null && i < nStep
      invariant 0 <= i <= nStep && At(tip, d + i, pindex) && (pindex != null && i > 0 ==> pindex.nHeight < from.nHeight)
      decreases nStep - i
    {
      Deeper(tip, d + i, pindex);
      pindex := pindex.pprev;
      i := i + 1;
    }
  }

  method Set(tip: BlockIndex?, hashGenesis: nat) returns (vHave: seq<nat>)
    requires tip != null ==> tip.Linked()
    ensures Locates(vHave, tip, hashGenesis)
  {
    hide At; hide Spaced;
    vHave := [];
    var nStep: nat, pindex := 1, tip;
    if tip != null { StartAt(tip); }
    while pindex != null
      invariant tip == null ==> pindex == null && vHave == []
      invariant tip != null ==> nStep == Step(|vHave|) > 0 && Spaced(vHave, tip) && At(tip, Back(|vHave|), pindex)
      decreases if pindex == null then 0 else pindex.nHeight + 1
    {
      ghost var d := Back(|vHave|);
      Listing(vHave, tip, pindex);
      vHave := vHave + [pindex.hash];
      pindex := Walk(pindex, nStep, tip, d);
      if |vHave| > 10 { nStep := nStep * 2; }
    }
    if tip != null { Exhausted(tip, Back(|vHave|)); }
    assert (vHave + [hashGenesis])[..|vHave|] == vHave;
    vHave := vHave + [hashGenesis];
  }

  lemma {:induction false} StartAt(tip: BlockIndex)
    requires tip.Linked()
    ensures At(tip, 0, tip) && Spaced([], tip)
  {
  }

  lemma {:induction false} Listing(vHave: seq<nat>, tip: BlockIndex, b: BlockIndex)
    requires tip.Linked() && Spaced(vHave, tip) && At(tip, Back(|vHave|), b)
    ensures Spaced(vHave + [b.hash], tip)
  {
  }

  lemma {:induction false} Exhausted(tip: BlockIndex, d: nat)
    requires tip.Linked() && At(tip, d, null)
    ensures d > tip.nHeight
  {
  }

  lemma {:induction false} Deeper(tip: BlockIndex, d: nat, b: BlockIndex)
    requires tip.Linked() && At(tip, d, b)
    ensures At(tip, d + 1, b.pprev) && (b.pprev != null ==> b.pprev.nHeight < b.nHeight)
  {
    if d < tip.nHeight { tip.AncestorOfAncestor(tip.nHeight - d, tip.nHeight - d - 1); }
  }

  /** The length is logarithmic: beyond a dozen entries, each doubles the height described. */
  lemma {:induction false} LocatorShort(vHave: seq<nat>, tip: BlockIndex, hashGenesis: nat)
    requires Locates(vHave, tip, hashGenesis)
    ensures |vHave| >= 13 ==> Pow2(|vHave| - 12) < tip.nHeight
  {
    if |vHave| >= 13 { BackClosed(|vHave| - 2); }
  }

  // ------------------------------------------------------------ the receiver

  ghost predicate OnMain(index: map<nat, BlockIndex>, best: BlockIndex?, hash: nat)
    reads index.Values`pnext
    ensures OnMain(index, best, hash) ==> hash in index
  {
    hash in index && (index[hash].pnext != null || index[hash] == best)
  }

  ghost predicate FirstOnMain(vHave: seq<nat>, index: map<nat, BlockIndex>, best: BlockIndex?, genesis: BlockIndex?,
                              r: BlockIndex?)
    reads index.Values`pnext
  {
    || (r == genesis && forall i :: 0 <= i < |vHave| ==> !OnMain(index, best, vHave[i]))
    || exists k :: 0 <= k < |vHave| && OnMain(index, best, vHave[k]) && r == index[vHave[k]] &&
         forall i :: 0 <= i < k ==> !OnMain(index, best, vHave[i])
  }

  /** The first block of the locator that is in the receiver's main chain, else genesis. */
  method GetBlockIndex(vHave: seq<nat>, index: map<nat, BlockIndex>, best: BlockIndex?,
                       genesis: BlockIndex?) returns (r: BlockIndex?)
    ensures FirstOnMain(vHave, index, best, genesis, r)
  {
    for k := 0 to |vHave|
      invariant forall i :: 0 <= i < k ==> !OnMain(index, best, vHave[i])
    {
      if vHave[k] in index {
        var pindex := index[vHave[k]];
        if pindex.pnext != null || pindex == best { return pindex; }
      }
    }
    r := genesis;
  }

  /** The receiver's block index: its tree with right links, findable by hash. */
  ghost predicate Receiver(tree: set<BlockIndex>, index: map<nat, BlockIndex>, best: BlockIndex)
    reads tree`pnext
  {
    && TreeOk(tree) && best in tree && best.Linked() && LinksOk(tree, best)
    && (forall h :: h in index ==> index[h] in tree && index[h].hash == h)
    && (forall b :: b in tree ==> b.hash in index && index[b.hash] == b)
  }

  ghost predicate OnChain(best: BlockIndex, hash: nat)
    requires best.Linked()
  {
    exists g: nat :: g <= best.nHeight && best.Ancestor(g).hash == hash
  }

  lemma {:induction false} OnMainIff(tree: set<BlockIndex>, index: map<nat, BlockIndex>, best: BlockIndex, hash: nat)
    requires Receiver(tree, index, best)
    ensures OnMain(index, best, hash) <==> OnChain(best, hash)
  {
    if OnMain(index, best, hash) {
      ChainStates.InMainChainIff(tree, best, index[hash]);
      assert best.Ancestor(index[hash].nHeight).hash == hash;
    }
    if OnChain(best, hash) {
      var g: nat :| g <= best.nHeight && best.Ancestor(g).hash == hash;
      AncestorInTree(tree, best, g);
      ChainStates.InMainChainIff(tree, best, index[hash]);
    }
  }

  /** The sender's branch leaves the receiver's main chain `f` blocks below its tip. */
  ghost predicate ForksAt(tip: BlockIndex, best: BlockIndex, f: nat)
    requires tip.Linked() && best.Linked()
  {
    f <= tip.nHeight && forall h: nat :: h <= tip.nHeight ==>
      (OnChain(best, tip.Ancestor(h).hash) <==> h <= tip.nHeight - f)
  }

  /** Which entries of the locator the receiver knows in its main chain. */
  lemma {:induction false} EntryShared(vHave: seq<nat>, tip: BlockIndex, tree: set<BlockIndex>,
                                       index: map<nat, BlockIndex>, best: BlockIndex, f: nat, i: nat)
    requires tip.Linked() && Locates(vHave, tip, tip.Ancestor(0).hash) && Receiver(tree, index, best)
    requires ForksAt(tip, best, f) && i < |vHave|
    ensures f <= tip.nHeight
    ensures if i == |vHave| - 1 then OnMain(index, best, vHave[i]) && vHave[i] == tip.Ancestor(0).hash
            else
              && Back(i) <= tip.nHeight && vHave[i] == tip.Ancestor(tip.nHeight - Back(i)).hash
              && (OnMain(index, best, vHave[i]) <==> Back(i) >= f)
  {
    OnMainIff(tree, index, best, vHave[i]);
    hide OnMain; hide OnChain; hide Receiver; hide Back;
    if i < |vHave| - 1 { assert vHave[..|vHave| - 1][i] == vHave[i]; }
  }

  /** The block found is shared by both chains, and at most twice as far below the sender's tip as
      the point where they part. */
  lemma {:induction false} LocatorFinds(vHave: seq<nat>, tip: BlockIndex, tree: set<BlockIndex>,
                                        index: map<nat, BlockIndex>, best: BlockIndex, genesis: BlockIndex?,
                                          r: BlockIndex?, f: nat)
    requires tip.Linked() && Locates(vHave, tip, tip.Ancestor(0).hash) && Receiver(tree, index, best)
    requires ForksAt(tip, best, f)
    requires FirstOnMain(vHave, index, best, genesis, r)
    ensures r != null && exists g: nat :: tip.nHeight - 2 * f <= g <= tip.nHeight - f && r.hash == tip.Ancestor(g).hash
  {
    hide Receiver; hide OnMain; hide ForksAt; hide Back; hide Spaced;
    var last := |vHave| - 1;
    EntryShared(vHave, tip, tree, index, best, f, last);
    var k :| 0 <= k < |vHave| && OnMain(index, best, vHave[k]) && r == index[vHave[k]] &&
      forall i :: 0 <= i < k ==> !OnMain(index, best, vHave[i]);
    hide FirstOnMain;
    Found(tree, index, best, vHave[k]);
    EntryShared(vHave, tip, tree, index, best, f, k);
    if k == 0 {
      BackZero();
    } else {
      EntryShared(vHave, tip, tree, index, best, f, k - 1);
      BackAtMostDoubles(k - 1);
    }
    var d := if k < last then Back(k) else tip.nHeight;
    assert r.hash == tip.Ancestor(tip.nHeight - d).hash;
    assert f <= d <= 2 * f;
  }

  lemma {:induction false} BackZero()
    ensures Back(0) == 0
  {
  }

  lemma {:induction false} Found(tree: set<BlockIndex>, index: map<nat, BlockIndex>, best: BlockIndex, hash: nat)
    requires Receiver(tree, index, best) && OnMain(index, best, hash)
    ensures hash in index && index[hash].hash == hash
  {
  }
}
