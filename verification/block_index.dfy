/** Entries of the block tree. */
module BlockIndexes {
  import opened Wrappers
  import opened Coins
  import opened Utxo

  /** One block of the tree.  The links towards genesis, the height, the accumulated work and the
      block's own data never change; the link towards the tip, the undo data and the failure
      marks do. */
  class BlockIndex {
    const hash: nat
    const pprev: BlockIndex?
    const nHeight: nat
    const nChainWork: nat
    const vtx: seq<Tx>
    var pnext: BlockIndex?
    var undo: Option<seq<TxUndo>>
    var fFailedValid: bool
    var fFailedChild: bool

    constructor (hash: nat, pprev: BlockIndex?, work: nat, vtx: seq<Tx>)
      requires pprev != null ==> pprev.Linked()
      requires work > 0
      ensures this.hash == hash && this.pprev == pprev && this.vtx == vtx
      ensures Linked() && pnext == null && undo == None && !fFailedValid && !fFailedChild
      ensures nChainWork == (if pprev == null then 0 else pprev.nChainWork) + work
    {
      this.hash, this.pprev, this.vtx := hash, pprev, vtx;
      nHeight := if pprev == null then 0 else pprev.nHeight + 1;
      nChainWork := (if pprev == null then 0 else pprev.nChainWork) + work;
      pnext, undo, fFailedValid, fFailedChild := null, None, false, false;
    }

    /** Heights count the blocks from genesis and every block adds work. */
    ghost predicate Linked()
      decreases nHeight
    {
      if pprev == null then nHeight == 0
      else nHeight == pprev.nHeight + 1 && pprev.nChainWork < nChainWork && pprev.Linked()
    }

    /** The ancestor at height `h` (this block itself at its own height). */
    ghost function Ancestor(h: nat): (r: BlockIndex)
      requires Linked() && h <= nHeight
      ensures r.Linked() && r.nHeight == h
      ensures h < nHeight ==> r.nChainWork < nChainWork
      decreases nHeight
    {
      if h == nHeight then this else pprev.Ancestor(h)
    }

    ghost predicate HasAncestor(a: BlockIndex)
      requires Linked()
    {
      a.nHeight <= nHeight && Ancestor(a.nHeight) == a
    }

    /** An ancestor's ancestor is an ancestor. */
    lemma {:induction false} AncestorOfAncestor(h: nat, g: nat)
      requires Linked() && g <= h <= nHeight
      ensures Ancestor(h).Ancestor(g) == Ancestor(g)
      decreases nHeight
    {
      if h < nHeight { pprev.AncestorOfAncestor(h, g); }
    }
  }
}
