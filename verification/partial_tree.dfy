/** CPartialMerkleTree: the object that is built, sent as bytes and read back. */
module PartialTrees {
  import opened Wrappers
  import opened Bits
  import opened Merkle
  import opened PartialMerkle

  // ------------------------------------------------------------ flag bits as bytes

  predicate BitAt(vBytes: seq<bv8>, p: nat)
    requires p < 8 * |vBytes|
  {
    vBytes[p / 8] & Mask(p % 8) != 0
  }

  lemma {:induction false} SetBit(vBytes: seq<bv8>, p: nat, q: nat)
    requires p < 8 * |vBytes| && q < 8 * |vBytes|
    ensures BitAt(vBytes[p / 8 := vBytes[p / 8] | Mask(p % 8)], q) <==> p == q || BitAt(vBytes, q)
  {
    if p / 8 == q / 8 { SetMask(vBytes[p / 8], p % 8, q % 8); }
  }

  /** The writing branch of the serialization: least significant bit first, padded with zeros. */
  method Pack(vBits: seq<bool>) returns (vBytes: seq<bv8>)
    ensures |vBytes| == (|vBits| + 7) / 8
    ensures forall q :: 0 <= q < 8 * |vBytes| ==> (BitAt(vBytes, q) <==> q < |vBits| && vBits[q])
  {
    vBytes := seq((|vBits| + 7) / 8, _ => 0);
    for p := 0 to |vBits|
      invariant |vBytes| == (|vBits| + 7) / 8
      invariant forall q :: 0 <= q < 8 * |vBytes| ==> (BitAt(vBytes, q) <==> q < p && vBits[q])
    {
      if vBits[p] {
        var next := vBytes[p / 8 := vBytes[p / 8] | Mask(p % 8)];
        forall q | 0 <= q < 8 * |vBytes|
          ensures BitAt(next, q) <==> q == p || BitAt(vBytes, q)
        {
          SetBit(vBytes, p, q);
        }
        vBytes := next;
      }
    }
  }

  /** The reading branch. */
  method Unpack(vBytes: seq<bv8>) returns (vBits: seq<bool>)
    ensures |vBits| == 8 * |vBytes| && forall p :: 0 <= p < |vBits| ==> (vBits[p] <==> BitAt(vBytes, p))
  {
    vBits := [];
    for p := 0 to 8 * |vBytes|
      invariant |vBits| == p && forall q :: 0 <= q < p ==> (vBits[q] <==> BitAt(vBytes, q))
    {
      vBits := vBits + [vBytes[p / 8] & Mask(p % 8) != 0];
    }
  }

  /** Fewer than eight zero bits after the written ones. */
  ghost predicate Padded(bits: seq<bool>, padded: seq<bool>) {
    && bits <= padded && (|bits| + 7) / 8 == (|padded| + 7) / 8
    && forall p :: |bits| <= p < |padded| ==> !padded[p]
  }

  /** Sending the bits as bytes and reading them back. */
  method SendBits(vBits: seq<bool>) returns (received: seq<bool>)
    ensures Padded(vBits, received)
  {
    var vBytes := Pack(vBits);
    received := Unpack(vBytes);
    assert vBits == received[..|vBits|];
  }

  // ------------------------------------------------------------ the object

  /** Whether ExtractMatches accepts the data, on a tree that was not bad before. */
  predicate Accepts<D>(H: (D, D) -> D, zero: D, n: nat, bits: seq<bool>, hashes: seq<D>) {
    && 0 < n <= MAX_BLOCK_SIZE / 60
    && |hashes| <= n && |hashes| <= |bits|
    && var r := Decode(H, zero, n, bits, hashes, TreeHeight(n), 0, 0, 0);
       !r.bad && (r.bitsUsed + 7) / 8 == (|bits| + 7) / 8 && r.hashUsed == |hashes|
  }

  class PartialMerkleTree<D> {
    const H: (D, D) -> D
    const zero: D
    var nTransactions: nat
    var vBits: seq<bool>
    var vHash: seq<D>
    var fBad: bool

    /** Build from a block's txids and the mask of the wanted ones. */
    constructor (H: (D, D) -> D, zero: D, vTxid: seq<D>, vMatch: seq<bool>)
      requires |vTxid| == |vMatch| > 0
      ensures this.H == H && this.zero == zero && nTransactions == |vTxid| && !fBad
      ensures Width(|vTxid|, TreeHeight(|vTxid|)) == 1
      ensures Code(vBits, vHash) == Encode(H, vTxid, vMatch, TreeHeight(|vTxid|), 0)
    {
      this.H, this.zero, nTransactions, vBits, vHash, fBad := H, zero, |vTxid|, [], [], false;
      new;
      var nHeight := CalcHeight(|vTxid|);
      WidthAtHeights(|vTxid|, nHeight);
      TraverseAndBuild(nHeight, 0, vTxid, vMatch);
      ghost var c := Encode(H, vTxid, vMatch, nHeight, 0);
      assert [] + c.bits == c.bits && [] + c.hashes == c.hashes;
    }

    /** A tree as it comes from the network. */
    constructor Received(H: (D, D) -> D, zero: D, nTransactions: nat, vBits: seq<bool>, vHash: seq<D>)
      ensures this.H == H && this.zero == zero && !fBad
      ensures this.nTransactions == nTransactions && this.vBits == vBits && this.vHash == vHash
    {
      this.H, this.zero, this.nTransactions := H, zero, nTransactions;
      this.vBits, this.vHash, fBad := vBits, vHash, false;
    }

    method TraverseAndBuild(height: nat, pos: nat, vTxid: seq<D>, vMatch: seq<bool>)
      requires nTransactions == |vTxid| == |vMatch| && pos < Width(|vTxid|, height)
      modifies `vBits, `vHash
      ensures var c := Encode(H, vTxid, vMatch, height, pos);
              vBits == old(vBits) + c.bits && vHash == old(vHash) + c.hashes
      decreases height
    {
      hide CalcHash; hide First; hide AnyIn; hide Encode;
      EncodeCases(H, vTxid, vMatch, height, pos);
      var fParentOfMatch := ParentOfMatch(vMatch, height, pos);
      vBits := vBits + [fParentOfMatch];
      if height == 0 || !fParentOfMatch {
        vHash := vHash + [CalcHash(H, vTxid, height, pos)];
      } else {
        TraverseAndBuild(height - 1, 2 * pos, vTxid, vMatch);
        if 2 * pos + 1 < Width(nTransactions, height - 1) {
          TraverseAndBuild(height - 1, 2 * pos + 1, vTxid, vMatch);
        }
      }
    }

    method TraverseAndExtract(height: nat, pos: nat, nBitsUsed: nat, nHashUsed: nat, vMatch: seq<D>)
      returns (hash: D, bitsUsed: nat, hashUsed: nat, matches: seq<D>)
      modifies `fBad
      ensures var r := Decode(H, zero, nTransactions, vBits, vHash, height, pos, nBitsUsed, nHashUsed);
              && hash == r.hash && bitsUsed == r.bitsUsed && hashUsed == r.hashUsed
              && matches == vMatch + r.ids && fBad == (old(fBad) || r.bad)
      decreases height
    {
      hide Decode; hide Width;
      if height == 0 || nBitsUsed >= |vBits| || !vBits[nBitsUsed] {
        DecodeOuter(H, zero, nTransactions, vBits, vHash, height, pos, nBitsUsed, nHashUsed);
      } else {
        DecodeInner(H, zero, nTransactions, vBits, vHash, height, pos, nBitsUsed, nHashUsed);
      }
      bitsUsed, hashUsed, matches := nBitsUsed, nHashUsed, vMatch;
      if nBitsUsed >= |vBits| {
        fBad := true;
        return zero, bitsUsed, hashUsed, matches;
      }
      var fParentOfMatch := vBits[nBitsUsed];
      bitsUsed := nBitsUsed + 1;
      if height == 0 || !fParentOfMatch {
        if nHashUsed >= |vHash| {
          fBad := true;
          return zero, bitsUsed, hashUsed, matches;
        }
        hash := vHash[nHashUsed];
        hashUsed := nHashUsed + 1;
        if height == 0 && fParentOfMatch { matches := vMatch + [hash]; }
      } else {
        var left, right;
        left, bitsUsed, hashUsed, matches := TraverseAndExtract(height - 1, 2 * pos, bitsUsed, hashUsed, matches);
        if 2 * pos + 1 < Width(nTransactions, height - 1) {
          right, bitsUsed, hashUsed, matches :=
            TraverseAndExtract(height - 1, 2 * pos + 1, bitsUsed, hashUsed, matches);
        } else {
          right := left;
        }
        hash := H(left, right);
      }
    }

    /** CPartialMerkleTree::ExtractMatches; no root stands for the code's zero. */
    method ExtractMatches() returns (root: Option<D>, vMatch: seq<D>)
      modifies `fBad
      ensures root.Some? <==> !old(fBad) && Accepts(H, zero, nTransactions, vBits, vHash)
      ensures root.Some? ==>
                var r := Decode(H, zero, nTransactions, vBits, vHash, TreeHeight(nTransactions), 0, 0, 0);
                root.value == r.hash && vMatch == r.ids
    {
      hide Decode;
      vMatch := [];
      if nTransactions == 0 { return None, vMatch; }
      if nTransactions > MAX_BLOCK_SIZE / 60 { return None, vMatch; }
      if |vHash| > nTransactions { return None, vMatch; }
      if |vBits| < |vHash| { return None, vMatch; }
      var nHeight := CalcHeight(nTransactions);
      var hashMerkleRoot, nBitsUsed, nHashUsed;
      hashMerkleRoot, nBitsUsed, nHashUsed, vMatch := TraverseAndExtract(nHeight, 0, 0, 0, vMatch);
      if fBad { return None, vMatch; }
      if (nBitsUsed + 7) / 8 != (|vBits| + 7) / 8 { return None, vMatch; }
      if nHashUsed != |vHash| { return None, vMatch; }
      root := Some(hashMerkleRoot);
    }
  }

  /** The loop that looks for a match below a node. */
  method ParentOfMatch(vMatch: seq<bool>, height: nat, pos: nat) returns (m: bool)
    ensures m <==> AnyIn(vMatch, First(height, pos), First(height, pos + 1))
  {
    FirstGrows(height, pos);
    m := false;
    var p, end := First(height, pos), First(height, pos + 1);
    hide First;
    while p < end && p < |vMatch|
      invariant First(height, pos) <= p <= end
      invariant m <==> exists q :: First(height, pos) <= q < p && q < |vMatch| && vMatch[q]
    {
      m := m || vMatch[p];
      p := p + 1;
    }
  }

  // ------------------------------------------------------------ round trip and soundness

  /** For every block within the size limit and every mask, the built tree, also after its bits
      have been padded to whole bytes, is accepted with the block's Merkle root and yields exactly
      the wanted txids in order; it stores at most one hash per transaction and at most one plus
      the tree height per wanted transaction. */
  lemma {:induction false} ExtractBuilt<D>(H: (D, D) -> D, zero: D, txids: seq<D>, vMatch: seq<bool>,
                                           received: seq<bool>)
    requires |txids| == |vMatch| && 0 < |txids| <= MAX_BLOCK_SIZE / 60
    requires Width(|txids|, TreeHeight(|txids|)) == 1
    requires Padded(Encode(H, txids, vMatch, TreeHeight(|txids|), 0).bits, received)
    ensures var c := Encode(H, txids, vMatch, TreeHeight(|txids|), 0);
            var r := Decode(H, zero, |txids|, received, c.hashes, TreeHeight(|txids|), 0, 0, 0);
            && Accepts(H, zero, |txids|, received, c.hashes)
            && r.hash == Root(H, txids) && r.ids == Selected(txids, vMatch, 0, |txids|)
            && |c.hashes| <= |txids| && |c.hashes| <= 1 + |r.ids| * TreeHeight(|txids|)
  {
    hide First; hide Decode; hide Encode; hide Selected; hide CalcHash; hide Root;
    var n, top := |txids|, TreeHeight(|txids|);
    var c := Encode(H, txids, vMatch, top, 0);
    EncodeBounds(H, txids, vMatch, top, 0);
    assert CodeAt(c, received, c.hashes, 0, 0);
    DecodeEncode(H, zero, txids, vMatch, top, 0, received, c.hashes, 0, 0);
    CalcHashIsRoot(H, txids);
    WholeBlock(txids, vMatch, top);
  }

  lemma {:induction false} WholeBlock<D>(txids: seq<D>, vMatch: seq<bool>, top: nat)
    requires |txids| == |vMatch| && Width(|txids|, top) == 1
    ensures First(top, 0) == 0 && First(top, 1) >= |txids|
    ensures Selected(txids, vMatch, First(top, 0), First(top, 0 + 1)) == Selected(txids, vMatch, 0, |txids|)
  {
    BeyondWidth(|txids|, top, 1);
    SelectedSplit(txids, vMatch, 0, |txids|, First(top, 1));
    SelectedBeyond(txids, vMatch, |txids|, First(top, 1));
  }

  /** Soundness: with the true transaction count, whatever bits and hashes are accepted with the true
      root yield only txids of the block, at increasing positions, or exhibit a collision of the hash
      at a node of the tree. */
  lemma {:induction false} ExtractSound<D(!new)>(H: (D, D) -> D, zero: D, txids: seq<D>, bits: seq<bool>,
                                                 hashes: seq<D>)
    requires txids != [] && Accepts(H, zero, |txids|, bits, hashes)
    requires Decode(H, zero, |txids|, bits, hashes, TreeHeight(|txids|), 0, 0, 0).hash == Root(H, txids)
    ensures var r := Decode(H, zero, |txids|, bits, hashes, TreeHeight(|txids|), 0, 0, 0);
            && |r.ids| == |r.leaves| && Increasing(r.leaves) && Width(|txids|, TreeHeight(|txids|)) == 1
            && (|| CollisionBelow(H, zero, txids, bits, hashes, TreeHeight(|txids|), 0, 0, 0)
                || forall i :: 0 <= i < |r.ids| ==> r.leaves[i] < |txids| && r.ids[i] == txids[r.leaves[i]])
  {
    CalcHashIsRoot(H, txids);
    hide Decode; hide CalcHash; hide Root; hide CollisionBelow;
    LeavesInOrder(H, zero, |txids|, bits, hashes, TreeHeight(|txids|), 0, 0, 0);
    DecodeSound(H, zero, txids, bits, hashes, TreeHeight(|txids|), 0, 0, 0);
  }
}
