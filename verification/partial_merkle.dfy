/** Partial Merkle trees (BIP 37): an encoder and a decoder over one depth-first traversal. */
module PartialMerkle {
  import opened Bits
  import opened Merkle

  const MAX_BLOCK_SIZE := 2 * 1024 * 1024

  // ------------------------------------------------------------ leaves below a node

  /** The first leaf below node `pos` at a height. */
  function First(height: nat, pos: nat): nat { pos * Pow2(height) }

  lemma {:induction false} FirstOfChildren(height: nat, pos: nat)
    requires height > 0
    ensures First(height - 1, 2 * pos) == First(height, pos)
    ensures First(height - 1, 2 * pos + 2) == First(height, pos + 1)
    ensures First(height, pos) <= First(height - 1, 2 * pos + 1) <= First(height, pos + 1)
  {
  }

  lemma {:induction false} FirstGrows(height: nat, pos: nat)
    ensures First(height, pos) < First(height, pos + 1)
    ensures height == 0 ==> First(height, pos) == pos
  {
  }

  lemma {:induction false} BeyondWidth(n: nat, height: nat, pos: nat)
    requires pos >= Width(n, height)
    ensures First(height, pos) >= n
  {
    WidthBounds(n, height);
    var p, w := Pow2(height), Width(n, height);
    assert pos * p == w * p + (pos - w) * p;
    NonNegative(pos - w, p);
  }

  lemma {:induction false} NonNegative(a: nat, b: nat)
    ensures a * b >= 0
  {
  }

  lemma {:induction false} BelowWidth(n: nat, height: nat, pos: nat)
    requires pos < Width(n, height)
    ensures First(height, pos) < n
  {
    WidthBounds(n, height);
    var p, w := Pow2(height), Width(n, height);
    assert w * p == pos * p + p + (w - 1 - pos) * p;
    NonNegative(w - 1 - pos, p);
  }

  ghost predicate AnyIn(vMatch: seq<bool>, lo: nat, hi: nat) {
    exists p :: lo <= p < hi && p < |vMatch| && vMatch[p]
  }

  /** The selected txids among the leaves lo..hi, in order. */
  function Selected<D>(txids: seq<D>, vMatch: seq<bool>, lo: nat, hi: nat): seq<D>
    requires |txids| == |vMatch|
    decreases hi - lo
  {
    if lo >= hi || lo >= |txids| then []
    else (if vMatch[lo] then [txids[lo]] else []) + Selected(txids, vMatch, lo + 1, hi)
  }

  lemma {:induction false} SelectedSplit<D>(txids: seq<D>, vMatch: seq<bool>, lo: nat, mid: nat, hi: nat)
    requires |txids| == |vMatch| && lo <= mid <= hi
    ensures Selected(txids, vMatch, lo, hi) == Selected(txids, vMatch, lo, mid) + Selected(txids, vMatch, mid, hi)
    decreases mid - lo
  {
    if lo < mid && lo < |txids| {
      SelectedSplit(txids, vMatch, lo + 1, mid, hi);
      var head := if vMatch[lo] then [txids[lo]] else [];
      assert head + (Selected(txids, vMatch, lo + 1, mid) + Selected(txids, vMatch, mid, hi))
          == (head + Selected(txids, vMatch, lo + 1, mid)) + Selected(txids, vMatch, mid, hi);
    } else if lo >= |txids| {
      SelectedBeyond(txids, vMatch, mid, hi);
      SelectedBeyond(txids, vMatch, lo, mid);
      SelectedBeyond(txids, vMatch, lo, hi);
    }
  }

  lemma {:induction false} SelectedNone<D>(txids: seq<D>, vMatch: seq<bool>, lo: nat, hi: nat)
    requires |txids| == |vMatch|
    ensures Selected(txids, vMatch, lo, hi) == [] <==> !AnyIn(vMatch, lo, hi)
    decreases hi - lo
  {
    if lo < hi && lo < |txids| {
      SelectedNone(txids, vMatch, lo + 1, hi);
      if AnyIn(vMatch, lo, hi) && !vMatch[lo] {
        var p :| lo <= p < hi && p < |vMatch| && vMatch[p];
        assert lo + 1 <= p;
      }
    }
  }

  // ------------------------------------------------------------ encoding

  datatype Code<D> = Code(bits: seq<bool>, hashes: seq<D>) {
    function Then(c: Code<D>): Code<D> { Code(bits + c.bits, hashes + c.hashes) }
  }

  /** What TraverseAndBuild appends at a node. */
  ghost function Encode<D>(H: (D, D) -> D, txids: seq<D>, vMatch: seq<bool>, height: nat, pos: nat): Code<D>
    requires |txids| == |vMatch| && pos < Width(|txids|, height)
    decreases height
  {
    var m := AnyIn(vMatch, First(height, pos), First(height, pos + 1));
    if height == 0 || !m then Code([m], [CalcHash(H, txids, height, pos)])
    else
      var left := Code([m], []).Then(Encode(H, txids, vMatch, height - 1, 2 * pos));
      if 2 * pos + 1 < Width(|txids|, height - 1)
      then left.Then(Encode(H, txids, vMatch, height - 1, 2 * pos + 1)) else left
  }

  lemma {:induction false} EncodeCases<D>(H: (D, D) -> D, txids: seq<D>, vMatch: seq<bool>, height: nat, pos: nat)
    requires |txids| == |vMatch| && pos < Width(|txids|, height)
    ensures var m := AnyIn(vMatch, First(height, pos), First(height, pos + 1));
            var c := Encode(H, txids, vMatch, height, pos);
            if height == 0 || !m then c.bits == [m] && c.hashes == [CalcHash(H, txids, height, pos)]
            else
              var l := Encode(H, txids, vMatch, height - 1, 2 * pos);
              if 2 * pos + 1 < Width(|txids|, height - 1)
              then var r := Encode(H, txids, vMatch, height - 1, 2 * pos + 1);
                   c.bits == [m] + l.bits + r.bits && c.hashes == l.hashes + r.hashes
              else c.bits == [m] + l.bits && c.hashes == l.hashes
  {
    hide First; hide AnyIn; hide CalcHash;
  }

  /** At most one hash per leaf, at most one plus `height` per selected leaf, and at least one bit
      per hash. */
  lemma {:induction false} EncodeBounds<D>(H: (D, D) -> D, txids: seq<D>, vMatch: seq<bool>, height: nat, pos: nat)
    requires |txids| == |vMatch| && pos < Width(|txids|, height)
    ensures var c := Encode(H, txids, vMatch, height, pos);
            var leaves := Clip(|txids|, First(height, pos + 1)) - First(height, pos);
            && 1 <= |c.hashes| <= |c.bits| && |c.hashes| <= leaves
            && |c.hashes| <= 1 + |Selected(txids, vMatch, First(height, pos), First(height, pos + 1))| * height
    decreases height
  {
    hide First; hide CalcHash; hide Encode; hide Selected; hide AnyIn;
    var n, lo, hi := |txids|, First(height, pos), First(height, pos + 1);
    BelowWidth(n, height, pos);
    FirstGrows(height, pos);
    SelectedNone(txids, vMatch, lo, hi);
    EncodeCases(H, txids, vMatch, height, pos);
    if height > 0 && AnyIn(vMatch, lo, hi) {
      var mid := First(height - 1, 2 * pos + 1);
      FirstOfChildren(height, pos);
      SelectedSplit(txids, vMatch, lo, mid, hi);
      EncodeBounds(H, txids, vMatch, height - 1, 2 * pos);
      var a, b := |Selected(txids, vMatch, lo, mid)|, |Selected(txids, vMatch, mid, hi)|;
      if 2 * pos + 1 < Width(n, height - 1) {
        EncodeBounds(H, txids, vMatch, height - 1, 2 * pos + 1);
        BelowWidth(n, height - 1, 2 * pos + 1);
        TwoSubtrees(a, b, height);
      } else {
        BeyondWidth(n, height - 1, 2 * pos + 1);
        SelectedBeyond(txids, vMatch, mid, hi);
        OneSubtree(a, height);
      }
    } else {
      NonNegative(|Selected(txids, vMatch, lo, hi)|, height);
    }
  }

  function Clip(n: nat, hi: nat): nat { if hi < n then hi else n }

  lemma {:induction false} TwoSubtrees(a: nat, b: nat, height: nat)
    requires a + b >= 1 && height >= 1
    ensures (1 + a * (height - 1)) + (1 + b * (height - 1)) <= 1 + (a + b) * height
  {
  }

  lemma {:induction false} OneSubtree(a: nat, height: nat)
    requires height >= 1
    ensures 1 + a * (height - 1) <= 1 + a * height
  {
  }

  // ------------------------------------------------------------ decoding

  /** What TraverseAndExtract leaves behind: the node's hash, how far it has read, the matched ids
      with the positions of their leaves, and whether it ran out of data. */
  datatype Read<D> = Read(hash: D, bitsUsed: nat, hashUsed: nat, ids: seq<D>, leaves: seq<nat>, bad: bool)

  function Decode<D>(H: (D, D) -> D, zero: D, n: nat, bits: seq<bool>, hashes: seq<D>,
                     height: nat, pos: nat, bitsUsed: nat, hashUsed: nat): Read<D>
    decreases height
  {
    if bitsUsed >= |bits| then Read(zero, bitsUsed, hashUsed, [], [], true)
    else
      var m := bits[bitsUsed];
      if height == 0 || !m then
        if hashUsed >= |hashes| then Read(zero, bitsUsed + 1, hashUsed, [], [], true)
        else
          var hash := hashes[hashUsed];
          if height == 0 && m then Read(hash, bitsUsed + 1, hashUsed + 1, [hash], [pos], false)
          else Read(hash, bitsUsed + 1, hashUsed + 1, [], [], false)
      else
        var l := Decode(H, zero, n, bits, hashes, height - 1, 2 * pos, bitsUsed + 1, hashUsed);
        if 2 * pos + 1 < Width(n, height - 1) then
          var r := Decode(H, zero, n, bits, hashes, height - 1, 2 * pos + 1, l.bitsUsed, l.hashUsed);
          Read(H(l.hash, r.hash), r.bitsUsed, r.hashUsed, l.ids + r.ids, l.leaves + r.leaves, l.bad || r.bad)
        else l.(hash := H(l.hash, l.hash))
  }

  /** An inner node that is descended into reports what its children report, */
  lemma {:induction false} DecodeInner<D>(H: (D, D) -> D, zero: D, n: nat, bits: seq<bool>, hashes: seq<D>,
                                          height: nat, pos: nat, bitsUsed: nat, hashUsed: nat)
    requires height > 0 && bitsUsed < |bits| && bits[bitsUsed]
    ensures pos < Width(n, height) ==> 2 * pos < Width(n, height - 1)
    ensures var l := Decode(H, zero, n, bits, hashes, height - 1, 2 * pos, bitsUsed + 1, hashUsed);
            Decode(H, zero, n, bits, hashes, height, pos, bitsUsed, hashUsed) ==
              if 2 * pos + 1 < Width(n, height - 1) then
                var r := Decode(H, zero, n, bits, hashes, height - 1, 2 * pos + 1, l.bitsUsed, l.hashUsed);
                Read(H(l.hash, r.hash), r.bitsUsed, r.hashUsed, l.ids + r.ids, l.leaves + r.leaves, l.bad || r.bad)
              else l.(hash := H(l.hash, l.hash))
  {
  }

  /** and a leaf, or a node that is not descended into, at most itself. */
  lemma {:induction false} DecodeOuter<D>(H: (D, D) -> D, zero: D, n: nat, bits: seq<bool>, hashes: seq<D>,
                                          height: nat, pos: nat, bitsUsed: nat, hashUsed: nat)
    requires height == 0 || bitsUsed >= |bits| || !bits[bitsUsed]
    ensures var here := bitsUsed < |bits| && hashUsed < |hashes|;
            var leaf := here && height == 0 && bits[bitsUsed];
            var hash := if here then hashes[hashUsed] else zero;
            Decode(H, zero, n, bits, hashes, height, pos, bitsUsed, hashUsed) ==
            Read(hash, if bitsUsed < |bits| then bitsUsed + 1 else bitsUsed, if here then hashUsed + 1 else hashUsed,
                 if leaf then [hash] else [], if leaf then [pos] else [], !here)
  {
  }

  /** The code of a node, found in the data at the reading position. */
  ghost predicate CodeAt<D>(c: Code<D>, bits: seq<bool>, hashes: seq<D>, bitsUsed: nat, hashUsed: nat) {
    && bitsUsed + |c.bits| <= |bits| && bits[bitsUsed..bitsUsed + |c.bits|] == c.bits
    && hashUsed + |c.hashes| <= |hashes| && hashes[hashUsed..hashUsed + |c.hashes|] == c.hashes
  }

  lemma {:induction false} CodeAtThen<D>(a: Code<D>, b: Code<D>, bits: seq<bool>, hashes: seq<D>, bitsUsed: nat,
                                         hashUsed: nat)
    requires CodeAt(a.Then(b), bits, hashes, bitsUsed, hashUsed)
    ensures CodeAt(a, bits, hashes, bitsUsed, hashUsed)
    ensures CodeAt(b, bits, hashes, bitsUsed + |a.bits|, hashUsed + |a.hashes|)
  {
    var ab := a.Then(b);
    assert a.bits == ab.bits[..|a.bits|] && b.bits == ab.bits[|a.bits|..];
    assert a.hashes == ab.hashes[..|a.hashes|] && b.hashes == ab.hashes[|a.hashes|..];
  }

  /** Decoding gave back what was encoded: the node's hash and exactly the selected ids below it,
      with all of the code consumed. */
  ghost predicate Decoded<D>(H: (D, D) -> D, zero: D, txids: seq<D>, vMatch: seq<bool>, height: nat, pos: nat,
                             bits: seq<bool>, hashes: seq<D>, bitsUsed: nat, hashUsed: nat)
    requires |txids| == |vMatch| && pos < Width(|txids|, height)
  {
    var c := Encode(H, txids, vMatch, height, pos);
    var r := Decode(H, zero, |txids|, bits, hashes, height, pos, bitsUsed, hashUsed);
    && !r.bad && r.hash == CalcHash(H, txids, height, pos)
    && r.bitsUsed == bitsUsed + |c.bits| && r.hashUsed == hashUsed + |c.hashes|
    && r.ids == Selected(txids, vMatch, First(height, pos), First(height, pos + 1))
  }

  /** Decoding what was encoded, wherever it stands in the data. */
  lemma {:induction false} DecodeEncode<D>(H: (D, D) -> D, zero: D, txids: seq<D>, vMatch: seq<bool>, height: nat,
                                           pos: nat, bits: seq<bool>, hashes: seq<D>, bitsUsed: nat, hashUsed: nat)
    requires |txids| == |vMatch| && pos < Width(|txids|, height)
    requires CodeAt(Encode(H, txids, vMatch, height, pos), bits, hashes, bitsUsed, hashUsed)
    ensures Decoded(H, zero, txids, vMatch, height, pos, bits, hashes, bitsUsed, hashUsed)
    decreases height
  {
    hide First; hide CalcHash; hide Decode; hide CodeAt; hide Selected; hide Decoded; hide AnyIn;
    var m := AnyIn(vMatch, First(height, pos), First(height, pos + 1));
    if height == 0 || !m {
      DecodeEncodeStop(H, zero, txids, vMatch, height, pos, bits, hashes, bitsUsed, hashUsed);
    } else {
      var l := Encode(H, txids, vMatch, height - 1, 2 * pos);
      var two := 2 * pos + 1 < Width(|txids|, height - 1);
      if two {
        var r := Encode(H, txids, vMatch, height - 1, 2 * pos + 1);
        CodeAtThen(Code([m], []).Then(l), r, bits, hashes, bitsUsed, hashUsed);
        DecodeEncode(H, zero, txids, vMatch, height - 1, 2 * pos + 1, bits, hashes,
                     bitsUsed + 1 + |l.bits|, hashUsed + |l.hashes|);
      }
      CodeAtThen(Code([m], []), l, bits, hashes, bitsUsed, hashUsed);
      FirstBit(m, bits, hashes, bitsUsed, hashUsed);
      DecodeEncode(H, zero, txids, vMatch, height - 1, 2 * pos, bits, hashes, bitsUsed + 1, hashUsed);
      if two { DecodeEncodeTwo(H, zero, txids, vMatch, height, pos, bits, hashes, bitsUsed, hashUsed); }
      else { DecodeEncodeOne(H, zero, txids, vMatch, height, pos, bits, hashes, bitsUsed, hashUsed); }
    }
  }

  lemma {:induction false} DecodeEncodeStop<D>(H: (D, D) -> D, zero: D, txids: seq<D>, vMatch: seq<bool>, height: nat,
                                               pos: nat, bits: seq<bool>, hashes: seq<D>, bitsUsed: nat, hashUsed: nat)
    requires |txids| == |vMatch| && pos < Width(|txids|, height)
    requires height == 0 || !AnyIn(vMatch, First(height, pos), First(height, pos + 1))
    requires CodeAt(Encode(H, txids, vMatch, height, pos), bits, hashes, bitsUsed, hashUsed)
    ensures Decoded(H, zero, txids, vMatch, height, pos, bits, hashes, bitsUsed, hashUsed)
  {
    hide First; hide CalcHash; hide Decode; hide CodeAt;
    var m := AnyIn(vMatch, First(height, pos), First(height, pos + 1));
    SelectedNone(txids, vMatch, First(height, pos), First(height, pos + 1));
    if height == 0 { LeafSelected(txids, vMatch, pos); }
    hide AnyIn; hide Selected;
    DecodeStop(H, zero, txids, bits, hashes, height, pos, bitsUsed, hashUsed, m);
  }

  lemma {:induction false} DecodeEncodeTwo<D>(H: (D, D) -> D, zero: D, txids: seq<D>, vMatch: seq<bool>, height: nat,
                                              pos: nat, bits: seq<bool>, hashes: seq<D>, bitsUsed: nat, hashUsed: nat)
    requires |txids| == |vMatch| && height > 0 && pos < Width(|txids|, height)
    requires 2 * pos + 1 < Width(|txids|, height - 1)
    requires AnyIn(vMatch, First(height, pos), First(height, pos + 1)) && bitsUsed < |bits| && bits[bitsUsed]
    requires Decoded(H, zero, txids, vMatch, height - 1, 2 * pos, bits, hashes, bitsUsed + 1, hashUsed)
    requires var l := Encode(H, txids, vMatch, height - 1, 2 * pos);
             Decoded(H, zero, txids, vMatch, height - 1, 2 * pos + 1, bits, hashes,
                     bitsUsed + 1 + |l.bits|, hashUsed + |l.hashes|)
    ensures Decoded(H, zero, txids, vMatch, height, pos, bits, hashes, bitsUsed, hashUsed)
  {
    hide First; hide CalcHash; hide Decode; hide AnyIn; hide Selected;
    FirstOfChildren(height, pos);
    SelectedSplit(txids, vMatch, First(height, pos), First(height - 1, 2 * pos + 1), First(height, pos + 1));
    DecodeTwo(H, zero, txids, bits, hashes, height, pos, bitsUsed, hashUsed);
  }

  lemma {:induction false} DecodeEncodeOne<D>(H: (D, D) -> D, zero: D, txids: seq<D>, vMatch: seq<bool>, height: nat,
                                              pos: nat, bits: seq<bool>, hashes: seq<D>, bitsUsed: nat, hashUsed: nat)
    requires |txids| == |vMatch| && height > 0 && pos < Width(|txids|, height)
    requires 2 * pos + 1 >= Width(|txids|, height - 1)
    requires AnyIn(vMatch, First(height, pos), First(height, pos + 1)) && bitsUsed < |bits| && bits[bitsUsed]
    requires Decoded(H, zero, txids, vMatch, height - 1, 2 * pos, bits, hashes, bitsUsed + 1, hashUsed)
    ensures Decoded(H, zero, txids, vMatch, height, pos, bits, hashes, bitsUsed, hashUsed)
  {
    hide First; hide CalcHash; hide Decode; hide AnyIn; hide Selected;
    var mid := First(height - 1, 2 * pos + 1);
    FirstOfChildren(height, pos);
    SelectedSplit(txids, vMatch, First(height, pos), mid, First(height, pos + 1));
    BeyondWidth(|txids|, height - 1, 2 * pos + 1);
    SelectedBeyond(txids, vMatch, mid, First(height, pos + 1));
    DecodeOne(H, zero, txids, bits, hashes, height, pos, bitsUsed, hashUsed);
  }

  lemma {:induction false} FirstBit<D>(m: bool, bits: seq<bool>, hashes: seq<D>, bitsUsed: nat, hashUsed: nat)
    requires CodeAt(Code([m], []), bits, hashes, bitsUsed, hashUsed)
    ensures bitsUsed < |bits| && bits[bitsUsed] == m
  {
  }

  lemma {:induction false} SelectedBeyond<D>(txids: seq<D>, vMatch: seq<bool>, lo: nat, hi: nat)
    requires |txids| == |vMatch| && lo >= |txids|
    ensures Selected(txids, vMatch, lo, hi) == []
  {
  }

  lemma {:induction false} DecodeStop<D>(H: (D, D) -> D, zero: D, txids: seq<D>, bits: seq<bool>, hashes: seq<D>,
                                         height: nat, pos: nat, bitsUsed: nat, hashUsed: nat, m: bool)
    requires pos < Width(|txids|, height) && (height == 0 || !m)
    requires CodeAt(Code([m], [CalcHash(H, txids, height, pos)]), bits, hashes, bitsUsed, hashUsed)
    ensures var r := Decode(H, zero, |txids|, bits, hashes, height, pos, bitsUsed, hashUsed);
            && !r.bad && r.hash == CalcHash(H, txids, height, pos)
            && r.bitsUsed == bitsUsed + 1 && r.hashUsed == hashUsed + 1
            && r.ids == if m then [r.hash] else []
    ensures height == 0 ==> CalcHash(H, txids, height, pos) == txids[pos]
  {
  }

  lemma {:induction false} DecodeTwo<D>(H: (D, D) -> D, zero: D, txids: seq<D>, bits: seq<bool>, hashes: seq<D>,
                                        height: nat, pos: nat, bitsUsed: nat, hashUsed: nat)
    requires height > 0 && pos < Width(|txids|, height) && 2 * pos + 1 < Width(|txids|, height - 1)
    requires bitsUsed < |bits| && bits[bitsUsed]
    requires Decode(H, zero, |txids|, bits, hashes, height - 1, 2 * pos, bitsUsed + 1, hashUsed).hash
             == CalcHash(H, txids, height - 1, 2 * pos)
    requires var l := Decode(H, zero, |txids|, bits, hashes, height - 1, 2 * pos, bitsUsed + 1, hashUsed);
             Decode(H, zero, |txids|, bits, hashes, height - 1, 2 * pos + 1, l.bitsUsed, l.hashUsed).hash
             == CalcHash(H, txids, height - 1, 2 * pos + 1)
    ensures var l := Decode(H, zero, |txids|, bits, hashes, height - 1, 2 * pos, bitsUsed + 1, hashUsed);
            var r := Decode(H, zero, |txids|, bits, hashes, height - 1, 2 * pos + 1, l.bitsUsed, l.hashUsed);
            Decode(H, zero, |txids|, bits, hashes, height, pos, bitsUsed, hashUsed) ==
            Read(CalcHash(H, txids, height, pos), r.bitsUsed, r.hashUsed, l.ids + r.ids, l.leaves + r.leaves,
                 l.bad || r.bad)
  {
  }

  lemma {:induction false} DecodeOne<D>(H: (D, D) -> D, zero: D, txids: seq<D>, bits: seq<bool>, hashes: seq<D>,
                                        height: nat, pos: nat, bitsUsed: nat, hashUsed: nat)
    requires height > 0 && pos < Width(|txids|, height) && 2 * pos + 1 >= Width(|txids|, height - 1)
    requires bitsUsed < |bits| && bits[bitsUsed]
    requires Decode(H, zero, |txids|, bits, hashes, height - 1, 2 * pos, bitsUsed + 1, hashUsed).hash
             == CalcHash(H, txids, height - 1, 2 * pos)
    ensures Decode(H, zero, |txids|, bits, hashes, height, pos, bitsUsed, hashUsed) ==
            Decode(H, zero, |txids|, bits, hashes, height - 1, 2 * pos, bitsUsed + 1, hashUsed).(
              hash := CalcHash(H, txids, height, pos))
  {
  }

  lemma {:induction false} LeafSelected<D>(txids: seq<D>, vMatch: seq<bool>, pos: nat)
    requires |txids| == |vMatch| && pos < |txids|
    ensures Selected(txids, vMatch, First(0, pos), First(0, pos + 1)) == if vMatch[pos] then [txids[pos]] else []
    ensures AnyIn(vMatch, First(0, pos), First(0, pos + 1)) <==> vMatch[pos]
  {
  }

  // ------------------------------------------------------------ soundness

  ghost predicate Increasing(s: seq<nat>) { forall i, j :: 0 <= i < j < |s| ==> s[i] < s[j] }

  /** Positions in increasing order, all in one range. */
  ghost predicate Ordered(s: seq<nat>, lo: nat, hi: nat) {
    Increasing(s) && forall i :: 0 <= i < |s| ==> lo <= s[i] < hi
  }

  lemma {:induction false} OrderedJoin(a: seq<nat>, b: seq<nat>, lo: nat, mid: nat, hi: nat)
    requires Ordered(a, lo, mid) && Ordered(b, mid, hi) && lo <= mid <= hi
    ensures Ordered(a + b, lo, hi)
  {
  }

  lemma {:induction false} OrderedWiden(a: seq<nat>, lo: nat, mid: nat, hi: nat)
    requires Ordered(a, lo, mid) && mid <= hi
    ensures Ordered(a, lo, hi)
  {
  }

  /** The reported leaves are leaves of the tree that lie below the node, in increasing order. */
  lemma {:induction false} LeavesInOrder<D>(H: (D, D) -> D, zero: D, n: nat, bits: seq<bool>, hashes: seq<D>,
                                            height: nat, pos: nat, bitsUsed: nat, hashUsed: nat)
    requires pos < Width(n, height)
    ensures var r := Decode(H, zero, n, bits, hashes, height, pos, bitsUsed, hashUsed);
            && |r.ids| == |r.leaves| && Ordered(r.leaves, First(height, pos), First(height, pos + 1))
            && forall i :: 0 <= i < |r.leaves| ==> r.leaves[i] < n
    decreases height
  {
    hide First; hide Decode; hide Width; hide Ordered;
    if height == 0 || bitsUsed >= |bits| || !bits[bitsUsed] {
      DecodeOuter(H, zero, n, bits, hashes, height, pos, bitsUsed, hashUsed);
      OrderedLeaf(height, pos);
      assert height == 0 ==> Width(n, height) == n by { WidthOfLeaves(n); }
    } else {
      DecodeInner(H, zero, n, bits, hashes, height, pos, bitsUsed, hashUsed);
      FirstOfChildren(height, pos);
      LeavesInOrder(H, zero, n, bits, hashes, height - 1, 2 * pos, bitsUsed + 1, hashUsed);
      var l := Decode(H, zero, n, bits, hashes, height - 1, 2 * pos, bitsUsed + 1, hashUsed);
      var lo, mid, hi := First(height, pos), First(height - 1, 2 * pos + 1), First(height, pos + 1);
      if 2 * pos + 1 < Width(n, height - 1) {
        LeavesInOrder(H, zero, n, bits, hashes, height - 1, 2 * pos + 1, l.bitsUsed, l.hashUsed);
        var r := Decode(H, zero, n, bits, hashes, height - 1, 2 * pos + 1, l.bitsUsed, l.hashUsed);
        OrderedJoin(l.leaves, r.leaves, lo, mid, hi);
      } else {
        OrderedWiden(l.leaves, lo, mid, hi);
      }
    }
  }

  lemma {:induction false} WidthOfLeaves(n: nat)
    ensures Width(n, 0) == n
  {
  }

  lemma {:induction false} OrderedLeaf(height: nat, pos: nat)
    ensures Ordered([], First(height, pos), First(height, pos + 1))
    ensures height == 0 ==> Ordered([pos], First(height, pos), First(height, pos + 1))
  {
  }

  /** Some node that is descended into, at or below this one, exhibits a collision: the hashes of its
      children as decoded are not the true ones and yet have the same hash. */
  ghost predicate CollisionBelow<D(!new)>(H: (D, D) -> D, zero: D, txids: seq<D>, bits: seq<bool>, hashes: seq<D>,
                                          height: nat, pos: nat, bitsUsed: nat, hashUsed: nat)
    requires pos < Width(|txids|, height)
    decreases height
  {
    height > 0 && bitsUsed < |bits| && bits[bitsUsed] &&
    var n, two := |txids|, 2 * pos + 1 < Width(|txids|, height - 1);
    var l := Decode(H, zero, n, bits, hashes, height - 1, 2 * pos, bitsUsed + 1, hashUsed);
    var r := if two then Decode(H, zero, n, bits, hashes, height - 1, 2 * pos + 1, l.bitsUsed, l.hashUsed) else l;
    var left := CalcHash(H, txids, height - 1, 2 * pos);
    var right := if two then CalcHash(H, txids, height - 1, 2 * pos + 1) else left;
    || ((l.hash, r.hash) != (left, right) && H(l.hash, r.hash) == H(left, right))
    || CollisionBelow(H, zero, txids, bits, hashes, height - 1, 2 * pos, bitsUsed + 1, hashUsed)
    || (two && CollisionBelow(H, zero, txids, bits, hashes, height - 1, 2 * pos + 1, l.bitsUsed, l.hashUsed))
  }

  /** Whatever the data: if decoding a node succeeds with the node's true hash, every reported id is
      the id of the leaf at the reported position, or the data exhibits a collision of the hash. */
  lemma {:induction false} DecodeSound<D(!new)>(H: (D, D) -> D, zero: D, txids: seq<D>, bits: seq<bool>, hashes: seq<D>,
                                                height: nat, pos: nat, bitsUsed: nat, hashUsed: nat)
    requires pos < Width(|txids|, height)
    requires var r := Decode(H, zero, |txids|, bits, hashes, height, pos, bitsUsed, hashUsed);
             !r.bad && r.hash == CalcHash(H, txids, height, pos)
    ensures var r := Decode(H, zero, |txids|, bits, hashes, height, pos, bitsUsed, hashUsed);
            || CollisionBelow(H, zero, txids, bits, hashes, height, pos, bitsUsed, hashUsed)
            || (|r.ids| == |r.leaves| &&
              forall i :: 0 <= i < |r.ids| ==> r.leaves[i] < |txids| && r.ids[i] == txids[r.leaves[i]])
    decreases height
  {
    hide Decode; hide Width;
    if height == 0 || bitsUsed >= |bits| || !bits[bitsUsed] {
      DecodeOuter(H, zero, |txids|, bits, hashes, height, pos, bitsUsed, hashUsed);
      WidthOfLeaves(|txids|);
    } else if !CollisionBelow(H, zero, txids, bits, hashes, height, pos, bitsUsed, hashUsed) {
      DecodeInner(H, zero, |txids|, bits, hashes, height, pos, bitsUsed, hashUsed);
      var l := Decode(H, zero, |txids|, bits, hashes, height - 1, 2 * pos, bitsUsed + 1, hashUsed);
      DecodeSound(H, zero, txids, bits, hashes, height - 1, 2 * pos, bitsUsed + 1, hashUsed);
      if 2 * pos + 1 < Width(|txids|, height - 1) {
        DecodeSound(H, zero, txids, bits, hashes, height - 1, 2 * pos + 1, l.bitsUsed, l.hashUsed);
      }
    }
  }
}
