/** Merkle trees over transaction ids, for any pair hash `H`. */
module Merkle {
  import opened Bits

  // ------------------------------------------------------------ rows of the tree

  /** The row above `row`; the last node is paired with itself when it has no partner. */
  function PairUp<D>(H: (D, D) -> D, row: seq<D>): (r: seq<D>)
    ensures |r| == (|row| + 1) / 2
    ensures forall i :: 0 <= i < |r| ==> r[i] == H(row[2 * i], row[if 2 * i + 1 < |row| then 2 * i + 1 else 2 * i])
  {
    seq((|row| + 1) / 2, i requires 0 <= i < (|row| + 1) / 2 =>
      H(row[2 * i], row[if 2 * i + 1 < |row| then 2 * i + 1 else 2 * i]))
  }

  function Row<D>(H: (D, D) -> D, txids: seq<D>, height: nat): seq<D> {
    if height == 0 then txids else PairUp(H, Row(H, txids, height - 1))
  }

  /** The root as the tree is built: row by row until one node is left. */
  function Root<D>(H: (D, D) -> D, row: seq<D>): D
    requires row != []
    decreases |row|
  {
    if |row| == 1 then row[0] else Root(H, PairUp(H, row))
  }

  /** All rows from `row` up, one after the other. */
  function Rows<D>(H: (D, D) -> D, row: seq<D>): seq<D>
    decreases |row|
  {
    if |row| <= 1 then row else row + Rows(H, PairUp(H, row))
  }

  /** CBlock::BuildMerkleTree: the cached rows and the root, which is zero without transactions. */
  method BuildMerkleTree<D>(H: (D, D) -> D, zero: D, txids: seq<D>) returns (vMerkleTree: seq<D>, root: D)
    ensures vMerkleTree == Rows(H, txids)
    ensures root == if txids == [] then zero else Root(H, txids)
  {
    hide PairUp; hide Rows; hide Root;
    vMerkleTree := txids;
    assert vMerkleTree[..0] + Rows(H, txids) == Rows(H, txids) && vMerkleTree[0..] == txids;
    var j, nSize := 0, |txids|;
    while nSize > 1
      invariant 0 <= j && 0 <= nSize && |vMerkleTree| == j + nSize
      invariant vMerkleTree[..j] + Rows(H, vMerkleTree[j..]) == Rows(H, txids)
      invariant txids != [] ==> nSize > 0 && Root(H, vMerkleTree[j..]) == Root(H, txids)
      decreases nSize
    {
      RowsStep(H, vMerkleTree[j..]);
      var next := AppendRow(H, vMerkleTree, j);
      assert next[..j + nSize] == vMerkleTree[..j] + vMerkleTree[j..];
      assert vMerkleTree[..j] + (vMerkleTree[j..] + Rows(H, next[j + nSize..]))
          == next[..j + nSize] + Rows(H, next[j + nSize..]);
      vMerkleTree := next;
      j := j + nSize;
      nSize := (nSize + 1) / 2;
    }
    RowsLast(H, vMerkleTree[j..]);
    assert vMerkleTree == vMerkleTree[..j] + vMerkleTree[j..];
    root := if vMerkleTree == [] then zero else vMerkleTree[|vMerkleTree| - 1];
  }

  /** The inner loop: append the row above the last one, which starts at `j`. */
  method AppendRow<D>(H: (D, D) -> D, tree: seq<D>, j: nat) returns (r: seq<D>)
    requires j < |tree|
    ensures |r| == |tree| + (|tree| - j + 1) / 2
    ensures r[..|tree|] == tree && r[|tree|..] == PairUp(H, tree[j..])
  {
    r := tree;
    var nSize, i := |tree| - j, 0;
    ghost var up := PairUp(H, tree[j..]);
    while i < nSize
      invariant 0 <= i <= nSize + 1 && i % 2 == 0
      invariant |r| == |tree| + i / 2 && r[..|tree|] == tree
      invariant forall k :: 0 <= k < i / 2 ==> r[|tree| + k] == up[k]
    {
      var i2 := if i + 1 < nSize - 1 then i + 1 else nSize - 1;
      assert r[j + i] == tree[j..][i] && r[j + i2] == tree[j..][i2];
      r := r + [H(r[j + i], r[j + i2])];
      i := i + 2;
    }
    assert r[|tree|..] == up;
  }

  lemma {:induction false} RowsStep<D>(H: (D, D) -> D, row: seq<D>)
    requires |row| > 1
    ensures PairUp(H, row) != [] && Root(H, row) == Root(H, PairUp(H, row))
    ensures Rows(H, row) == row + Rows(H, PairUp(H, row))
  {
  }

  lemma {:induction false} RowsLast<D>(H: (D, D) -> D, row: seq<D>)
    requires |row| <= 1
    ensures Rows(H, row) == row && (row != [] ==> Root(H, row) == row[0])
  {
  }

  // ------------------------------------------------------------ widths and nodes

  /** The number of nodes at a height over `n` leaves. */
  function Width(n: nat, height: nat): nat {
    if height == 0 then n else (Width(n, height - 1) + 1) / 2
  }

  /** CalcTreeWidth's closed form, (n + (1 << height) - 1) >> height. */
  lemma {:induction false} WidthClosed(n: nat, height: nat)
    ensures Width(n, height) == (n + Pow2(height) - 1) / Pow2(height)
  {
    var p, w := Pow2(height), Width(n, height);
    WidthBounds(n, height);
    CeilUnique(n, p, w);
  }

  lemma {:induction false} WidthBounds(n: nat, height: nat)
    ensures Pow2(height) * Width(n, height) >= n
    ensures Pow2(height) * Width(n, height) < n + Pow2(height)
  {
    if height > 0 {
      WidthBounds(n, height - 1);
      var q, v, w := Pow2(height - 1), Width(n, height - 1), Width(n, height);
      TwiceWidth(q, v, w);
      assert Pow2(height) * w == 2 * (q * w);
    }
  }

  lemma {:induction false} TwiceWidth(q: nat, v: nat, w: nat)
    requires w == (v + 1) / 2
    ensures q * v <= 2 * (q * w) <= q * v + q
  {
    if 2 * w == v {
      assert 2 * (q * w) == q * v;
    } else {
      assert 2 * w == v + 1;
      assert 2 * (q * w) == q * (v + 1) == q * v + q;
    }
  }

  lemma {:induction false} CeilUnique(n: nat, p: nat, w: nat)
    requires p >= 1 && n <= p * w < n + p
    ensures (n + p - 1) / p == w
  {
    var r := n + p - 1 - p * w;
    assert 0 <= r < p && n + p - 1 == p * w + r;
    DivUnique(n + p - 1, p, w, r);
  }

  lemma {:induction false} DivUnique(x: nat, p: nat, w: nat, r: nat)
    requires p >= 1 && r < p && x == p * w + r
    ensures x / p == w
  {
    var q, s := x / p, x % p;
    assert x == p * q + s && 0 <= s < p;
    assert p * (q - w) == r - s;
    assert p * (w - q) == s - r;
    if q > w { MulAtLeast(p, q - w); } else if q < w { MulAtLeast(p, w - q); }
  }

  lemma {:induction false} MulAtLeast(p: nat, k: nat)
    requires k >= 1
    ensures p * k >= p
  {
  }

  lemma {:induction false} RowWidth<D>(H: (D, D) -> D, txids: seq<D>, height: nat)
    ensures |Row(H, txids, height)| == Width(|txids|, height)
  {
    if height > 0 { RowWidth(H, txids, height - 1); }
  }

  /** CPartialMerkleTree::CalcHash: a node computed from above. */
  function CalcHash<D>(H: (D, D) -> D, txids: seq<D>, height: nat, pos: nat): D
    requires pos < Width(|txids|, height)
    decreases height
  {
    if height == 0 then txids[pos]
    else
      var left := CalcHash(H, txids, height - 1, 2 * pos);
      var right := if 2 * pos + 1 < Width(|txids|, height - 1)
                   then CalcHash(H, txids, height - 1, 2 * pos + 1) else left;
      H(left, right)
  }

  lemma {:induction false} RowNode<D>(H: (D, D) -> D, txids: seq<D>, height: nat, pos: nat)
    requires height > 0 && pos < Width(|txids|, height)
    ensures var w := Width(|txids|, height - 1);
            && |Row(H, txids, height)| == Width(|txids|, height) && |Row(H, txids, height - 1)| == w && 2 * pos < w
            && var row := Row(H, txids, height - 1);
               Row(H, txids, height)[pos] == H(row[2 * pos], row[if 2 * pos + 1 < w then 2 * pos + 1 else 2 * pos])
  {
    RowWidth(H, txids, height);
    RowWidth(H, txids, height - 1);
  }

  /** Computing a node from above gives the node of the row built from below. */
  lemma {:induction false} CalcHashIsRow<D>(H: (D, D) -> D, txids: seq<D>, height: nat, pos: nat)
    requires pos < Width(|txids|, height)
    ensures pos < |Row(H, txids, height)| && CalcHash(H, txids, height, pos) == Row(H, txids, height)[pos]
    decreases height
  {
    hide Row; hide PairUp; hide CalcHash;
    if height == 0 {
      CalcHashLeaf(H, txids, pos);
    } else {
      CalcHashIsRow(H, txids, height - 1, 2 * pos);
      if 2 * pos + 1 < Width(|txids|, height - 1) { CalcHashIsRow(H, txids, height - 1, 2 * pos + 1); }
      RowWidth(H, txids, height - 1);
      CalcHashIsRowStep(H, txids, height, pos);
    }
  }

  lemma {:induction false} CalcHashLeaf<D>(H: (D, D) -> D, txids: seq<D>, pos: nat)
    requires pos < |txids|
    ensures Row(H, txids, 0) == txids && CalcHash(H, txids, 0, pos) == txids[pos]
  {
  }

  lemma {:induction false} CalcHashIsRowStep<D>(H: (D, D) -> D, txids: seq<D>, height: nat, pos: nat)
    requires height > 0 && pos < Width(|txids|, height) && 2 * pos < Width(|txids|, height - 1)
    requires Width(|txids|, height - 1) == |Row(H, txids, height - 1)|
    requires CalcHash(H, txids, height - 1, 2 * pos) == Row(H, txids, height - 1)[2 * pos]
    requires 2 * pos + 1 < Width(|txids|, height - 1) ==>
               CalcHash(H, txids, height - 1, 2 * pos + 1) == Row(H, txids, height - 1)[2 * pos + 1]
    ensures pos < |Row(H, txids, height)| && CalcHash(H, txids, height, pos) == Row(H, txids, height)[pos]
  {
    RowNode(H, txids, height, pos);
    var row := Row(H, txids, height - 1);
    hide Row; hide PairUp;
    CalcHashStep(H, txids, height, pos, row[2 * pos], row[if 2 * pos + 1 < |row| then 2 * pos + 1 else 2 * pos]);
    hide CalcHash;
  }

  lemma {:induction false} CalcHashStep<D>(H: (D, D) -> D, txids: seq<D>, height: nat, pos: nat, l: D, r: D)
    requires height > 0 && pos < Width(|txids|, height) && 2 * pos < Width(|txids|, height - 1)
    requires CalcHash(H, txids, height - 1, 2 * pos) == l
    requires if 2 * pos + 1 < Width(|txids|, height - 1) then CalcHash(H, txids, height - 1, 2 * pos + 1) == r
              else r == l
    ensures CalcHash(H, txids, height, pos) == H(l, r)
  {
  }

  /** The height at which one node is left, as the two height loops compute it. */
  function TreeHeight(n: nat): nat
    decreases n
  {
    if n <= 1 then 0 else 1 + TreeHeight((n + 1) / 2)
  }

  lemma {:induction false} WidthShift(n: nat, height: nat)
    ensures Width(n, height + 1) == Width((n + 1) / 2, height)
  {
    if height > 0 { WidthShift(n, height - 1); }
  }

  lemma {:induction false} WidthAtHeights(n: nat, k: nat)
    requires n > 0 && k <= TreeHeight(n)
    ensures if k < TreeHeight(n) then Width(n, k) > 1 else Width(n, k) == 1
    decreases n
  {
    if n > 1 && k > 0 {
      WidthShift(n, k - 1);
      WidthAtHeights((n + 1) / 2, k - 1);
    }
  }

  /** The height loop of the constructor and of ExtractMatches. */
  method CalcHeight(n: nat) returns (nHeight: nat)
    requires n > 0
    ensures nHeight == TreeHeight(n)
  {
    nHeight := 0;
    WidthAtHeights(n, 0);
    while Width(n, nHeight) > 1
      invariant nHeight <= TreeHeight(n)
      decreases TreeHeight(n) - nHeight
    {
      WidthAtHeights(n, nHeight);
      nHeight := nHeight + 1;
    }
    WidthAtHeights(n, nHeight);
  }

  lemma {:induction false} RootOfRow<D>(H: (D, D) -> D, txids: seq<D>, height: nat)
    requires txids != [] && height <= TreeHeight(|txids|)
    ensures Row(H, txids, height) != [] && Root(H, Row(H, txids, height)) == Root(H, txids)
  {
    hide Width; hide TreeHeight;
    if height > 0 {
      hide PairUp;
      RootOfRow(H, txids, height - 1);
      WidthAtHeights(|txids|, height - 1);
      RowWidth(H, txids, height - 1);
    }
  }

  /** The root computed from above is the root BuildMerkleTree returns. */
  lemma {:induction false} CalcHashIsRoot<D>(H: (D, D) -> D, txids: seq<D>)
    requires txids != []
    ensures Width(|txids|, TreeHeight(|txids|)) == 1
    ensures CalcHash(H, txids, TreeHeight(|txids|), 0) == Root(H, txids)
  {
    var top := TreeHeight(|txids|);
    WidthAtHeights(|txids|, top);
    RowWidth(H, txids, top);
    RootOfRow(H, txids, top);
    CalcHashIsRow(H, txids, top, 0);
  }
}
