/** Merkle branches: from a leaf to the root. */
module MerkleBranches {
  import opened Merkle

  /** A node and its sibling in the order in which they are hashed: the lowest bit of the index says on
      which side the node is. */
  function Ordered<D>(hash: D, other: D, index: int): (D, D) {
    if index % 2 == 1 then (other, hash) else (hash, other)
  }

  /** Hashing from a leaf up along a branch. */
  function BranchRoot<D>(H: (D, D) -> D, hash: D, branch: seq<D>, index: int): D
    decreases |branch|
  {
    if branch == [] then hash
    else
      var (x, y) := Ordered(hash, branch[0], index);
      BranchRoot(H, H(x, y), branch[1..], index / 2)
  }

  /** The pair that is hashed at level `k` of the branch. */
  function PairAt<D>(H: (D, D) -> D, hash: D, branch: seq<D>, index: int, k: nat): (D, D)
    requires k < |branch|
    decreases |branch|
  {
    var (x, y) := Ordered(hash, branch[0], index);
    if k == 0 then (x, y) else PairAt(H, H(x, y), branch[1..], index / 2, k - 1)
  }

  /** Level `k` of the two branches exhibits a collision: different pairs with the same hash. */
  ghost predicate CollidesAt<D(!new)>(H: (D, D) -> D, a: D, s: seq<D>, b: D, t: seq<D>, index: int, k: nat)
    requires k < |s| == |t|
  {
    var p, q := PairAt(H, a, s, index, k), PairAt(H, b, t, index, k);
    p != q && H(p.0, p.1) == H(q.0, q.1)
  }

  /** CBlock::CheckMerkleBranch. */
  method CheckMerkleBranch<D>(H: (D, D) -> D, zero: D, hash: D, vMerkleBranch: seq<D>, nIndex: int) returns (r: D)
    ensures r == if nIndex == -1 then zero else BranchRoot(H, hash, vMerkleBranch, nIndex)
  {
    if nIndex == -1 { return zero; }
    r := hash;
    var index := nIndex;
    for k := 0 to |vMerkleBranch|
      invariant BranchRoot(H, r, vMerkleBranch[k..], index) == BranchRoot(H, hash, vMerkleBranch, nIndex)
    {
      var otherside := vMerkleBranch[k];
      assert vMerkleBranch[k..][0] == otherside && vMerkleBranch[k..][1..] == vMerkleBranch[k + 1..];
      if index % 2 == 1 { r := H(otherside, r); } else { r := H(r, otherside); }
      index := index / 2;
    }
  }

  /** For a fixed index and length, two ways to the same root are the same leaf with the same branch, or
      show a collision of the hash at one of their levels. */
  lemma {:induction false} BranchInjective<D(!new)>(H: (D, D) -> D, a: D, b: D, s: seq<D>, t: seq<D>, index: int)
    requires |s| == |t| && BranchRoot(H, a, s, index) == BranchRoot(H, b, t, index)
    ensures (a == b && s == t) || exists k :: 0 <= k < |s| && CollidesAt(H, a, s, b, t, index, k)
    decreases |s|
  {
    if s != [] {
      var p, q := Ordered(a, s[0], index), Ordered(b, t[0], index);
      var x, y := H(p.0, p.1), H(q.0, q.1);
      BranchInjective(H, x, y, s[1..], t[1..], index / 2);
      if x == y && s[1..] == t[1..] {
        assert s == [s[0]] + s[1..] && t == [t[0]] + t[1..];
        assert p != q ==> CollidesAt(H, a, s, b, t, index, 0);
      } else {
        var k :| 0 <= k < |s[1..]| && CollidesAt(H, x, s[1..], y, t[1..], index / 2, k);
        assert CollidesAt(H, a, s, b, t, index, k + 1);
      }
    }
  }

  /** The position next to `index` in its pair, clipped to the row. */
  function Sibling(index: nat, size: nat): nat
    requires index < size
  {
    if index % 2 == 1 then index - 1 else if index + 1 < size then index + 1 else index
  }

  function Branch<D>(H: (D, D) -> D, row: seq<D>, index: nat): seq<D>
    requires index < |row|
    decreases |row|
  {
    if |row| <= 1 then [] else [row[Sibling(index, |row|)]] + Branch(H, PairUp(H, row), index / 2)
  }

  /** CBlock::GetMerkleBranch on the cached tree. */
  method GetMerkleBranch<D>(H: (D, D) -> D, txids: seq<D>, vMerkleTree: seq<D>, nIndex: nat)
    returns (vMerkleBranch: seq<D>)
    requires nIndex < |txids| && vMerkleTree == Rows(H, txids)
    ensures vMerkleBranch == Branch(H, txids, nIndex)
  {
    hide PairUp; hide Rows; hide Branch;
    vMerkleBranch := [];
    var j, nSize, index := 0, |txids|, nIndex;
    ghost var row := txids;
    while nSize > 1
      invariant 0 <= j && 0 <= index < nSize == |row| && j <= |vMerkleTree|
      invariant vMerkleTree[j..] == Rows(H, row)
      invariant vMerkleBranch + Branch(H, row, index) == Branch(H, txids, nIndex)
      decreases nSize
    {
      var i := if index % 2 == 1 then index - 1 else if index + 1 < nSize - 1 then index + 1 else nSize - 1;
      RowStep(H, row, vMerkleTree, j, index);
      vMerkleBranch := vMerkleBranch + [vMerkleTree[j + i]];
      index := index / 2;
      j := j + nSize;
      row := PairUp(H, row);
      nSize := (nSize + 1) / 2;
    }
    BranchOfOne(H, row, index);
  }

  lemma {:induction false} BranchOfOne<D>(H: (D, D) -> D, row: seq<D>, index: nat)
    requires index < |row| <= 1
    ensures Branch(H, row, index) == []
  {
  }

  lemma {:induction false} RowStep<D>(H: (D, D) -> D, row: seq<D>, tree: seq<D>, j: nat, index: nat)
    requires index < |row| && |row| > 1 && j <= |tree| && tree[j..] == Rows(H, row)
    ensures j + |row| <= |tree| && tree[j + |row|..] == Rows(H, PairUp(H, row))
    ensures |PairUp(H, row)| == (|row| + 1) / 2 && index / 2 < |PairUp(H, row)|
    ensures forall i :: 0 <= i < |row| ==> tree[j + i] == row[i]
    ensures Branch(H, row, index) == [row[Sibling(index, |row|)]] + Branch(H, PairUp(H, row), index / 2)
  {
  }

  /** The branch of a transaction leads back to the block's root. */
  lemma {:induction false} BranchLeadsToRoot<D>(H: (D, D) -> D, row: seq<D>, index: nat)
    requires index < |row|
    ensures BranchRoot(H, row[index], Branch(H, row, index), index) == Root(H, row)
    decreases |row|
  {
    if |row| > 1 {
      PairStep(H, row, index);
      hide PairUp;
      BranchLeadsToRoot(H, PairUp(H, row), index / 2);
      var branch := Branch(H, row, index);
      assert branch[1..] == Branch(H, PairUp(H, row), index / 2);
    }
  }

  lemma {:induction false} PairStep<D>(H: (D, D) -> D, row: seq<D>, index: nat)
    requires index < |row|
    ensures var other := row[Sibling(index, |row|)];
            index / 2 < |PairUp(H, row)| &&
            PairUp(H, row)[index / 2] == if index % 2 == 1 then H(other, row[index]) else H(row[index], other)
  {
  }
}
