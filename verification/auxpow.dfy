/** CAuxPow::Check: proof of work done on a parent chain. */
module AuxPows {
  import opened Bits
  import opened Merkle
  import opened MerkleBranches

  type Byte = b: nat | b < 256

  const MERGED_MINING_HEADER: seq<Byte> := [0xfa, 0xbe, 0x6d, 0x6d]

  predicate OccursAt(s: seq<Byte>, pat: seq<Byte>, i: nat) {
    i + |pat| <= |s| && s[i..i + |pat|] == pat
  }

  /** An occurrence is a place where the pattern can be cut out. */
  lemma {:induction false} OccursIff(s: seq<Byte>, pat: seq<Byte>, i: nat)
    ensures OccursAt(s, pat, i) <==> exists before, rest :: |before| == i && s == before + pat + rest
  {
    if OccursAt(s, pat, i) {
      var before, rest := s[..i], s[i + |pat|..];
      assert |before| == i && s == before + pat + rest;
    }
    if exists before, rest :: |before| == i && s == before + pat + rest {
      var before, rest :| |before| == i && s == before + pat + rest;
      assert s[i..i + |pat|] == pat;
    }
  }

  /** std::search from position `from`: the first occurrence, or the end. */
  method Search(s: seq<Byte>, pat: seq<Byte>, from: nat) returns (i: nat)
    requires from <= |s| && pat != []
    ensures from <= i <= |s| && (i < |s| ==> OccursAt(s, pat, i))
    ensures forall k :: from <= k < i ==> !OccursAt(s, pat, k)
  {
    i := from;
    while i < |s| && !OccursAt(s, pat, i)
      invariant from <= i <= |s|
      invariant forall k :: from <= k < i ==> !OccursAt(s, pat, k)
    {
      i := i + 1;
    }
  }

  /** Four bytes, least significant first. */
  function Read32(s: seq<Byte>): nat
    requires |s| == 4
  {
    (s[0] as nat) + 256 * (s[1] as nat) + 65536 * (s[2] as nat) + 16777216 * (s[3] as nat)
  }

  const TWO32: nat := 0x1_0000_0000

  /** The slot of a chain in the merged mining tree, in 32-bit unsigned arithmetic. */
  function Slot(nNonce: nat, nChainID: int, nSize: nat): nat
    requires nSize > 0
  {
    var r1 := (nNonce * 1103515245 + 12345) % TWO32;
    var r2 := (r1 + nChainID) % TWO32;
    var r3 := (r2 * 1103515245 + 12345) % TWO32;
    r3 % nSize
  }

  /** The parts of a CAuxPow that Check looks at.  `auxHash` is the hash of the parent coinbase,
      `script` its input script. */
  datatype AuxPow<D> = AuxPow(nIndex: int, auxHash: D, script: seq<Byte>, vMerkleBranch: seq<D>,
                              vChainMerkleBranch: seq<D>, nChainIndex: nat, parentChainID: int, parentMerkleRoot: D)

  /** The chain parameters: the pair hash, the zero hash, how a hash is written, and whether this is
      a test network. */
  datatype Env<!D> = Env(H: (D, D) -> D, zero: D, bytes: D -> seq<Byte>, testNet: bool)

  /** Hashes are written in 32 bytes, different ones differently. */
  ghost predicate WrittenIn32<D(!new)>(env: Env<D>) {
    && (forall d :: |env.bytes(d)| == 32)
    && forall d, e :: env.bytes(d) == env.bytes(e) ==> d == e
  }

  /** This asks nothing of the pair hash: any one will do, over more than one hash value. */
  lemma {:induction false} WrittenIn32Possible(H: (bool, bool) -> bool)
    ensures var bytes := (d: bool) => seq<Byte>(32, _ => if d then 1 else 0);
            WrittenIn32(Env(H, false, bytes, false))
  {
    var bytes := (d: bool) => seq<Byte>(32, _ => if d then 1 else 0);
    assert bytes(true)[0] == 1 && bytes(false)[0] == 0;
  }

  /** An unsigned number of 32 bits as a signed one. */
  function ToSigned(x: nat): (r: int)
    ensures x < TWO32 ==> -0x8000_0000 <= r < 0x8000_0000 && (r == x || r == x - TWO32)
  {
    if x < 0x8000_0000 then x else x - TWO32
  }

  /** The root of the merged mining tree that a proof commits to. */
  function ChainRoot<D>(env: Env<D>, p: AuxPow<D>, hashAuxBlock: D): D {
    var index := ToSigned(p.nChainIndex);
    if index == -1 then env.zero else BranchRoot(env.H, hashAuxBlock, p.vChainMerkleBranch, index)
  }

  /** The coinbase script holds the header exactly once, at `h`, then the root (which does not occur
      earlier), then size and nonce. */
  ghost predicate CommitsAt(script: seq<Byte>, root: seq<Byte>, h: nat) {
    && OccursAt(script, MERGED_MINING_HEADER, h)
    && (forall k: nat :: k != h ==> !OccursAt(script, MERGED_MINING_HEADER, k))
    && OccursAt(script, root, h + 4) && (forall k: nat :: k < h + 4 ==> !OccursAt(script, root, k))
    && h + 4 + |root| + 8 <= |script|
  }

  /** What an acceptable proof is. */
  ghost predicate Accepted<D>(env: Env<D>, p: AuxPow<D>, hashAuxBlock: D, nChainID: int) {
    && p.nIndex == 0
    && (env.testNet || p.parentChainID != nChainID)
    && |p.vChainMerkleBranch| <= 30
    && BranchRoot(env.H, p.auxHash, p.vMerkleBranch, 0) == p.parentMerkleRoot
    && exists h: nat :: CommitsAt(p.script, env.bytes(ChainRoot(env, p, hashAuxBlock)), h)
         && var pc := h + 4 + |env.bytes(ChainRoot(env, p, hashAuxBlock))|;
            var nSize := Read32(p.script[pc..pc + 4]);
            && nSize == Pow2(|p.vChainMerkleBranch|)
            && p.nChainIndex == Slot(Read32(p.script[pc + 4..pc + 8]), nChainID, nSize)
  }

  /** The steps of Check that choose the slot. */
  method ExpectedIndex(nNonce: nat, nChainID: int, nSize: nat) returns (index: nat)
    requires nSize > 0
    ensures index == Slot(nNonce, nChainID, nSize)
  {
    var rand := nNonce;
    rand := (rand * 1103515245 + 12345) % TWO32;
    rand := (rand + nChainID) % TWO32;
    rand := (rand * 1103515245 + 12345) % TWO32;
    index := rand % nSize;
  }

  /** CAuxPow::Check, test by test. */
  method Check<D(==)>(env: Env<D>, p: AuxPow<D>, hashAuxBlock: D, nChainID: int) returns (ok: bool)
    requires |env.bytes(ChainRoot(env, p, hashAuxBlock))| == 32
    ensures ok <==> Accepted(env, p, hashAuxBlock, nChainID)
  {
    hide Pow2; hide Slot; hide Read32; hide BranchRoot;
    if p.nIndex != 0 { return false; }
    if !env.testNet && p.parentChainID == nChainID { return false; }
    if |p.vChainMerkleBranch| > 30 { return false; }
    var nRootHash := CheckMerkleBranch(env.H, env.zero, hashAuxBlock, p.vChainMerkleBranch, ToSigned(p.nChainIndex));
    var vchRootHash := env.bytes(nRootHash);
    var parentRoot := CheckMerkleBranch(env.H, env.zero, p.auxHash, p.vMerkleBranch, p.nIndex);
    if parentRoot != p.parentMerkleRoot { return false; }
    var script := p.script;
    var pcHead := Search(script, MERGED_MINING_HEADER, 0);
    var pc := Search(script, vchRootHash, 0);
    if pcHead == |script| { return false; }
    if pc == |script| { return false; }
    var again := Search(script, MERGED_MINING_HEADER, pcHead + 1);
    if again != |script| { return false; }
    if pcHead + 4 != pc { return false; }
    if |script| - (pc + |vchRootHash|) < 8 { return false; }
    assert CommitsAt(script, vchRootHash, pcHead);
    pc := pc + |vchRootHash|;
    var nSize := Read32(script[pc..pc + 4]);
    if nSize != Pow2(|p.vChainMerkleBranch|) { return false; }
    var nNonce := Read32(script[pc + 4..pc + 8]);
    var index := ExpectedIndex(nNonce, nChainID, nSize);
    ok := p.nChainIndex == index;
  }

  lemma {:induction false} Pow2Injective(a: nat, b: nat)
    requires Pow2(a) == Pow2(b)
    ensures a == b
    decreases a + b
  {
    if a > 0 && b > 0 { Pow2Injective(a - 1, b - 1); }
  }

  lemma {:induction false} Pow2Bound(k: nat)
    requires k <= 30
    ensures Pow2(k) <= 0x4000_0000
    decreases 30 - k
  {
    if k < 30 { Pow2Bound(k + 1); } else { Pow2Thirty(); }
  }

  lemma {:induction false} Pow2Thirty()
    ensures Pow2(30) == 0x4000_0000
  {
    assert Pow2(10) == 1024;
    assert Pow2(20) == 1024 * Pow2(10);
    assert Pow2(30) == 1024 * Pow2(20);
  }

  /** The same work cannot be used twice: two accepted proofs with the same parent coinbase script
      and the same chain id are at the same slot, and prove the same block by the same branch unless
      they exhibit two different pairs with the same hash at one level of their branches. */
  lemma {:induction false} SameWorkSameBlock<D(!new)>(env: Env<D>, p: AuxPow<D>, q: AuxPow<D>, a: D, b: D,
                                                      nChainID: int)
    requires WrittenIn32(env)
    requires Accepted(env, p, a, nChainID) && Accepted(env, q, b, nChainID) && p.script == q.script
    ensures p.nChainIndex == q.nChainIndex && |p.vChainMerkleBranch| == |q.vChainMerkleBranch|
    ensures || (a == b && p.vChainMerkleBranch == q.vChainMerkleBranch)
            || exists k :: 0 <= k < |p.vChainMerkleBranch| &&
                 CollidesAt(env.H, a, p.vChainMerkleBranch, b, q.vChainMerkleBranch, ToSigned(p.nChainIndex), k)
  {
    var rp, rq := env.bytes(ChainRoot(env, p, a)), env.bytes(ChainRoot(env, q, b));
    hide BranchRoot; hide Read32; hide Slot;
    var h: nat :| CommitsAt(p.script, rp, h)
      && var pc := h + 4 + |rp|; var nSize := Read32(p.script[pc..pc + 4]);
         nSize == Pow2(|p.vChainMerkleBranch|) &&
           p.nChainIndex == Slot(Read32(p.script[pc + 4..pc + 8]), nChainID, nSize);
    var g: nat :| CommitsAt(q.script, rq, g)
      && var pc := g + 4 + |rq|; var nSize := Read32(q.script[pc..pc + 4]);
         nSize == Pow2(|q.vChainMerkleBranch|) &&
           q.nChainIndex == Slot(Read32(q.script[pc + 4..pc + 8]), nChainID, nSize);
    assert g == h;
    assert rp == p.script[h + 4..h + 36] == rq;
    Pow2Injective(|p.vChainMerkleBranch|, |q.vChainMerkleBranch|);
    Pow2Bound(|p.vChainMerkleBranch|);
    SlotInRange(Read32(p.script[h + 40..h + 44]), nChainID, Pow2(|p.vChainMerkleBranch|));
    BranchInjective(env.H, a, b, p.vChainMerkleBranch, q.vChainMerkleBranch, ToSigned(p.nChainIndex));
  }

  lemma {:induction false} SlotInRange(nNonce: nat, nChainID: int, nSize: nat)
    requires nSize > 0
    ensures Slot(nNonce, nChainID, nSize) < nSize
  {
  }
}
