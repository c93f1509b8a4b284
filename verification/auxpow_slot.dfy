/** Merged mining from the miner's side: which slot a chain gets, and that an honestly assembled proof is
    accepted. */
module AuxPowSlots {
  import opened Bits
  import opened Merkle
  import opened MerkleBranches
  import opened AuxPows

  const FACTOR := 1103515245

  // ------------------------------------------------------------ remainders

  lemma {:induction false} AtLeast(s: nat, q: int)
    ensures q >= 1 ==> s * q >= s
    ensures q <= -1 ==> s * q + s <= 0
  {
  }

  lemma {:induction false} ModUnique(x: int, s: nat, q: int, r: nat)
    requires s > 0 && x == s * q + r && r < s
    ensures x % s == r
  {
    var p, t := x / s, x % s;
    assert x == s * p + t;
    assert s * (p - q) == r - t;
    AtLeast(s, p - q);
  }

  lemma {:induction false} AddMultiple(x: int, s: nat, q: int)
    requires s > 0
    ensures (x + s * q) % s == x % s
  {
    var p, r := x / s, x % s;
    assert x + s * q == s * (p + q) + r;
    ModUnique(x + s * q, s, p + q, r);
  }

  /** Equal remainders mean a difference that is a multiple. */
  lemma {:induction false} SameMod(x: int, y: int, s: nat) returns (q: int)
    requires s > 0 && x % s == y % s
    ensures x - y == s * q
  {
    q := x / s - y / s;
    assert x == s * (x / s) + x % s && y == s * (y / s) + y % s;
  }

  /** One step of the generator, on remainders. */
  lemma {:induction false} StepMod(x: int, y: int, s: nat)
    requires s > 0 && x % s == y % s
    ensures (x * FACTOR + 12345) % s == (y * FACTOR + 12345) % s
  {
    var q := SameMod(x, y, s);
    assert x * FACTOR + 12345 == (y * FACTOR + 12345) + s * (q * FACTOR) by {
      assert s * (q * FACTOR) == (s * q) * FACTOR;
    }
    AddMultiple(y * FACTOR + 12345, s, q * FACTOR);
  }

  lemma {:induction false} AddMod(x: int, y: int, d: int, s: nat)
    requires s > 0 && x % s == y % s
    ensures (x + d) % s == (y + d) % s
  {
    var q := SameMod(x, y, s);
    AddMultiple(y + d, s, q);
  }

  lemma {:induction false} Pow2Split(k: nat, j: nat)
    ensures Pow2(k + j) == Pow2(k) * Pow2(j)
    decreases j
  {
    if j > 0 {
      Pow2Split(k, j - 1);
      assert Pow2(k) * (2 * Pow2(j - 1)) == 2 * (Pow2(k) * Pow2(j - 1));
    }
  }

  lemma {:induction false} ModMod(x: int, s: nat, j: nat)
    requires s > 0 && j > 0 && s * j > 0
    ensures (x % (s * j)) % s == x % s
  {
    var q, r := x / (s * j), x % (s * j);
    assert x == (s * j) * q + r;
    assert (s * j) * q == s * (j * q);
    AddMultiple(r, s, j * q);
  }

  /** 32 bits are a multiple of every smaller power of two. */
  lemma {:induction false} Multiple32(k: nat)
    requires k <= 30
    ensures TWO32 == Pow2(k) * Pow2(32 - k)
  {
    Pow2Split(k, 32 - k);
    Pow2Split(30, 2);
    Pow2Thirty();
    assert Pow2(2) == 4;
  }

  /** An odd factor can be cancelled modulo a power of two. */
  lemma {:induction false} OddCancel(d: int, k: nat, q: int) returns (f: int)
    requires FACTOR * d == Pow2(k) * q
    ensures d == Pow2(k) * f
    decreases k
  {
    if k == 0 {
      f := d;
    } else {
      var half := Pow2(k - 1);
      assert Pow2(k) * q == 2 * (half * q);
      var e := d / 2;
      assert d == 2 * e;
      f := OddCancel(e, k - 1, q);
      assert 2 * (half * f) == Pow2(k) * f;
    }
  }

  // ------------------------------------------------------------ the slot

  /** The generator with wrap-arounds at `t`, which is a multiple of the size, gives the slot without them. */
  lemma {:induction false} NoWrap(n: int, id: int, s: nat, j: nat, t: nat)
    requires s > 0 && j > 0 && t == s * j > 0
    ensures (((n * FACTOR + 12345) % t + id) % t * FACTOR + 12345) % t % s
            == (FACTOR * (FACTOR * n + 12345 + id) + 12345) % s
  {
    var x := n * FACTOR + 12345;
    var y := x % t + id;
    ModMod(x, s, j);
    AddMod(x % t, x, id, s);
    ModMod(y, s, j);
    StepMod(y % t, x + id, s);
    ModMod(y % t * FACTOR + 12345, s, j);
  }

  /** The slot as plain arithmetic: the 32-bit wrap-arounds make no difference. */
  lemma {:induction false} SlotClosed(nNonce: nat, nChainID: int, k: nat)
    requires k <= 30
    ensures Slot(nNonce, nChainID, Pow2(k)) == (FACTOR * (FACTOR * nNonce + 12345 + nChainID) + 12345) % Pow2(k)
  {
    hide Pow2;
    Multiple32(k);
    NoWrap(nNonce, nChainID, Pow2(k), Pow2(32 - k), TWO32);
    SlotSteps(nNonce, nChainID, Pow2(k), TWO32);
    hide Slot;
  }

  lemma {:induction false} SlotSteps(n: nat, id: int, s: nat, t: nat)
    requires s > 0 && t == TWO32
    ensures Slot(n, id, s) == (((n * FACTOR + 12345) % t + id) % t * FACTOR + 12345) % t % s
  {
  }

  /** Two chains get the same slot of a tree of 2^k slots exactly if nonces, times the factor, plus ids
      agree modulo the size. */
  lemma {:induction false} SameSlotIff(n: nat, a: int, o: nat, b: int, k: nat)
    requires k <= 30
    ensures Slot(n, a, Pow2(k)) == Slot(o, b, Pow2(k)) <==> (FACTOR * n + a) % Pow2(k) == (FACTOR * o + b) % Pow2(k)
  {
    hide Pow2; hide Slot;
    var s, x, y := Pow2(k), FACTOR * n + a, FACTOR * o + b;
    SlotClosed(n, a, k);
    SlotClosed(o, b, k);
    if x % s == y % s {
      AddMod(x, y, 12345, s);
      StepMod(x + 12345, y + 12345, s);
    }
    if Slot(n, a, s) == Slot(o, b, s) {
      var q := SameMod(FACTOR * (x + 12345) + 12345, FACTOR * (y + 12345) + 12345, s);
      var f := OddCancel(x - y, k, q);
      AddMultiple(y, s, f);
    }
  }

  /** With one nonce, chains clash exactly if their ids agree modulo the size. */
  lemma {:induction false} ClashIff(nNonce: nat, a: int, b: int, k: nat)
    requires k <= 30
    ensures Slot(nNonce, a, Pow2(k)) == Slot(nNonce, b, Pow2(k)) <==> a % Pow2(k) == b % Pow2(k)
  {
    hide Pow2; hide Slot;
    SameSlotIff(nNonce, a, nNonce, b, k);
    var s, x := Pow2(k), FACTOR * nNonce;
    if a % s == b % s { AddMod(a, b, x, s); }
    if (x + a) % s == (x + b) % s { AddMod(x + a, x + b, -x, s); }
  }

  /** And a chain gets the same slot again exactly for nonces that agree modulo the size, so that every
      slot can be had. */
  lemma {:induction false} SameNonceIff(n: nat, o: nat, id: int, k: nat)
    requires k <= 30
    ensures Slot(n, id, Pow2(k)) == Slot(o, id, Pow2(k)) <==> n % Pow2(k) == o % Pow2(k)
  {
    hide Pow2; hide Slot;
    SameSlotIff(n, id, o, id, k);
    var s := Pow2(k);
    if n % s == o % s {
      StepMod(n, o, s);
      AddMod(n * FACTOR + 12345, o * FACTOR + 12345, id - 12345, s);
    }
    if (FACTOR * n + id) % s == (FACTOR * o + id) % s {
      var q := SameMod(FACTOR * n + id, FACTOR * o + id, s);
      var f := OddCancel(n - o, k, q);
      AddMultiple(o, s, f);
    }
  }

  /** Some slots. */
  lemma {:induction false} KnownSlots()
    ensures Slot(0, 1, 4) == 3 && Slot(7, 1, 16) == 10 && Slot(1, 2, 0x4000_0000) == 436948417
  {
    hide Slot;
    SlotSteps(0, 1, 4, TWO32);
    SlotSteps(7, 1, 16, TWO32);
    SlotSteps(1, 2, 0x4000_0000, TWO32);
    assert (12346 * FACTOR + 12345) % TWO32 % 4 == 3;
    assert (7 * FACTOR + 12345) % TWO32 == 3429651764 && (3429651764 + 1) % TWO32 == 3429651765;
    assert (3429651765 * FACTOR + 12345) % TWO32 == 1746181578 && 1746181578 % 16 == 10;
    assert (1 * FACTOR + 12345) % TWO32 == 1103527590 && (1103527590 + 2) % TWO32 == 1103527592;
    assert (1103527592 * FACTOR + 12345) % TWO32 == 436948417 && 436948417 % 1073741824 == 436948417;
  }

  /** Numbers in the script have their least significant byte first. */
  lemma {:induction false} KnownBytes()
    ensures Read32([0x01, 0x02, 0x03, 0x04]) == 0x0403_0201
  {
  }

  // ------------------------------------------------------------ an honest proof

  /** A number of 32 bits as the miner writes it. */
  function Write32(n: nat): (s: seq<Byte>)
    requires n < TWO32
    ensures |s| == 4
  {
    [n % 256, n / 256 % 256, n / 65536 % 256, n / 16777216]
  }

  lemma {:induction false} ReadWrite32(n: nat)
    requires n < TWO32
    ensures Read32(Write32(n)) == n
  {
  }

  /** The coinbase script: the miner's own bytes around header, root, size and nonce. */
  function Script(before: seq<Byte>, root: seq<Byte>, nSize: nat, nNonce: nat, rest: seq<Byte>): seq<Byte>
    requires nSize < TWO32 && nNonce < TWO32
  {
    before + MERGED_MINING_HEADER + root + Write32(nSize) + Write32(nNonce) + rest
  }

  lemma {:induction false} ScriptParts(before: seq<Byte>, root: seq<Byte>, nSize: nat, nNonce: nat, rest: seq<Byte>)
    requires nSize < TWO32 && nNonce < TWO32
    ensures var s, h := Script(before, root, nSize, nNonce, rest), |before|;
            var pc := h + 4 + |root|;
            && OccursAt(s, MERGED_MINING_HEADER, h) && OccursAt(s, root, h + 4) && pc + 8 <= |s|
            && Read32(s[pc..pc + 4]) == nSize && Read32(s[pc + 4..pc + 8]) == nNonce
  {
    hide Write32; hide Read32;
    var s, h := Script(before, root, nSize, nNonce, rest), |before|;
    var pc := h + 4 + |root|;
    assert s[h..h + 4] == MERGED_MINING_HEADER;
    assert s[h + 4..pc] == root;
    assert s[pc..pc + 4] == Write32(nSize) && s[pc + 4..pc + 8] == Write32(nNonce);
    ReadWrite32(nSize);
    ReadWrite32(nNonce);
  }

  /** A full row of 2^k leaves has branches of length k. */
  lemma {:induction false} BranchLength<D>(H: (D, D) -> D, row: seq<D>, index: nat, k: nat)
    requires index < |row| == Pow2(k)
    ensures |Branch(H, row, index)| == k
    decreases k
  {
    hide PairUp;
    if k > 0 { BranchLength(H, PairUp(H, row), index / 2, k - 1); }
  }

  /** What a miner puts together: `chains` is the tree of the blocks of all chains worked on, 2^k of them,
      this chain's block in its slot; `txids` are the transactions of the parent block. */
  function Assembled<D>(env: Env<D>, chains: seq<D>, k: nat, nNonce: nat, nChainID: int, txids: seq<D>,
                        before: seq<Byte>, rest: seq<Byte>, parentChainID: int): AuxPow<D>
    requires k <= 30 && |chains| == Pow2(k) < TWO32 && nNonce < TWO32 && txids != []
    requires Slot(nNonce, nChainID, Pow2(k)) < |chains|
  {
    var index := Slot(nNonce, nChainID, Pow2(k));
    AuxPow(0, txids[0], Script(before, env.bytes(Root(env.H, chains)), Pow2(k), nNonce, rest),
           Branch(env.H, txids, 0), Branch(env.H, chains, index), index, parentChainID, Root(env.H, txids))
  }

  /** The script holds the header nowhere else and the root no earlier. */
  ghost predicate Unambiguous(before: seq<Byte>, root: seq<Byte>, script: seq<Byte>) {
    && (forall i: nat :: i != |before| ==> !OccursAt(script, MERGED_MINING_HEADER, i))
    && (forall i: nat :: i < |before| + 4 ==> !OccursAt(script, root, i))
  }

  /** An honestly assembled proof is accepted exactly if the parent is another chain (or this is a test
      network) and the miner's own bytes do not make the commitment ambiguous. */
  lemma {:induction false} AssembledAccepted<D>(env: Env<D>, chains: seq<D>, k: nat, nNonce: nat, nChainID: int,
                                                txids: seq<D>, before: seq<Byte>, rest: seq<Byte>, parentChainID: int)
    requires k <= 30 && |chains| == Pow2(k) < TWO32 && nNonce < TWO32 && txids != []
    ensures Slot(nNonce, nChainID, Pow2(k)) < |chains|
    ensures var p := Assembled(env, chains, k, nNonce, nChainID, txids, before, rest, parentChainID);
            Accepted(env, p, chains[Slot(nNonce, nChainID, Pow2(k))], nChainID) <==>
            (env.testNet || parentChainID != nChainID)
            && Unambiguous(before, env.bytes(Root(env.H, chains)), p.script)
  {
    hide Slot; hide Read32; hide OccursAt; hide BranchRoot; hide Branch; hide Root;
    Pow2Bound(k);
    SlotInRange(nNonce, nChainID, Pow2(k));
    hide Pow2;
    var index := Slot(nNonce, nChainID, Pow2(k));
    var p := Assembled(env, chains, k, nNonce, nChainID, txids, before, rest, parentChainID);
    var root := env.bytes(Root(env.H, chains));
    BranchLeadsToRoot(env.H, chains, index);
    BranchLeadsToRoot(env.H, txids, 0);
    BranchLength(env.H, chains, index, k);
    ScriptParts(before, root, Pow2(k), nNonce, rest);
    hide Script;
    assert ChainRoot(env, p, chains[index]) == Root(env.H, chains);
    assert CommitsAt(p.script, root, |before|) <==> Unambiguous(before, root, p.script);
    assert forall h: nat :: CommitsAt(p.script, root, h) ==> h == |before|;
  }

  /** As the node runs it. */
  method CheckAssembled<D(==)>(env: Env<D>, chains: seq<D>, k: nat, nNonce: nat, nChainID: int, txids: seq<D>,
                               before: seq<Byte>, rest: seq<Byte>, parentChainID: int) returns (ok: bool)
    requires k <= 30 && |chains| == Pow2(k) < TWO32 && nNonce < TWO32 && txids != []
    requires |env.bytes(Root(env.H, chains))| == 32
    ensures var root := env.bytes(Root(env.H, chains));
            ok <==> && (env.testNet || parentChainID != nChainID)
                    && Unambiguous(before, root, Script(before, root, Pow2(k), nNonce, rest))
  {
    AssembledAccepted(env, chains, k, nNonce, nChainID, txids, before, rest, parentChainID);
    Pow2Bound(k);
    hide Slot; hide Script; hide Pow2; hide Unambiguous; hide Accepted;
    var index := Slot(nNonce, nChainID, Pow2(k));
    var p := Assembled(env, chains, k, nNonce, nChainID, txids, before, rest, parentChainID);
    BranchLeadsToRoot(env.H, chains, index);
    ok := Check(env, p, chains[index], nChainID);
  }
}
