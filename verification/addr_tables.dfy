/** The tables of the address manager as values: what Check_ demands of them and which elementary
    changes keep it. */
module AddrTables {

  type NetAddr = nat

  const ADDRMAN_TRIED_BUCKET_COUNT: nat := 64
  const ADDRMAN_TRIED_BUCKET_SIZE: nat := 64
  const ADDRMAN_NEW_BUCKET_COUNT: nat := 256
  const ADDRMAN_NEW_BUCKET_SIZE: nat := 64
  const ADDRMAN_TRIED_BUCKETS_PER_GROUP: nat := 4
  const ADDRMAN_NEW_BUCKETS_PER_SOURCE_GROUP: nat := 32
  const ADDRMAN_NEW_BUCKETS_PER_ADDRESS: nat := 4
  const ADDRMAN_TRIED_ENTRIES_INSPECT_ON_EVICT: nat := 4
  const ADDRMAN_HORIZON_DAYS := 30
  const ADDRMAN_RETRIES := 3
  const ADDRMAN_MAX_FAILURES := 10
  const ADDRMAN_MIN_FAIL_DAYS := 7
  const ADDRMAN_GETADDR_MAX_PCT := 23
  const ADDRMAN_GETADDR_MAX := 2500

  /** An entry.  `addr` is the key of mapAddr (the port is not part of it). */
  datatype AddrInfo = AddrInfo(addr: NetAddr, port: nat, nServices: bv64, nTime: int, source: NetAddr,
                               nLastSuccess: int, nLastTry: int, nAttempts: int, nRefCount: int, fInTried: bool,
                               nRandomPos: int)

  /** Bucket selection: the address range of an address, and the keyed hashes, which are arbitrary
      functions: of an address and its port, of a range and a choice, of the ranges of address and source,
      of the range of the source and a choice. */
  datatype Hashes = Hashes(group: NetAddr -> nat, tried1: (NetAddr, nat) -> nat, tried2: (nat, nat) -> nat,
                           new1: (nat, nat) -> nat, new2: (nat, nat) -> nat)

  /** GetTriedBucket: each range has a few tried buckets, and the full address chooses among them. */
  function TriedBucket(k: Hashes, info: AddrInfo): (b: nat)
    ensures b < ADDRMAN_TRIED_BUCKET_COUNT
  {
    var choice := k.tried1(info.addr, info.port) % ADDRMAN_TRIED_BUCKETS_PER_GROUP;
    k.tried2(k.group(info.addr), choice) % ADDRMAN_TRIED_BUCKET_COUNT
  }

  /** GetNewBucket: each range of sources has some new buckets, and the range of the address chooses. */
  function NewBucket(k: Hashes, info: AddrInfo, source: NetAddr): (b: nat)
    ensures b < ADDRMAN_NEW_BUCKET_COUNT
  {
    var choice := k.new1(k.group(info.addr), k.group(source)) % ADDRMAN_NEW_BUCKETS_PER_SOURCE_GROUP;
    k.new2(k.group(source), choice) % ADDRMAN_NEW_BUCKET_COUNT
  }

  type InfoMap = map<int, AddrInfo>

  datatype Tables = Tables(nIdCount: int, mapInfo: InfoMap, mapAddr: map<NetAddr, int>, vRandom: seq<int>,
                           nTried: int, vvTried: seq<seq<int>>, nNew: int, vvNew: seq<set<int>>)

  // ------------------------------------------------------------ what Check_ demands

  /** vRandom and nRandomPos are inverse. */
  ghost predicate RandomOk(mapInfo: InfoMap, vRandom: seq<int>) {
    && (forall p :: 0 <= p < |vRandom| ==> vRandom[p] in mapInfo && mapInfo[vRandom[p]].nRandomPos == p)
    && (forall n :: n in mapInfo ==> 0 <= mapInfo[n].nRandomPos < |vRandom| && vRandom[mapInfo[n].nRandomPos] == n)
  }

  /** mapAddr and mapInfo agree. */
  ghost predicate AddrOk(mapInfo: InfoMap, mapAddr: map<NetAddr, int>) {
    && (forall n :: n in mapInfo ==> mapInfo[n].addr in mapAddr && mapAddr[mapInfo[n].addr] == n)
    && (forall a :: a in mapAddr ==> mapAddr[a] in mapInfo && mapInfo[mapAddr[a]].addr == a)
  }

  ghost predicate NoDuplicates(s: seq<int>) { forall i, j :: 0 <= i < j < |s| ==> s[i] != s[j] }

  /** The tried buckets hold exactly the tried entries, each once, in its own bucket. */
  ghost predicate TriedOk(k: Hashes, mapInfo: InfoMap, vvTried: seq<seq<int>>) {
    && |vvTried| == ADDRMAN_TRIED_BUCKET_COUNT
    && (forall b :: 0 <= b < |vvTried| ==> |vvTried[b]| <= ADDRMAN_TRIED_BUCKET_SIZE && NoDuplicates(vvTried[b]))
    && (forall b, n :: 0 <= b < |vvTried| && n in vvTried[b] ==>
          n in mapInfo && mapInfo[n].fInTried && TriedBucket(k, mapInfo[n]) == b)
    && (forall n :: n in mapInfo && mapInfo[n].fInTried ==> n in vvTried[TriedBucket(k, mapInfo[n])])
  }

  /** The new buckets that hold `n`. */
  function RefSet(vvNew: seq<set<int>>, n: int): set<nat> {
    set b: nat | b < |vvNew| && n in vvNew[b]
  }

  /** The new buckets hold only new entries. */
  ghost predicate NewOk(mapInfo: InfoMap, vvNew: seq<set<int>>) {
    && |vvNew| == ADDRMAN_NEW_BUCKET_COUNT
    && (forall b :: 0 <= b < |vvNew| ==> |vvNew[b]| <= ADDRMAN_NEW_BUCKET_SIZE)
    && (forall b, n :: 0 <= b < |vvNew| && n in vvNew[b] ==> n in mapInfo && !mapInfo[n].fInTried)
  }

  /** The reference count of an entry: the number of new buckets it is in; `extra` marks the entry
      (or -1) whose count is already one ahead because it is about to be put into a bucket. */
  ghost predicate RefOk(info: AddrInfo, n: int, vvNew: seq<set<int>>, extra: int) {
    if info.fInTried then info.nRefCount == 0 && n != extra
    else
      && info.nRefCount == |RefSet(vvNew, n)| + (if n == extra then 1 else 0)
      && 1 <= info.nRefCount <= ADDRMAN_NEW_BUCKETS_PER_ADDRESS
  }

  ghost predicate RefsOk(mapInfo: InfoMap, vvNew: seq<set<int>>, extra: int) {
    forall n :: n in mapInfo ==> RefOk(mapInfo[n], n, vvNew, extra)
  }

  function TriedIds(mapInfo: InfoMap): set<int> { set n | n in mapInfo && mapInfo[n].fInTried }
  function NewIds(mapInfo: InfoMap): set<int> { set n | n in mapInfo && !mapInfo[n].fInTried }

  /** The counters are exact. */
  ghost predicate CountOk(t: Tables) {
    t.nTried == |TriedIds(t.mapInfo)| && t.nNew == |NewIds(t.mapInfo)| && |t.vRandom| == t.nTried + t.nNew
  }

  predicate StatsOk(info: AddrInfo) {
    info.nLastTry >= 0 && info.nLastSuccess >= 0 && (info.fInTried ==> info.nLastSuccess != 0)
  }

  ghost predicate FieldsOk(t: Tables) {
    forall n :: n in t.mapInfo ==> 0 <= n < t.nIdCount && StatsOk(t.mapInfo[n])
  }

  /** Everything Check_ looks at, with bucket sizes. */
  ghost predicate Checked(k: Hashes, t: Tables, extra: int) {
    && RandomOk(t.mapInfo, t.vRandom) && AddrOk(t.mapInfo, t.mapAddr)
    && TriedOk(k, t.mapInfo, t.vvTried) && NewOk(t.mapInfo, t.vvNew) && RefsOk(t.mapInfo, t.vvNew, extra)
    && CountOk(t) && FieldsOk(t)
  }

  // ------------------------------------------------------------ changing one entry's statistics

  /** Same identity, same place in all tables. */
  predicate SamePlace(a: AddrInfo, b: AddrInfo) {
    && a.addr == b.addr && a.port == b.port && a.source == b.source
    && a.nRefCount == b.nRefCount && a.fInTried == b.fInTried && a.nRandomPos == b.nRandomPos
  }

  lemma {:induction false} IdsSame(a: InfoMap, b: InfoMap)
    requires a.Keys == b.Keys && forall n :: n in a ==> a[n].fInTried == b[n].fInTried
    ensures TriedIds(a) == TriedIds(b) && NewIds(a) == NewIds(b)
  {
    assert forall n :: n in a.Keys <==> n in b.Keys;
    assert forall n :: n in TriedIds(a) <==> n in TriedIds(b);
    assert forall n :: n in NewIds(a) <==> n in NewIds(b);
  }

  /** Same keys, and everything the other tables depend on is the same. */
  ghost predicate SameRoles(m: InfoMap, m0: InfoMap) {
    m.Keys == m0.Keys &&
    forall n :: n in m0 ==> n in m && m[n].addr == m0[n].addr && m[n].port == m0[n].port
                            && m[n].nRefCount == m0[n].nRefCount && m[n].fInTried == m0[n].fInTried
  }

  lemma {:induction false} RolesKeep(k: Hashes, m: InfoMap, t: Tables, extra: int)
    requires SameRoles(m, t.mapInfo) && AddrOk(t.mapInfo, t.mapAddr) && TriedOk(k, t.mapInfo, t.vvTried)
    requires NewOk(t.mapInfo, t.vvNew) && RefsOk(t.mapInfo, t.vvNew, extra)
    ensures AddrOk(m, t.mapAddr) && TriedOk(k, m, t.vvTried) && NewOk(m, t.vvNew) && RefsOk(m, t.vvNew, extra)
    ensures TriedIds(m) == TriedIds(t.mapInfo) && NewIds(m) == NewIds(t.mapInfo)
  {
    hide AddrOk; hide TriedOk; hide NewOk; hide RefSet; hide TriedIds; hide NewIds;
    assert forall n :: n in m ==> n in t.mapInfo.Keys;
    RolesKeepAddr(m, t);
    RolesKeepBuckets(k, m, t);
    IdsSame(m, t.mapInfo);
    forall n | n in m ensures RefOk(m[n], n, t.vvNew, extra) { assert RefOk(t.mapInfo[n], n, t.vvNew, extra); }
  }

  lemma {:induction false} RolesKeepAddr(m: InfoMap, t: Tables)
    requires SameRoles(m, t.mapInfo) && AddrOk(t.mapInfo, t.mapAddr)
    ensures AddrOk(m, t.mapAddr)
  {
  }

  lemma {:induction false} RolesKeepBuckets(k: Hashes, m: InfoMap, t: Tables)
    requires SameRoles(m, t.mapInfo) && TriedOk(k, t.mapInfo, t.vvTried) && NewOk(t.mapInfo, t.vvNew)
    ensures TriedOk(k, m, t.vvTried) && NewOk(m, t.vvNew)
  {
  }

  lemma {:induction false} StatsKeepChecked(k: Hashes, t: Tables, n: int, info: AddrInfo, extra: int)
    requires Checked(k, t, extra) && n in t.mapInfo && SamePlace(info, t.mapInfo[n]) && StatsOk(info)
    ensures Checked(k, t.(mapInfo := t.mapInfo[n := info]), extra)
  {
    RolesKeep(k, t.mapInfo[n := info], t, extra);
    hide AddrOk; hide TriedOk; hide NewOk; hide RefsOk; hide TriedIds; hide NewIds;
  }

  // ------------------------------------------------------------ vRandom

  /** SwapRandom on values. */
  function Swapped(t: Tables, p1: int, p2: int): Tables
    requires 0 <= p1 < |t.vRandom| && 0 <= p2 < |t.vRandom|
    requires t.vRandom[p1] in t.mapInfo && t.vRandom[p2] in t.mapInfo
  {
    if p1 == p2 then t
    else
      var id1, id2 := t.vRandom[p1], t.vRandom[p2];
      var m1 := t.mapInfo[id1 := t.mapInfo[id1].(nRandomPos := p2)];
      t.(mapInfo := m1[id2 := m1[id2].(nRandomPos := p1)], vRandom := t.vRandom[p1 := id2][p2 := id1])
  }

  /** Identity up to the position in vRandom. */
  predicate SameButPos(a: AddrInfo, b: AddrInfo) { a == b.(nRandomPos := a.nRandomPos) }

  ghost predicate MovedOnly(a: InfoMap, b: InfoMap) {
    a.Keys == b.Keys && forall n :: n in a ==> SameButPos(a[n], b[n])
  }

  lemma {:induction false} SwapRandomOk(t: Tables, p1: int, p2: int)
    requires RandomOk(t.mapInfo, t.vRandom) && 0 <= p1 < |t.vRandom| && 0 <= p2 < |t.vRandom|
    ensures RandomOk(Swapped(t, p1, p2).mapInfo, Swapped(t, p1, p2).vRandom)
    ensures MovedOnly(Swapped(t, p1, p2).mapInfo, t.mapInfo)
    ensures multiset(Swapped(t, p1, p2).vRandom) == multiset(t.vRandom)
  {
    var s := Swapped(t, p1, p2);
    if p1 != p2 {
      assert t.vRandom[p1] != t.vRandom[p2];
    }
  }

  lemma {:induction false} MovedKeepsChecked(k: Hashes, t: Tables, m: InfoMap, r: seq<int>, extra: int)
    requires Checked(k, t, extra) && MovedOnly(m, t.mapInfo) && RandomOk(m, r) && |r| == |t.vRandom|
    ensures Checked(k, t.(mapInfo := m, vRandom := r), extra)
  {
    assert forall n :: n in m ==> n in t.mapInfo.Keys;
    RolesKeep(k, m, t, extra);
    hide AddrOk; hide TriedOk; hide NewOk; hide RefsOk; hide TriedIds; hide NewIds; hide RandomOk;
  }

  lemma {:induction false} SwapKeepsChecked(k: Hashes, t: Tables, p1: int, p2: int, extra: int)
    requires Checked(k, t, extra) && 0 <= p1 < |t.vRandom| && 0 <= p2 < |t.vRandom|
    ensures Checked(k, Swapped(t, p1, p2), extra)
  {
    SwapRandomOk(t, p1, p2);
    MovedKeepsChecked(k, t, Swapped(t, p1, p2).mapInfo, Swapped(t, p1, p2).vRandom, extra);
  }

  // ------------------------------------------------------------ new entries and new buckets

  /** The tables right after an unknown address has been given an entry that is about to be put into
      its first bucket. */
  function Created(t: Tables, info: AddrInfo): Tables {
    var n := t.nIdCount;
    t.(nIdCount := n + 1, mapInfo := t.mapInfo[n := info], mapAddr := t.mapAddr[info.addr := n],
       vRandom := t.vRandom + [n], nNew := t.nNew + 1)
  }

  lemma {:induction false} CreatedRandomAddr(t: Tables, info: AddrInfo)
    requires RandomOk(t.mapInfo, t.vRandom) && AddrOk(t.mapInfo, t.mapAddr) && t.nIdCount !in t.mapInfo
    requires info.addr !in t.mapAddr && info.nRandomPos == |t.vRandom|
    ensures RandomOk(Created(t, info).mapInfo, Created(t, info).vRandom)
    ensures AddrOk(Created(t, info).mapInfo, Created(t, info).mapAddr)
  {
  }

  lemma {:induction false} CreatedIds(m: InfoMap, n: int, info: AddrInfo)
    requires n !in m && !info.fInTried
    ensures TriedIds(m[n := info]) == TriedIds(m) && NewIds(m[n := info]) == NewIds(m) + {n} && n !in NewIds(m)
  {
  }

  lemma {:induction false} CreatedChecked(k: Hashes, t: Tables, info: AddrInfo)
    requires Checked(k, t, -1) && info.addr !in t.mapAddr && info.nRandomPos == |t.vRandom| && t.nIdCount >= 0
    requires !info.fInTried && info.nRefCount == 1 && StatsOk(info)
    ensures Checked(k, Created(t, info), t.nIdCount)
  {
    hide RandomOk; hide AddrOk; hide TriedOk; hide NewOk; hide RefsOk; hide TriedIds; hide NewIds;
    assert t.nIdCount !in t.mapInfo;
    CreatedRandomAddr(t, info);
    CreatedBuckets(k, t, info);
    CreatedRefs(t, info);
    CreatedIds(t.mapInfo, t.nIdCount, info);
  }

  lemma {:induction false} CreatedRefs(t: Tables, info: AddrInfo)
    requires NewOk(t.mapInfo, t.vvNew) && RefsOk(t.mapInfo, t.vvNew, -1) && t.nIdCount !in t.mapInfo
    requires forall x :: x in t.mapInfo ==> x >= 0
    requires !info.fInTried && info.nRefCount == 1
    ensures RefsOk(Created(t, info).mapInfo, t.vvNew, t.nIdCount)
  {
  }

  lemma {:induction false} CreatedBuckets(k: Hashes, t: Tables, info: AddrInfo)
    requires TriedOk(k, t.mapInfo, t.vvTried) && NewOk(t.mapInfo, t.vvNew) && t.nIdCount !in t.mapInfo && !info.fInTried
    ensures TriedOk(k, Created(t, info).mapInfo, t.vvTried) && NewOk(Created(t, info).mapInfo, t.vvNew)
  {
  }

  /** One more reference to a new entry. */
  lemma {:induction false} RefIncChecked(k: Hashes, t: Tables, n: int)
    requires Checked(k, t, -1) && n in t.mapInfo && !t.mapInfo[n].fInTried
    requires t.mapInfo[n].nRefCount < ADDRMAN_NEW_BUCKETS_PER_ADDRESS
    ensures Checked(k, Bumped(t, n), n)
  {
    hide RandomOk; hide AddrOk; hide TriedOk; hide NewOk; hide TriedIds; hide NewIds; hide RefsOk;
    BumpRefs(t, n);
    RefChangeKeeps(k, t, n, Bumped(t, n).mapInfo[n]);
  }

  lemma {:induction false} BumpRefs(t: Tables, n: int)
    requires RefsOk(t.mapInfo, t.vvNew, -1) && n in t.mapInfo && !t.mapInfo[n].fInTried
    requires forall x :: x in t.mapInfo ==> x >= 0
    requires t.mapInfo[n].nRefCount < ADDRMAN_NEW_BUCKETS_PER_ADDRESS
    ensures RefsOk(Bumped(t, n).mapInfo, t.vvNew, n)
  {
  }

  /** Changing only a reference count. */
  lemma {:induction false} RefChangeKeeps(k: Hashes, t: Tables, n: int, info: AddrInfo)
    requires RandomOk(t.mapInfo, t.vRandom) && AddrOk(t.mapInfo, t.mapAddr) && TriedOk(k, t.mapInfo, t.vvTried)
    requires NewOk(t.mapInfo, t.vvNew) && n in t.mapInfo && info == t.mapInfo[n].(nRefCount := info.nRefCount)
    ensures var m := t.mapInfo[n := info];
            && RandomOk(m, t.vRandom) && AddrOk(m, t.mapAddr) && TriedOk(k, m, t.vvTried) && NewOk(m, t.vvNew)
            && TriedIds(m) == TriedIds(t.mapInfo) && NewIds(m) == NewIds(t.mapInfo)
  {
    hide NoDuplicates;
    var m := t.mapInfo[n := info];
    IdsSame(m, t.mapInfo);
    hide TriedIds; hide NewIds;
    assert forall x :: x in m ==> m[x] == t.mapInfo[x].(nRefCount := m[x].nRefCount);
    assert TriedOk(k, m, t.vvTried);
    assert NewOk(m, t.vvNew);
    assert AddrOk(m, t.mapAddr);
  }

  lemma {:induction false} RefSetInsert(vvNew: seq<set<int>>, b: nat, n: int, x: int)
    requires b < |vvNew| && n !in vvNew[b]
    ensures |RefSet(vvNew[b := vvNew[b] + {n}], x)| == |RefSet(vvNew, x)| + if x == n then 1 else 0
  {
    var after := vvNew[b := vvNew[b] + {n}];
    assert forall c :: 0 <= c < |vvNew| ==> (x in after[c] <==> x in vvNew[c] || (c == b && x == n));
    if x == n {
      assert RefSet(after, n) == RefSet(vvNew, n) + {b};
    } else {
      assert RefSet(after, x) == RefSet(vvNew, x);
    }
  }

  /** Putting the announced entry into a bucket that has room. */
  lemma {:induction false} InsertChecked(k: Hashes, t: Tables, b: nat, n: int)
    requires Checked(k, t, n) && n in t.mapInfo && b < |t.vvNew| && n !in t.vvNew[b]
    requires |t.vvNew[b]| < ADDRMAN_NEW_BUCKET_SIZE
    ensures Checked(k, PutIn(t, b, n), -1)
  {
    var after := t.vvNew[b := t.vvNew[b] + {n}];
    assert RefOk(t.mapInfo[n], n, t.vvNew, n);
    forall x | x in t.mapInfo ensures RefOk(t.mapInfo[x], x, after, -1) {
      assert RefOk(t.mapInfo[x], x, t.vvNew, n) && 0 <= x;
      RefSetInsert(t.vvNew, b, n, x);
    }
    hide RandomOk; hide AddrOk; hide TriedOk; hide RefSet; hide CountOk;
    assert NewOk(t.mapInfo, after);
  }

  lemma {:induction false} RefSetRemove(vvNew: seq<set<int>>, b: nat, n: int, x: int)
    requires b < |vvNew| && n in vvNew[b]
    ensures |RefSet(vvNew[b := vvNew[b] - {n}], x)| == |RefSet(vvNew, x)| - if x == n then 1 else 0
  {
    var after := vvNew[b := vvNew[b] - {n}];
    if x == n {
      assert RefSet(after, n) == RefSet(vvNew, n) - {b};
    } else {
      assert RefSet(after, x) == RefSet(vvNew, x);
    }
  }

  /** Taking an entry that is in further buckets out of one. */
  lemma {:induction false} UnrefChecked(k: Hashes, t: Tables, b: nat, n: int, extra: int)
    requires Checked(k, t, extra) && b < |t.vvNew| && n in t.vvNew[b] && n != extra && t.mapInfo[n].nRefCount > 1
    ensures Checked(k, t.(mapInfo := t.mapInfo[n := t.mapInfo[n].(nRefCount := t.mapInfo[n].nRefCount - 1)],
                          vvNew := t.vvNew[b := t.vvNew[b] - {n}]), extra)
  {
    var info := t.mapInfo[n].(nRefCount := t.mapInfo[n].nRefCount - 1);
    var m, after := t.mapInfo[n := info], t.vvNew[b := t.vvNew[b] - {n}];
    forall x | x in m ensures RefOk(m[x], x, after, extra) {
      assert RefOk(t.mapInfo[x], x, t.vvNew, extra);
      RefSetRemove(t.vvNew, b, n, x);
    }
    RefChangeKeeps(k, t, n, info);
    hide RandomOk; hide AddrOk; hide TriedOk; hide RefOk; hide RefSet; hide TriedIds; hide NewIds;
    assert NewOk(m, after);
  }

  /** Forgetting an entry that stands last in vRandom. */
  function Erased(t: Tables, n: int): Tables
    requires n in t.mapInfo && |t.vRandom| > 0
  {
    t.(vRandom := t.vRandom[..|t.vRandom| - 1], mapAddr := t.mapAddr - {t.mapInfo[n].addr},
       mapInfo := t.mapInfo - {n}, nNew := t.nNew - 1)
  }

  function TakenOut(t: Tables, b: nat, n: int): Tables
    requires b < |t.vvNew|
  {
    t.(vvNew := t.vvNew[b := t.vvNew[b] - {n}])
  }

  /** Deleting an entry that stands last in vRandom and in bucket `b` only. */
  function Popped(t: Tables, b: nat, n: int): Tables
    requires n in t.mapInfo && b < |t.vvNew| && |t.vRandom| > 0
  {
    TakenOut(Erased(t, n), b, n)
  }

  /** Deleting the last reference deletes the entry: swap it to the end of vRandom and pop. */
  function Dropped(t: Tables, b: nat, n: int): Tables
    requires n in t.mapInfo && 0 <= t.mapInfo[n].nRandomPos < |t.vRandom| && t.vRandom[t.mapInfo[n].nRandomPos] == n
    requires t.vRandom[|t.vRandom| - 1] in t.mapInfo && b < |t.vvNew|
  {
    Popped(Swapped(t, t.mapInfo[n].nRandomPos, |t.vRandom| - 1), b, n)
  }

  lemma {:induction false} PopRandomOk(m: InfoMap, r: seq<int>, n: int)
    requires RandomOk(m, r) && n in m && m[n].nRandomPos == |r| - 1
    ensures RandomOk(m - {n}, r[..|r| - 1])
  {
  }

  lemma {:induction false} RemovedIds(m: InfoMap, n: int)
    requires n in m && !m[n].fInTried
    ensures TriedIds(m - {n}) == TriedIds(m) && NewIds(m - {n}) == NewIds(m) - {n} && n in NewIds(m)
  {
  }

  lemma {:induction false} PopChecked(k: Hashes, t: Tables, b: nat, n: int, extra: int)
    requires Checked(k, t, extra) && b < |t.vvNew| && n in t.vvNew[b] && n != extra && t.mapInfo[n].nRefCount == 1
    requires t.mapInfo[n].nRandomPos == |t.vRandom| - 1
    ensures Checked(k, Popped(t, b, n), extra)
  {
    PopRefs(k, t, b, n, extra);
    PopBuckets(k, t, b, n);
    PopRandomOk(t.mapInfo, t.vRandom, n);
    RemovedIds(t.mapInfo, n);
    hide RandomOk; hide AddrOk; hide TriedOk; hide NewOk; hide RefsOk; hide TriedIds; hide NewIds;
  }

  lemma {:induction false} PopRefs(k: Hashes, t: Tables, b: nat, n: int, extra: int)
    requires NewOk(t.mapInfo, t.vvNew) && RefsOk(t.mapInfo, t.vvNew, extra) && b < |t.vvNew| && n in t.vvNew[b]
    requires n != extra && t.mapInfo[n].nRefCount == 1
    ensures RefsOk(t.mapInfo - {n}, t.vvNew[b := t.vvNew[b] - {n}], extra)
    ensures forall c :: 0 <= c < |t.vvNew| && n in t.vvNew[c] ==> c == b
  {
    var m, after := t.mapInfo - {n}, t.vvNew[b := t.vvNew[b] - {n}];
    assert RefOk(t.mapInfo[n], n, t.vvNew, extra);
    OnlyRef(t.vvNew, b, n);
    forall x | x in m ensures RefOk(m[x], x, after, extra) {
      assert RefOk(t.mapInfo[x], x, t.vvNew, extra);
      RefSetRemove(t.vvNew, b, n, x);
    }
  }

  lemma {:induction false} PopBuckets(k: Hashes, t: Tables, b: nat, n: int)
    requires AddrOk(t.mapInfo, t.mapAddr) && TriedOk(k, t.mapInfo, t.vvTried) && NewOk(t.mapInfo, t.vvNew)
    requires b < |t.vvNew| && n in t.vvNew[b] && forall c :: 0 <= c < |t.vvNew| && n in t.vvNew[c] ==> c == b
    ensures AddrOk(t.mapInfo - {n}, t.mapAddr - {t.mapInfo[n].addr}) && TriedOk(k, t.mapInfo - {n}, t.vvTried)
    ensures NewOk(t.mapInfo - {n}, t.vvNew[b := t.vvNew[b] - {n}])
  {
  }

  lemma {:induction false} OnlyRef(vvNew: seq<set<int>>, b: nat, n: int)
    requires b < |vvNew| && n in vvNew[b] && |RefSet(vvNew, n)| == 1
    ensures forall c :: 0 <= c < |vvNew| && n in vvNew[c] ==> c == b
  {
    var refs := RefSet(vvNew, n);
    assert b in refs;
    assert |refs - {b}| == |refs| - 1;
    forall c | 0 <= c < |vvNew| && n in vvNew[c] ensures c == b {
      assert c in refs;
      assert c != b ==> c in refs - {b};
    }
  }

  lemma {:induction false} DropChecked(k: Hashes, t: Tables, b: nat, n: int, extra: int)
    requires Checked(k, t, extra) && b < |t.vvNew| && n in t.vvNew[b] && n != extra && t.mapInfo[n].nRefCount == 1
    requires 0 <= t.mapInfo[n].nRandomPos < |t.vRandom| && t.vRandom[t.mapInfo[n].nRandomPos] == n
    requires t.vRandom[|t.vRandom| - 1] in t.mapInfo
    ensures Checked(k, Dropped(t, b, n), extra)
  {
    hide Checked; hide RandomOk; hide Popped; hide Swapped;
    EntryPlace(k, t, b, n, extra);
    var p, last := t.mapInfo[n].nRandomPos, |t.vRandom| - 1;
    SwapKeepsChecked(k, t, p, last, extra);
    SwappedEnd(t, n);
    PopChecked(k, Swapped(t, p, last), b, n, extra);
  }

  /** An entry with its place in vRandom. */
  ghost predicate Placed(t: Tables, n: int) {
    && n in t.mapInfo && n >= 0 && 0 <= t.mapInfo[n].nRandomPos < |t.vRandom| && t.vRandom[t.mapInfo[n].nRandomPos] == n
    && t.vRandom[|t.vRandom| - 1] in t.mapInfo
  }

  lemma {:induction false} Members(k: Hashes, t: Tables, b: nat, extra: int)
    requires Checked(k, t, extra) && b < |t.vvNew|
    ensures forall n :: n in t.vvNew[b] ==> n in t.mapInfo && n >= 0
    ensures forall n :: n in t.vvNew[b] ==> Placed(t, n)
  {
    hide TriedOk; hide RefsOk; hide AddrOk; hide CountOk;
    forall n | n in t.vvNew[b] ensures Placed(t, n) {
      assert n in t.mapInfo;
    }
  }

  lemma {:induction false} EntryPlace(k: Hashes, t: Tables, b: nat, n: int, extra: int)
    requires Checked(k, t, extra) && b < |t.vvNew| && n in t.vvNew[b]
    ensures n in t.mapInfo && RandomOk(t.mapInfo, t.vRandom) && !t.mapInfo[n].fInTried
    ensures 0 <= t.mapInfo[n].nRandomPos < |t.vRandom| && t.vRandom[t.mapInfo[n].nRandomPos] == n
    ensures t.vRandom[|t.vRandom| - 1] in t.mapInfo
  {
  }

  lemma {:induction false} SwappedEnd(t: Tables, n: int)
    requires RandomOk(t.mapInfo, t.vRandom) && n in t.mapInfo
    ensures var s := Swapped(t, t.mapInfo[n].nRandomPos, |t.vRandom| - 1);
            && n in s.mapInfo && s.mapInfo[n] == t.mapInfo[n].(nRandomPos := |t.vRandom| - 1)
            && |s.vRandom| == |t.vRandom| && s.vvNew == t.vvNew
  {
  }

  function Decremented(t: Tables, n: int): Tables
    requires n in t.mapInfo
  {
    t.(mapInfo := t.mapInfo[n := t.mapInfo[n].(nRefCount := t.mapInfo[n].nRefCount - 1)])
  }

  /** Taking `n` out of new bucket `b`: its last reference takes the entry with it. */
  function RemovedFrom(t: Tables, b: nat, n: int): Tables
    requires n in t.mapInfo && 0 <= t.mapInfo[n].nRandomPos < |t.vRandom| && t.vRandom[t.mapInfo[n].nRandomPos] == n
    requires t.vRandom[|t.vRandom| - 1] in t.mapInfo && b < |t.vvNew|
  {
    if t.mapInfo[n].nRefCount == 1 then Dropped(t, b, n) else TakenOut(Decremented(t, n), b, n)
  }

  lemma {:induction false} RemoveChecked(k: Hashes, t: Tables, b: nat, n: int, extra: int)
    requires Checked(k, t, extra) && b < |t.vvNew| && n in t.vvNew[b] && n != extra
    requires n in t.mapInfo && 0 <= t.mapInfo[n].nRandomPos < |t.vRandom| && t.vRandom[t.mapInfo[n].nRandomPos] == n
    requires t.vRandom[|t.vRandom| - 1] in t.mapInfo
    ensures Checked(k, RemovedFrom(t, b, n), extra)
  {
    assert RefOk(t.mapInfo[n], n, t.vvNew, extra) && !t.mapInfo[n].fInTried;
    if t.mapInfo[n].nRefCount == 1 { DropChecked(k, t, b, n, extra); } else { UnrefChecked(k, t, b, n, extra); }
    hide Checked; hide Dropped;
  }

  /** What a removal leaves alone: every other entry, every other bucket, the tried table. */
  lemma {:induction false} RemoveFrame(t: Tables, b: nat, n: int)
    requires RandomOk(t.mapInfo, t.vRandom) && n in t.mapInfo && b < |t.vvNew|
    ensures var r := RemovedFrom(t, b, n);
            && r.nIdCount == t.nIdCount && r.vvTried == t.vvTried && r.nTried == t.nTried
            && r.vvNew == t.vvNew[b := t.vvNew[b] - {n}] && r.mapInfo.Keys <= t.mapInfo.Keys
            && (forall x :: x in t.mapInfo && x != n ==> x in r.mapInfo && SameButPos(r.mapInfo[x], t.mapInfo[x]))
            && r.mapAddr == t.mapAddr - (if t.mapInfo[n].nRefCount == 1 then {t.mapInfo[n].addr} else {})
  {
    if t.mapInfo[n].nRefCount == 1 {
      DropFrame(t, b, n);
      hide Dropped; hide RandomOk;
    } else {
      hide Dropped; hide RandomOk;
      assert t.mapAddr - {} == t.mapAddr;
    }
  }

  lemma {:induction false} DropFrame(t: Tables, b: nat, n: int)
    requires RandomOk(t.mapInfo, t.vRandom) && n in t.mapInfo && b < |t.vvNew|
    ensures var r := Dropped(t, b, n);
            && r.nIdCount == t.nIdCount && r.vvTried == t.vvTried && r.nTried == t.nTried
            && r.vvNew == t.vvNew[b := t.vvNew[b] - {n}] && r.mapInfo.Keys <= t.mapInfo.Keys
            && (forall x :: x in t.mapInfo && x != n ==> x in r.mapInfo && SameButPos(r.mapInfo[x], t.mapInfo[x]))
            && r.mapAddr == t.mapAddr - {t.mapInfo[n].addr}
  {
    hide RandomOk; hide Swapped; hide SameButPos;
    var p, last := t.mapInfo[n].nRandomPos, |t.vRandom| - 1;
    InRange(t, n);
    var s := Swapped(t, p, last);
    SwappedEnd(t, n);
    SwapRandomOk(t, p, last);
    SwapFrame(t, p, last);
    forall x | x in t.mapInfo && x != n
      ensures x in s.mapInfo && SameButPos(s.mapInfo[x], t.mapInfo[x])
    {
      assert x in s.mapInfo.Keys;
    }
  }

  lemma {:induction false} InRange(t: Tables, n: int)
    requires RandomOk(t.mapInfo, t.vRandom) && n in t.mapInfo
    ensures 0 <= t.mapInfo[n].nRandomPos < |t.vRandom| && t.vRandom[t.mapInfo[n].nRandomPos] == n
    ensures t.vRandom[|t.vRandom| - 1] in t.mapInfo
  {
  }

  lemma {:induction false} SwapFrame(t: Tables, p1: int, p2: int)
    requires 0 <= p1 < |t.vRandom| && 0 <= p2 < |t.vRandom| && t.vRandom[p1] in t.mapInfo && t.vRandom[p2] in t.mapInfo
    ensures var s := Swapped(t, p1, p2);
            s == t.(mapInfo := s.mapInfo, vRandom := s.vRandom)
  {
  }

  /** Decrementing first and deleting afterwards deletes the same. */
  lemma {:induction false} DecrementThenDrop(t: Tables, b: nat, n: int)
    requires RandomOk(t.mapInfo, t.vRandom) && n in t.mapInfo && b < |t.vvNew|
    ensures var t1 := Decremented(t, n);
            Popped(Swapped(t1, t.mapInfo[n].nRandomPos, |t.vRandom| - 1), b, n) == Dropped(t, b, n)
  {
    var p := t.mapInfo[n].nRandomPos;
    var s1, s := Swapped(Decremented(t, n), p, |t.vRandom| - 1), Swapped(t, p, |t.vRandom| - 1);
    assert s1.mapInfo - {n} == s.mapInfo - {n};
  }

  // ------------------------------------------------------------ one more reference

  function Bumped(t: Tables, n: int): Tables
    requires n in t.mapInfo
  {
    t.(mapInfo := t.mapInfo[n := t.mapInfo[n].(nRefCount := t.mapInfo[n].nRefCount + 1)])
  }

  function PutIn(t: Tables, b: nat, n: int): Tables
    requires b < |t.vvNew|
  {
    t.(vvNew := t.vvNew[b := t.vvNew[b] + {n}])
  }

  /** `r` is `t` with `n` referenced from new bucket `b` as well; a full bucket loses a member first. */
  ghost predicate Referred(t: Tables, n: int, b: nat, r: Tables)
    requires n in t.mapInfo && b < |t.vvNew|
  {
    if n in t.vvNew[b] then r == t
    else if |t.vvNew[b]| < ADDRMAN_NEW_BUCKET_SIZE then r == PutIn(Bumped(t, n), b, n)
    else exists gone :: Replaced(t, n, b, gone, r)
  }

  ghost predicate Replaced(t: Tables, n: int, b: nat, gone: int, r: Tables)
    requires n in t.mapInfo && b < |t.vvNew|
  {
    gone in t.vvNew[b] && Placed(Bumped(t, n), gone) && r == PutIn(RemovedFrom(Bumped(t, n), b, gone), b, n)
  }

  /** Entries that are tried stay as they are, but for their place in vRandom. */
  ghost predicate TriedStay(a: InfoMap, b: InfoMap) {
    forall x :: x in a && a[x].fInTried ==> x in b && SameButPos(b[x], a[x])
  }

  /** Addresses of `a` that `b` has lost: at most one. */
  ghost predicate LosesAtMostOne(a: map<NetAddr, int>, b: map<NetAddr, int>) {
    forall x, y :: x in a && x !in b && y in a && y !in b ==> x == y
  }

  lemma {:induction false} ReferredFrame(t: Tables, n: int, b: nat, r: Tables)
    requires n in t.mapInfo && !t.mapInfo[n].fInTried && b < |t.vvNew| && Referred(t, n, b, r)
    requires AddrOk(t.mapInfo, t.mapAddr)
    requires RandomOk(t.mapInfo, t.vRandom) && NewOk(t.mapInfo, t.vvNew)
    ensures n in r.mapInfo && r.mapInfo[n].addr in r.mapAddr && r.mapInfo[n].addr == t.mapInfo[n].addr
    ensures |r.vvNew| == |t.vvNew| && n in r.vvNew[b] && r.vvTried == t.vvTried
    ensures TriedStay(t.mapInfo, r.mapInfo) && LosesAtMostOne(t.mapAddr, r.mapAddr) && r.mapAddr.Keys <= t.mapAddr.Keys
  {
    hide NewOk; hide Swapped; hide Popped;
    if n in t.vvNew[b] || |t.vvNew[b]| < ADDRMAN_NEW_BUCKET_SIZE {
    } else {
      var gone :| Replaced(t, n, b, gone, r);
      var t1 := Bumped(t, n);
      assert RandomOk(t1.mapInfo, t1.vRandom) by { BumpRandom(t, n); }
      RemoveFrame(t1, b, gone);
      assert !t.mapInfo[gone].fInTried by { NewMember(t, b, gone); }
      hide RemovedFrom; hide RandomOk;
      assert t.mapInfo[gone].addr != t.mapInfo[n].addr;
    }
  }

  lemma {:induction false} BumpRandom(t: Tables, n: int)
    requires n in t.mapInfo && RandomOk(t.mapInfo, t.vRandom)
    ensures RandomOk(Bumped(t, n).mapInfo, t.vRandom)
  {
  }

  lemma {:induction false} NewMember(t: Tables, b: nat, n: int)
    requires NewOk(t.mapInfo, t.vvNew) && b < |t.vvNew| && n in t.vvNew[b]
    ensures n in t.mapInfo && !t.mapInfo[n].fInTried
  {
  }

  // ------------------------------------------------------------ moving entries to the tried buckets

  function ClearAll(vvNew: seq<set<int>>, n: int): (r: seq<set<int>>)
    ensures |r| == |vvNew| && forall b :: 0 <= b < |r| ==> r[b] == vvNew[b] - {n}
  {
    seq(|vvNew|, b requires 0 <= b < |vvNew| => vvNew[b] - {n})
  }

  lemma {:induction false} RefSetClear(vvNew: seq<set<int>>, n: int, x: int)
    ensures RefSet(ClearAll(vvNew, n), x) == if x == n then {} else RefSet(vvNew, x)
  {
  }

  /** Entry `n` has been moved from the new buckets to its tried bucket, which had room. */
  function Promoted(t: Tables, n: int, kb: nat): Tables
    requires n in t.mapInfo && kb < |t.vvTried|
  {
    t.(mapInfo := t.mapInfo[n := t.mapInfo[n].(nRefCount := 0, fInTried := true)], vvNew := ClearAll(t.vvNew, n),
       nNew := t.nNew - 1, nTried := t.nTried + 1, vvTried := t.vvTried[kb := t.vvTried[kb] + [n]])
  }

  /** Entry `n` has taken the place `pos` in its full tried bucket, reordered to `v`; the entry that
      stood there has gone to new bucket `nb`. */
  function Exchanged(t: Tables, n: int, kb: nat, v: seq<int>, pos: nat, nb: nat): Tables
    requires n in t.mapInfo && kb < |t.vvTried| && pos < |v| && v[pos] in t.mapInfo && nb < |t.vvNew|
  {
    var prev := v[pos];
    var m := t.mapInfo[n := t.mapInfo[n].(nRefCount := 0, fInTried := true)];
    var cleared := ClearAll(t.vvNew, n);
    t.(mapInfo := m[prev := m[prev].(nRefCount := 1, fInTried := false)], vvNew := cleared[nb := cleared[nb] + {prev}],
       vvTried := t.vvTried[kb := v[pos := n]])
  }

  lemma {:induction false} PlacesKeep(m: InfoMap, t: Tables)
    requires m.Keys == t.mapInfo.Keys && RandomOk(t.mapInfo, t.vRandom) && AddrOk(t.mapInfo, t.mapAddr)
    requires forall n :: n in t.mapInfo ==>
              n in m && m[n].addr == t.mapInfo[n].addr && m[n].nRandomPos == t.mapInfo[n].nRandomPos
    ensures RandomOk(m, t.vRandom) && AddrOk(m, t.mapAddr)
  {
    forall n | n in m ensures n in t.mapInfo.Keys {}
    forall a | a in t.mapAddr ensures t.mapAddr[a] in m && m[t.mapAddr[a]].addr == a {
      var n := t.mapAddr[a];
      assert n in t.mapInfo;
    }
    forall p | 0 <= p < |t.vRandom| ensures t.vRandom[p] in m && m[t.vRandom[p]].nRandomPos == p {
      var n := t.vRandom[p];
      assert n in t.mapInfo;
    }
  }

  lemma {:induction false} AppendNoDuplicates(s: seq<int>, n: int)
    requires NoDuplicates(s) && n !in s
    ensures NoDuplicates(s + [n])
  {
  }

  lemma {:induction false} PromoteTried(k: Hashes, t: Tables, n: int, kb: nat)
    requires TriedOk(k, t.mapInfo, t.vvTried) && n in t.mapInfo && !t.mapInfo[n].fInTried
    requires kb == TriedBucket(k, t.mapInfo[n]) && |t.vvTried[kb]| < ADDRMAN_TRIED_BUCKET_SIZE
    ensures TriedOk(k, Promoted(t, n, kb).mapInfo, Promoted(t, n, kb).vvTried)
  {
  }

  lemma {:induction false} PromoteNew(t: Tables, n: int, kb: nat)
    requires NewOk(t.mapInfo, t.vvNew) && RefsOk(t.mapInfo, t.vvNew, -1) && n in t.mapInfo && n >= 0 && kb < |t.vvTried|
    ensures NewOk(Promoted(t, n, kb).mapInfo, Promoted(t, n, kb).vvNew)
    ensures RefsOk(Promoted(t, n, kb).mapInfo, Promoted(t, n, kb).vvNew, -1)
  {
    var m, v := Promoted(t, n, kb).mapInfo, Promoted(t, n, kb).vvNew;
    forall b | 0 <= b < |v|
      ensures |v[b]| <= ADDRMAN_NEW_BUCKET_SIZE
    {
      assert v[b] == t.vvNew[b] - {n};
      Smaller(t.vvNew[b], n);
    }
    forall x | x in m ensures RefOk(m[x], x, v, -1) {
      RefSetClear(t.vvNew, n, x);
      assert x in t.mapInfo && RefOk(t.mapInfo[x], x, t.vvNew, -1);
    }
    hide ClearAll; hide RefSet;
  }

  lemma {:induction false} Smaller(s: set<int>, n: int)
    ensures |s - {n}| <= |s|
  {
  }

  lemma {:induction false} PromotedIds(m: InfoMap, n: int, info: AddrInfo)
    requires n in m && !m[n].fInTried && info.fInTried
    ensures TriedIds(m[n := info]) == TriedIds(m) + {n} && n !in TriedIds(m)
    ensures NewIds(m[n := info]) == NewIds(m) - {n} && n in NewIds(m)
  {
  }

  lemma {:induction false} PromoteChecked(k: Hashes, t: Tables, n: int, kb: nat)
    requires Checked(k, t, -1) && n in t.mapInfo && !t.mapInfo[n].fInTried && t.mapInfo[n].nLastSuccess != 0
    requires kb == TriedBucket(k, t.mapInfo[n]) && |t.vvTried| == ADDRMAN_TRIED_BUCKET_COUNT
    requires |t.vvTried[kb]| < ADDRMAN_TRIED_BUCKET_SIZE
    ensures Checked(k, Promoted(t, n, kb), -1)
  {
    hide TriedOk; hide NewOk; hide RefsOk; hide RandomOk; hide AddrOk; hide TriedIds; hide NewIds; hide ClearAll;
    assert 0 <= n;
    PromoteTried(k, t, n, kb);
    PromoteNew(t, n, kb);
    PlacesKeep(Promoted(t, n, kb).mapInfo, t);
    PromotedIds(t.mapInfo, n, Promoted(t, n, kb).mapInfo[n]);
  }

  /** `v` is a reordering of `s`, neither of which repeats an element. */
  ghost predicate Reordered(v: seq<int>, s: seq<int>) {
    |v| == |s| && NoDuplicates(v) && forall x :: x in v <==> x in s
  }

  lemma {:induction false} SwapReorders(v: seq<int>, s: seq<int>, i: nat, j: nat)
    requires Reordered(v, s) && i < |v| && j < |v|
    ensures Reordered(v[j := v[i]][i := v[j]], s)
  {
    var w := v[j := v[i]][i := v[j]];
    forall x ensures x in w <==> x in v {
      if x in v {
        var p :| 0 <= p < |v| && v[p] == x;
        assert w[if p == i then j else if p == j then i else p] == x;
      }
    }
  }

  lemma {:induction false} ReplaceNoDuplicates(v: seq<int>, pos: nat, n: int)
    requires NoDuplicates(v) && pos < |v| && n !in v
    ensures NoDuplicates(v[pos := n]) && forall x :: x in v[pos := n] <==> x == n || (x in v && x != v[pos])
  {
    var w := v[pos := n];
    forall x ensures x in w <==> x == n || (x in v && x != v[pos]) {
      if x in v && x != v[pos] {
        var p :| 0 <= p < |v| && v[p] == x;
        assert w[p] == x;
      }
      assert w[pos] == n;
    }
  }

  lemma {:induction false} ExchangeTried(k: Hashes, t: Tables, n: int, kb: nat, v: seq<int>, pos: nat, nb: nat)
    requires TriedOk(k, t.mapInfo, t.vvTried) && n in t.mapInfo && !t.mapInfo[n].fInTried
    requires kb == TriedBucket(k, t.mapInfo[n])
    requires Reordered(v, t.vvTried[kb]) && pos < |v| && v[pos] in t.mapInfo && nb < |t.vvNew|
    ensures TriedOk(k, Exchanged(t, n, kb, v, pos, nb).mapInfo, Exchanged(t, n, kb, v, pos, nb).vvTried)
  {
    var prev, m, w := v[pos], Exchanged(t, n, kb, v, pos, nb).mapInfo, Exchanged(t, n, kb, v, pos, nb).vvTried;
    assert n !in v && prev in t.vvTried[kb];
    ReplaceNoDuplicates(v, pos, n);
    hide NoDuplicates; hide ClearAll;
    assert prev != n && m[n].fInTried && !m[prev].fInTried;
    forall b, x | 0 <= b < |w| && x in w[b] ensures x in m && m[x].fInTried && TriedBucket(k, m[x]) == b {
      if x != n { assert x in t.vvTried[b] && x != prev; }
    }
    forall x | x in m && m[x].fInTried ensures x in w[TriedBucket(k, m[x])] {
      if x != n { assert x in t.vvTried[TriedBucket(k, t.mapInfo[x])]; }
    }
  }

  lemma {:induction false} ExchangeNew(t: Tables, n: int, kb: nat, v: seq<int>, pos: nat, nb: nat)
    requires NewOk(t.mapInfo, t.vvNew) && RefsOk(t.mapInfo, t.vvNew, -1) && n in t.mapInfo && n >= 0 && kb < |t.vvTried|
    requires pos < |v| && v[pos] in t.mapInfo && v[pos] >= 0 && t.mapInfo[v[pos]].fInTried && n != v[pos]
    requires nb < |t.vvNew| && |ClearAll(t.vvNew, n)[nb]| < ADDRMAN_NEW_BUCKET_SIZE
    ensures NewOk(Exchanged(t, n, kb, v, pos, nb).mapInfo, Exchanged(t, n, kb, v, pos, nb).vvNew)
    ensures RefsOk(Exchanged(t, n, kb, v, pos, nb).mapInfo, Exchanged(t, n, kb, v, pos, nb).vvNew, -1)
  {
    hide ClearAll; hide RefSet;
    var prev, m, w := v[pos], Exchanged(t, n, kb, v, pos, nb).mapInfo, Exchanged(t, n, kb, v, pos, nb).vvNew;
    var cleared := ClearAll(t.vvNew, n);
    assert prev !in cleared[nb];
    NotReferenced(t, prev);
    assert RefsOk(m, w, -1) by {
      hide NewOk;
      forall x | x in m ensures RefOk(m[x], x, w, -1) {
        RefSetClear(t.vvNew, n, x);
        RefSetInsert(cleared, nb, prev, x);
        assert x in t.mapInfo && RefOk(t.mapInfo[x], x, t.vvNew, -1);
      }
    }
    hide RefsOk;
    forall b | 0 <= b < |w| ensures |w[b]| <= ADDRMAN_NEW_BUCKET_SIZE { Smaller(t.vvNew[b], n); }
    assert NewOk(m, w);
  }

  lemma {:induction false} NotReferenced(t: Tables, n: int)
    requires NewOk(t.mapInfo, t.vvNew) && n in t.mapInfo && t.mapInfo[n].fInTried
    ensures RefSet(t.vvNew, n) == {}
  {
  }

  lemma {:induction false} ExchangedIds(m: InfoMap, n: int, prev: int, a: AddrInfo, b: AddrInfo)
    requires n in m && prev in m && !m[n].fInTried && m[prev].fInTried && a.fInTried && !b.fInTried
    ensures |TriedIds(m[n := a][prev := b])| == |TriedIds(m)| && |NewIds(m[n := a][prev := b])| == |NewIds(m)|
  {
    PromotedIds(m, n, a);
    var m1 := m[n := a];
    assert TriedIds(m1[prev := b]) == TriedIds(m1) - {prev} && prev in TriedIds(m1);
    assert NewIds(m1[prev := b]) == NewIds(m1) + {prev} && prev !in NewIds(m1);
  }

  lemma {:induction false} ExchangeChecked(k: Hashes, t: Tables, n: int, kb: nat, v: seq<int>, pos: nat, nb: nat)
    requires Checked(k, t, -1) && n in t.mapInfo && !t.mapInfo[n].fInTried && t.mapInfo[n].nLastSuccess != 0
    requires kb == TriedBucket(k, t.mapInfo[n]) && |t.vvTried| == ADDRMAN_TRIED_BUCKET_COUNT
    requires Reordered(v, t.vvTried[kb]) && pos < |v|
    requires v[pos] in t.mapInfo && nb < |t.vvNew| && |ClearAll(t.vvNew, n)[nb]| < ADDRMAN_NEW_BUCKET_SIZE
    ensures Checked(k, Exchanged(t, n, kb, v, pos, nb), -1)
  {
    var prev, r := v[pos], Exchanged(t, n, kb, v, pos, nb);
    assert prev in t.vvTried[kb] && t.mapInfo[prev].fInTried && 0 <= n && 0 <= prev;
    ExchangeTried(k, t, n, kb, v, pos, nb);
    ExchangeNew(t, n, kb, v, pos, nb);
    PlacesKeep(r.mapInfo, t);
    ExchangedIds(t.mapInfo, n, prev, r.mapInfo[n], r.mapInfo[prev]);
    hide TriedOk; hide NewOk; hide RefsOk; hide RandomOk; hide AddrOk; hide TriedIds; hide NewIds; hide ClearAll;
    hide Reordered;
    assert r.mapInfo == t.mapInfo[n := r.mapInfo[n]][prev := r.mapInfo[prev]];
  }

  /** The new bucket an evicted tried entry goes to: its own if there is room, else the one its
      successor came from. */
  function EvictTo(k: Hashes, t: Tables, n: int, prev: int, origin: nat): (b: nat)
    requires prev in t.mapInfo && |t.vvNew| == ADDRMAN_NEW_BUCKET_COUNT && origin < |t.vvNew|
    ensures b < |t.vvNew|
  {
    var own := NewBucket(k, t.mapInfo[prev], t.mapInfo[prev].source);
    if |ClearAll(t.vvNew, n)[own]| < ADDRMAN_NEW_BUCKET_SIZE then own else origin
  }

  /** `r` is `t` with `n` moved from the new buckets into its tried bucket; a full bucket gives one
      entry back to the new buckets. */
  ghost predicate MadeTried(k: Hashes, t: Tables, n: int, origin: nat, r: Tables)
    requires n in t.mapInfo && |t.vvTried| == ADDRMAN_TRIED_BUCKET_COUNT && |t.vvNew| == ADDRMAN_NEW_BUCKET_COUNT
    requires origin < |t.vvNew|
  {
    var kb := TriedBucket(k, t.mapInfo[n]);
    if |t.vvTried[kb]| < ADDRMAN_TRIED_BUCKET_SIZE then r == Promoted(t, n, kb)
    else exists v, pos: nat :: MadeRoom(k, t, n, origin, r, kb, v, pos)
  }

  ghost predicate MadeRoom(k: Hashes, t: Tables, n: int, origin: nat, r: Tables, kb: nat, v: seq<int>, pos: nat)
    requires n in t.mapInfo && kb < |t.vvTried| && |t.vvNew| == ADDRMAN_NEW_BUCKET_COUNT && origin < |t.vvNew|
  {
    Reordered(v, t.vvTried[kb]) && pos < |v| && v[pos] in t.mapInfo &&
      r == Exchanged(t, n, kb, v, pos, EvictTo(k, t, n, v[pos], origin))
  }

  lemma {:induction false} MadeTriedChecked(k: Hashes, t: Tables, n: int, origin: nat, r: Tables)
    requires Checked(k, t, -1) && origin < |t.vvNew| && n in t.vvNew[origin] && n in t.mapInfo
    requires t.mapInfo[n].nLastSuccess != 0
    requires |t.vvTried| == ADDRMAN_TRIED_BUCKET_COUNT && |t.vvNew| == ADDRMAN_NEW_BUCKET_COUNT
    requires MadeTried(k, t, n, origin, r)
    ensures Checked(k, r, -1)
  {
    hide Promoted; hide Exchanged; hide Reordered; hide RandomOk; hide AddrOk; hide TriedOk; hide RefsOk; hide CountOk;
    hide FieldsOk; hide TriedBucket;
    assert !t.mapInfo[n].fInTried && |t.vvNew[origin]| <= ADDRMAN_NEW_BUCKET_SIZE;
    var kb := TriedBucket(k, t.mapInfo[n]);
    if |t.vvTried[kb]| < ADDRMAN_TRIED_BUCKET_SIZE {
      PromoteChecked(k, t, n, kb);
    } else {
      var v, pos: nat :| MadeRoom(k, t, n, origin, r, kb, v, pos);
      assert ClearAll(t.vvNew, n)[origin] == t.vvNew[origin] - {n};
      assert |t.vvNew[origin] - {n}| == |t.vvNew[origin]| - 1;
      ExchangeChecked(k, t, n, kb, v, pos, EvictTo(k, t, n, v[pos], origin));
    }
  }

  // ------------------------------------------------------------ the manager is bounded

  ghost predicate InSome(n: int, buckets: seq<set<int>>) { exists b :: 0 <= b < |buckets| && n in buckets[b] }

  lemma {:induction false} Covered(ids: set<int>, buckets: seq<set<int>>, size: nat)
    requires forall b :: 0 <= b < |buckets| ==> |buckets[b]| <= size
    requires forall n :: n in ids ==> InSome(n, buckets)
    ensures |ids| <= size * |buckets|
  {
    if |buckets| == 0 {
      Empty(ids);
    } else {
      var last, rest := buckets[|buckets| - 1], buckets[..|buckets| - 1];
      forall n | n in ids - last ensures InSome(n, rest) {
        assert InSome(n, buckets);
        var b :| 0 <= b < |buckets| && n in buckets[b];
        assert n in rest[b];
      }
      hide InSome;
      Covered(ids - last, rest, size);
      assert ids == (ids - last) + (ids * last);
      Subset(ids * last, last);
      assert size * |buckets| == size * |rest| + size;
    }
  }

  lemma {:induction false} Inhabited(s: set<int>)
    requires s != {}
    ensures exists n :: n in s
  {
    if !exists n :: n in s { assert false; }
  }

  lemma {:induction false} Empty(s: set<int>)
    requires forall n :: n !in s
    ensures s == {}
  {
    if s != {} { Inhabited(s); }
  }

  lemma {:induction false} Subset(a: set<int>, b: set<int>)
    requires a <= b
    ensures |a| <= |b|
  {
    assert b == a + (b - a);
  }

  lemma {:induction false} ElementsCount(s: seq<int>)
    ensures |set x | x in s| <= |s|
  {
    if |s| > 0 {
      var rest := s[..|s| - 1];
      ElementsCount(rest);
      assert (set x | x in s) == (set x | x in rest) + {s[|s| - 1]};
    }
  }

  lemma {:induction false} TriedBounded(k: Hashes, t: Tables)
    requires TriedOk(k, t.mapInfo, t.vvTried)
    ensures |TriedIds(t.mapInfo)| <= ADDRMAN_TRIED_BUCKET_SIZE * ADDRMAN_TRIED_BUCKET_COUNT
  {
    var buckets := seq(|t.vvTried|, b requires 0 <= b < |t.vvTried| => set x | x in t.vvTried[b]);
    forall b | 0 <= b < |buckets| ensures |buckets[b]| <= ADDRMAN_TRIED_BUCKET_SIZE { ElementsCount(t.vvTried[b]); }
    forall n | n in TriedIds(t.mapInfo) ensures InSome(n, buckets) {
      assert n in buckets[TriedBucket(k, t.mapInfo[n])];
    }
    Covered(TriedIds(t.mapInfo), buckets, ADDRMAN_TRIED_BUCKET_SIZE);
  }

  lemma {:induction false} NewBounded(t: Tables)
    requires NewOk(t.mapInfo, t.vvNew) && RefsOk(t.mapInfo, t.vvNew, -1) && forall n :: n in t.mapInfo ==> n >= 0
    ensures |NewIds(t.mapInfo)| <= ADDRMAN_NEW_BUCKET_SIZE * ADDRMAN_NEW_BUCKET_COUNT
  {
    forall n | n in NewIds(t.mapInfo) ensures InSome(n, t.vvNew) {
      assert RefOk(t.mapInfo[n], n, t.vvNew, -1);
      var b :| b in RefSet(t.vvNew, n);
    }
    Covered(NewIds(t.mapInfo), t.vvNew, ADDRMAN_NEW_BUCKET_SIZE);
  }

  /** However many addresses are announced, the manager never holds more than its buckets can. */
  lemma {:induction false} Bounded(k: Hashes, t: Tables)
    requires Checked(k, t, -1)
    ensures |t.vRandom| <= ADDRMAN_TRIED_BUCKET_COUNT * ADDRMAN_TRIED_BUCKET_SIZE +
              ADDRMAN_NEW_BUCKET_COUNT * ADDRMAN_NEW_BUCKET_SIZE
  {
    TriedBounded(k, t);
    NewBounded(t);
  }
}
