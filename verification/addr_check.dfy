/** Check_, the consistency check the address manager carries for debugging: what it accepts, and that
    it accepts every manager the operations can produce. */
module AddrChecks {
  import opened AddrTables
  import opened AddrMans
  import opened AddrFiles

  // ------------------------------------------------------------ what Check_ accepts

  /** The first complaint about one entry, 0 if there is none.  An address missing from mapAddr reads
      as id 0, as a std::map lookup would. */
  function EntryCode(t: Tables, n: int): int
    requires n in t.mapInfo
  {
    var info := t.mapInfo[n];
    if info.fInTried && info.nLastSuccess == 0 then -1
    else if info.fInTried && info.nRefCount != 0 then -2
    else if !info.fInTried && (info.nRefCount < 0 || info.nRefCount > ADDRMAN_NEW_BUCKETS_PER_ADDRESS) then -3
    else if !info.fInTried && info.nRefCount == 0 then -4
    else if (if info.addr in t.mapAddr then t.mapAddr[info.addr] else 0) != n then -5
    else if info.nRandomPos < 0 || info.nRandomPos >= |t.vRandom| || t.vRandom[info.nRandomPos] != n then -14
    else if info.nLastTry < 0 then -6
    else if info.nLastSuccess < 0 then -8
    else 0
  }

  /** All tried buckets in a row. */
  function Flat(vv: seq<seq<int>>): seq<int> {
    if vv == [] then [] else Flat(vv[..|vv| - 1]) + vv[|vv| - 1]
  }

  ghost predicate EntriesPass(t: Tables) { forall n :: n in t.mapInfo ==> EntryCode(t, n) == 0 }

  ghost predicate NewPass(t: Tables) {
    && (forall b, n :: 0 <= b < |t.vvNew| && n in t.vvNew[b] ==> n in NewIds(t.mapInfo))
    && (forall n :: n in NewIds(t.mapInfo) ==> |RefSet(t.vvNew, n)| == t.mapInfo[n].nRefCount)
  }

  /** The tables pass: counters exact, every entry in order, the tried buckets list the tried entries
      each once, the new buckets hold each new entry as often as it is referenced. */
  ghost predicate Passes(t: Tables) {
    && |t.vRandom| == t.nTried + t.nNew && EntriesPass(t)
    && |TriedIds(t.mapInfo)| == t.nTried && |NewIds(t.mapInfo)| == t.nNew
    && Lists(Flat(t.vvTried), TriedIds(t.mapInfo)) && NewPass(t)
  }

  // ------------------------------------------------------------ the tried buckets

  /** What has been read is a prefix of what there is. */
  lemma {:induction false} FlatPrefix(vv: seq<seq<int>>, b: nat)
    requires b < |vv|
    ensures Flat(vv[..b + 1]) == Flat(vv[..b]) + vv[b] && Flat(vv[..b + 1]) <= Flat(vv)
    decreases |vv| - b
  {
    assert vv[..b + 1][..b] == vv[..b];
    if b + 1 < |vv| { FlatPrefix(vv, b + 1); } else { assert vv[..b + 1] == vv; }
  }

  ghost predicate Struck(seen: seq<int>, all: set<int>, left: set<int>) {
    NoDuplicates(seen) && (forall x :: x in seen ==> x in all) && (forall x :: x in left <==> x in all && x !in seen)
  }

  lemma {:induction false} NotListed(seen: seq<int>, x: int, flat: seq<int>, all: set<int>, left: set<int>)
    requires Struck(seen, all, left) && x !in left && seen + [x] <= flat
    ensures !Lists(flat, all)
  {
    assert flat[|seen|] == x && flat[..|seen|] == seen;
    if x in all {
      var i :| 0 <= i < |seen| && seen[i] == x;
      assert flat[i] == x;
    }
  }

  /** Strikes the members of the tried buckets off the set of tried ids. */
  method StrikeTried(vvTried: seq<seq<int>>, setTried: set<int>) returns (err: int, left: set<int>)
    ensures err == 0 && left == {} <==> Lists(Flat(vvTried), setTried)
  {
    hide Lists;
    err, left := 0, setTried;
    ghost var seen: seq<int> := [];
    for b := 0 to |vvTried|
      invariant seen == Flat(vvTried[..b]) && Struck(seen, setTried, left)
    {
      FlatPrefix(vvTried, b);
      ghost var start := seen;
      for i := 0 to |vvTried[b]|
        invariant seen == start + vvTried[b][..i] && Struck(seen, setTried, left)
      {
        var x := vvTried[b][i];
        assert start + vvTried[b] == start + vvTried[b][..i] + [x] + vvTried[b][i + 1..];
        assert seen + [x] <= Flat(vvTried);
        if x !in left {
          NotListed(seen, x, Flat(vvTried), setTried, left);
          return -11, left;
        }
        left := left - {x};
        seen := seen + [x];
      }
      assert vvTried[b][..|vvTried[b]|] == vvTried[b];
    }
    assert vvTried[..|vvTried|] == vvTried;
    AllStruck(seen, setTried, left);
  }

  lemma {:induction false} AllStruck(seen: seq<int>, all: set<int>, left: set<int>)
    requires Struck(seen, all, left)
    ensures left == {} <==> Lists(seen, all)
  {
    if Lists(seen, all) { Empty(left); }
  }

  // ------------------------------------------------------------ the new buckets

  /** Every member is expected, and seen as often as expected. */
  ghost predicate CountsMatch(vvNew: seq<set<int>>, all: map<int, int>) {
    && (forall b, n :: 0 <= b < |vvNew| && n in vvNew[b] ==> n in all)
    && (forall n :: n in all ==> |RefSet(vvNew, n)| == all[n])
  }

  /** After the buckets `done`, `left` holds what is still to come of `all`. */
  ghost predicate Counting(done: seq<set<int>>, all: map<int, int>, left: map<int, int>) {
    && (forall b, n :: 0 <= b < |done| && n in done[b] ==> n in all)
    && (forall n :: n in all ==> |RefSet(done, n)| <= all[n])
    && (forall n :: n in left <==> n in all && |RefSet(done, n)| < all[n])
    && (forall n :: n in left ==> left[n] == all[n] - |RefSet(done, n)|)
  }

  lemma {:induction false} CountStep(done: seq<set<int>>, b: nat, x: int, all: map<int, int>, left: map<int, int>)
    requires Counting(done, all, left) && b < |done| && x !in done[b] && x in left
    ensures Counting(done[b := done[b] + {x}], all, if left[x] == 1 then left - {x} else left[x := left[x] - 1])
  {
    var after := done[b := done[b] + {x}];
    forall n ensures |RefSet(after, n)| == |RefSet(done, n)| + if n == x then 1 else 0 { RefSetInsert(done, b, x, n); }
    hide RefSet;
  }

  lemma {:induction false} CountFails(done: seq<set<int>>, b: nat, x: int, vvNew: seq<set<int>>, all: map<int, int>,
                                      left: map<int, int>)
    requires Counting(done, all, left) && b < |done| <= |vvNew| && x !in done[b] && x in vvNew[b] && x !in left
    requires forall c :: 0 <= c < |done| ==> done[c] <= vvNew[c]
    ensures !CountsMatch(vvNew, all)
  {
    if x in all {
      var after := done[b := done[b] + {x}];
      RefSetInsert(done, b, x, x);
      assert forall c :: c in RefSet(after, x) ==> c in RefSet(vvNew, x);
      NatSubset(RefSet(after, x), RefSet(vvNew, x));
      assert |RefSet(vvNew, x)| > all[x];
    }
  }

  lemma {:induction false} CountOpen(done: seq<set<int>>, all: map<int, int>, left: map<int, int>)
    requires Counting(done, all, left)
    ensures Counting(done + [{}], all, left)
  {
    forall n ensures RefSet(done + [{}], n) == RefSet(done, n) {}
  }

  /** Counts the members of the new buckets down from the reference counts. */
  method CountNew(vvNew: seq<set<int>>, mapNew: map<int, int>) returns (err: int, left: map<int, int>)
    requires forall n :: n in mapNew ==> mapNew[n] >= 1
    ensures err == 0 && left == map[] <==> CountsMatch(vvNew, mapNew)
  {
    hide RefSet; hide CountsMatch;
    err, left := 0, mapNew;
    CountStart(mapNew);
    for b := 0 to |vvNew|
      invariant Counting(vvNew[..b], mapNew, left)
    {
      CountOpen(vvNew[..b], mapNew, left);
      hide Counting;
      ghost var done := vvNew[..b] + [{}];
      var rest := vvNew[b];
      assert vvNew[b] - rest == {};
      while rest != {}
        invariant rest <= vvNew[b] && done == vvNew[..b] + [vvNew[b] - rest] && Counting(done, mapNew, left)
        decreases rest
      {
        var x := First(rest);
        if x !in left {
          CountFails(done, b, x, vvNew, mapNew, left);
          return -12, left;
        }
        CountStep(done, b, x, mapNew, left);
        left := if left[x] == 1 then left - {x} else left[x := left[x] - 1];
        assert vvNew[b] - (rest - {x}) == (vvNew[b] - rest) + {x};
        rest := rest - {x};
        done := done[b := done[b] + {x}];
      }
      assert vvNew[b] - rest == vvNew[b];
      assert done == vvNew[..b + 1];
    }
    assert vvNew[..|vvNew|] == vvNew;
    CountEnd(vvNew, mapNew, left);
  }

  lemma {:induction false} CountStart(all: map<int, int>)
    requires forall n :: n in all ==> all[n] >= 1
    ensures Counting([], all, all)
  {
  }

  lemma {:induction false} CountEnd(vvNew: seq<set<int>>, all: map<int, int>, left: map<int, int>)
    requires Counting(vvNew, all, left)
    ensures left == map[] <==> CountsMatch(vvNew, all)
  {
    hide RefSet;
    if CountsMatch(vvNew, all) { Empty(left.Keys); }
    if left == map[] {
      forall n | n in all ensures |RefSet(vvNew, n)| == all[n] { assert n !in left; }
    }
  }

  // ------------------------------------------------------------ the whole check

  /** Collects the tried and the new ids; stops at the first entry that is not in order. */
  method CheckEntries(m: AddrMan) returns (err: int, setTried: set<int>, mapNew: map<int, int>)
    ensures err == 0 <==> EntriesPass(m.Value())
    ensures err == 0 ==> setTried == TriedIds(m.mapInfo) && mapNew.Keys == NewIds(m.mapInfo)
    ensures err == 0 ==> forall n :: n in mapNew ==> n in m.mapInfo && mapNew[n] == m.mapInfo[n].nRefCount >= 1
  {
    hide EntryCode;
    err, setTried, mapNew := 0, {}, map[];
    var rest := m.mapInfo.Keys;
    while rest != {}
      invariant rest <= m.mapInfo.Keys
      invariant forall n :: n in m.mapInfo && n !in rest ==> EntryCode(m.Value(), n) == 0
      invariant forall n :: n in setTried <==> n in TriedIds(m.mapInfo) && n !in rest
      invariant forall n :: n in mapNew <==> n in NewIds(m.mapInfo) && n !in rest
      invariant forall n :: n in mapNew ==> mapNew[n] == m.mapInfo[n].nRefCount >= 1
      decreases rest
    {
      var n := First(rest);
      err := EntryCodeOf(m, n);
      if err != 0 { return; }
      if m.mapInfo[n].fInTried { setTried := setTried + {n}; } else { mapNew := mapNew[n := m.mapInfo[n].nRefCount]; }
      rest := rest - {n};
    }
    SameMembers(setTried, TriedIds(m.mapInfo));
    SameMembers(mapNew.Keys, NewIds(m.mapInfo));
  }

  lemma {:induction false} SameMembers(a: set<int>, b: set<int>)
    requires forall n :: n in a <==> n in b
    ensures a == b
  {
    Empty(a - b);
    Empty(b - a);
    assert a == (a - (a - b)) + (b - a);
  }

  /** The tests on one entry, in the order of the code. */
  method EntryCodeOf(m: AddrMan, n: int) returns (err: int)
    requires n in m.mapInfo
    ensures err == EntryCode(m.Value(), n)
    ensures err == 0 && !m.mapInfo[n].fInTried ==> m.mapInfo[n].nRefCount >= 1
  {
    var info := m.mapInfo[n];
    if info.fInTried {
      if info.nLastSuccess == 0 { return -1; }
      if info.nRefCount != 0 { return -2; }
    } else {
      if info.nRefCount < 0 || info.nRefCount > ADDRMAN_NEW_BUCKETS_PER_ADDRESS { return -3; }
      if info.nRefCount == 0 { return -4; }
    }
    var id := if info.addr in m.mapAddr then m.mapAddr[info.addr] else 0;
    if id != n { return -5; }
    if info.nRandomPos < 0 || info.nRandomPos >= |m.vRandom| || m.vRandom[info.nRandomPos] != n { return -14; }
    if info.nLastTry < 0 { return -6; }
    if info.nLastSuccess < 0 { return -8; }
    err := 0;
  }

  /** Check_ returns 0 exactly for tables that pass, */
  method Check(m: AddrMan) returns (err: int)
    ensures err == 0 <==> Passes(m.Value())
  {
    hide EntriesPass; hide Lists; hide TriedIds; hide NewIds; hide RefSet;
    if |m.vRandom| != m.nTried + m.nNew { return -7; }
    var setTried, mapNew;
    err, setTried, mapNew := CheckEntries(m);
    if err != 0 { return; }
    SameCount(mapNew, NewIds(m.mapInfo));
    if |setTried| != m.nTried { return -9; }
    if |mapNew| != m.nNew { return -10; }
    var tried, recent;
    err, tried := StrikeTried(m.vvTried, setTried);
    if err != 0 { return; }
    MatchIsPass(m.Value(), mapNew);
    err, recent := CountNew(m.vvNew, mapNew);
    if err != 0 { return; }
    if |tried| != 0 { return -13; }
    if |recent| != 0 { return -15; }
  }

  lemma {:induction false} SameCount(m: map<int, int>, ids: set<int>)
    requires m.Keys == ids
    ensures |m| == |ids|
  {
  }

  lemma {:induction false} MatchIsPass(t: Tables, mapNew: map<int, int>)
    requires mapNew.Keys == NewIds(t.mapInfo)
    requires forall n :: n in mapNew ==> n in t.mapInfo && mapNew[n] == t.mapInfo[n].nRefCount
    ensures CountsMatch(t.vvNew, mapNew) <==> NewPass(t)
  {
  }

  /** and it returns 0 on whatever the operations produce. */
  lemma {:induction false} CheckedPasses(k: Hashes, t: Tables)
    requires Checked(k, t, -1)
    ensures Passes(t)
  {
    TriedListed(k, t.mapInfo, t.vvTried, |t.vvTried|);
    assert t.vvTried[..|t.vvTried|] == t.vvTried;
    hide NoDuplicates; hide RefSet; hide Flat;
    forall n | n in t.mapInfo
      ensures EntryCode(t, n) == 0 && (n in NewIds(t.mapInfo) ==> |RefSet(t.vvNew, n)| == t.mapInfo[n].nRefCount)
    {
      assert RefOk(t.mapInfo[n], n, t.vvNew, -1) && n >= 0;
    }
    hide RandomOk; hide AddrOk; hide RefsOk; hide EntryCode;
    forall x ensures x in Flat(t.vvTried) <==> x in TriedIds(t.mapInfo) {
      if x in TriedIds(t.mapInfo) { assert x in t.vvTried[TriedBucket(k, t.mapInfo[x])]; }
    }
  }

  lemma {:induction false} TriedListed(k: Hashes, m: InfoMap, vvTried: seq<seq<int>>, b: nat)
    requires TriedOk(k, m, vvTried) && b <= |vvTried|
    ensures NoDuplicates(Flat(vvTried[..b]))
    ensures forall x :: x in Flat(vvTried[..b]) <==> exists c :: 0 <= c < b && x in vvTried[c]
  {
    if b > 0 {
      TriedListed(k, m, vvTried, b - 1);
      FlatPrefix(vvTried, b - 1);
      var front, last := Flat(vvTried[..b - 1]), vvTried[b - 1];
      forall x | x in last ensures x !in front {
        assert TriedBucket(k, m[x]) == b - 1;
      }
      hide TriedBucket; hide Flat;
      assert forall i :: 0 <= i < |last| ==> last[i] in last;
      assert forall x :: x in front + last <==> x in front || x in last;
    }
  }

  /** A success recorded with a time that is not positive is what Check_ complains about. */
  lemma {:induction false} GoodPassesIff(k: Hashes, t: Tables, n: int, nTime: int, r: Tables)
    requires Checked(k, t, -1) && n in t.mapInfo && GoodResult(k, t, n, nTime, r)
    ensures Passes(r) <==> nTime > 0
  {
    hide Checked; hide GoodResult;
    GoodIff(k, t, n, nTime, r);
    GoodKeepsAddresses(k, t, n, nTime, r);
    if nTime > 0 { CheckedPasses(k, r); } else { assert EntryCode(r, n) != 0; }
  }

  /** And so is an attempt with a negative one. */
  lemma {:induction false} AttemptPassesIff(k: Hashes, t: Tables, n: int, nTime: int)
    requires Checked(k, t, -1) && n in t.mapInfo
    ensures var info := t.mapInfo[n].(nLastTry := nTime, nAttempts := t.mapInfo[n].nAttempts + 1);
            Passes(t.(mapInfo := t.mapInfo[n := info])) <==> nTime >= 0
  {
    hide Checked;
    var info := t.mapInfo[n].(nLastTry := nTime, nAttempts := t.mapInfo[n].nAttempts + 1);
    var r := t.(mapInfo := t.mapInfo[n := info]);
    Stats(k, t, n);
    if nTime >= 0 {
      StatsKeepChecked(k, t, n, info, -1);
      CheckedPasses(k, r);
    } else {
      assert EntryCode(r, n) != 0;
    }
  }

  /** The first address announced to an empty manager is entered as it is. */
  lemma {:induction false} FirstAnnounced(k: Hashes, t: Tables, addr: Address, source: NetAddr, penalty: int, now: int,
                                          r: Tables)
    requires Checked(k, t, -1) && t.mapInfo == map[] && AddResult(k, t, addr, source, penalty, now, r)
    ensures addr.addr in r.mapAddr && r.mapAddr[addr.addr] in r.mapInfo
    ensures r.mapInfo[r.mapAddr[addr.addr]].port == addr.port
  {
    var t1 := Announced(t, addr, source, penalty);
    var b := NewBucket(k, t1.mapInfo[t.nIdCount], source);
    hide NewBucket;
    Empty(t1.vvNew[b]);
  }

  /** A run that Check_ complains about: an address is announced and a success at time 0 recorded. */
  method SuccessAtTimeZero(k: Hashes) returns (err: int)
    ensures err != 0
  {
    hide Checked; hide Passes; hide GoodResult; hide AddResult;
    var m := new AddrMan(k);
    var addr := Address(7, 8333, 0, 100);
    ghost var empty := m.Value();
    var isNew := m.Add(addr, true, 3, 0, 200);
    FirstAnnounced(k, empty, addr, 3, 0, 200, m.Value());
    ghost var t, n := m.Value(), m.mapAddr[7];
    m.Good(7, 8333, 0);
    GoodPassesIff(k, t, n, 0, m.Value());
    err := Check(m);
  }

  /** Whatever the run, Check_ finds nothing afterwards. */
  method RunThenCheck(k: Hashes, ops: seq<Op>) returns (m: AddrMan, err: int)
    requires forall i :: 0 <= i < |ops| ==> ops[i].Sensible()
    ensures fresh(m) && err == 0
  {
    hide Checked; hide Passes;
    m := Run(k, ops);
    CheckedPasses(k, m.Value());
    err := Check(m);
  }
}
