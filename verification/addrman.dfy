/** The address manager: the operations of CAddrMan over its five tables.  GetRandInt is a
    nondeterministic choice; the adjusted time is a parameter. */
module AddrMans {
  import opened Bits
  import opened AddrTables

  /** An announced address: CAddress without the socket details. */
  datatype Address = Address(addr: NetAddr, port: nat, nServices: bv64, nTime: int)

  predicate IsTerrible(info: AddrInfo, now: int) {
    if info.nLastTry != 0 && info.nLastTry >= now - 60 then false
    else if info.nTime > now + 10 * 60 then true
    else if info.nTime == 0 || now - info.nTime > ADDRMAN_HORIZON_DAYS * 86400 then true
    else if info.nLastSuccess == 0 && info.nAttempts >= ADDRMAN_RETRIES then true
    else now - info.nLastSuccess > ADDRMAN_MIN_FAIL_DAYS * 86400 && info.nAttempts >= ADDRMAN_MAX_FAILURES
  }

  /** An entry that is not dated more than ten minutes ahead, was seen during the last thirty days and has
      failed fewer than three times is never thrown out as terrible; nor is any entry tried during the
      last minute. */
  lemma {:induction false} GoodEntriesStay(info: AddrInfo, now: int)
    ensures 0 != info.nTime <= now + 600 && now - info.nTime <= 30 * 86400 && info.nAttempts < 3 ==>
              !IsTerrible(info, now)
    ensures info.nLastTry != 0 && info.nLastTry >= now - 60 ==> !IsTerrible(info, now)
  {
  }

  /** And exactly these are: of those not tried during the last minute, the ones dated ahead, never or not
      lately seen, without a success in three attempts, or in ten attempts since a week. */
  lemma {:induction false} TerribleIff(info: AddrInfo, now: int)
    requires info.nLastTry == 0 || info.nLastTry < now - 60
    ensures IsTerrible(info, now) <==>
              || info.nTime > now + 600 || info.nTime == 0 || now - info.nTime > 30 * 86400
              || (info.nLastSuccess == 0 && info.nAttempts >= 3)
              || (now - info.nLastSuccess > 7 * 86400 && info.nAttempts >= 10)
  {
  }

  method GetRandInt(nMax: int) returns (r: int)
    ensures 0 <= r && (nMax > 0 ==> r < nMax) && (nMax <= 0 ==> r == 0)
  {
    if nMax <= 0 { return 0; }
    r :| 0 <= r < nMax;
  }

  method FourPicks(nMax: int) returns (n: set<int>, first: int)
    requires nMax > 0
    ensures |n| <= 4 && first in n && forall i :: i in n ==> 0 <= i < nMax
  {
    first := GetRandInt(nMax);
    var n1 := GetRandInt(nMax);
    var n2 := GetRandInt(nMax);
    var n3 := GetRandInt(nMax);
    n := {first, n1, n2, n3};
  }

  lemma {:induction false} HasLeast(s: set<int>)
    requires s != {}
    ensures exists x :: x in s && forall y :: y in s ==> x <= y
  {
    Inhabited(s);
    var x :| x in s;
    if s != {x} {
      HasLeast(s - {x});
      var z :| z in s - {x} && forall y :: y in s - {x} ==> z <= y;
      var m := if x <= z then x else z;
      assert m in s && forall y :: y in s ==> m <= y by {
        forall y | y in s ensures m <= y { if y != x { assert y in s - {x}; } }
      }
    }
  }

  /** The first element in the iteration order of a std::set. */
  method First(s: set<int>) returns (x: int)
    requires s != {}
    ensures x in s && forall y :: y in s ==> x <= y
  {
    HasLeast(s);
    x :| x in s && forall y :: y in s ==> x <= y;
  }

  class AddrMan {
    var k: Hashes
    var nIdCount: int
    var mapInfo: InfoMap
    var mapAddr: map<NetAddr, int>
    var vRandom: seq<int>
    var nTried: int
    var vvTried: seq<seq<int>>
    var nNew: int
    var vvNew: seq<set<int>>

    ghost function Value(): Tables
      reads this
    {
      Tables(nIdCount, mapInfo, mapAddr, vRandom, nTried, vvTried, nNew, vvNew)
    }

    ghost predicate Valid()
      reads this
    {
      nIdCount >= 0 && Checked(k, Value(), -1)
    }

    constructor (k: Hashes)
      ensures Valid() && mapInfo == map[] && this.k == k
    {
      this.k := k;
      nIdCount, mapInfo, mapAddr, vRandom, nTried, nNew := 0, map[], map[], [], 0, 0;
      vvTried := seq(ADDRMAN_TRIED_BUCKET_COUNT, b => []);
      vvNew := seq(ADDRMAN_NEW_BUCKET_COUNT, b => {});
      new;
      assert TriedIds(mapInfo) == {} && NewIds(mapInfo) == {};
    }

    method Find(addr: NetAddr) returns (found: bool, id: int)
      requires AddrOk(mapInfo, mapAddr)
      ensures found <==> exists n :: n in mapInfo && mapInfo[n].addr == addr
      ensures found ==> id in mapInfo && mapInfo[id].addr == addr && addr in mapAddr && mapAddr[addr] == id
      ensures !found ==> addr !in mapAddr
    {
      if addr !in mapAddr { return false, -1; }
      return true, mapAddr[addr];
    }

    method SwapRandom(p1: int, p2: int)
      requires 0 <= p1 < |vRandom| && 0 <= p2 < |vRandom| && vRandom[p1] in mapInfo && vRandom[p2] in mapInfo
      modifies this`mapInfo, this`vRandom
      ensures Value() == Swapped(old(Value()), p1, p2)
    {
      if p1 == p2 { return; }
      var id1, id2 := vRandom[p1], vRandom[p2];
      mapInfo := mapInfo[id1 := mapInfo[id1].(nRandomPos := p2)];
      mapInfo := mapInfo[id2 := mapInfo[id2].(nRandomPos := p1)];
      vRandom := vRandom[p1 := id2];
      vRandom := vRandom[p2 := id1];
    }

    // -------------------------------------------------------- deleting from new buckets

    ghost predicate InBucket(b: nat, n: int)
      reads this
    {
      b < |vvNew| && n in vvNew[b] && Placed(Value(), n)
    }

    /** Forgetting an entry whose last reference is gone. */
    method Erase(n: int)
      requires n in mapInfo && 0 <= mapInfo[n].nRandomPos < |vRandom| && vRandom[mapInfo[n].nRandomPos] == n
      requires vRandom[|vRandom| - 1] in mapInfo
      modifies this`mapInfo, this`mapAddr, this`vRandom, this`nNew
      ensures Value() == Erased(Swapped(old(Value()), old(mapInfo[n].nRandomPos), old(|vRandom|) - 1), n)
    {
      SwapRandom(mapInfo[n].nRandomPos, |vRandom| - 1);
      vRandom := vRandom[..|vRandom| - 1];
      mapAddr := mapAddr - {mapInfo[n].addr};
      mapInfo := mapInfo - {n};
      nNew := nNew - 1;
    }

    /** The deletion both halves of ShrinkNew perform. */
    method Unreference(b: nat, n: int, ghost extra: int)
      requires Checked(k, Value(), extra) && InBucket(b, n) && n != extra
      modifies this`mapInfo, this`mapAddr, this`vRandom, this`nNew, this`vvNew
      ensures Checked(k, Value(), extra) && Value() == RemovedFrom(old(Value()), b, n)
    {
      hide Checked; hide RandomOk; hide AddrOk; hide Swapped; hide Erased;
      ghost var t := Value();
      RemoveChecked(k, t, b, n, extra);
      RandomPart(k, t, extra);
      DecrementThenDrop(t, b, n);
      mapInfo := mapInfo[n := mapInfo[n].(nRefCount := mapInfo[n].nRefCount - 1)];
      assert Value() == Decremented(t, n);
      if mapInfo[n].nRefCount == 0 {
        Erase(n);
      }
      assert vvNew == t.vvNew;
      vvNew := vvNew[b := vvNew[b] - {n}];
    }

    method FirstTerrible(bucket: set<int>, now: int) returns (found: bool, n: int)
      requires forall x :: x in bucket ==> x in mapInfo
      ensures !found ==> forall x :: x in bucket ==> !IsTerrible(mapInfo[x], now)
      ensures found ==>
                n in bucket && IsTerrible(mapInfo[n], now) &&
                forall x :: x in bucket && x < n ==> !IsTerrible(mapInfo[x], now)
    {
      hide IsTerrible;
      var rest := bucket;
      while rest != {}
        invariant rest <= bucket
        invariant forall x :: x in bucket && x !in rest ==> !IsTerrible(mapInfo[x], now)
        decreases rest
      {
        n := First(rest);
        if IsTerrible(mapInfo[n], now) { return true, n; }
        rest := rest - {n};
      }
      return false, -1;
    }

    /** Four random picks (with repetition) from the bucket, the one last seen longest ago wins. */
    method PickOldest(bucket: set<int>) returns (oldest: int)
      requires bucket != {} && forall x :: x in bucket ==> x in mapInfo && x >= 0
      ensures OldestOfFew(mapInfo, bucket, oldest)
    {
      var n, first := FourPicks(|bucket|);
      var rest, nI := bucket, 0;
      oldest := -1;
      ghost var picked: set<int> := {};
      ghost var hits: set<int> := {};
      while rest != {}
        invariant rest <= bucket && nI == |bucket| - |rest|
        invariant picked <= bucket && |picked| <= |hits|
        invariant hits <= n && forall i :: i in hits ==> i < nI
        invariant first < nI ==> oldest != -1
        invariant if oldest == -1 then picked == {}
                  else oldest in picked && NoneOlder(mapInfo, picked, mapInfo[oldest].nTime)
        decreases rest
      {
        var x := First(rest);
        if nI in n {
          if oldest == -1 || mapInfo[x].nTime < mapInfo[oldest].nTime { oldest := x; }
          OneMore(picked, x);
          picked, hits := picked + {x}, hits + {nI};
        }
        rest := rest - {x};
        nI := nI + 1;
      }
      Subset(hits, n);
      assert OldestAmong(mapInfo, picked, oldest);
    }

    /** Makes room in new bucket `b`: the first terrible entry leaves it, or, when there is none, the
        oldest of up to four random ones.  `extra` is an entry about to enter. */
    method ShrinkNew(b: nat, now: int, ghost extra: int) returns (r: int, ghost n: int)
      requires b < |vvNew| && vvNew[b] != {} && extra !in vvNew[b] && Checked(k, Value(), extra)
      modifies this`mapInfo, this`mapAddr, this`vRandom, this`nNew, this`vvNew
      ensures Checked(k, Value(), extra)
      ensures old(InBucket(b, n)) && Value() == RemovedFrom(old(Value()), b, n)
      ensures r == 0 ==>
                IsTerrible(old(mapInfo[n]), now) &&
                forall x :: x in old(vvNew[b]) && x < n ==> !IsTerrible(old(mapInfo)[x], now)
      ensures r == 1 ==> forall x :: x in old(vvNew[b]) ==> !IsTerrible(old(mapInfo)[x], now)
      ensures r == 1 ==> OldestOfFew(old(mapInfo), old(vvNew[b]), n)
      ensures r == 0 || r == 1
      ensures r == 0 ==> var e := old(mapInfo[n]);
                         e.nTime == 0 || e.nTime > now + 600 || now - e.nTime > 30 * 86400 || e.nAttempts >= 3
    {
      hide Checked; hide RemovedFrom; hide OldestOfFew; hide IsTerrible; hide Placed;
      Members(k, Value(), b, extra);
      var found, x := FirstTerrible(vvNew[b], now);
      if found {
        r := 0;
      } else {
        x := PickOldest(vvNew[b]);
        OldestIsMember(mapInfo, vvNew[b], x);
        r := 1;
      }
      n := x;
      GoodEntriesStay(mapInfo[n], now);
      Unreference(b, x, extra);
    }

    // -------------------------------------------------------- moving to the tried buckets

    /** Shuffles the front of a tried bucket and returns a position in it (-1 if it is empty). */
    method SelectTried(kb: nat) returns (oldestPos: int)
      requires kb < |vvTried| && NoDuplicates(vvTried[kb]) && forall x :: x in vvTried[kb] ==> x in mapInfo && x >= 0
      modifies this`vvTried
      ensures |vvTried| == old(|vvTried|) && vvTried == old(vvTried)[kb := vvTried[kb]]
      ensures Reordered(vvTried[kb], old(vvTried[kb]))
      ensures if vvTried[kb] == [] then oldestPos == -1
              else 0 <= oldestPos < |vvTried[kb]| && vvTried[kb][oldestPos] in old(vvTried[kb])
    {
      var oldest := -1;
      oldestPos := -1;
      var i := 0;
      ghost var s := vvTried[kb];
      while i < ADDRMAN_TRIED_ENTRIES_INSPECT_ON_EVICT && i < |vvTried[kb]|
        invariant 0 <= i <= |s| && |vvTried| == old(|vvTried|) && vvTried == old(vvTried)[kb := vvTried[kb]]
        invariant Reordered(vvTried[kb], s)
        invariant oldest == -1 || oldest in s
        invariant if i == 0 then oldestPos == -1 && oldest == -1 else 0 <= oldestPos < |s| && oldest != -1
      {
        var v := vvTried[kb];
        var r := GetRandInt(|v| - i);
        var pos := r + i;
        var temp := v[pos];
        SwapReorders(v, s, i, pos);
        assert temp in v;
        vvTried := vvTried[kb := v[pos := v[i]][i := temp]];
        if oldest == -1 || mapInfo[temp].nLastSuccess < mapInfo[oldest].nLastSuccess {
          oldest, oldestPos := temp, pos;
        }
        i := i + 1;
      }
    }

    /** Takes an entry out of every new bucket, counting its references down to zero. */
    method ClearNew(n: int)
      requires n in mapInfo && mapInfo[n].nRefCount == |RefSet(vvNew, n)|
      modifies this`vvNew, this`mapInfo
      ensures vvNew == ClearAll(old(vvNew), n) && mapInfo == old(mapInfo)[n := old(mapInfo[n]).(nRefCount := 0)]
    {
      ghost var was, info := vvNew, mapInfo[n];
      for i := 0 to |vvNew|
        invariant |vvNew| == |was| && n in mapInfo
        invariant forall b :: 0 <= b < |was| ==> vvNew[b] == if b < i then was[b] - {n} else was[b]
        invariant mapInfo[n].nRefCount == |RefSet(vvNew, n)|
        invariant mapInfo == old(mapInfo)[n := info.(nRefCount := mapInfo[n].nRefCount)]
      {
        if n in vvNew[i] {
          RefSetRemove(vvNew, i, n, n);
          vvNew := vvNew[i := vvNew[i] - {n}];
          mapInfo := mapInfo[n := mapInfo[n].(nRefCount := mapInfo[n].nRefCount - 1)];
        }
      }
      assert vvNew == ClearAll(was, n);
      RefSetClear(was, n, n);
    }

    /** Moves an entry from its new buckets into its tried bucket. */
    method MakeTried(n: int, origin: nat)
      requires Movable(k, Value(), n) && origin < |vvNew| && n in vvNew[origin]
      modifies this`vvNew, this`mapInfo, this`vvTried, this`nNew, this`nTried
      ensures MadeTried(k, old(Value()), n, origin, Value())
    {
      hide Reordered; hide NoDuplicates; hide TriedBucket; hide NewBucket; hide ClearAll; hide RefSet;
      ghost var t := Value();
      ClearNew(n);
      nNew := nNew - 1;
      var kb := TriedBucket(k, mapInfo[n]);
      assert mapInfo[n] == t.mapInfo[n].(nRefCount := 0);
      assert kb == TriedBucket(k, t.mapInfo[n]) by { SameBucket(k, mapInfo[n], t.mapInfo[n]); }
      if |vvTried[kb]| < ADDRMAN_TRIED_BUCKET_SIZE {
        vvTried := vvTried[kb := vvTried[kb] + [n]];
        nTried := nTried + 1;
        mapInfo := mapInfo[n := mapInfo[n].(fInTried := true)];
        assert Value() == Promoted(t, n, kb);
      } else {
        var pos := SelectTried(kb);
        Evict(n, origin, kb, pos, t);
      }
    }

    /** The second half of MakeTried: `n` takes position `pos` of its full tried bucket. */
    method Evict(n: int, origin: nat, kb: nat, pos: int, ghost t: Tables)
      requires n in t.mapInfo && kb < |t.vvTried| && |t.vvNew| == ADDRMAN_NEW_BUCKET_COUNT && origin < |t.vvNew|
      requires |vvTried| == |t.vvTried| && vvTried == t.vvTried[kb := vvTried[kb]]
      requires Reordered(vvTried[kb], t.vvTried[kb])
      requires 0 <= pos < |vvTried[kb]| && vvTried[kb][pos] in t.mapInfo && vvTried[kb][pos] != n
      requires Value() == t.(vvNew := ClearAll(t.vvNew, n), mapInfo := t.mapInfo[n := t.mapInfo[n].(nRefCount := 0)],
                             nNew := t.nNew - 1, vvTried := vvTried)
      modifies this`vvNew, this`mapInfo, this`vvTried, this`nNew
      ensures MadeRoom(k, t, n, origin, Value(), kb, old(vvTried[kb]), pos)
    {
      hide Reordered; hide TriedBucket; hide NewBucket; hide ClearAll;
      var v := vvTried[kb];
      var prev := v[pos];
      var ub := NewBucket(k, mapInfo[prev], mapInfo[prev].source);
      mapInfo := mapInfo[prev := mapInfo[prev].(fInTried := false, nRefCount := 1)];
      if |vvNew[ub]| < ADDRMAN_NEW_BUCKET_SIZE {
        vvNew := vvNew[ub := vvNew[ub] + {prev}];
      } else {
        vvNew := vvNew[origin := vvNew[origin] + {prev}];
      }
      nNew := nNew + 1;
      vvTried := vvTried[kb := v[pos := n]];
      mapInfo := mapInfo[n := mapInfo[n].(fInTried := true)];
      EntryTwice(t.mapInfo, n, prev, mapInfo[n], mapInfo[prev]);
    }

    // -------------------------------------------------------- the public operations

    method FindNewBucket(n: int) returns (b: int)
      requires |vvNew| > 0
      ensures b == -1 ==> forall c :: 0 <= c < |vvNew| ==> n !in vvNew[c]
      ensures b != -1 ==> 0 <= b < |vvNew| && n in vvNew[b]
    {
      var rnd := GetRandInt(|vvNew|);
      for i := 0 to |vvNew|
        invariant forall c :: 0 <= c < |vvNew| && Behind(c, rnd, |vvNew|) < i ==> n !in vvNew[c]
      {
        b := (i + rnd) % |vvNew|;
        Rotate(i, rnd, |vvNew|);
        if n in vvNew[b] { return; }
      }
      b := -1;
    }

    /** A successful connection: the entry becomes, or stays, tried.  Unknown addresses and other
        ports change nothing.  A time of success that is not positive breaks what Check_ tests. */
    method Good(addr: NetAddr, port: nat, nTime: int)
      requires Valid()
      modifies this
      ensures k == old(k) && nIdCount == old(nIdCount)
      ensures Valid() <==> nTime > 0 || !old(Matches(addr, port))
      ensures !old(Matches(addr, port)) ==> Value() == old(Value())
      ensures old(Matches(addr, port)) ==> GoodResult(k, old(Value()), old(mapAddr[addr]), nTime, Value())
    {
      hide Checked; hide MadeTried; hide Promoted; hide Exchanged; hide Movable; hide GoodResult;
      ghost var t := Value();
      RandomPart(k, t, -1);
      var found, n := Find(addr);
      if !found || mapInfo[n].port != port { return; }
      BucketCount(k, t, -1);
      mapInfo := mapInfo[n := Touched(mapInfo[n], nTime)];
      ghost var t1 := Value();
      if mapInfo[n].fInTried {
        GoodIs(k, t, n, nTime, 0, t1);
        GoodIff(k, t, n, nTime, t1);
        return;
      }
      Referenced(k, t, n);
      var b := FindNewBucket(n);
      if b == -1 {
        assert false;
        return;
      }
      CanMove(k, t, t1, n, b, nTime);
      MakeTried(n, b);
      GoodIs(k, t, n, nTime, b, Value());
      GoodIff(k, t, n, nTime, Value());
    }

    /** The address is known and with this port. */
    ghost predicate Matches(addr: NetAddr, port: nat)
      reads this
    {
      addr in mapAddr && mapAddr[addr] in mapInfo && mapInfo[mapAddr[addr]].port == port
    }

    method Attempt(addr: NetAddr, port: nat, nTime: int)
      requires Valid()
      modifies this`mapInfo
      ensures Valid() <==> nTime >= 0 || !old(Matches(addr, port))
      ensures !old(Matches(addr, port)) ==> Value() == old(Value())
      ensures old(Matches(addr, port)) ==>
                var n := old(mapAddr[addr]);
                var info := old(mapInfo)[n];
                mapInfo == old(mapInfo)[n := info.(nLastTry := nTime, nAttempts := info.nAttempts + 1)]
    {
      hide Checked;
      RandomPart(k, Value(), -1);
      var found, n := Find(addr);
      if !found || mapInfo[n].port != port { return; }
      assert StatsOk(mapInfo[n]) by { Stats(k, Value(), n); }
      var info := mapInfo[n].(nLastTry := nTime, nAttempts := mapInfo[n].nAttempts + 1);
      if nTime >= 0 { StatsKeepChecked(k, Value(), n, info, -1); }
      mapInfo := mapInfo[n := info];
      if nTime < 0 { NotChecked(k, Value(), n); }
    }

    method Connected(addr: NetAddr, port: nat, nTime: int)
      requires Valid()
      modifies this`mapInfo
      ensures Valid()
      ensures !old(Matches(addr, port)) ==> Value() == old(Value())
      ensures old(Matches(addr, port)) ==>
                var n := old(mapAddr[addr]);
                var info := old(mapInfo)[n];
                mapInfo == old(mapInfo)[n := info.(nTime := if nTime - info.nTime > 20 * 60 then nTime else info.nTime)]
    {
      hide Checked;
      RandomPart(k, Value(), -1);
      var found, n := Find(addr);
      if !found || mapInfo[n].port != port { return; }
      if nTime - mapInfo[n].nTime > 20 * 60 {
        assert StatsOk(mapInfo[n]) by { Stats(k, Value(), n); }
        StatsKeepChecked(k, Value(), n, mapInfo[n].(nTime := nTime), -1);
        mapInfo := mapInfo[n := mapInfo[n].(nTime := nTime)];
      }
    }

    /** A random sample of at most 23 % and 2500 entries, all different; nothing but the order of
        vRandom changes. */
    method GetAddr() returns (vAddr: seq<AddrInfo>)
      requires Valid()
      modifies this`mapInfo, this`vRandom
      ensures Valid() && MovedOnly(mapInfo, old(mapInfo)) && multiset(vRandom) == multiset(old(vRandom))
      ensures |vAddr| == SampleSize(|vRandom|)
      ensures forall i :: 0 <= i < |vAddr| ==>
                vAddr[i].addr in mapAddr && mapAddr[vAddr[i].addr] in mapInfo &&
                vAddr[i] == mapInfo[mapAddr[vAddr[i].addr]]
      ensures forall i, j :: 0 <= i < j < |vAddr| ==> vAddr[i].addr != vAddr[j].addr
    {
      hide Checked; hide RandomOk; hide AddrOk; hide MovedOnly; hide Swapped; hide Sample;
      var nNodes := SampleSize(|vRandom|);
      vAddr := [];
      MovedRefl(mapInfo);
      SampleEmpty(Value());
      for n := 0 to nNodes
        invariant Valid() && |vRandom| == old(|vRandom|) && |vAddr| == n && Sample(Value(), vAddr)
        invariant MovedOnly(mapInfo, old(mapInfo)) && multiset(vRandom) == multiset(old(vRandom))
      {
        var r := GetRandInt(|vRandom| - n);
        ghost var t := Value();
        RandomPart(k, t, -1);
        SwapKeepsChecked(k, t, n, r + n, -1);
        SwapRandomOk(t, n, r + n);
        SampleStep(t, vAddr, r + n);
        Listed(t, n);
        Listed(t, r + n);
        SwapRandom(n, r + n);
        MovedTrans(mapInfo, t.mapInfo, old(mapInfo));
        RandomPart(k, Value(), -1);
        Listed(Value(), n);
        vAddr := vAddr + [mapInfo[vRandom[n]]];
      }
      RandomPart(k, Value(), -1);
      SampleDistinct(Value(), vAddr);
    }

    // -------------------------------------------------------- announcing an address

    /** Gives an unknown address an entry at the end of vRandom. */
    method Create(addr: Address, source: NetAddr) returns (n: int)
      modifies this`nIdCount, this`mapInfo, this`mapAddr, this`vRandom
      ensures n == old(nIdCount)
      ensures Value() == Created(old(Value()), Fresh(addr, source, old(|vRandom|))).(nNew := old(nNew))
    {
      n := nIdCount;
      nIdCount := nIdCount + 1;
      mapInfo := mapInfo[n := Fresh(addr, source, -1)];
      mapAddr := mapAddr[addr.addr := n];
      mapInfo := mapInfo[n := mapInfo[n].(nRandomPos := |vRandom|)];
      vRandom := vRandom + [n];
    }

    /** References entry `n` from new bucket `b`, making room there if need be. */
    method Refer(n: int, b: nat, now: int)
      requires n in mapInfo && b < |vvNew| && nIdCount >= 0
      requires if n in vvNew[b] then Checked(k, Value(), -1) else Checked(k, Bumped(Value(), n), n)
      modifies this`mapInfo, this`mapAddr, this`vRandom, this`nNew, this`vvNew
      ensures Valid() && Referred(old(Value()), n, b, Value())
    {
      hide Checked; hide RemovedFrom; hide Placed;
      if n in vvNew[b] { return; }
      ghost var t := Value();
      mapInfo := mapInfo[n := mapInfo[n].(nRefCount := mapInfo[n].nRefCount + 1)];
      assert Value() == Bumped(t, n);
      BucketSize(k, Value(), b, n);
      ghost var gone;
      if |vvNew[b]| == ADDRMAN_NEW_BUCKET_SIZE {
        var r;
        r, gone := ShrinkNew(b, now, n);
        AfterRemoval(k, Bumped(t, n), b, gone, n);
      }
      InsertChecked(k, Value(), b, n);
      vvNew := vvNew[b := vvNew[b] + {n}];
      assert |t.vvNew[b]| == ADDRMAN_NEW_BUCKET_SIZE ==> Replaced(t, n, b, gone, Value());
    }

    /** The stochastic test: one draw out of 2^refs wins, so that each reference an entry already has halves
        the chance of one more. */
    method Lottery(refs: nat) returns (win: bool, ghost draw: nat)
      ensures draw < Pow2(refs) && (win <==> draw == 0)
    {
      var factor := 1;
      for i := 0 to refs
        invariant factor == Pow2(i)
      {
        factor := factor * 2;
      }
      var r := GetRandInt(factor);
      win, draw := factor <= 1 || r == 0, r;
    }

    /** The part of Add_ that updates a known entry. */
    static method RefreshEntry(info: AddrInfo, addr: Address, penalty: int, now: int) returns (r: AddrInfo)
      ensures r == Refreshed(info, addr, penalty, now)
    {
      hide Joined;
      var nTime := info.nTime;
      var fCurrentlyOnline := now - addr.nTime < 24 * 60 * 60;
      var nUpdateInterval := if fCurrentlyOnline then 60 * 60 else 24 * 60 * 60;
      if addr.nTime != 0 && (nTime == 0 || nTime < addr.nTime - nUpdateInterval - penalty) {
        nTime := Max0(addr.nTime - penalty);
      }
      r := info.(nTime := nTime, nServices := Joined(info.nServices, addr.nServices));
    }

    /** Announces an address.  A known one is refreshed and may be referenced from one more bucket;
        an unknown one is created and put into its bucket. */
    method Add(addr: Address, routable: bool, source: NetAddr, penalty: int, now: int) returns (isNew: bool)
      requires Valid()
      modifies this
      ensures Valid() && k == old(k)
      ensures isNew <==> routable && addr.addr !in old(mapAddr)
      ensures !routable ==> Value() == old(Value())
      ensures routable ==> AddResult(k, old(Value()), addr, source, penalty, now, Value())
    {
      hide Checked; hide Referred; hide NewBucket; hide Refreshed; hide Fresh; hide Bumped; hide RandomOk; hide AddrOk;
      if !routable { return false; }
      ghost var t := Value();
      RandomPart(k, t, -1);
      BucketCount(k, t, -1);
      var found, n := Find(addr.addr);
      if found {
        RefreshKeeps(k, t, n, addr, penalty, now);
        var info := RefreshEntry(mapInfo[n], addr, penalty, now);
        mapInfo := mapInfo[n := info];
        ghost var t1 := Value();
        assert t1 == RefreshedAll(t, n, addr, penalty, now);
        if addr.nTime == 0 || (mapInfo[n].nTime != 0 && addr.nTime <= mapInfo[n].nTime) { return false; }
        if mapInfo[n].fInTried { return false; }
        if mapInfo[n].nRefCount == ADDRMAN_NEW_BUCKETS_PER_ADDRESS { return false; }
        References(k, t1, n);
        var win, draw := Lottery(mapInfo[n].nRefCount);
        if !win { return false; }
        RefIncChecked(k, t1, n);
        isNew := false;
      } else {
        CreateKeeps(k, t, addr, source, penalty);
        n := Create(addr, source);
        mapInfo := mapInfo[n := Penalised(mapInfo[n], penalty)];
        nNew := nNew + 1;
        assert mapInfo == Announced(t, addr, source, penalty).mapInfo;
        assert Value() == Announced(t, addr, source, penalty);
        isNew := true;
      }
      Refer(n, NewBucket(k, mapInfo[n], source), now);
    }

    // -------------------------------------------------------- whole runs

    method Apply(op: Op)
      requires Valid() && op.Sensible()
      modifies this
      ensures Valid() && k == old(k)
    {
      hide Checked; hide AddResult; hide GoodResult;
      match op {
        case Announce(addr, routable, source, penalty, now) => var isNew := Add(addr, routable, source, penalty, now);
        case Succeeded(addr, port, nTime) => Good(addr, port, nTime);
        case Attempted(addr, port, nTime) => Attempt(addr, port, nTime);
        case StillThere(addr, port, nTime) => Connected(addr, port, nTime);
        case Sampled => var sample := GetAddr();
      }
    }
  }

  /** The calls the rest of the node makes. */
  datatype Op =
    | Announce(addr: Address, routable: bool, source: NetAddr, penalty: int, now: int)
    | Succeeded(a: NetAddr, port: nat, nTime: int)
    | Attempted(a: NetAddr, port: nat, nTime: int)
    | StillThere(a: NetAddr, port: nat, nTime: int)
    | Sampled
  {
    /** Times of successes are positive, times of attempts are not negative. */
    predicate Sensible() { (Succeeded? ==> nTime > 0) && (Attempted? ==> nTime >= 0) }
  }

  /** Any run from an empty manager keeps every condition Check_ tests and the size bound. */
  method Run(k: Hashes, ops: seq<Op>) returns (m: AddrMan)
    requires forall i :: 0 <= i < |ops| ==> ops[i].Sensible()
    ensures fresh(m) && m.k == k && m.Valid()
    ensures |m.vRandom| <= ADDRMAN_TRIED_BUCKET_COUNT * ADDRMAN_TRIED_BUCKET_SIZE +
              ADDRMAN_NEW_BUCKET_COUNT * ADDRMAN_NEW_BUCKET_SIZE
  {
    m := new AddrMan(k);
    for i := 0 to |ops|
      invariant fresh(m) && m.k == k && m.Valid()
    {
      m.Apply(ops[i]);
    }
    Bounded(k, m.Value());
  }

  // ------------------------------------------------------------ what the operations mean for addresses

  /** Tried entries stay tried, under their address. */
  ghost predicate TriedSurvive(a: Tables, b: Tables) {
    b.vvTried == a.vvTried && forall x :: x in a.mapInfo && a.mapInfo[x].fInTried ==>
      x in b.mapInfo && b.mapInfo[x].fInTried && b.mapInfo[x].addr == a.mapInfo[x].addr
  }

  /** An announcement makes the address known, forgets at most one other address, and never touches
      the tried table. */
  lemma {:induction false} AddKeepsTried(k: Hashes, t: Tables, addr: Address, source: NetAddr, penalty: int, now: int,
                                         r: Tables)
    requires Checked(k, t, -1) && t.nIdCount >= 0 && AddResult(k, t, addr, source, penalty, now, r)
    ensures addr.addr in r.mapAddr && LosesAtMostOne(t.mapAddr, r.mapAddr)
    ensures r.mapAddr.Keys <= t.mapAddr.Keys + {addr.addr}
    ensures TriedSurvive(t, r)
  {
    hide Refreshed; hide NewBucket; hide Referred; hide TriedOk; hide RefsOk; hide CountOk;
    if addr.addr in t.mapAddr {
      var n := t.mapAddr[addr.addr];
      var t1 := RefreshedAll(t, n, addr, penalty, now);
      assert SamePlace(t1.mapInfo[n], t.mapInfo[n]);
      if r != t1 {
        RefreshKeeps(k, t, n, addr, penalty, now);
        ReferredFrame(t1, n, NewBucket(k, t1.mapInfo[n], source), r);
      }
    } else {
      var n, t1 := t.nIdCount, Announced(t, addr, source, penalty);
      NewTables(k, t, addr, source, penalty);
      ReferredFrame(t1, n, NewBucket(k, t1.mapInfo[n], source), r);
    }
  }

  lemma {:induction false} NewTables(k: Hashes, t: Tables, addr: Address, source: NetAddr, penalty: int)
    requires Checked(k, t, -1) && addr.addr !in t.mapAddr
    ensures var t1 := Announced(t, addr, source, penalty);
            RandomOk(t1.mapInfo, t1.vRandom) && AddrOk(t1.mapInfo, t1.mapAddr) && NewOk(t1.mapInfo, t1.vvNew)
  {
    assert t.nIdCount !in t.mapInfo;
    var info := Penalised(Fresh(addr, source, |t.vRandom|), penalty);
    CreatedRandomAddr(t, info);
    CreatedBuckets(k, t, info);
    hide Checked;
  }

  ghost predicate Demoted(t: Tables, r: Tables, x: int) {
    x in t.mapInfo && t.mapInfo[x].fInTried && x in r.mapInfo && !r.mapInfo[x].fInTried
  }

  /** A success makes the entry tried and forgets no address; another entry loses that status only
      if the tried bucket was full, and then exactly one does. */
  lemma {:induction false} GoodKeepsAddresses(k: Hashes, t: Tables, n: int, nTime: int, r: Tables)
    requires Checked(k, t, -1) && n in t.mapInfo && GoodResult(k, t, n, nTime, r)
    ensures r.mapAddr == t.mapAddr && r.vRandom == t.vRandom && r.mapInfo.Keys == t.mapInfo.Keys
    ensures r.mapInfo[n].fInTried && r.mapInfo[n].nLastSuccess == nTime
    ensures forall x, y :: Demoted(t, r, x) && Demoted(t, r, y) ==> x == y
    ensures !t.mapInfo[n].fInTried ==> var bucket := t.vvTried[TriedBucket(k, t.mapInfo[n])];
                                       forall x :: Demoted(t, r, x) ==>
                                         x in bucket && |bucket| == ADDRMAN_TRIED_BUCKET_SIZE
  {
    hide Checked; hide MadeTried; hide TriedBucket;
    if !t.mapInfo[n].fInTried {
      var t1 := t.(mapInfo := t.mapInfo[n := Touched(t.mapInfo[n], nTime)]);
      SameBucket(k, t1.mapInfo[n], t.mapInfo[n]);
      var b: nat :| b < |t.vvNew| && n in t.vvNew[b] && MadeTried(k, t1, n, b, r);
      TriedMembers(k, t, n, b);
      TriedSize(k, t);
      MadeTriedKeeps(k, t1, n, b, r);
      assert forall x :: Demoted(t, r, x) ==> Demoted(t1, r, x);
    }
  }

  lemma {:induction false} TriedSize(k: Hashes, t: Tables)
    requires Checked(k, t, -1)
    ensures forall b :: 0 <= b < |t.vvTried| ==> |t.vvTried[b]| <= ADDRMAN_TRIED_BUCKET_SIZE
  {
  }

  lemma {:induction false} MadeTriedKeeps(k: Hashes, t: Tables, n: int, origin: nat, r: Tables)
    requires n in t.mapInfo && |t.vvTried| == ADDRMAN_TRIED_BUCKET_COUNT && |t.vvNew| == ADDRMAN_NEW_BUCKET_COUNT
    requires origin < |t.vvNew|
    requires n !in t.vvTried[TriedBucket(k, t.mapInfo[n])] && MadeTried(k, t, n, origin, r)
    ensures r.mapAddr == t.mapAddr && r.vRandom == t.vRandom && r.mapInfo.Keys == t.mapInfo.Keys
    ensures r.mapInfo[n].fInTried && r.mapInfo[n].nLastSuccess == t.mapInfo[n].nLastSuccess
    ensures forall x, y :: Demoted(t, r, x) && Demoted(t, r, y) ==> x == y
    ensures var bucket := t.vvTried[TriedBucket(k, t.mapInfo[n])];
            forall x :: Demoted(t, r, x) ==> x in bucket && |bucket| >= ADDRMAN_TRIED_BUCKET_SIZE
  {
    hide TriedBucket; hide NewBucket; hide ClearAll;
  }

  /** A CAddrInfo constructed from an address. */
  function Fresh(addr: Address, source: NetAddr, pos: int): AddrInfo {
    AddrInfo(addr.addr, addr.port, addr.nServices, addr.nTime, source, 0, 0, 0, 0, false, pos)
  }

  function Max0(x: int): int { if x > 0 then x else 0 }

  function Penalised(info: AddrInfo, penalty: int): AddrInfo { info.(nTime := Max0(info.nTime - penalty)) }

  /** A newer announcement updates the time now and then; services accumulate. */
  function Refreshed(info: AddrInfo, addr: Address, penalty: int, now: int): (r: AddrInfo)
    ensures SamePlace(r, info) && (StatsOk(info) ==> StatsOk(r))
  {
    var interval := if now - addr.nTime < 24 * 60 * 60 then 60 * 60 else 24 * 60 * 60;
    var later := addr.nTime != 0 && (info.nTime == 0 || info.nTime < addr.nTime - interval - penalty);
    info.(nTime := if later then Max0(addr.nTime - penalty) else info.nTime,
          nServices := Joined(info.nServices, addr.nServices))
  }

  function Joined(a: bv64, b: bv64): bv64 { a | b }

  function RefreshedAll(t: Tables, n: int, addr: Address, penalty: int, now: int): Tables
    requires n in t.mapInfo
  {
    t.(mapInfo := t.mapInfo[n := Refreshed(t.mapInfo[n], addr, penalty, now)])
  }

  /** The tables with an entry for an unknown address, not yet in a bucket. */
  function Announced(t: Tables, addr: Address, source: NetAddr, penalty: int): Tables {
    Created(t, Penalised(Fresh(addr, source, |t.vRandom|), penalty))
  }

  /** Only a newer announcement of an entry that is not tried and has room for a reference may add one. */
  predicate MayRefer(info: AddrInfo, addr: Address) {
    && addr.nTime != 0 && (info.nTime == 0 || info.nTime < addr.nTime)
    && !info.fInTried && info.nRefCount < ADDRMAN_NEW_BUCKETS_PER_ADDRESS
  }

  /** What an announcement leaves: a known address refreshed and, if that may be, perhaps referenced once
      more; an unknown one entered and referenced. */
  ghost predicate AddResult(k: Hashes, t: Tables, addr: Address, source: NetAddr, penalty: int, now: int, r: Tables) {
    |t.vvNew| == ADDRMAN_NEW_BUCKET_COUNT &&
    if addr.addr in t.mapAddr then
      var n := t.mapAddr[addr.addr];
      n in t.mapInfo &&
      var t1 := RefreshedAll(t, n, addr, penalty, now);
      r == t1 || (MayRefer(t1.mapInfo[n], addr) && Referred(t1, n, NewBucket(k, t1.mapInfo[n], source), r))
    else
      var t1 := Announced(t, addr, source, penalty);
      t.nIdCount in t1.mapInfo && Referred(t1, t.nIdCount, NewBucket(k, t1.mapInfo[t.nIdCount], source), r)
  }

  lemma {:induction false} BucketCount(k: Hashes, t: Tables, extra: int)
    requires Checked(k, t, extra)
    ensures |t.vvNew| == ADDRMAN_NEW_BUCKET_COUNT && |t.vvTried| == ADDRMAN_TRIED_BUCKET_COUNT
  {
  }

  lemma {:induction false} BucketSize(k: Hashes, t: Tables, b: nat, extra: int)
    requires Checked(k, t, extra) && b < |t.vvNew|
    ensures |t.vvNew[b]| <= ADDRMAN_NEW_BUCKET_SIZE
  {
  }

  lemma {:induction false} References(k: Hashes, t: Tables, n: int)
    requires Checked(k, t, -1) && n in t.mapInfo && !t.mapInfo[n].fInTried
    ensures 1 <= t.mapInfo[n].nRefCount <= ADDRMAN_NEW_BUCKETS_PER_ADDRESS
  {
  }

  lemma {:induction false} RefreshKeeps(k: Hashes, t: Tables, n: int, addr: Address, penalty: int, now: int)
    requires Checked(k, t, -1) && n in t.mapInfo
    ensures Checked(k, RefreshedAll(t, n, addr, penalty, now), -1)
  {
    hide Refreshed;
    Stats(k, t, n);
    hide Checked;
    StatsKeepChecked(k, t, n, Refreshed(t.mapInfo[n], addr, penalty, now), -1);
  }

  lemma {:induction false} CreateKeeps(k: Hashes, t: Tables, addr: Address, source: NetAddr, penalty: int)
    requires Checked(k, t, -1) && t.nIdCount >= 0 && addr.addr !in t.mapAddr
    ensures var t1 := Announced(t, addr, source, penalty);
            && t.nIdCount in t1.mapInfo && Checked(k, Bumped(t1, t.nIdCount), t.nIdCount)
            && |t1.vvNew| == ADDRMAN_NEW_BUCKET_COUNT && forall b :: 0 <= b < |t1.vvNew| ==> t.nIdCount !in t1.vvNew[b]
  {
    BucketCount(k, t, -1);
    assert t.nIdCount !in t.mapInfo;
    assert forall b :: 0 <= b < |t.vvNew| ==> t.nIdCount !in t.vvNew[b];
    hide Checked;
    var info := Penalised(Fresh(addr, source, |t.vRandom|), penalty);
    var n, once := t.nIdCount, info.(nRefCount := 1);
    CreatedChecked(k, t, once);
    assert t.mapInfo[n := info][n := once] == t.mapInfo[n := once];
    assert Bumped(Created(t, info), n) == Created(t, once);
  }

  /** After the removal there is room, and the entering member is still there. */
  lemma {:induction false} AfterRemoval(k: Hashes, t: Tables, b: nat, gone: int, n: int)
    requires Checked(k, t, n) && n in t.mapInfo && b < |t.vvNew| && gone in t.vvNew[b] && n !in t.vvNew[b]
    requires Placed(t, gone)
    requires |t.vvNew[b]| == ADDRMAN_NEW_BUCKET_SIZE
    ensures var r := RemovedFrom(t, b, gone);
            |r.vvNew| == |t.vvNew| && n in r.mapInfo && n !in r.vvNew[b] && |r.vvNew[b]| < ADDRMAN_NEW_BUCKET_SIZE
  {
    hide Checked; hide RandomOk;
    RandomPart(k, t, n);
    RemoveFrame(t, b, gone);
    hide RemovedFrom;
    assert |t.vvNew[b] - {gone}| == |t.vvNew[b]| - 1;
  }

  lemma {:induction false} Listed(t: Tables, p: int)
    requires RandomOk(t.mapInfo, t.vRandom) && 0 <= p < |t.vRandom|
    ensures t.vRandom[p] in t.mapInfo
  {
  }

  /** The entries at the first places of vRandom. */
  ghost predicate Sample(t: Tables, vAddr: seq<AddrInfo>) {
    |vAddr| <= |t.vRandom| &&
      forall i :: 0 <= i < |vAddr| ==> t.vRandom[i] in t.mapInfo && vAddr[i] == t.mapInfo[t.vRandom[i]]
  }

  lemma {:induction false} SampleEmpty(t: Tables)
    ensures Sample(t, [])
  {
  }

  /** Swapping position |vAddr| with a later one and taking what is there extends the sample. */
  lemma {:induction false} SampleStep(t: Tables, vAddr: seq<AddrInfo>, q: int)
    requires RandomOk(t.mapInfo, t.vRandom) && Sample(t, vAddr) && |vAddr| <= q < |t.vRandom|
    ensures var s := Swapped(t, |vAddr|, q);
            |vAddr| < |s.vRandom| && s.vRandom[|vAddr|] in s.mapInfo &&
              Sample(s, vAddr + [s.mapInfo[s.vRandom[|vAddr|]]])
  {
  }

  lemma {:induction false} SampleDistinct(t: Tables, vAddr: seq<AddrInfo>)
    requires RandomOk(t.mapInfo, t.vRandom) && AddrOk(t.mapInfo, t.mapAddr) && Sample(t, vAddr)
    ensures forall i :: 0 <= i < |vAddr| ==>
              vAddr[i].addr in t.mapAddr && t.mapAddr[vAddr[i].addr] in t.mapInfo &&
              vAddr[i] == t.mapInfo[t.mapAddr[vAddr[i].addr]]
    ensures forall i, j :: 0 <= i < j < |vAddr| ==> vAddr[i].addr != vAddr[j].addr
  {
    forall i | 0 <= i < |vAddr| ensures vAddr[i].addr in t.mapAddr && t.mapAddr[vAddr[i].addr] == t.vRandom[i] {
      var n := t.vRandom[i];
      assert n in t.mapInfo;
    }
    forall i, j | 0 <= i < j < |vAddr| ensures vAddr[i].addr != vAddr[j].addr {
      assert t.mapInfo[t.vRandom[i]].nRandomPos == i && t.mapInfo[t.vRandom[j]].nRandomPos == j;
    }
  }

  function SampleSize(size: nat): (n: nat)
    ensures n <= ADDRMAN_GETADDR_MAX && 100 * n <= ADDRMAN_GETADDR_MAX_PCT * size
    ensures n == ADDRMAN_GETADDR_MAX || 100 * (n + 1) > ADDRMAN_GETADDR_MAX_PCT * size
  {
    if ADDRMAN_GETADDR_MAX_PCT * size / 100 > ADDRMAN_GETADDR_MAX then ADDRMAN_GETADDR_MAX
    else ADDRMAN_GETADDR_MAX_PCT * size / 100
  }

  lemma {:induction false} MovedRefl(m: InfoMap)
    ensures MovedOnly(m, m)
  {
  }

  lemma {:induction false} MovedTrans(a: InfoMap, b: InfoMap, c: InfoMap)
    requires MovedOnly(a, b) && MovedOnly(b, c)
    ensures MovedOnly(a, c)
  {
  }

  /** How many steps a search that starts at `start` and wraps around takes to `c`. */
  function Behind(c: int, start: int, n: int): int { if c >= start then c - start else c - start + n }

  lemma {:induction false} Rotate(i: int, start: int, n: int)
    requires 0 <= i < n && 0 <= start < n
    ensures (i + start) % n == if i + start < n then i + start else i + start - n
  {
  }

  function Touched(info: AddrInfo, nTime: int): AddrInfo {
    info.(nLastSuccess := nTime, nLastTry := nTime, nTime := nTime, nAttempts := 0)
  }

  /** What a successful connection to entry `n` leaves: its statistics reset and itself tried. */
  ghost predicate GoodResult(k: Hashes, t: Tables, n: int, nTime: int, r: Tables) {
    n in t.mapInfo &&
    var t1 := t.(mapInfo := t.mapInfo[n := Touched(t.mapInfo[n], nTime)]);
    if t.mapInfo[n].fInTried then r == t1
    else
      |t.vvTried| == ADDRMAN_TRIED_BUCKET_COUNT && |t.vvNew| == ADDRMAN_NEW_BUCKET_COUNT &&
      exists b: nat :: b < |t.vvNew| && n in t.vvNew[b] && MadeTried(k, t1, n, b, r)
  }

  /** A new entry is in some bucket. */
  lemma {:induction false} Referenced(k: Hashes, t: Tables, n: int)
    requires Checked(k, t, -1) && n in t.mapInfo && !t.mapInfo[n].fInTried
    ensures |t.vvTried| == ADDRMAN_TRIED_BUCKET_COUNT && |t.vvNew| == ADDRMAN_NEW_BUCKET_COUNT
    ensures exists b :: 0 <= b < |t.vvNew| && n in t.vvNew[b]
  {
  }

  lemma {:induction false} Stats(k: Hashes, t: Tables, n: int)
    requires Checked(k, t, -1) && n in t.mapInfo
    ensures StatsOk(t.mapInfo[n])
  {
  }

  lemma {:induction false} EntryTwice(m: InfoMap, n: int, prev: int, a: AddrInfo, b: AddrInfo)
    requires n != prev
    ensures forall a0 {:trigger m[n := a0]} :: m[n := a0][prev := b][n := a] == m[n := a][prev := b]
  {
  }

  lemma {:induction false} SameBucket(k: Hashes, a: AddrInfo, b: AddrInfo)
    requires a.addr == b.addr && a.port == b.port
    ensures TriedBucket(k, a) == TriedBucket(k, b)
  {
  }

  /** Entry `n` is referenced as its count says, and its tried bucket is in order. */
  ghost predicate Movable(k: Hashes, t: Tables, n: int) {
    && n in t.mapInfo && t.mapInfo[n].nRefCount == |RefSet(t.vvNew, n)|
    && |t.vvTried| == ADDRMAN_TRIED_BUCKET_COUNT && |t.vvNew| == ADDRMAN_NEW_BUCKET_COUNT
    && var bucket := t.vvTried[TriedBucket(k, t.mapInfo[n])];
       NoDuplicates(bucket) && forall x :: x in bucket ==> x in t.mapInfo && x >= 0 && x != n
  }

  lemma {:induction false} CanMove(k: Hashes, t: Tables, t1: Tables, n: int, origin: nat, nTime: int)
    requires Checked(k, t, -1) && origin < |t.vvNew| && n in t.vvNew[origin] && n in t.mapInfo
    requires t1 == t.(mapInfo := t.mapInfo[n := Touched(t.mapInfo[n], nTime)])
    ensures Movable(k, t1, n)
  {
    hide Checked; hide TriedBucket; hide RefSet; hide NoDuplicates;
    TriedMembers(k, t, n, origin);
    BucketCount(k, t, -1);
    SameBucket(k, t1.mapInfo[n], t.mapInfo[n]);
  }

  lemma {:induction false} GoodIs(k: Hashes, t: Tables, n: int, nTime: int, b: nat, r: Tables)
    requires Checked(k, t, -1) && n in t.mapInfo
    requires |t.vvTried| == ADDRMAN_TRIED_BUCKET_COUNT && |t.vvNew| == ADDRMAN_NEW_BUCKET_COUNT
    requires var t1 := t.(mapInfo := t.mapInfo[n := Touched(t.mapInfo[n], nTime)]);
             if t.mapInfo[n].fInTried then r == t1 else b < |t.vvNew| && n in t.vvNew[b] && MadeTried(k, t1, n, b, r)
    ensures GoodResult(k, t, n, nTime, r)
  {
  }

  lemma {:induction false} NotChecked(k: Hashes, t: Tables, n: int)
    requires n in t.mapInfo && !StatsOk(t.mapInfo[n])
    ensures !Checked(k, t, -1)
  {
  }

  /** The tables stay in order exactly if the time of success is positive. */
  lemma {:induction false} GoodIff(k: Hashes, t: Tables, n: int, nTime: int, r: Tables)
    requires Checked(k, t, -1) && n in t.mapInfo && GoodResult(k, t, n, nTime, r)
    ensures Checked(k, r, -1) <==> nTime > 0
  {
    hide Checked; hide MadeTried;
    GoodKeepsAddresses(k, t, n, nTime, r);
    if nTime <= 0 {
      NotChecked(k, r, n);
    } else {
      var t1 := t.(mapInfo := t.mapInfo[n := Touched(t.mapInfo[n], nTime)]);
      StatsKeepChecked(k, t, n, Touched(t.mapInfo[n], nTime), -1);
      if !t.mapInfo[n].fInTried {
        var b: nat :| b < |t.vvNew| && n in t.vvNew[b] && MadeTried(k, t1, n, b, r);
        MadeTriedChecked(k, t1, n, b, r);
      }
    }
  }

  lemma {:induction false} TriedMembers(k: Hashes, t: Tables, n: int, origin: nat)
    requires Checked(k, t, -1) && origin < |t.vvNew| && n in t.vvNew[origin] && n in t.mapInfo
    ensures t.mapInfo[n].nRefCount == |RefSet(t.vvNew, n)| && !t.mapInfo[n].fInTried
    ensures var b := TriedBucket(k, t.mapInfo[n]);
            && b < |t.vvTried| && NoDuplicates(t.vvTried[b])
            && forall x :: x in t.vvTried[b] ==> x in t.mapInfo && x >= 0 && x != n
  {
    assert RefOk(t.mapInfo[n], n, t.vvNew, -1) && n >= 0;
    hide RandomOk; hide AddrOk; hide CountOk; hide RefSet; hide NoDuplicates;
    var b := TriedBucket(k, t.mapInfo[n]);
    hide TriedBucket;
    forall x | x in t.vvTried[b]
      ensures x in t.mapInfo && x >= 0 && x != n
    {
      assert x in t.mapInfo && t.mapInfo[x].fInTried;
    }
  }

  ghost predicate NoneOlder(m: InfoMap, picked: set<int>, nTime: int) {
    forall x :: x in picked ==> x in m && nTime <= m[x].nTime
  }

  lemma {:induction false} OneMore(s: set<int>, x: int)
    ensures |s + {x}| <= |s| + 1
  {
  }

  ghost predicate OldestAmong(m: InfoMap, picked: set<int>, n: int) {
    n in picked && |picked| <= 4 && n in m && NoneOlder(m, picked, m[n].nTime)
  }

  ghost predicate OldestOfFew(m: InfoMap, bucket: set<int>, n: int) {
    exists picked :: picked <= bucket && OldestAmong(m, picked, n)
  }

  lemma {:induction false} OldestIsMember(m: InfoMap, bucket: set<int>, n: int)
    requires OldestOfFew(m, bucket, n)
    ensures n in bucket
  {
  }

  lemma {:induction false} RandomPart(k: Hashes, t: Tables, extra: int)
    requires Checked(k, t, extra)
    ensures RandomOk(t.mapInfo, t.vRandom) && AddrOk(t.mapInfo, t.mapAddr)
  {
  }
}
