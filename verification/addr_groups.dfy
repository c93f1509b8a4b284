/** The design goal of the address manager: no localised attacker can fill its tables. */
module AddrGroups {
  import opened AddrTables
  import opened AddrMans

  // ------------------------------------------------------------ the tried table

  ghost function TriedOf(k: Hashes, t: Tables, g: nat): set<int> {
    set n | n in t.mapInfo && t.mapInfo[n].fInTried && k.group(t.mapInfo[n].addr) == g
  }

  /** However many of its nodes succeed, an address range never holds more than four buckets' worth of the
      tried table: 256 of its 4096 places. */
  lemma {:induction false} RangeBounded(k: Hashes, t: Tables, g: nat)
    requires Checked(k, t, -1)
    ensures |TriedOf(k, t, g)| <= 256
  {
    assert TriedOk(k, t.mapInfo, t.vvTried);
    hide Checked;
    var buckets := seq(4, i requires 0 <= i < 4 => set x | x in t.vvTried[k.tried2(g, i) % 64]);
    forall i | 0 <= i < |buckets| ensures |buckets[i]| <= ADDRMAN_TRIED_BUCKET_SIZE {
      ElementsCount(t.vvTried[k.tried2(g, i) % 64]);
    }
    forall n | n in TriedOf(k, t, g) ensures InSome(n, buckets) {
      var info := t.mapInfo[n];
      assert n in buckets[k.tried1(info.addr, info.port) % 4];
    }
    Covered(TriedOf(k, t, g), buckets, ADDRMAN_TRIED_BUCKET_SIZE);
  }

  // ------------------------------------------------------------ the new table

  /** The new buckets that sources of one range can reach. */
  ghost function Reach(k: Hashes, g: nat): set<nat> {
    set i: nat | i < 32 :: k.new2(g, i) % 256
  }

  lemma {:induction false} ReachSmall(k: Hashes, g: nat, n: nat)
    requires n <= 32
    ensures |set i: nat | i < n :: k.new2(g, i) % 256| <= n
  {
    if n > 0 {
      ReachSmall(k, g, n - 1);
      var before, all := set i: nat | i < n - 1 :: k.new2(g, i) % 256, set i: nat | i < n :: k.new2(g, i) % 256;
      assert all == before + {k.new2(g, n - 1) % 256};
    }
  }

  /** An announcement touches one new bucket, which its source can reach, and no tried bucket. */
  lemma {:induction false} AddTouches(k: Hashes, t: Tables, addr: Address, source: NetAddr, penalty: int, now: int,
                                      r: Tables, b: nat)
    requires Checked(k, t, -1) && t.nIdCount >= 0 && AddResult(k, t, addr, source, penalty, now, r)
    requires b < ADDRMAN_NEW_BUCKET_COUNT && b !in Reach(k, k.group(source))
    ensures |t.vvNew| == |r.vvNew| == ADDRMAN_NEW_BUCKET_COUNT && r.vvNew[b] == t.vvNew[b]
  {
    var known := addr.addr in t.mapAddr;
    var n := if known then t.mapAddr[addr.addr] else t.nIdCount;
    var t1 := if known then RefreshedAll(t, n, addr, penalty, now) else Announced(t, addr, source, penalty);
    if known {
      RefreshKeeps(k, t, n, addr, penalty, now);
      RandomPart(k, t1, -1);
    } else {
      NewTables(k, t, addr, source, penalty);
    }
    hide Checked; hide RandomOk; hide AddrOk; hide NewOk; hide Refreshed; hide Referred;
    if r != t1 {
      var c := NewBucket(k, t1.mapInfo[n], source);
      assert c in Reach(k, k.group(source));
      ReferredBucket(t1, n, c, r);
    }
  }

  lemma {:induction false} ReferredBucket(t: Tables, n: int, b: nat, r: Tables)
    requires n in t.mapInfo && b < |t.vvNew| && Referred(t, n, b, r) && RandomOk(t.mapInfo, t.vRandom)
    ensures |r.vvNew| == |t.vvNew| && r.vvNew == t.vvNew[b := r.vvNew[b]]
  {
    hide Swapped; hide Popped;
    if n !in t.vvNew[b] && |t.vvNew[b]| >= ADDRMAN_NEW_BUCKET_SIZE {
      var gone :| Replaced(t, n, b, gone, r);
      BumpRandom(t, n);
      RemoveFrame(Bumped(t, n), b, gone);
      hide RemovedFrom; hide RandomOk;
    }
  }

  /** A flood: any number of announcements of any addresses, all from sources of one range. */
  ghost predicate Flood(k: Hashes, ts: seq<Tables>, g: nat) {
    && |ts| > 0
    && (forall i :: 0 <= i < |ts| ==> Checked(k, ts[i], -1) && ts[i].nIdCount >= 0)
    && forall i :: 0 < i < |ts| ==> FloodStep(k, ts[i - 1], ts[i], g)
  }

  ghost predicate FloodStep(k: Hashes, t: Tables, r: Tables, g: nat) {
    exists addr, source, penalty, now :: k.group(source) == g && AddResult(k, t, addr, source, penalty, now, r)
  }

  /** Whatever is announced by sources of one range, at most 32 of the 256 new buckets are affected and the
      tried table is not. */
  lemma {:induction false} FloodContained(k: Hashes, ts: seq<Tables>, g: nat, i: nat)
    requires Flood(k, ts, g) && i < |ts|
    ensures |Reach(k, g)| <= 32 && ts[i].vvTried == ts[0].vvTried
    ensures |ts[i].vvNew| == |ts[0].vvNew| == ADDRMAN_NEW_BUCKET_COUNT
    ensures forall b :: 0 <= b < ADDRMAN_NEW_BUCKET_COUNT && b !in Reach(k, g) ==> ts[i].vvNew[b] == ts[0].vvNew[b]
  {
    hide Checked; hide AddResult; hide Reach;
    ReachBound(k, g);
    BucketCount(k, ts[0], -1);
    if i > 0 {
      FloodContained(k, ts, g, i - 1);
      BucketCount(k, ts[i], -1);
      assert FloodStep(k, ts[i - 1], ts[i], g);
      var addr, source, penalty, now :| k.group(source) == g &&
        AddResult(k, ts[i - 1], addr, source, penalty, now, ts[i]);
      AddKeepsTried(k, ts[i - 1], addr, source, penalty, now, ts[i]);
      forall b | 0 <= b < ADDRMAN_NEW_BUCKET_COUNT && b !in Reach(k, g) ensures ts[i].vvNew[b] == ts[0].vvNew[b] {
        AddTouches(k, ts[i - 1], addr, source, penalty, now, ts[i], b);
      }
    }
  }

  lemma {:induction false} ReachBound(k: Hashes, g: nat)
    ensures |Reach(k, g)| <= 32
  {
    ReachSmall(k, g, 32);
  }
}
