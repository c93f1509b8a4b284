/** What the address manager knows about an address after it has been announced, and after a successful
    connection to it. */
module AddrNews {
  import opened AddrTables
  import opened AddrMans

  const HOUR := 60 * 60
  const DAY := 24 * 60 * 60

  // ------------------------------------------------------------ a known address announced again

  /** How an announcement may change the time of an entry: it never sets it back, never beyond the time
      announced, takes a time over, less the penalty, if the entry had none or the news is newer by more
      than an hour (a day, if the address was not online during the last day), and else leaves it. */
  ghost predicate TimeMoves(before: int, after: int, announced: int, penalty: nat, now: int) {
    var interval := if now - announced < DAY then HOUR else DAY;
    && before <= after && (after <= before || after <= announced)
    && (announced == 0 ==> after == before)
    && (before == 0 && announced != 0 ==> after == if announced <= penalty then 0 else announced - penalty)
    && (before != 0 && announced > before + interval + penalty ==> after == announced - penalty)
    && (before != 0 && announced <= before + interval + penalty ==> after == before)
  }

  /** One more reference changes the count of the entry and, perhaps, its place in vRandom. */
  lemma {:induction false} ReferredEntry(t: Tables, n: int, b: nat, r: Tables)
    requires n in t.mapInfo && b < |t.vvNew| && Referred(t, n, b, r)
    requires RandomOk(t.mapInfo, t.vRandom) && NewOk(t.mapInfo, t.vvNew)
    ensures n in r.mapInfo
    ensures var count := t.mapInfo[n].nRefCount + if n in t.vvNew[b] then 0 else 1;
            SameButPos(r.mapInfo[n], t.mapInfo[n].(nRefCount := count))
  {
    hide Swapped; hide Popped;
    if n !in t.vvNew[b] && |t.vvNew[b]| >= ADDRMAN_NEW_BUCKET_SIZE {
      var gone :| Replaced(t, n, b, gone, r);
      var t1 := Bumped(t, n);
      BumpRandom(t, n);
      NewMember(t, b, gone);
      RemoveFrame(t1, b, gone);
      hide RemovedFrom; hide RandomOk; hide NewOk;
    }
  }

  /** What an announcement makes of an entry: its services are joined with those announced, its time moves
      as said, it may gain one reference, and nothing else about it changes but its place in vRandom. */
  ghost predicate Renewed(before: AddrInfo, after: AddrInfo, addr: Address, penalty: nat, now: int) {
    && after.addr == before.addr && after.port == before.port && after.source == before.source
    && after.nLastSuccess == before.nLastSuccess && after.nLastTry == before.nLastTry
    && after.nAttempts == before.nAttempts && after.fInTried == before.fInTried
    && after.nServices == before.nServices | addr.nServices
    && before.nRefCount <= after.nRefCount <= before.nRefCount + 1
    && (before.nTime >= 0 && addr.nTime >= 0 ==> TimeMoves(before.nTime, after.nTime, addr.nTime, penalty, now))
  }

  lemma {:induction false} RenewedBy(before: AddrInfo, after: AddrInfo, addr: Address, penalty: nat, now: int, d: nat)
    requires d <= 1
    requires var mid := Refreshed(before, addr, penalty, now);
             SameButPos(after, mid.(nRefCount := mid.nRefCount + d))
    ensures Renewed(before, after, addr, penalty, now)
  {
  }

  /** A known address keeps its entry, and that is renewed. */
  lemma {:induction false} Reannounced(k: Hashes, t: Tables, addr: Address, source: NetAddr, penalty: nat, now: int,
                                       r: Tables)
    requires Checked(k, t, -1) && AddResult(k, t, addr, source, penalty, now, r) && addr.addr in t.mapAddr
    ensures t.mapAddr[addr.addr] in t.mapInfo && t.mapAddr[addr.addr] in r.mapInfo
    ensures Renewed(t.mapInfo[t.mapAddr[addr.addr]], r.mapInfo[t.mapAddr[addr.addr]], addr, penalty, now)
  {
    hide Checked; hide Referred; hide Refreshed; hide Renewed; hide RandomOk; hide AddrOk; hide NewOk; hide NewBucket;
    var n := t.mapAddr[addr.addr];
    var t1 := RefreshedAll(t, n, addr, penalty, now);
    var d := 0;
    if r != t1 {
      RefreshKeeps(k, t, n, addr, penalty, now);
      RandomPart(k, t1, -1);
      NewPart(k, t1);
      var b := NewBucket(k, t1.mapInfo[n], source);
      ReferredEntry(t1, n, b, r);
      d := if n in t1.vvNew[b] then 0 else 1;
    }
    RenewedBy(t.mapInfo[n], r.mapInfo[n], addr, penalty, now, d);
  }

  lemma {:induction false} NewPart(k: Hashes, t: Tables)
    requires Checked(k, t, -1)
    ensures NewOk(t.mapInfo, t.vvNew)
  {
  }

  // ------------------------------------------------------------ a new address

  /** An unknown address is entered as it was announced, with its time less the penalty, under the next
      number, new, and referenced once, from the bucket of its source. */
  lemma {:induction false} Entered(k: Hashes, t: Tables, addr: Address, source: NetAddr, penalty: nat, now: int,
                                   r: Tables)
    requires Checked(k, t, -1) && t.nIdCount >= 0 && AddResult(k, t, addr, source, penalty, now, r)
    requires addr.addr !in t.mapAddr
    ensures addr.addr in r.mapAddr && r.mapAddr[addr.addr] == t.nIdCount && t.nIdCount in r.mapInfo
    ensures var e := r.mapInfo[t.nIdCount];
            && e.addr == addr.addr && e.port == addr.port && e.nServices == addr.nServices && e.source == source
            && (addr.nTime >= 0 ==> e.nTime == if addr.nTime <= penalty then 0 else addr.nTime - penalty)
            && e.nLastSuccess == 0 && e.nLastTry == 0 && e.nAttempts == 0 && !e.fInTried && e.nRefCount == 1
            && |r.vvNew| == ADDRMAN_NEW_BUCKET_COUNT && t.nIdCount in r.vvNew[NewBucket(k, e, source)]
  {
    var n, t1 := t.nIdCount, Announced(t, addr, source, penalty);
    NewTables(k, t, addr, source, penalty);
    CreateKeeps(k, t, addr, source, penalty);
    hide Checked; hide Referred; hide RandomOk; hide AddrOk; hide NewOk;
    var b := NewBucket(k, t1.mapInfo[n], source);
    ReferredEntry(t1, n, b, r);
    ReferredFrame(t1, n, b, r);
    KeepsNumber(k, t1, n, b, r, addr.addr);
  }

  lemma {:induction false} KeepsNumber(k: Hashes, t: Tables, n: int, b: nat, r: Tables, a: NetAddr)
    requires n in t.mapInfo && b < |t.vvNew| && Referred(t, n, b, r) && RandomOk(t.mapInfo, t.vRandom)
    requires NewOk(t.mapInfo, t.vvNew) && a in t.mapAddr && a in r.mapAddr
    ensures r.mapAddr[a] == t.mapAddr[a]
  {
    hide Swapped; hide Popped;
    if n !in t.vvNew[b] && |t.vvNew[b]| >= ADDRMAN_NEW_BUCKET_SIZE {
      var gone :| Replaced(t, n, b, gone, r);
      BumpRandom(t, n);
      NewMember(t, b, gone);
      RemoveFrame(Bumped(t, n), b, gone);
      hide RemovedFrom; hide RandomOk; hide NewOk;
    }
  }

  // ------------------------------------------------------------ a success

  /** A successful connection sets all three times, forgets failed attempts, takes the entry out of the new
      buckets, and changes nothing else about it. */
  lemma {:induction false} Succeeds(k: Hashes, t: Tables, n: int, nTime: int, r: Tables)
    requires Checked(k, t, -1) && n in t.mapInfo && GoodResult(k, t, n, nTime, r)
    ensures n in r.mapInfo
    ensures var before, after := t.mapInfo[n], r.mapInfo[n];
            && after.nLastSuccess == nTime && after.nLastTry == nTime && after.nTime == nTime && after.nAttempts == 0
            && after.fInTried && after.nRefCount == 0 && after.nRandomPos == before.nRandomPos
            && after.addr == before.addr && after.port == before.port && after.source == before.source
            && after.nServices == before.nServices
  {
    if t.mapInfo[n].fInTried {
      assert RefOk(t.mapInfo[n], n, t.vvNew, -1);
    } else {
      var t1 := t.(mapInfo := t.mapInfo[n := Touched(t.mapInfo[n], nTime)]);
      var b: nat :| b < |t.vvNew| && n in t.vvNew[b] && MadeTried(k, t1, n, b, r);
      TriedMembers(k, t, n, b);
      hide Checked;
      SameBucket(k, t1.mapInfo[n], t.mapInfo[n]);
      MadeTriedEntry(k, t1, n, b, r);
    }
  }

  lemma {:induction false} MadeTriedEntry(k: Hashes, t: Tables, n: int, origin: nat, r: Tables)
    requires n in t.mapInfo && |t.vvTried| == ADDRMAN_TRIED_BUCKET_COUNT && |t.vvNew| == ADDRMAN_NEW_BUCKET_COUNT
    requires origin < |t.vvNew|
    requires n !in t.vvTried[TriedBucket(k, t.mapInfo[n])] && MadeTried(k, t, n, origin, r)
    ensures n in r.mapInfo && r.mapInfo[n] == t.mapInfo[n].(nRefCount := 0, fInTried := true)
  {
    hide TriedBucket; hide ClearAll; hide NewBucket;
  }
}
