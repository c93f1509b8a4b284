/** How the address manager is written to and read from disk.  The stream is a sequence of tokens.
    Ids are renumbered on the way: new entries first, then tried ones, each in the order of their old
    ids; vRandom, mapAddr, the tried buckets and the reference counts are not stored but rebuilt. */
module AddrFiles {
  import opened AddrTables
  import opened AddrMans

  /** The stored part of an entry. */
  datatype Disk = Disk(addr: NetAddr, port: nat, nServices: bv64, nTime: int, source: NetAddr, nLastSuccess: int,
                       nAttempts: int)

  datatype Token = Num(n: int) | Key(k: Hashes) | Entry(e: Disk)

  function ToDisk(i: AddrInfo): Disk {
    Disk(i.addr, i.port, i.nServices, i.nTime, i.source, i.nLastSuccess, i.nAttempts)
  }

  function FromDisk(d: Disk): AddrInfo {
    AddrInfo(d.addr, d.port, d.nServices, d.nTime, d.source, d.nLastSuccess, 0, d.nAttempts, 0, false, -1)
  }

  const BLANK := AddrInfo(0, 0, 0, 0, 0, 0, 0, 0, 0, false, -1)

  /** `s` lists `ids`, each once. */
  ghost predicate Lists(s: seq<int>, ids: set<int>) {
    NoDuplicates(s) && (forall x :: x in s <==> x in ids)
  }

  predicate Known(ids: seq<int>, m: InfoMap) { forall i :: 0 <= i < |ids| ==> ids[i] in m }

  function Entries(m: InfoMap, ids: seq<int>): (s: seq<Token>)
    requires Known(ids, m)
    ensures |s| == |ids| && forall i :: 0 <= i < |ids| ==> s[i] == Entry(ToDisk(m[ids[i]]))
  {
    seq(|ids|, i requires 0 <= i < |ids| => Entry(ToDisk(m[ids[i]])))
  }

  function Nums(row: seq<int>): (s: seq<Token>)
    ensures |s| == |row| && forall i :: 0 <= i < |row| ==> s[i] == Num(row[i])
  {
    seq(|row|, i requires 0 <= i < |row| => Num(row[i]))
  }

  /** The bucket part of the file: for each bucket its size and its members' new numbers. */
  function Rows(rows: seq<seq<int>>): seq<Token> {
    if |rows| == 0 then [] else Rows(rows[..|rows| - 1]) + [Num(|rows[|rows| - 1]|)] + Nums(rows[|rows| - 1])
  }

  /** A saved manager: its key and tables, the order in which entries are numbered, and the rows. */
  datatype Saved = Saved(k: Hashes, t: Tables, ids: seq<int>, tids: seq<int>, rows: seq<seq<int>>)

  ghost predicate RowOk(ids: seq<int>, bucket: set<int>, row: seq<int>) {
    NoDuplicates(row) && forall x :: x in row <==> 0 <= x < |ids| && ids[x] in bucket
  }

  ghost predicate Numbered(w: Saved) {
    && Lists(w.ids, NewIds(w.t.mapInfo)) && Lists(w.tids, TriedIds(w.t.mapInfo))
    && |w.rows| == |w.t.vvNew| && forall b :: 0 <= b < |w.rows| ==> RowOk(w.ids, w.t.vvNew[b], w.rows[b])
  }

  function Header(w: Saved): seq<Token> {
    [Num(0), Key(w.k), Num(w.t.nNew), Num(w.t.nTried), Num(ADDRMAN_NEW_BUCKET_COUNT)]
  }

  function Layout(w: Saved): seq<Token>
    requires Known(w.ids, w.t.mapInfo) && Known(w.tids, w.t.mapInfo)
  {
    Header(w) + Entries(w.t.mapInfo, w.ids) + Entries(w.t.mapInfo, w.tids) + Rows(w.rows)
  }

  ghost predicate Written(w: Saved, s: seq<Token>) {
    Numbered(w) && Known(w.ids, w.t.mapInfo) && Known(w.tids, w.t.mapInfo) && s == Layout(w)
  }

  // ------------------------------------------------------------ writing

  /** What the first loop of the writer has numbered so far. */
  ghost predicate Numbers(ids: seq<int>, index: map<int, int>) {
    forall i :: 0 <= i < |ids| ==> ids[i] in index && index[ids[i]] == i
  }

  method WriteNew(m: AddrMan) returns (s: seq<Token>, index: map<int, int>, ghost ids: seq<int>)
    requires m.Valid()
    ensures Lists(ids, NewIds(m.mapInfo)) && Numbers(ids, index)
    ensures Known(ids, m.mapInfo) && s == Entries(m.mapInfo, ids)
  {
    hide RandomOk; hide AddrOk; hide TriedOk; hide NewOk; hide FieldsOk; hide RefSet;
    forall n | n in m.mapInfo ensures m.mapInfo[n].nRefCount != 0 <==> !m.mapInfo[n].fInTried {
      assert RefOk(m.mapInfo[n], n, m.vvNew, -1);
    }
    s, index, ids := [], map[], [];
    var rest, nIds := m.mapInfo.Keys, 0;
    while rest != {}
      invariant rest <= m.mapInfo.Keys && nIds == |ids|
      invariant NoDuplicates(ids) && forall x :: x in ids <==> x in NewIds(m.mapInfo) && x !in rest
      invariant Numbers(ids, index) && Known(ids, m.mapInfo) && s == Entries(m.mapInfo, ids)
      decreases rest
    {
      if nIds == m.nNew {
        AllListed(ids, NewIds(m.mapInfo));
        return;
      }
      var x := First(rest);
      index := index[x := nIds];
      if m.mapInfo[x].nRefCount != 0 {
        s := s + [Entry(ToDisk(m.mapInfo[x]))];
        ids := ids + [x];
        nIds := nIds + 1;
      }
      rest := rest - {x};
    }
  }

  method WriteTried(m: AddrMan) returns (s: seq<Token>, ghost tids: seq<int>)
    requires m.Valid()
    ensures Lists(tids, TriedIds(m.mapInfo)) && Known(tids, m.mapInfo) && s == Entries(m.mapInfo, tids)
  {
    hide RandomOk; hide AddrOk; hide TriedOk; hide NewOk; hide FieldsOk; hide RefsOk;
    s, tids := [], [];
    var rest, nIds := m.mapInfo.Keys, 0;
    while rest != {}
      invariant rest <= m.mapInfo.Keys && nIds == |tids|
      invariant NoDuplicates(tids) && forall x :: x in tids <==> x in TriedIds(m.mapInfo) && x !in rest
      invariant Known(tids, m.mapInfo) && s == Entries(m.mapInfo, tids)
      decreases rest
    {
      if nIds == m.nTried {
        AllListed(tids, TriedIds(m.mapInfo));
        return;
      }
      var x := First(rest);
      if m.mapInfo[x].fInTried {
        s := s + [Entry(ToDisk(m.mapInfo[x]))];
        tids := tids + [x];
        nIds := nIds + 1;
      }
      rest := rest - {x};
    }
  }

  method WriteRow(bucket: set<int>, index: map<int, int>, ghost ids: seq<int>)
    returns (s: seq<Token>, ghost row: seq<int>)
    requires NoDuplicates(ids) && Numbers(ids, index) && forall x :: x in bucket ==> x in ids
    ensures RowOk(ids, bucket, row) && s == [Num(|row|)] + Nums(row)
  {
    s, row := [Num(|bucket|)], [];
    var rest := bucket;
    while rest != {}
      invariant rest <= bucket && |row| == |bucket| - |rest| && s == [Num(|bucket|)] + Nums(row)
      invariant RowOk(ids, bucket - rest, row)
      decreases rest
    {
      var x := First(rest);
      ghost var i :| 0 <= i < |ids| && ids[i] == x;
      RowStep(ids, bucket - rest, row, x, i);
      assert bucket - rest + {x} == bucket - (rest - {x});
      s := s + [Num(index[x])];
      row := row + [i];
      rest := rest - {x};
    }
    assert bucket - rest == bucket;
  }

  lemma {:induction false} RowStep(ids: seq<int>, bucket: set<int>, row: seq<int>, x: int, i: int)
    requires NoDuplicates(ids) && RowOk(ids, bucket, row) && x !in bucket && 0 <= i < |ids| && ids[i] == x
    ensures RowOk(ids, bucket + {x}, row + [i])
  {
  }

  /** Writes the manager. */
  method Serialize(m: AddrMan) returns (s: seq<Token>, ghost w: Saved)
    requires m.Valid()
    ensures w.k == m.k && w.t == m.Value() && Written(w, s)
  {
    hide Checked; hide Entries; hide Lists; hide RowOk; hide Known;
    s := [Num(0), Key(m.k), Num(m.nNew), Num(m.nTried), Num(ADDRMAN_NEW_BUCKET_COUNT)];
    var recent, index, ids := WriteNew(m);
    var tried, tids := WriteTried(m);
    var tail: seq<Token> := [];
    ghost var rows: seq<seq<int>> := [];
    NewMembers(m.k, m.Value(), ids);
    for b := 0 to |m.vvNew|
      invariant |rows| == b && tail == Rows(rows)
      invariant forall c :: 0 <= c < b ==> RowOk(ids, m.vvNew[c], rows[c])
    {
      var part, row := WriteRow(m.vvNew[b], index, ids);
      assert (rows + [row])[..b] == rows;
      rows, tail := rows + [row], tail + part;
    }
    w := Saved(m.k, m.Value(), ids, tids, rows);
    s := s + recent + tried + tail;
  }

  lemma {:induction false} NewMembers(k: Hashes, t: Tables, ids: seq<int>)
    requires Checked(k, t, -1) && Lists(ids, NewIds(t.mapInfo))
    ensures NoDuplicates(ids) && forall b, x :: 0 <= b < |t.vvNew| && x in t.vvNew[b] ==> x in ids
  {
  }

  /** Distinct members as many as there are members are all members. */
  lemma {:induction false} AllListed(s: seq<int>, ids: set<int>)
    requires NoDuplicates(s) && (forall x :: x in s ==> x in ids) && |s| == |ids|
    ensures forall x :: x in s <==> x in ids
  {
    if |s| > 0 {
      var last, rest := s[|s| - 1], s[..|s| - 1];
      forall x | x in rest ensures x in ids - {last} {}
      AllListed(rest, ids - {last});
      forall x | x in ids ensures x in s { if x != last { assert x in rest; } }
    }
  }

  // ------------------------------------------------------------ what the reader has rebuilt

  /** A stream that was written from tables satisfying Check_. */
  ghost predicate Genuine(w: Saved, s: seq<Token>) { Written(w, s) && Checked(w.k, w.t, -1) }

  /** The entry that gets the number `i`. */
  function Origin(w: Saved, i: int): (n: int)
    requires 0 <= i < |w.ids| + |w.tids|
  {
    if i < |w.ids| then w.ids[i] else w.tids[i - |w.ids|]
  }

  function Total(w: Saved): nat { |w.ids| + |w.tids| }

  ghost predicate Wellknown(w: Saved)
    ensures Wellknown(w) ==> forall i :: 0 <= i < Total(w) ==> Origin(w, i) in w.t.mapInfo
  {
    forall i :: 0 <= i < Total(w) ==> Origin(w, i) in w.t.mapInfo
  }

  function Info(w: Saved, i: int): AddrInfo
    requires Wellknown(w) && 0 <= i < Total(w)
  {
    w.t.mapInfo[Origin(w, i)]
  }

  /** An entry after reading, before its references are counted. */
  function Restored(w: Saved, i: int): AddrInfo
    requires Wellknown(w) && 0 <= i < Total(w)
  {
    FromDisk(ToDisk(Info(w, i))).(nRandomPos := i, fInTried := i >= |w.ids|)
  }

  ghost predicate InfosLoaded(w: Saved, m: nat, infos: InfoMap)
    requires Wellknown(w) && m <= Total(w)
  {
    (forall i :: i in infos <==> 0 <= i < m) && forall i :: 0 <= i < m ==> infos[i] == Restored(w, i)
  }

  ghost predicate AddrsLoaded(w: Saved, m: nat, mapAddr: map<NetAddr, int>)
    requires Wellknown(w) && m <= Total(w)
  {
    && (forall i :: 0 <= i < m ==> Info(w, i).addr in mapAddr && mapAddr[Info(w, i).addr] == i)
    && (forall a :: a in mapAddr ==> 0 <= mapAddr[a] < m && Info(w, mapAddr[a]).addr == a)
  }

  ghost predicate TriedLoaded(w: Saved, m: nat, vvTried: seq<seq<int>>)
    requires Wellknown(w) && m <= Total(w)
  {
    && |vvTried| == ADDRMAN_TRIED_BUCKET_COUNT
    && (forall b :: 0 <= b < |vvTried| ==> |vvTried[b]| <= ADDRMAN_TRIED_BUCKET_SIZE && NoDuplicates(vvTried[b]))
    && (forall b, x {:trigger x in vvTried[b]} :: 0 <= b < |vvTried| && x in vvTried[b] ==>
      |w.ids| <= x < m && TriedBucket(w.k, Info(w, x)) == b)
    && (forall x {:trigger Info(w, x)} :: |w.ids| <= x < m ==> x in vvTried[TriedBucket(w.k, Info(w, x))])
  }

  /** The first `m` entries have been read. */
  ghost predicate Loaded(w: Saved, m: nat, t: Tables)
    requires Wellknown(w) && m <= Total(w)
  {
    && InfosLoaded(w, m, t.mapInfo) && AddrsLoaded(w, m, t.mapAddr) && TriedLoaded(w, m, t.vvTried)
    && |t.vRandom| == m && (forall p :: 0 <= p < m ==> t.vRandom[p] == p)
    && t.vvNew == seq(ADDRMAN_NEW_BUCKET_COUNT, b => {})
  }

  // ------------------------------------------------------------ facts about the saved tables

  lemma {:induction false} SavedFacts(w: Saved, s: seq<Token>)
    requires Genuine(w, s)
    ensures Wellknown(w) && |w.ids| == w.t.nNew && |w.tids| == w.t.nTried
    ensures forall i :: 0 <= i < Total(w) ==> (Info(w, i).fInTried <==> i >= |w.ids|)
  {
    hide RandomOk; hide AddrOk; hide TriedOk; hide NewOk; hide RefsOk; hide FieldsOk; hide Layout; hide RowOk;
    hide Rows;
    forall i | 0 <= i < Total(w)
      ensures Origin(w, i) in w.t.mapInfo && (w.t.mapInfo[Origin(w, i)].fInTried <==> i >= |w.ids|)
    {
      if i < |w.ids| { assert w.ids[i] in w.ids; } else { assert w.tids[i - |w.ids|] in w.tids; }
    }
    ListCount(w.ids, NewIds(w.t.mapInfo));
    ListCount(w.tids, TriedIds(w.t.mapInfo));
  }

  lemma {:induction false} ListCount(s: seq<int>, ids: set<int>)
    requires Lists(s, ids)
    ensures |s| == |ids|
  {
    if |s| == 0 {
      Empty(ids);
    } else {
      var last, rest := s[|s| - 1], s[..|s| - 1];
      assert forall x :: x in rest <==> x in s && x != last;
      ListCount(rest, ids - {last});
    }
  }

  /** Different numbers come from different entries, so from different addresses. */
  lemma {:induction false} OriginsDiffer(w: Saved, s: seq<Token>, i: int, j: int)
    requires Genuine(w, s) && 0 <= i < j < Total(w) && Wellknown(w)
    ensures Origin(w, i) != Origin(w, j) && Info(w, i).addr != Info(w, j).addr
  {
    hide RandomOk; hide TriedOk; hide NewOk; hide RefsOk; hide FieldsOk; hide CountOk; hide Layout; hide RowOk;
    hide Rows;
    SavedFacts(w, s);
    assert Info(w, i).fInTried == Info(w, j).fInTried ==> (j < |w.ids| || i >= |w.ids|);
    assert w.t.mapAddr[Info(w, i).addr] == Origin(w, i) && w.t.mapAddr[Info(w, j).addr] == Origin(w, j);
  }

  // ------------------------------------------------------------ reading one entry

  function WithEntry(t: Tables, n: int, info: AddrInfo): Tables {
    t.(mapInfo := t.mapInfo[n := info], mapAddr := t.mapAddr[info.addr := n], vRandom := t.vRandom + [n])
  }

  lemma {:induction false} EntryStep(w: Saved, s: seq<Token>, i: nat, t: Tables)
    requires Genuine(w, s) && Wellknown(w) && i < Total(w) && InfosLoaded(w, i, t.mapInfo)
    requires AddrsLoaded(w, i, t.mapAddr)
    requires |t.vRandom| == i && forall p :: 0 <= p < i ==> t.vRandom[p] == p
    ensures var r := WithEntry(t, i, Restored(w, i));
            && InfosLoaded(w, i + 1, r.mapInfo) && AddrsLoaded(w, i + 1, r.mapAddr)
            && |r.vRandom| == i + 1 && forall p :: 0 <= p <= i ==> r.vRandom[p] == p
  {
    hide Genuine; hide Wellknown; hide Origin;
    var r := WithEntry(t, i, Restored(w, i));
    forall x: nat | x < i ensures Info(w, x).addr != Info(w, i).addr { OriginsDiffer(w, s, x, i); }
    hide Info;
    assert AddrsLoaded(w, i + 1, r.mapAddr);
    assert InfosLoaded(w, i + 1, r.mapInfo);
  }

  lemma {:induction false} NewStep(w: Saved, s: seq<Token>, i: nat, t: Tables)
    requires Genuine(w, s) && Wellknown(w) && i < |w.ids| && Loaded(w, i, t)
    ensures Loaded(w, i + 1, WithEntry(t, i, Restored(w, i)))
  {
    hide Genuine; hide Wellknown; hide Origin; hide InfosLoaded; hide AddrsLoaded; hide Info; hide Restored;
    hide TriedBucket; hide NoDuplicates;
    EntryStep(w, s, i, t);
  }

  /** A tried bucket never fills up while its former members are read back. */
  lemma {:induction false} TriedRoom(w: Saved, s: seq<Token>, i: nat, vvTried: seq<seq<int>>)
    requires Genuine(w, s) && Wellknown(w) && |w.ids| <= i < Total(w) && TriedLoaded(w, i, vvTried)
    ensures |vvTried[TriedBucket(w.k, Info(w, i))]| < ADDRMAN_TRIED_BUCKET_SIZE
  {
    var b := TriedBucket(w.k, Info(w, i));
    var v := vvTried[b];
    forall p | 0 <= p < |v| ensures |w.ids| <= v[p] < i { assert v[p] in v; }
    var origins := seq(|v|, p requires 0 <= p < |v| && |w.ids| <= v[p] < i => Origin(w, v[p])) + [Origin(w, i)];
    forall p | 0 <= p < |origins| ensures origins[p] in OldBucket(w, b) {
      var x := if p < |v| then v[p] else i;
      assert p < |v| ==> v[p] in v;
      InOldBucket(w, s, x);
    }
    forall p, q | 0 <= p < q < |origins| ensures origins[p] != origins[q] {
      var x, y := v[p], if q < |v| then v[q] else i;
      assert v[p] in v && (q < |v| ==> v[q] in v);
      if x < y { OriginsDiffer(w, s, x, y); } else { OriginsDiffer(w, s, y, x); }
    }
    DistinctFit(origins, OldBucket(w, b));
    OldBucketSize(w, s, b);
  }

  function OldBucket(w: Saved, b: nat): seq<int> { if b < |w.t.vvTried| then w.t.vvTried[b] else [] }

  lemma {:induction false} OldBucketSize(w: Saved, s: seq<Token>, b: nat)
    requires Genuine(w, s)
    ensures |OldBucket(w, b)| <= ADDRMAN_TRIED_BUCKET_SIZE
  {
  }

  lemma {:induction false} InOldBucket(w: Saved, s: seq<Token>, x: int)
    requires Genuine(w, s) && Wellknown(w) && |w.ids| <= x < Total(w)
    ensures Origin(w, x) in OldBucket(w, TriedBucket(w.k, Info(w, x)))
  {
    SavedFacts(w, s);
    hide Written; hide RandomOk; hide AddrOk; hide NewOk; hide RefsOk; hide FieldsOk; hide CountOk; hide NoDuplicates;
  }

  lemma {:induction false} DistinctFit(a: seq<int>, b: seq<int>)
    requires NoDuplicates(a) && forall p :: 0 <= p < |a| ==> a[p] in b
    ensures |a| <= |b|
  {
    var sa, sb := set x | x in a, set x | x in b;
    assert Lists(a, sa);
    ListCount(a, sa);
    ElementsCount(b);
    forall x | x in sa ensures x in sb { var p :| 0 <= p < |a| && a[p] == x; }
    Subset(sa, sb);
  }

  lemma {:induction false} TriedStep(w: Saved, s: seq<Token>, i: nat, t: Tables)
    requires Genuine(w, s) && Wellknown(w) && |w.ids| <= i < Total(w) && Loaded(w, i, t)
    ensures var b := TriedBucket(w.k, Info(w, i));
            && |t.vvTried| == ADDRMAN_TRIED_BUCKET_COUNT && |t.vvTried[b]| < ADDRMAN_TRIED_BUCKET_SIZE
            && Loaded(w, i + 1, WithEntry(t, i, Restored(w, i)).(
                 vvTried := t.vvTried[b := t.vvTried[b] + [i]], nIdCount := i + 1))
  {
    hide Genuine; hide Wellknown; hide Origin; hide Info; hide Restored; hide InfosLoaded; hide AddrsLoaded;
    EntryStep(w, s, i, t);
    TriedRoom(w, s, i, t.vvTried);
    var b := TriedBucket(w.k, Info(w, i));
    assert i !in t.vvTried[b];
    AppendNoDuplicates(t.vvTried[b], i);
    hide NoDuplicates; hide TriedBucket;
    TriedAppend(w, i, t.vvTried, b);
  }

  lemma {:induction false} TriedAppend(w: Saved, i: nat, v: seq<seq<int>>, b: nat)
    requires Wellknown(w) && |w.ids| <= i < Total(w) && TriedLoaded(w, i, v) && b == TriedBucket(w.k, Info(w, i))
    requires |v[b]| < ADDRMAN_TRIED_BUCKET_SIZE && NoDuplicates(v[b] + [i])
    ensures TriedLoaded(w, i + 1, v[b := v[b] + [i]])
  {
  }

  // ------------------------------------------------------------ where things stand in the stream

  lemma {:induction false} HeaderAt(w: Saved, s: seq<Token>)
    requires Written(w, s)
    ensures |s| >= 5 && s[..5] == Header(w)
  {
  }

  /** The position of row `b`. */
  function RowStart(w: Saved, b: nat): nat
    requires b <= |w.rows|
  {
    5 + Total(w) + |Rows(w.rows[..b])|
  }

  lemma {:induction false} RowsPrefix(rows: seq<seq<int>>, b: nat)
    requires b <= |rows|
    ensures |Rows(rows[..b])| <= |Rows(rows)| && Rows(rows[..b]) == Rows(rows)[..|Rows(rows[..b])|]
  {
    if b < |rows| {
      var rest := rows[..|rows| - 1];
      RowsPrefix(rest, b);
      assert rest[..b] == rows[..b];
    } else {
      assert rows[..b] == rows;
    }
  }

  lemma {:induction false} RowsUpto(rows: seq<seq<int>>, b: nat)
    requires b < |rows|
    ensures Rows(rows[..b + 1]) == Rows(rows[..b]) + [Num(|rows[b]|)] + Nums(rows[b])
  {
    assert rows[..b + 1][..b] == rows[..b];
  }

  lemma {:induction false} RowAt(w: Saved, s: seq<Token>, b: nat)
    requires Written(w, s) && b < |w.rows|
    ensures RowStart(w, b + 1) == RowStart(w, b) + 1 + |w.rows[b]| <= |s|
    ensures s[RowStart(w, b)] == Num(|w.rows[b]|)
    ensures forall n :: 0 <= n < |w.rows[b]| ==> s[RowStart(w, b) + 1 + n] == Num(w.rows[b][n])
  {
    hide Entries; hide Numbered; hide Nums; hide Known; hide Rows;
    var upto := w.rows[..b + 1];
    RowsPrefix(w.rows, b + 1);
    RowsUpto(w.rows, b);
    var start := 5 + Total(w);
    assert s[start..] == Rows(w.rows);
    var r := |Rows(w.rows[..b])|;
    assert s[start + r] == Rows(w.rows)[r] == Rows(upto)[r];
    forall n | 0 <= n < |w.rows[b]| ensures s[start + r + 1 + n] == Num(w.rows[b][n]) {
      assert s[start + r + 1 + n] == Rows(w.rows)[r + 1 + n] == Rows(upto)[r + 1 + n] == Nums(w.rows[b])[n];
    }
  }

  // ------------------------------------------------------------ reading the buckets

  function Elems(s: seq<int>): set<int> { set x | x in s }

  /** The new buckets after rows 0..b-1 and the first `n` members of row `b`. */
  function Part(w: Saved, b: nat, n: nat): (v: seq<set<int>>)
    requires b <= |w.rows| && (b == |w.rows| ==> n == 0) && (b < |w.rows| ==> n <= |w.rows[b]|)
    ensures |v| == |w.rows|
  {
    seq(|w.rows|, c requires 0 <= c < |w.rows| =>
      if c < b then Elems(w.rows[c]) else if c == b then Elems(w.rows[b][..n]) else {})
  }

  /** All entries are there, each with as many references as `v` holds. */
  ghost predicate RefsLoaded(w: Saved, v: seq<set<int>>, infos: InfoMap)
    requires Wellknown(w)
  {
    && (forall i :: i in infos <==> 0 <= i < Total(w))
    && (forall i :: 0 <= i < Total(w) ==> infos[i] == Restored(w, i).(nRefCount := |RefSet(v, i)|))
  }

  lemma {:induction false} RefsStart(w: Saved, t: Tables)
    requires Wellknown(w) && Loaded(w, Total(w), t) && |w.rows| == ADDRMAN_NEW_BUCKET_COUNT
    ensures t.vvNew == Part(w, 0, 0) && RefsLoaded(w, t.vvNew, t.mapInfo)
  {
    hide AddrsLoaded; hide TriedLoaded; hide Wellknown; hide Info;
    assert Elems(w.rows[0][..0]) == {};
    assert t.vvNew == Part(w, 0, 0);
    forall i | 0 <= i < Total(w) ensures RefSet(t.vvNew, i) == {} {}
  }

  /** The next member read is one that `b` does not hold yet, and its count has room. */
  lemma {:induction false} RefStep(w: Saved, s: seq<Token>, b: nat, n: nat)
    requires Genuine(w, s) && b < |w.rows| && n < |w.rows[b]|
    ensures var x, v := w.rows[b][n], Part(w, b, n);
            && 0 <= x < |w.ids| && x !in v[b] && Part(w, b, n + 1) == v[b := v[b] + {x}]
            && |RefSet(v, x)| < ADDRMAN_NEW_BUCKETS_PER_ADDRESS
  {
    hide Checked; hide Layout;
    var x, v, v1 := w.rows[b][n], Part(w, b, n), Part(w, b, n + 1);
    assert RowOk(w.ids, w.t.vvNew[b], w.rows[b]);
    assert x in w.rows[b] && w.rows[b][..n + 1] == w.rows[b][..n] + [x];
    assert x !in w.rows[b][..n];
    assert Elems(w.rows[b][..n] + [x]) == Elems(w.rows[b][..n]) + {x};
    assert v1 == v[b := v[b] + {x}];
    RefSetInsert(v, b, x, x);
    forall c | c in RefSet(v1, x) ensures c in RefSet(w.t.vvNew, w.ids[x]) {
      assert RowOk(w.ids, w.t.vvNew[c], w.rows[c]) && x in w.rows[c];
    }
    NatSubset(RefSet(v1, x), RefSet(w.t.vvNew, w.ids[x]));
    SavedRefs(w, s, x);
  }

  lemma {:induction false} NatSubset(a: set<nat>, b: set<nat>)
    requires forall x :: x in a ==> x in b
    ensures |a| <= |b|
  {
    assert a <= b;
    assert b == a + (b - a);
  }

  lemma {:induction false} SavedRefs(w: Saved, s: seq<Token>, x: int)
    requires Genuine(w, s) && 0 <= x < |w.ids|
    ensures w.ids[x] in w.t.mapInfo
    ensures w.t.mapInfo[w.ids[x]].nRefCount == |RefSet(w.t.vvNew, w.ids[x])| <= ADDRMAN_NEW_BUCKETS_PER_ADDRESS
  {
  }

  lemma {:induction false} RefsStep(w: Saved, v: seq<set<int>>, b: nat, x: int, infos: InfoMap)
    requires Wellknown(w) && RefsLoaded(w, v, infos) && 0 <= x < Total(w) && b < |v| && x !in v[b]
    ensures RefsLoaded(w, v[b := v[b] + {x}], infos[x := infos[x].(nRefCount := infos[x].nRefCount + 1)])
  {
    hide RefSet; hide Wellknown; hide Restored;
    forall i | 0 <= i < Total(w) ensures |RefSet(v[b := v[b] + {x}], i)| == |RefSet(v, i)| + if i == x then 1 else 0 {
      RefSetInsert(v, b, x, i);
    }
  }

  lemma {:induction false} RowDone(w: Saved, b: nat)
    requires b < |w.rows|
    ensures Part(w, b, |w.rows[b]|) == Part(w, b + 1, 0)
  {
    assert w.rows[b][..|w.rows[b]|] == w.rows[b];
    if b + 1 < |w.rows| { assert Elems(w.rows[b + 1][..0]) == {}; }
  }

  // ------------------------------------------------------------ the reader

  ghost predicate Begun(w: Saved, s: seq<Token>, m: nat, t: Tables) {
    Genuine(w, s) && Wellknown(w) && m <= Total(w) && Loaded(w, m, t)
  }

  /** Reads the new entries. */
  method ReadNew(m: AddrMan, s: seq<Token>, start: nat, rebuild: bool, ghost w: Saved) returns (ok: bool, pos: nat)
    requires |m.vvNew| == ADDRMAN_NEW_BUCKET_COUNT
    modifies m`mapInfo, m`mapAddr, m`vRandom, m`vvNew
    ensures |m.vvNew| == ADDRMAN_NEW_BUCKET_COUNT
    ensures start == 5 && !rebuild && m.nNew == |w.ids| && old(Begun(w, s, 0, m.Value())) ==>
              ok && pos == 5 + |w.ids| && Begun(w, s, |w.ids|, m.Value())
  {
    hide Genuine; hide Wellknown; hide Loaded; hide ToDisk; hide FromDisk; hide Info; hide NewBucket;
    ghost var good := start == 5 && !rebuild && m.nNew == |w.ids| && Begun(w, s, 0, m.Value());
    pos := start;
    var n := 0;
    while n < m.nNew
      invariant 0 <= n && |m.vvNew| == ADDRMAN_NEW_BUCKET_COUNT
      invariant good ==> n <= |w.ids| && pos == 5 + n && Begun(w, s, n, m.Value())
    {
      if good {
        Places(w, n, m.Value());
        EntryOf(w, s, n);
        NewStep(w, s, n, m.Value());
      }
      if pos >= |s| || !s[pos].Entry? { return false, pos; }
      var info := FromDisk(s[pos].e);
      m.mapAddr := m.mapAddr[info.addr := n];
      info := info.(nRandomPos := |m.vRandom|);
      m.vRandom := m.vRandom + [n];
      if rebuild {
        var b := NewBucket(m.k, info, info.source);
        m.vvNew := m.vvNew[b := m.vvNew[b] + {n}];
        info := info.(nRefCount := info.nRefCount + 1);
      }
      m.mapInfo := m.mapInfo[n := info];
      n, pos := n + 1, pos + 1;
    }
    ok := true;
  }

  lemma {:induction false} Places(w: Saved, i: nat, t: Tables)
    requires Wellknown(w) && i <= Total(w) && Loaded(w, i, t)
    ensures |t.vRandom| == i
  {
  }

  lemma {:induction false} EntryOf(w: Saved, s: seq<Token>, i: nat)
    requires Genuine(w, s) && Wellknown(w) && i < Total(w)
    ensures 5 + i < |s| && s[5 + i].Entry?
    ensures FromDisk(s[5 + i].e).(nRandomPos := i, fInTried := i >= |w.ids|) == Restored(w, i)
    ensures i < |w.ids| ==> FromDisk(s[5 + i].e).(nRandomPos := i) == Restored(w, i)
    ensures FromDisk(s[5 + i].e).addr == Info(w, i).addr
    ensures TriedBucket(w.k, FromDisk(s[5 + i].e)) == TriedBucket(w.k, Info(w, i))
  {
  }

  /** Reads the tried entries; one whose bucket is full is lost. */
  method ReadTried(m: AddrMan, s: seq<Token>, start: nat, ghost w: Saved) returns (ok: bool, pos: nat, nLost: int)
    requires |m.vvTried| == ADDRMAN_TRIED_BUCKET_COUNT
    modifies m`mapInfo, m`mapAddr, m`vRandom, m`vvTried, m`nIdCount
    ensures m.nIdCount >= old(m.nIdCount)
    ensures start == 5 + |w.ids| && m.nTried == |w.tids| && old(m.nIdCount) == |w.ids| && m.k == w.k &&
              old(Begun(w, s, |w.ids|, m.Value())) ==>
              ok && nLost == 0 && pos == 5 + Total(w) && m.nIdCount == Total(w) && Begun(w, s, Total(w), m.Value())
  {
    hide Genuine; hide Wellknown; hide Loaded; hide ToDisk; hide FromDisk; hide Info; hide TriedBucket;
    ghost var good := start == 5 + |w.ids| && m.nTried == |w.tids| && m.nIdCount == |w.ids| && m.k == w.k &&
      Begun(w, s, |w.ids|, m.Value());
    pos, nLost := start, 0;
    var n := 0;
    while n < m.nTried
      invariant 0 <= n && |m.vvTried| == ADDRMAN_TRIED_BUCKET_COUNT && m.nIdCount >= old(m.nIdCount)
      invariant good ==> n <= |w.tids| && pos == 5 + |w.ids| + n && m.nIdCount == |w.ids| + n && nLost == 0
      invariant good ==> Begun(w, s, |w.ids| + n, m.Value())
    {
      ghost var i, t: Tables := |w.ids| + n, m.Value();
      if good {
        Places(w, i, t);
        EntryOf(w, s, i);
        TriedStep(w, s, i, t);
      }
      if pos >= |s| || !s[pos].Entry? { return false, pos, nLost; }
      var info := FromDisk(s[pos].e);
      var b := TriedBucket(m.k, info);
      if |m.vvTried[b]| < ADDRMAN_TRIED_BUCKET_SIZE {
        info := info.(nRandomPos := |m.vRandom|, fInTried := true);
        m.vRandom := m.vRandom + [m.nIdCount];
        m.mapInfo := m.mapInfo[m.nIdCount := info];
        m.mapAddr := m.mapAddr[info.addr := m.nIdCount];
        m.vvTried := m.vvTried[b := m.vvTried[b] + [m.nIdCount]];
        m.nIdCount := m.nIdCount + 1;
      } else {
        nLost := nLost + 1;
      }
      n, pos := n + 1, pos + 1;
    }
    ok := true;
  }

  /** Reads one bucket's members; they count only if the number of buckets is the current one. */
  method ReadRow(m: AddrMan, s: seq<Token>, start: nat, b: nat, nSize: int, same: bool,
                 ghost w: Saved) returns (ok: bool, pos: nat)
    requires same ==> b < |m.vvNew|
    modifies m`mapInfo, m`vvNew
    ensures |m.vvNew| == old(|m.vvNew|)
    ensures same && Genuine(w, s) && Wellknown(w) && b < |w.rows| && start == RowStart(w, b) + 1 && nSize == |w.rows[b]|
            && old(m.vvNew == Part(w, b, 0) && RefsLoaded(w, m.vvNew, m.mapInfo)) ==>
              ok && pos == RowStart(w, b + 1) && m.vvNew == Part(w, b + 1, 0) && RefsLoaded(w, m.vvNew, m.mapInfo)
  {
    hide Genuine; hide Wellknown; hide RefsLoaded; hide Part; hide RowStart;
    ghost var good := same && Genuine(w, s) && Wellknown(w) && b < |w.rows| && start == RowStart(w, b) + 1 &&
      nSize == |w.rows[b]|
                      && m.vvNew == Part(w, b, 0) && RefsLoaded(w, m.vvNew, m.mapInfo);
    pos := start;
    if good {
      assert Written(w, s) by { IsWritten(w, s); }
      RowAt(w, s, b);
    }
    var n := 0;
    while n < nSize
      invariant 0 <= n && |m.vvNew| == old(|m.vvNew|)
      invariant good ==>
                n <= |w.rows[b]| && pos == start + n && m.vvNew == Part(w, b, n) && RefsLoaded(w, m.vvNew, m.mapInfo)
    {
      if good {
        RefStep(w, s, b, n);
        RefsStep(w, m.vvNew, b, w.rows[b][n], m.mapInfo);
        Counted(w, m.vvNew, m.mapInfo, w.rows[b][n]);
      }
      if pos >= |s| || !s[pos].Num? { return false, pos; }
      var x := s[pos].n;
      if x !in m.mapInfo { m.mapInfo := m.mapInfo[x := BLANK]; }
      if same && m.mapInfo[x].nRefCount < ADDRMAN_NEW_BUCKETS_PER_ADDRESS {
        m.mapInfo := m.mapInfo[x := m.mapInfo[x].(nRefCount := m.mapInfo[x].nRefCount + 1)];
        m.vvNew := m.vvNew[b := m.vvNew[b] + {x}];
      }
      n, pos := n + 1, pos + 1;
    }
    if good { RowDone(w, b); }
    ok := true;
  }

  lemma {:induction false} IsWritten(w: Saved, s: seq<Token>)
    requires Genuine(w, s)
    ensures Written(w, s) && |w.rows| == ADDRMAN_NEW_BUCKET_COUNT
  {
  }

  lemma {:induction false} Counted(w: Saved, v: seq<set<int>>, infos: InfoMap, x: int)
    requires Wellknown(w) && RefsLoaded(w, v, infos) && 0 <= x < Total(w)
    ensures x in infos && infos[x].nRefCount == |RefSet(v, x)|
  {
  }

  method ReadBuckets(m: AddrMan, s: seq<Token>, start: nat, nUBuckets: int, ghost w: Saved) returns (ok: bool)
    requires |m.vvNew| == ADDRMAN_NEW_BUCKET_COUNT
    modifies m`mapInfo, m`vvNew
    ensures nUBuckets == ADDRMAN_NEW_BUCKET_COUNT && start == 5 + Total(w) && old(Begun(w, s, Total(w), m.Value())) ==>
              ok && |w.rows| == ADDRMAN_NEW_BUCKET_COUNT && m.vvNew == Part(w, |w.rows|, 0) &&
                RefsLoaded(w, m.vvNew, m.mapInfo)
  {
    hide Genuine; hide Wellknown; hide RefsLoaded; hide Part; hide Loaded; hide RowStart;
    ghost var good := nUBuckets == ADDRMAN_NEW_BUCKET_COUNT && start == 5 + Total(w) &&
      Begun(w, s, Total(w), m.Value());
    if good {
      IsWritten(w, s);
      RefsStart(w, m.Value());
      FirstRow(w);
    }
    var pos: nat, b: nat := start, 0;
    while b < nUBuckets
      invariant 0 <= b && |m.vvNew| == ADDRMAN_NEW_BUCKET_COUNT
      invariant good ==>
                b <= |w.rows| && pos == RowStart(w, b) && m.vvNew == Part(w, b, 0) && RefsLoaded(w, m.vvNew, m.mapInfo)
    {
      if good { RowAt(w, s, b); }
      if pos >= |s| || !s[pos].Num? { return false; }
      ok, pos := ReadRow(m, s, pos + 1, b, s[pos].n, nUBuckets == ADDRMAN_NEW_BUCKET_COUNT, w);
      if !ok { return; }
      b := b + 1;
    }
    ok := true;
  }

  lemma {:induction false} FirstRow(w: Saved)
    ensures RowStart(w, 0) == 5 + Total(w)
  {
  }

  // ------------------------------------------------------------ the round trip

  /** Everything the file keeps of an entry, and its standing in the tables. */
  predicate SameEntry(a: AddrInfo, b: AddrInfo) {
    && a.addr == b.addr && a.port == b.port && a.nServices == b.nServices && a.nTime == b.nTime
    && a.source == b.source && a.nLastSuccess == b.nLastSuccess && a.nAttempts == b.nAttempts
    && a.fInTried == b.fInTried && a.nRefCount == b.nRefCount
  }

  /** `r` holds what `t` holds, the entry `order[n]` of `t` having become number `n`. */
  ghost predicate Renumbered(t: Tables, r: Tables, order: seq<int>) {
    && Lists(order, t.mapInfo.Keys) && (forall n :: n in r.mapInfo <==> 0 <= n < |order|)
    && (forall n :: 0 <= n < |order| ==>
          order[n] in t.mapInfo && SameEntry(r.mapInfo[n], t.mapInfo[order[n]]) && r.mapInfo[n].nLastTry == 0)
    && |r.vvTried| == |t.vvTried| && |r.vvNew| == |t.vvNew|
    && (forall b, n :: 0 <= b < |r.vvTried| && 0 <= n < |order| ==> (n in r.vvTried[b] <==> order[n] in t.vvTried[b]))
    && (forall b, n :: 0 <= b < |r.vvNew| && 0 <= n < |order| ==> (n in r.vvNew[b] <==> order[n] in t.vvNew[b]))
    && r.nTried == t.nTried && r.nNew == t.nNew
  }

  /** What the reader has built from a genuine file. */
  ghost predicate Rebuilt(w: Saved, s: seq<Token>, r: Tables) {
    && Genuine(w, s) && Wellknown(w) && |w.rows| == ADDRMAN_NEW_BUCKET_COUNT
    && AddrsLoaded(w, Total(w), r.mapAddr) && TriedLoaded(w, Total(w), r.vvTried)
    && |r.vRandom| == Total(w) && (forall p :: 0 <= p < Total(w) ==> r.vRandom[p] == p)
    && r.vvNew == Part(w, |w.rows|, 0) && RefsLoaded(w, r.vvNew, r.mapInfo)
    && r.nIdCount == Total(w) && r.nNew == w.t.nNew && r.nTried == w.t.nTried
  }

  lemma {:induction false} RebuiltRandomAddr(w: Saved, s: seq<Token>, r: Tables)
    requires Rebuilt(w, s, r)
    ensures RandomOk(r.mapInfo, r.vRandom) && AddrOk(r.mapInfo, r.mapAddr)
  {
    hide Genuine; hide Wellknown; hide TriedLoaded; hide Part; hide RefSet; hide Origin;
    forall a | a in r.mapAddr ensures r.mapAddr[a] in r.mapInfo && r.mapInfo[r.mapAddr[a]].addr == a {
      var n := r.mapAddr[a];
      assert 0 <= n < Total(w) && Info(w, n).addr == a;
    }
  }

  lemma {:induction false} RebuiltTried(w: Saved, s: seq<Token>, r: Tables)
    requires Rebuilt(w, s, r)
    ensures TriedOk(w.k, r.mapInfo, r.vvTried)
  {
    hide Genuine; hide Wellknown; hide AddrsLoaded; hide Part; hide RefSet; hide Origin; hide NoDuplicates;
    forall i | 0 <= i < Total(w)
      ensures i in r.mapInfo && TriedBucket(w.k, r.mapInfo[i]) == TriedBucket(w.k, Info(w, i))
    {
      SameBucket(w.k, r.mapInfo[i], Info(w, i));
    }
    hide TriedBucket;
    forall b, n | 0 <= b < |r.vvTried| && n in r.vvTried[b]
      ensures n in r.mapInfo && r.mapInfo[n].fInTried && TriedBucket(w.k, r.mapInfo[n]) == b
    {
    }
  }

  lemma {:induction false} RowMembers(w: Saved, s: seq<Token>, b: nat, n: int)
    requires Genuine(w, s) && Wellknown(w) && b < |w.rows| == ADDRMAN_NEW_BUCKET_COUNT && 0 <= n < Total(w)
    ensures |w.t.vvNew| == |w.rows| && (n in Part(w, |w.rows|, 0)[b] <==> Origin(w, n) in w.t.vvNew[b])
  {
    hide Checked; hide Layout; hide Wellknown; hide NewIds; hide TriedIds;
    assert RowOk(w.ids, w.t.vvNew[b], w.rows[b]);
    assert Part(w, |w.rows|, 0)[b] == Elems(w.rows[b]);
    if n >= |w.ids| {
      SavedFacts(w, s);
      assert Info(w, n).fInTried;
      if Origin(w, n) in w.t.vvNew[b] { NewOnly(w, b, Origin(w, n)); }
    }
  }

  lemma {:induction false} NewOnly(w: Saved, b: nat, x: int)
    requires Checked(w.k, w.t, -1) && b < |w.t.vvNew| && x in w.t.vvNew[b]
    ensures x in w.t.mapInfo && !w.t.mapInfo[x].fInTried
  {
  }

  lemma {:induction false} RebuiltRefs(w: Saved, s: seq<Token>, r: Tables, n: int)
    requires Rebuilt(w, s, r) && 0 <= n < Total(w)
    ensures n in r.mapInfo && r.mapInfo[n].nRefCount == Info(w, n).nRefCount && RefOk(r.mapInfo[n], n, r.vvNew, -1)
  {
    hide Genuine; hide Wellknown; hide AddrsLoaded; hide TriedLoaded; hide Part;
    forall b: nat | b < |w.rows|
      ensures |w.t.vvNew| == |w.rows| && (n in r.vvNew[b] <==> Origin(w, n) in w.t.vvNew[b])
    {
      RowMembers(w, s, b, n);
    }
    assert |w.t.vvNew| == |w.rows| by { RowMembers(w, s, 0, n); }
    SameRefs(r.vvNew, n, w.t.vvNew, Origin(w, n));
    SavedFacts(w, s);
    SavedRef(w, s, Origin(w, n));
  }

  lemma {:induction false} SameRefs(v: seq<set<int>>, n: int, v0: seq<set<int>>, n0: int)
    requires |v| == |v0| && forall b: nat :: b < |v| ==> (n in v[b] <==> n0 in v0[b])
    ensures RefSet(v, n) == RefSet(v0, n0)
  {
  }

  lemma {:induction false} SavedRef(w: Saved, s: seq<Token>, x: int)
    requires Genuine(w, s) && x in w.t.mapInfo
    ensures RefOk(w.t.mapInfo[x], x, w.t.vvNew, -1) && x >= 0
    ensures w.t.mapInfo[x].fInTried ==> RefSet(w.t.vvNew, x) == {}
  {
  }

  lemma {:induction false} RebuiltNew(w: Saved, s: seq<Token>, r: Tables)
    requires Rebuilt(w, s, r)
    ensures NewOk(r.mapInfo, r.vvNew) && RefsOk(r.mapInfo, r.vvNew, -1)
  {
    assert RefsOk(r.mapInfo, r.vvNew, -1) by {
      hide Genuine; hide Wellknown; hide AddrsLoaded; hide TriedLoaded; hide Part; hide RefOk;
      forall n | n in r.mapInfo ensures RefOk(r.mapInfo[n], n, r.vvNew, -1) { RebuiltRefs(w, s, r, n); }
    }
    hide RefsOk; hide Checked; hide AddrsLoaded; hide TriedLoaded; hide RefSet; hide Layout; hide NewIds; hide TriedIds;
    forall b | 0 <= b < |r.vvNew|
      ensures |r.vvNew[b]| <= ADDRMAN_NEW_BUCKET_SIZE
      ensures forall n :: n in r.vvNew[b] ==> n in r.mapInfo && !r.mapInfo[n].fInTried
    {
      assert r.vvNew[b] == Elems(w.rows[b]);
      assert RowOk(w.ids, w.t.vvNew[b], w.rows[b]);
      RowFits(w, s, b);
    }
  }

  lemma {:induction false} RowFits(w: Saved, s: seq<Token>, b: nat)
    requires Genuine(w, s) && b < |w.rows| && RowOk(w.ids, w.t.vvNew[b], w.rows[b])
    ensures |Elems(w.rows[b])| <= ADDRMAN_NEW_BUCKET_SIZE
  {
    var row := w.rows[b];
    ElementsCount(row);
    forall p | 0 <= p < |row| ensures 0 <= row[p] < |w.ids| && w.ids[row[p]] in w.t.vvNew[b] { assert row[p] in row; }
    var members := seq(|row|, p requires 0 <= p < |row| && 0 <= row[p] < |w.ids| => w.ids[row[p]]);
    var here := Elems(members);
    assert Lists(members, here);
    ListCount(members, here);
    forall x | x in here ensures x in w.t.vvNew[b] { var p :| 0 <= p < |members| && members[p] == x; }
    Subset(here, w.t.vvNew[b]);
    hide Written; hide RandomOk; hide AddrOk; hide TriedOk; hide RefsOk; hide CountOk;
  }

  function Upto(a: int, b: int): (s: seq<int>)
    requires a <= b
    ensures |s| == b - a && forall i :: 0 <= i < |s| ==> s[i] == a + i
  {
    seq(b - a, i => a + i)
  }

  lemma {:induction false} RebuiltCounts(w: Saved, s: seq<Token>, r: Tables)
    requires Rebuilt(w, s, r)
    ensures CountOk(r) && FieldsOk(r)
  {
    hide Wellknown; hide AddrsLoaded; hide TriedLoaded; hide Part; hide RefSet;
    SavedFacts(w, s);
    var recent, tried := Upto(0, |w.ids|), Upto(|w.ids|, Total(w));
    forall n ensures n in recent <==> n in NewIds(r.mapInfo) { if 0 <= n < |w.ids| { assert recent[n] == n; } }
    forall n
      ensures n in tried <==> n in TriedIds(r.mapInfo)
    {
      if |w.ids| <= n < Total(w) { assert tried[n - |w.ids|] == n; }
    }
    ListCount(recent, NewIds(r.mapInfo));
    ListCount(tried, TriedIds(r.mapInfo));
    hide Written; hide RandomOk; hide AddrOk; hide TriedOk; hide NewOk; hide RefsOk; hide CountOk;
    forall n | n in r.mapInfo ensures 0 <= n < r.nIdCount && StatsOk(r.mapInfo[n]) {
      assert StatsOk(Info(w, n));
      assert Info(w, n).fInTried <==> n >= |w.ids|;
    }
  }

  lemma {:induction false} RebuiltChecked(w: Saved, s: seq<Token>, r: Tables)
    requires Rebuilt(w, s, r)
    ensures Checked(w.k, r, -1)
  {
    hide Rebuilt; hide RandomOk; hide AddrOk; hide TriedOk; hide NewOk; hide RefsOk; hide CountOk; hide FieldsOk;
    RebuiltRandomAddr(w, s, r);
    RebuiltTried(w, s, r);
    RebuiltNew(w, s, r);
    RebuiltCounts(w, s, r);
  }

  lemma {:induction false} RebuiltRenumbered(w: Saved, s: seq<Token>, r: Tables)
    requires Rebuilt(w, s, r)
    ensures Renumbered(w.t, r, w.ids + w.tids)
  {
    hide Written; hide Checked; hide AddrsLoaded; hide TriedLoaded; hide RefSet; hide TriedBucket; hide RefsLoaded;
    hide Part;
    var order := w.ids + w.tids;
    OrderLists(w, s);
    SavedFacts(w, s);
    forall n | 0 <= n < |order|
      ensures order[n] in w.t.mapInfo && n in r.mapInfo
      ensures SameEntry(r.mapInfo[n], w.t.mapInfo[order[n]]) && r.mapInfo[n].nLastTry == 0
    {
      RebuiltRefs(w, s, r, n);
      EntryBack(w, r, n);
      assert Info(w, n).fInTried <==> n >= |w.ids|;
    }
    Keys(w, r);
    assert |w.t.vvTried| == ADDRMAN_TRIED_BUCKET_COUNT && |r.vvTried| == ADDRMAN_TRIED_BUCKET_COUNT &&
      |w.t.vvNew| == |w.rows| by {
      Sizes(w, s, r);
    }
    forall b: nat, n | b < |r.vvTried| && 0 <= n < |order|
      ensures n in r.vvTried[b] <==> order[n] in w.t.vvTried[b]
    {
      TriedMembersBack(w, s, r, b, n);
    }
    forall b: nat, n | b < |r.vvNew| && 0 <= n < |order|
      ensures n in r.vvNew[b] <==> order[n] in w.t.vvNew[b]
    {
      RowMembers(w, s, b, n);
    }
  }

  lemma {:induction false} Keys(w: Saved, r: Tables)
    requires Wellknown(w) && RefsLoaded(w, r.vvNew, r.mapInfo)
    ensures forall n :: n in r.mapInfo <==> 0 <= n < Total(w)
  {
  }

  lemma {:induction false} EntryBack(w: Saved, r: Tables, n: int)
    requires Wellknown(w) && RefsLoaded(w, r.vvNew, r.mapInfo) && 0 <= n < Total(w)
    ensures n in r.mapInfo && ToDisk(r.mapInfo[n]) == ToDisk(Info(w, n)) && (r.mapInfo[n].fInTried <==> n >= |w.ids|)
    ensures r.mapInfo[n].nLastTry == 0
  {
  }

  lemma {:induction false} Sizes(w: Saved, s: seq<Token>, r: Tables)
    requires Genuine(w, s) && Wellknown(w) && TriedLoaded(w, Total(w), r.vvTried)
    ensures |w.t.vvTried| == ADDRMAN_TRIED_BUCKET_COUNT && |r.vvTried| == ADDRMAN_TRIED_BUCKET_COUNT
    ensures |w.t.vvNew| == |w.rows|
  {
  }

  lemma {:induction false} OrderLists(w: Saved, s: seq<Token>)
    requires Genuine(w, s)
    ensures Lists(w.ids + w.tids, w.t.mapInfo.Keys)
  {
    hide RandomOk; hide AddrOk; hide TriedOk; hide NewOk; hide RefsOk; hide CountOk; hide FieldsOk; hide Layout;
    hide RowOk;
    var order := w.ids + w.tids;
    assert forall x :: x in order <==> x in w.ids || x in w.tids;
    forall i, j | 0 <= i < j < |order| ensures order[i] != order[j] {
      assert order[i] in w.ids || order[i] in w.tids;
      if i < |w.ids| <= j { assert order[i] in w.ids && order[j] in w.tids; }
    }
  }

  lemma {:induction false} TriedMembersBack(w: Saved, s: seq<Token>, r: Tables, b: nat, n: int)
    requires Genuine(w, s) && Wellknown(w) && TriedLoaded(w, Total(w), r.vvTried) && b < |w.t.vvTried| == |r.vvTried|
    requires 0 <= n < Total(w)
    ensures n in r.vvTried[b] <==> Origin(w, n) in w.t.vvTried[b]
  {
    SavedFacts(w, s);
    hide Written; hide RandomOk; hide AddrOk; hide NewOk; hide RefsOk; hide CountOk; hide FieldsOk; hide NoDuplicates;
    hide Wellknown;
    var x := Origin(w, n);
    assert x in w.t.mapInfo && w.t.mapInfo[x] == Info(w, n);
    assert Info(w, n).fInTried <==> n >= |w.ids|;
    hide TriedBucket;
  }

  lemma {:induction false} Begin(w: Saved, s: seq<Token>)
    requires Genuine(w, s)
    ensures Wellknown(w) && |w.ids| == w.t.nNew && |w.tids| == w.t.nTried && |w.rows| == ADDRMAN_NEW_BUCKET_COUNT
    ensures |s| >= 5 && s[0] == Num(0) && s[1] == Key(w.k) && s[2] == Num(w.t.nNew) && s[3] == Num(w.t.nTried)
    ensures s[4] == Num(ADDRMAN_NEW_BUCKET_COUNT)
  {
    SavedFacts(w, s);
    IsWritten(w, s);
    HeaderAt(w, s);
    hide Genuine; hide Written;
    assert forall i :: 0 <= i < 5 ==> s[i] == s[..5][i];
  }

  lemma {:induction false} NothingYet(w: Saved, t: Tables)
    requires Wellknown(w) && t.mapInfo == map[] && t.mapAddr == map[] && t.vRandom == []
    requires t.vvTried == seq(ADDRMAN_TRIED_BUCKET_COUNT, b => []) && t.vvNew == seq(ADDRMAN_NEW_BUCKET_COUNT, b => {})
    ensures Loaded(w, 0, t)
  {
  }

  lemma {:induction false} Renamed(w: Saved, m: nat, t: Tables, nIdCount: int, nTried: int)
    requires Wellknown(w) && m <= Total(w) && Loaded(w, m, t)
    ensures Loaded(w, m, t.(nIdCount := nIdCount, nTried := nTried))
  {
  }

  lemma {:induction false} Finish(w: Saved, s: seq<Token>, t: Tables, r: Tables)
    requires Begun(w, s, Total(w), t) && r == t.(mapInfo := r.mapInfo, vvNew := r.vvNew)
    requires |w.rows| == ADDRMAN_NEW_BUCKET_COUNT
    requires r.vvNew == Part(w, |w.rows|, 0) && RefsLoaded(w, r.vvNew, r.mapInfo)
    requires r.nIdCount == Total(w) && r.nNew == w.t.nNew && r.nTried == w.t.nTried
    ensures Rebuilt(w, s, r)
  {
  }

  /** Reads a manager from a stream; a stream that ends early or is out of step fails.  What Serialize
      wrote from a manager that satisfies Check_ is read back without loss: the same addresses, the
      same tried and new status, the same buckets, only the numbers of the entries have changed. */
  method Unserialize(m: AddrMan, s: seq<Token>, ghost w: Saved) returns (ok: bool, nLost: int)
    modifies m
    ensures Written(w, s) && Checked(w.k, w.t, -1) ==>
              ok && nLost == 0 && m.k == w.k && m.Valid() && Renumbered(w.t, m.Value(), w.ids + w.tids)
  {
    hide Checked; hide Written; hide Wellknown; hide Renumbered; hide Part; hide Loaded; hide RefsLoaded; hide Rebuilt;
    ghost var good := Genuine(w, s);
    nLost := 0;
    if good { Begin(w, s); }
    if |s| < 5 || !s[0].Num? || !s[1].Key? || !s[2].Num? || !s[3].Num? || !s[4].Num? { return false, 0; }
    m.k, m.nNew, m.nTried := s[1].k, s[2].n, s[3].n;
    var nUBuckets := s[4].n;
    m.nIdCount, m.mapInfo, m.mapAddr, m.vRandom := 0, map[], map[], [];
    m.vvTried := seq(ADDRMAN_TRIED_BUCKET_COUNT, b => []);
    m.vvNew := seq(ADDRMAN_NEW_BUCKET_COUNT, b => {});
    if good { NothingYet(w, m.Value()); }
    hide Genuine;
    var pos;
    ok, pos := ReadNew(m, s, 5, nUBuckets != ADDRMAN_NEW_BUCKET_COUNT, w);
    if !ok { return; }
    if good { Renamed(w, |w.ids|, m.Value(), m.nNew, m.nTried); }
    m.nIdCount := m.nNew;
    ok, pos, nLost := ReadTried(m, s, pos, w);
    if !ok { return; }
    if good { Renamed(w, Total(w), m.Value(), m.nIdCount, m.nTried - nLost); }
    m.nTried := m.nTried - nLost;
    ghost var t := m.Value();
    ok := ReadBuckets(m, s, pos, nUBuckets, w);
    if good {
      Finish(w, s, t, m.Value());
      RebuiltChecked(w, s, m.Value());
      RebuiltRenumbered(w, s, m.Value());
    }
  }

  /** Writing a manager and reading it back into any other one. */
  method RoundTrip(m: AddrMan, into: AddrMan) returns (ok: bool, nLost: int, ghost order: seq<int>)
    requires m.Valid() && into != m
    modifies into
    ensures ok && nLost == 0 && into.k == m.k && into.Valid() && Renumbered(m.Value(), into.Value(), order)
  {
    hide Checked; hide Written; hide Renumbered;
    var s, w := Serialize(m);
    order := w.ids + w.tids;
    ok, nLost := Unserialize(into, s, w);
  }
}
