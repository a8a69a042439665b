/** Loading a saved address manager (src/addrman.h: Unserialize): nothing is lost, and every entry is in
    the same slots of both tables. */
module AddrManLoad {
  import opened AddrTables
  import opened AddrMan
  import opened AddrManFile

  // ----- What is there after each stage -----

  /** Entry k as it is when no position in the new table has been read. */
  ghost function PartInfo(s: State, k: nat): Info
    requires Numbered(s) && k < |Ids(s)|
  {
    Stored(s.mapInfo[Ids(s)[k]]).(nRandomPos := k, fInTried := k >= s.nNew)
  }

  /** A table renumbered, with only the numbers below n. */
  ghost function Below(s: State, t: seq<int>, n: nat): seq<int>
    requires Numbered(s)
  {
    seq(|t|, i requires 0 <= i < |t| => if t[i] in s.mapInfo && Number(s, t[i]) < n then Number(s, t[i]) else -1)
  }

  /** The state once n entries have been read. */
  ghost function Part(s: State, n: nat, nIdCount: int): State
    requires Numbered(s) && AddrsKnown(s) && n <= |Ids(s)|
  {
    State(s.nKey, nIdCount, map k: int | 0 <= k < n :: PartInfo(s, k),
          map a | a in s.mapAddr && Number(s, s.mapAddr[a]) < n :: Number(s, s.mapAddr[a]) as int,
          seq(n, i => i), Below(s, s.triedTable, n), seq(NEW_BUCKET_COUNT * BUCKET_SIZE, i => -1), s.nTried, s.nNew)
  }

  /** The state once the new table has been restored up to slot f. */
  ghost function Restored(s: State, f: nat): State
    requires Numbered(s) && AddrsKnown(s) && f <= |s.newTable|
  {
    var r := Renamed(s, s.newTable);
    Part(s, |Ids(s)|, |Ids(s)|).(
      mapInfo := map k: int | 0 <= k < |Ids(s)| :: PartInfo(s, k).(nRefCount := multiset(r[..f])[k]),
      newTable := r[..f] + seq(|r| - f, i => -1))
  }

  lemma PartStart(s: State, nKey: nat)
    requires Numbered(s) && AddrsKnown(s) && |s.triedTable| == TRIED_BUCKET_COUNT * BUCKET_SIZE
    ensures EmptyState(nKey).(nKey := s.nKey, nNew := s.nNew, nTried := s.nTried) == Part(s, 0, 0)
  {
  }

  /** Reading a new entry. */
  lemma PartNextNew(h: Hashes, s: State, n: nat)
    requires Inv(h, s) && Numbered(s) && AddrsKnown(s) && n < s.nNew
    ensures var p := Part(s, n, 0);
            Part(s, n + 1, 0) == p.(mapInfo := p.mapInfo[n := PartInfo(s, n)],
                                    mapAddr := p.mapAddr[PartInfo(s, n).addr.ip := n], vRandom := p.vRandom + [n])
  {
    hide RandomOk, NewOk, RefsOk, TimesOk, CountsOk, TriedSlot, Number, Order;
    PartAddrs(s, n);
    hide AddrsOk;
    assert Below(s, s.triedTable, n + 1) == Below(s, s.triedTable, n) by { TriedNumbers(h, s); }
    PartInfos(s, n);
  }

  lemma PartInfos(s: State, n: nat)
    requires Numbered(s) && AddrsKnown(s) && n < |Ids(s)|
    ensures Part(s, n + 1, 0).mapInfo == Part(s, n, 0).mapInfo[n := PartInfo(s, n)]
    ensures Part(s, n + 1, 0).vRandom == Part(s, n, 0).vRandom + [n]
  {
    hide Numbered, AddrsKnown, PartInfo, Number, Order, Ids;
  }

  lemma PartAddrs(s: State, n: nat)
    requires AddrsOk(s) && Numbered(s) && AddrsKnown(s) && n < |Ids(s)|
    ensures Part(s, n + 1, 0).mapAddr == Part(s, n, 0).mapAddr[PartInfo(s, n).addr.ip := n]
  {
    hide Number, Order;
    var ip := PartInfo(s, n).addr.ip;
    assert s.mapAddr[ip] == Ids(s)[n];
    forall a | a in s.mapAddr && Number(s, s.mapAddr[a]) == n
      ensures a == ip
    {
      assert Ids(s)[Number(s, s.mapAddr[a])] == s.mapAddr[a];
    }
  }

  lemma TriedNumbers(h: Hashes, s: State)
    requires TriedOk(h, s) && Numbered(s)
    ensures forall i :: 0 <= i < |s.triedTable| && s.triedTable[i] in s.mapInfo && s.triedTable[i] != -1 ==>
              Number(s, s.triedTable[i]) >= s.nNew
    ensures -1 !in s.mapInfo
  {
    hide TriedSlot, Number, Order;
    forall i | 0 <= i < |s.triedTable| && s.triedTable[i] in s.mapInfo && s.triedTable[i] != -1
      ensures Number(s, s.triedTable[i]) >= s.nNew
    {
      assert Ids(s)[Number(s, s.triedTable[i])] == s.triedTable[i];
    }
  }

  predicate SlotFree(h: Hashes, p: State, a: Service) {
    TriedSlot(h, p.nKey, a) < |p.triedTable| && p.triedTable[TriedSlot(h, p.nKey, a)] == -1
  }

  /** A tried entry read into its slot, if that is free. */
  function AddTried(h: Hashes, p: State, info: Info): State {
    if !SlotFree(h, p, info.addr) then p else
      p.(nIdCount := p.nIdCount + 1,
         mapInfo := p.mapInfo[p.nIdCount := info.(nRandomPos := |p.vRandom|, fInTried := true)],
         mapAddr := p.mapAddr[info.addr.ip := p.nIdCount], vRandom := p.vRandom + [p.nIdCount],
         triedTable := p.triedTable[TriedSlot(h, p.nKey, info.addr) := p.nIdCount])
  }

  /** Reading a tried entry: its slot is free. */
  lemma PartNextTried(h: Hashes, s: State, n: nat)
    requires Inv(h, s) && Numbered(s) && AddrsKnown(s) && s.nNew <= n < |Ids(s)|
    ensures SlotFree(h, Part(s, n, n), PartInfo(s, n).addr)
    ensures Part(s, n + 1, n + 1) == AddTried(h, Part(s, n, n), Stored(s.mapInfo[Ids(s)[n]]))
    ensures PartInfo(s, n).addr == s.mapInfo[Ids(s)[n]].addr
  {
    hide RandomOk, NewOk, RefsOk, TimesOk, CountsOk, TriedSlot, Number, Order;
    PartAddrs(s, n);
    hide AddrsOk;
    PartInfos(s, n);
    var i, id := TriedSlot(h, s.nKey, PartInfo(s, n).addr), Ids(s)[n];
    assert s.triedTable[i] == id;
    var was, now := Below(s, s.triedTable, n), Below(s, s.triedTable, n + 1);
    forall j | 0 <= j < |s.triedTable|
      ensures now[j] == was[i := n][j]
    {
      if s.triedTable[j] in s.mapInfo && Number(s, s.triedTable[j]) == n {
        assert Ids(s)[Number(s, s.triedTable[j])] == s.triedTable[j];
        TriedNumbers(h, s);
      }
    }
    assert now == was[i := n];
  }

  /** Slot f is empty before; unless there is nothing to enter, the entry numbered n is referred to less
      than eight times, has this slot in this bucket, and is entered. */
  ghost predicate RestoreStep(h: Hashes, p: State, q: State, f: nat, n: int) {
    && f < |p.newTable| && p.newTable[f] == -1
    && if n == -1 then q == p else
         && n in p.mapInfo && 0 <= n < p.nNew && p.mapInfo[n].nRefCount < NEW_BUCKETS_PER_ADDRESS
         && f == NewSlot(h, p.nKey, p.mapInfo[n].addr, f / BUCKET_SIZE)
         && q == Slotted(p, f, n)
  }

  lemma RestoreNext(h: Hashes, s: State, f: nat)
    requires Inv(h, s) && Numbered(s) && AddrsKnown(s) && f < |s.newTable|
    ensures RestoreStep(h, Restored(s, f), Restored(s, f + 1), f, Renamed(s, s.newTable)[f])
  {
    hide InvAt, Numbered, AddrsKnown, Number, Order, Ids, NewSlot, PartInfo, Renamed, Restored;
    if Renamed(s, s.newTable)[f] != -1 {
      RestoreBound(h, s, f);
      RestoreEntry(h, s, f);
    } else {
      RestoreNothing(h, s, f);
    }
  }

  lemma RestoreNothing(h: Hashes, s: State, f: nat)
    requires Numbered(s) && AddrsKnown(s) && f < |s.newTable| && Renamed(s, s.newTable)[f] == -1
    ensures RestoreStep(h, Restored(s, f), Restored(s, f + 1), f, -1)
  {
    TableNext(Renamed(s, s.newTable), f);
    hide Numbered, AddrsKnown, Number, Order, Ids, PartInfo;
    RestoredSame(s, f);
  }

  ghost predicate Enterable(h: Hashes, s: State, f: nat)
    requires Numbered(s)
  {
    && f < |s.newTable|
    && var r := Renamed(s, s.newTable);
    && 0 <= r[f] < s.nNew && r[f] < |Ids(s)|
    && multiset(r[..f])[r[f]] < NEW_BUCKETS_PER_ADDRESS
    && f == NewSlot(h, s.nKey, PartInfo(s, r[f]).addr, f / BUCKET_SIZE)
  }

  lemma RestoreEntry(h: Hashes, s: State, f: nat)
    requires Numbered(s) && AddrsKnown(s) && Enterable(h, s, f)
    ensures RestoreStep(h, Restored(s, f), Restored(s, f + 1), f, Renamed(s, s.newTable)[f])
  {
    hide Numbered, AddrsKnown, Number, Order, Ids, NewSlot, PartInfo, Below, Renamed;
    TableNext(Renamed(s, s.newTable), f);
    RestoredInfo(s, f);
  }

  lemma TableNext(r: seq<int>, f: nat)
    requires f < |r|
    ensures r[..f + 1] == r[..f] + [r[f]]
    ensures r[..f + 1] + seq(|r| - f - 1, i => -1) == (r[..f] + seq(|r| - f, i => -1))[f := r[f]]
    ensures r[f] == -1 ==> r[..f + 1] + seq(|r| - f - 1, i => -1) == r[..f] + seq(|r| - f, i => -1)
  {
  }

  lemma RestoreBound(h: Hashes, s: State, f: nat)
    requires Inv(h, s) && Numbered(s) && AddrsKnown(s) && f < |s.newTable| && Renamed(s, s.newTable)[f] != -1
    ensures Enterable(h, s, f)
  {
    hide AddrsOk, RandomOk, TriedOk, TimesOk, CountsOk, Number, Order, NewSlot;
    var r, id := Renamed(s, s.newTable), s.newTable[f];
    assert Ids(s)[Number(s, id)] == id;
    RenamedCount(s, s.newTable, id);
    assert r == r[..f] + [r[f]] + r[f + 1..];
    assert multiset(r)[r[f]] == multiset(r[..f])[r[f]] + 1 + multiset(r[f + 1..])[r[f]];
  }

  lemma RestoredInfo(s: State, f: nat)
    requires Numbered(s) && AddrsKnown(s) && f < |s.newTable|
    requires var r := Renamed(s, s.newTable); r[f] in Restored(s, f).mapInfo && r[..f + 1] == r[..f] + [r[f]]
    ensures var r, p := Renamed(s, s.newTable), Restored(s, f);
            Restored(s, f + 1).mapInfo
              == p.mapInfo[r[f] := p.mapInfo[r[f]].(nRefCount := p.mapInfo[r[f]].nRefCount + 1)]
  {
    hide Numbered, AddrsKnown, PartInfo, Number, Order, Ids, Renamed;
  }

  lemma RestoredSame(s: State, f: nat)
    requires Numbered(s) && AddrsKnown(s) && f < |s.newTable|
    requires var r := Renamed(s, s.newTable); r[f] == -1 && r[..f + 1] == r[..f] + [r[f]]
    ensures Restored(s, f + 1).mapInfo == Restored(s, f).mapInfo
  {
    hide Numbered, AddrsKnown, PartInfo, Number, Order, Ids, Renamed;
  }

  lemma RestoreStart(s: State)
    requires Numbered(s) && AddrsKnown(s) && |s.newTable| == NEW_BUCKET_COUNT * BUCKET_SIZE
    ensures Restored(s, 0) == Part(s, |Ids(s)|, |Ids(s)|)
  {
    hide AddrsKnown, Number, Order, Ids;
    var r := Renamed(s, s.newTable);
    assert r[..0] == [];
    assert Restored(s, 0).newTable == Part(s, |Ids(s)|, |Ids(s)|).newTable;
    assert Restored(s, 0).mapInfo == Part(s, |Ids(s)|, |Ids(s)|).mapInfo;
  }

  lemma RestoreEnd(h: Hashes, s: State)
    requires Inv(h, s) && Numbered(s) && AddrsKnown(s)
    ensures Restored(s, |s.newTable|) == Renumbered(s)
  {
    hide AddrsOk, RandomOk, TriedOk, RefsOk, TimesOk, CountsOk, Number, Order, NewSlot;
    var r := Renamed(s, s.newTable);
    var a, b := Restored(s, |s.newTable|), Renumbered(s);
    assert r[..|r|] == r;
    assert a.newTable == b.newTable;
    assert a.triedTable == b.triedTable;
    assert a.mapAddr == b.mapAddr;
    forall k | 0 <= k < |Ids(s)|
      ensures PartInfo(s, k).(nRefCount := multiset(r)[k]) == LoadedInfo(s, k)
    {
      RenamedCount(s, s.newTable, Ids(s)[k]);
    }
    assert a.mapInfo == b.mapInfo;
  }

  lemma SkipOne(h: Hashes, s: State, f: nat)
    requires Inv(h, s) && Numbered(s) && AddrsKnown(s) && f < |s.newTable| && Renamed(s, s.newTable)[f] == -1
    ensures Restored(s, f + 1) == Restored(s, f)
  {
    hide Inv, InvAt, Numbered, AddrsKnown, Renamed, Restored;
    RestoreNext(h, s, f);
  }

  /** Skip the empty slots before the next entry of a bucket. */
  lemma {:induction false} SkipEmpty(h: Hashes, s: State, f: nat, hi: nat) returns (g: nat)
    requires Inv(h, s) && Numbered(s) && AddrsKnown(s) && f <= hi <= |s.newTable|
    ensures f <= g <= hi && Restored(s, g) == Restored(s, f) && NextIs(Renamed(s, s.newTable), f, g, hi)
    decreases hi - f
  {
    hide Inv, InvAt, Numbered, AddrsKnown, Renamed, Restored, RestoreStep;
    if f == hi || Renamed(s, s.newTable)[f] != -1 {
      g := f;
    } else {
      SkipOne(h, s, f);
      g := SkipEmpty(h, s, f + 1, hi);
    }
  }

  /** Slot g is the first nonempty one from f on, or there is none. */
  ghost predicate NextIs(r: seq<int>, f: nat, g: nat, hi: nat) {
    && f <= g <= hi <= |r|
    && if Indices(r, f, hi) == [] then g == hi
       else g < hi && r[g] != -1 && Indices(r, f, hi) == [r[g]] + Indices(r, g + 1, hi)
  }

  // ----- Loading -----

  method ReadNew(m: CAddrMan, infos: seq<Info>, ghost s: State)
    requires Inv(m.h, s) && Numbered(s) && AddrsKnown(s) && m.S() == Part(s, 0, 0) && |infos| == s.nNew
    requires forall n :: 0 <= n < s.nNew ==> infos[n] == Stored(s.mapInfo[Ids(s)[n]])
    modifies m
    ensures m.S() == Part(s, s.nNew, 0)
  {
    hide InvAt, AddrsKnown, Number, Order;
    for n := 0 to m.nNew
      invariant m.S() == Part(s, n, 0)
    {
      PartNextNew(m.h, s, n);
      var info := infos[n].(nRandomPos := |m.vRandom|);
      m.mapInfo := m.mapInfo[n := info];
      m.mapAddr := m.mapAddr[info.addr.ip := n];
      m.vRandom := m.vRandom + [n];
    }
  }

  lemma NumberedCount(s: State)
    requires Numbered(s)
    ensures |Ids(s)| == s.nNew + s.nTried && s.nNew >= 0 && s.nTried >= 0
  {
  }

  ghost predicate TriedHeld(s: State, infos: seq<Info>) {
    && Numbered(s) && |infos| == s.nTried
    && forall n :: 0 <= n < s.nTried ==> infos[n] == Stored(s.mapInfo[Ids(s)[s.nNew + n]])
  }

  /** The first n entries of a consistent manager s have been read into m. */
  ghost predicate ReadUpTo(m: CAddrMan, s: State, n: int)
    reads m, m.vvTried, m.vvNew
  {
    && Inv(m.h, s) && Numbered(s) && AddrsKnown(s) && m.vvTried != m.vvNew
    && 0 <= n <= |Ids(s)| && m.S() == Part(s, n, n)
  }

  /** A tried entry whose slot is taken would be lost. */
  method ReadTried(m: CAddrMan, infos: seq<Info>, ghost s: State) returns (nLost: int)
    requires TriedHeld(s, infos) && ReadUpTo(m, s, s.nNew)
    modifies m, m.vvTried
    ensures ReadUpTo(m, s, s.nNew + s.nTried) && nLost == 0
  {
    hide *;
    var count := m.nTried;
    nLost := 0;
    TriedCount(m, s, infos);
    for n := 0 to count
      invariant ReadUpTo(m, s, s.nNew + n) && nLost == 0
    {
      var lost := ReadNextTried(m, infos, n, s);
      nLost := nLost + lost;
    }
    m.nTried := m.nTried - nLost;
  }

  lemma TriedCount(m: CAddrMan, s: State, infos: seq<Info>)
    requires TriedHeld(s, infos) && ReadUpTo(m, s, s.nNew)
    ensures m.nTried == s.nTried == |infos|
  {
  }

  method ReadNextTried(m: CAddrMan, infos: seq<Info>, i: nat, ghost s: State) returns (lost: int)
    requires TriedHeld(s, infos) && i < |infos| && ReadUpTo(m, s, s.nNew + i)
    modifies m, m.vvTried
    ensures ReadUpTo(m, s, s.nNew + i + 1) && lost == 0
  {
    hide InvAt, AddrsKnown, Numbered, AddTried, SlotFree, PartInfo, Part, EmptyState;
    ghost var n := s.nNew + i;
    NumberedCount(s);
    TableSizes(m.h, s, {}, 0);
    PartSizes(s, n);
    PartNextTried(m.h, s, n);
    lost := ReadOneTried(m, infos[i], s);
  }

  method ReadOneTried(m: CAddrMan, info: Info, ghost s: State) returns (lost: int)
    requires m.vvTried != m.vvNew && m.vvTried.Length == TRIED_BUCKET_COUNT * BUCKET_SIZE
    modifies m, m.vvTried
    ensures m.S() == AddTried(m.h, old(m.S()), info)
    ensures lost == if SlotFree(m.h, old(m.S()), info.addr) then 0 else 1
  {
    var nKBucket := GetTriedBucket(m.h, m.nKey, info.addr);
    var nKBucketPos := GetBucketPosition(m.h, m.nKey, false, nKBucket, info.addr);
    var i := Slot(nKBucket, nKBucketPos);
    TriedSlotIs(m.h, m.nKey, info.addr);
    hide GetTriedBucket, GetBucketPosition, Slot;
    if m.vvTried[i] == -1 {
      var entry := info.(nRandomPos := |m.vRandom|, fInTried := true);
      m.vRandom := m.vRandom + [m.nIdCount];
      m.mapInfo := m.mapInfo[m.nIdCount := entry];
      m.mapAddr := m.mapAddr[entry.addr.ip := m.nIdCount];
      m.vvTried[i] := m.nIdCount;
      m.nIdCount := m.nIdCount + 1;
      lost := 0;
    } else {
      lost := 1;
    }
  }

  /** Enter the entries of one bucket, each at its own position. */
  method ReadBucket(m: CAddrMan, bucket: nat, indices: seq<int>, ghost s: State)
    requires Inv(m.h, s) && Numbered(s) && AddrsKnown(s) && bucket < NEW_BUCKET_COUNT
    requires |s.newTable| == NEW_BUCKET_COUNT * BUCKET_SIZE && m.vvTried != m.vvNew
    requires m.S() == Restored(s, bucket * BUCKET_SIZE)
    requires indices == Indices(Renamed(s, s.newTable), bucket * BUCKET_SIZE, (bucket + 1) * BUCKET_SIZE)
    modifies m, m.vvNew
    ensures m.S() == Restored(s, (bucket + 1) * BUCKET_SIZE)
  {
    hide InvAt, Numbered, AddrsKnown, Renamed, Restored, NewSlot, GetBucketPosition;
    ghost var f, hi := bucket * BUCKET_SIZE, (bucket + 1) * BUCKET_SIZE;
    for n := 0 to |indices|
      invariant bucket * BUCKET_SIZE <= f <= hi && m.S() == Restored(s, f)
      invariant indices[n..] == Indices(Renamed(s, s.newTable), f, hi)
    {
      f := SkipEmpty(m.h, s, f, hi);
      RestoreNext(m.h, s, f);
      assert indices[n] == Renamed(s, s.newTable)[f] && indices[n..][1..] == indices[n + 1..];
      ReadPosition(m, bucket, indices[n], f, Restored(s, f + 1));
      f := f + 1;
    }
    f := SkipEmpty(m.h, s, f, hi);
  }

  method ReadPosition(m: CAddrMan, bucket: nat, nIndex: int, ghost f: nat, ghost q: State)
    requires m.vvTried != m.vvNew && bucket < NEW_BUCKET_COUNT && nIndex != -1
    requires RestoreStep(m.h, m.S(), q, f, nIndex) && f / BUCKET_SIZE == bucket
    modifies m, m.vvNew
    ensures m.S() == q
  {
    if nIndex >= 0 && nIndex < m.nNew {
      var info := m.mapInfo[nIndex];
      var nUBucketPos := GetBucketPosition(m.h, m.nKey, true, bucket, info.addr);
      var i := Slot(bucket, nUBucketPos);
      assert i == f;
      if m.vvNew[i] == -1 && info.nRefCount < NEW_BUCKETS_PER_ADDRESS {
        m.mapInfo := m.mapInfo[nIndex := info.(nRefCount := info.nRefCount + 1)];
        m.vvNew[i] := nIndex;
      }
    }
  }

  /** No new entry below n is without a slot. */
  ghost predicate PrunedTo(mapInfo: map<int, Info>, n: int) {
    forall id :: id in mapInfo && id < n && !mapInfo[id].fInTried ==> mapInfo[id].nRefCount > 0
  }

  /** Delete the new entries that have no slot: none, if the manager was valid before. */
  method PruneNew(m: CAddrMan) returns (nLostUnk: int)
    requires m.At(m.mapInfo.Keys, 0)
    modifies m
    ensures m.Valid()
    ensures old(m.Valid()) ==> m.S() == old(m.S()) && nLostUnk == 0
  {
    IdRange(m.S());
    hide *;
    ghost var all, s, valid := m.mapInfo.Keys, m.S(), m.Valid();
    assert PrunedTo(m.mapInfo, 0) by { NonePruned(m); }
    nLostUnk := 0;
    for n := 0 to m.nIdCount
      invariant m.At(all, 0) && m.nIdCount == old(m.nIdCount) && PrunedTo(m.mapInfo, n)
      invariant valid ==> m.S() == s && m.Valid() && nLostUnk == 0
    {
      var lost := PruneStep(m, n, all);
      nLostUnk := nLostUnk + lost;
    }
    NothingInLimbo(m, all);
  }

  lemma NonePruned(m: CAddrMan)
    requires forall id :: id in m.mapInfo ==> id >= 0
    ensures PrunedTo(m.mapInfo, 0)
  {
  }

  method PruneStep(m: CAddrMan, n: int, ghost all: set<int>) returns (lost: int)
    requires m.At(all, 0) && PrunedTo(m.mapInfo, n)
    modifies m
    ensures m.At(all, 0) && m.nIdCount == old(m.nIdCount) && PrunedTo(m.mapInfo, n + 1)
    ensures old(m.Valid()) ==> m.S() == old(m.S()) && lost == 0
  {
    hide InvAt;
    lost := 0;
    if n in m.mapInfo {
      EntryFacts(m, all, n);
      if !m.mapInfo[n].fInTried && m.mapInfo[n].nRefCount == 0 {
        PruneOne(m, n, all);
        lost := 1;
      }
    }
  }

  method PruneOne(m: CAddrMan, n: int, ghost all: set<int>)
    requires m.At(all, 0) && n in m.mapInfo && !m.mapInfo[n].fInTried && m.mapInfo[n].nRefCount == 0
    modifies m
    ensures m.At(all, 0) && m.nIdCount == old(m.nIdCount) && m.mapInfo.Keys == old(m.mapInfo).Keys - {n}
    ensures forall id :: id in m.mapInfo ==> SameButPos(old(m.mapInfo)[id], m.mapInfo[id])
  {
    hide InvAt;
    DeleteKeeps(m.h, m.S(), all, 0, n);
    m.Delete(n, all, 0);
    OutOfLimbo(m.h, m.S(), all - {n}, 0, n);
    assert n in all ==> all - {n} + {n} == all;
    MoreLimbo(m.h, m.S(), all - {n}, all);
    assert forall id :: id in m.mapInfo ==> id in m.mapInfo.Keys;
  }

  lemma MoreLimbo(h: Hashes, s: State, limbo: set<int>, limbo': set<int>)
    requires InvAt(h, s, limbo, 0) && limbo <= limbo'
    ensures InvAt(h, s, limbo', 0)
  {
    hide AddrsOk, RandomOk, TriedOk, NewOk, TimesOk, CountsOk;
  }

  lemma EntryFacts(m: CAddrMan, limbo: set<int>, id: int)
    requires m.At(limbo, 0) && id in m.mapInfo
    ensures m.mapInfo[id].nRefCount >= 0
    ensures m.Valid() && !m.mapInfo[id].fInTried ==> m.mapInfo[id].nRefCount > 0
  {
  }

  lemma NothingInLimbo(m: CAddrMan, limbo: set<int>)
    requires m.At(limbo, 0)
    requires PrunedTo(m.mapInfo, m.nIdCount)
    ensures m.Valid()
  {
    hide RandomOk, TriedOk, NewOk, TimesOk, CountsOk;
  }

  method ReadTables(m: CAddrMan, f: Saved, ghost s: State) returns (nLost: int)
    requires Inv(m.h, s) && Numbered(s) && AddrsKnown(s) && Holds(s, f)
    requires m.vvTried != m.vvNew && m.S() == EmptyState(m.nKey)
    modifies m, m.vvTried, m.vvNew
    ensures m.S() == Renumbered(s) && nLost == 0
  {
    TableSizes(m.h, s, {}, 0);
    RestoreStart(s);
    RestoreEnd(m.h, s);
    hide InvAt, Numbered, AddrsKnown, Renumbered, Restored, Part, Renamed, EmptyState;
    nLost := ReadEntries(m, f, s);
    ReadBuckets(m, f.buckets, s);
  }

  method ReadEntries(m: CAddrMan, f: Saved, ghost s: State) returns (nLost: int)
    requires Inv(m.h, s) && Numbered(s) && AddrsKnown(s) && Holds(s, f)
    requires m.vvTried != m.vvNew && m.S() == EmptyState(m.nKey)
    modifies m, m.vvTried, m.vvNew
    ensures m.S() == Part(s, |Ids(s)|, |Ids(s)|) && nLost == 0
  {
    hide InvAt, Numbered, AddrsKnown, EmptyState, Part;
    TableSizes(m.h, s, {}, 0);
    NumberedCount(s);
    PartStart(s, m.nKey);
    m.nKey, m.nNew, m.nTried := f.nKey, f.nNew, f.nTried;
    PartIds(s, s.nNew);
    ReadNew(m, f.newInfos, s);
    assert m.nNew == m.S().nNew == s.nNew;
    m.nIdCount := m.nNew;
    nLost := ReadTried(m, f.triedInfos, s);
  }

  lemma PartSizes(s: State, n: nat)
    requires Numbered(s) && AddrsKnown(s) && n <= |Ids(s)|
    ensures |Part(s, n, n).triedTable| == |s.triedTable|
  {
  }

  lemma PartIds(s: State, n: nat)
    requires Numbered(s) && AddrsKnown(s) && n <= |Ids(s)|
    ensures Part(s, n, 0).nNew == s.nNew && Part(s, n, 0).(nIdCount := n) == Part(s, n, n)
  {
  }

  /** Load what Serialize wrote for a manager in state s into a newly constructed one. */
  method Unserialize(m: CAddrMan, f: Saved, ghost s: State) returns (nLost: int, nLostUnk: int)
    requires Inv(m.h, s) && Numbered(s) && Holds(s, f)
    requires m.Valid() && m.S() == EmptyState(m.nKey)
    modifies m, m.vvTried, m.vvNew
    ensures AddrsKnown(s) && m.Valid() && m.S() == Renumbered(s)
    ensures nLost == 0 && nLostUnk == 0
  {
    RenumberedOk(m.h, s);
    hide InvAt, Holds, Renumbered;
    nLost := ReadTables(m, f, s);
    OutOfLimboAll(m.h, m.S());
    nLostUnk := PruneNew(m);
  }

  lemma OutOfLimboAll(h: Hashes, s: State)
    requires Inv(h, s)
    ensures InvAt(h, s, s.mapInfo.Keys, 0)
  {
    MoreLimbo(h, s, {}, s.mapInfo.Keys);
  }

  method ReadBuckets(m: CAddrMan, buckets: seq<seq<int>>, ghost s: State)
    requires Inv(m.h, s) && Numbered(s) && AddrsKnown(s) && |s.newTable| == NEW_BUCKET_COUNT * BUCKET_SIZE
    requires m.S() == Restored(s, 0) && m.vvTried != m.vvNew && |buckets| == NEW_BUCKET_COUNT
    requires forall b :: 0 <= b < NEW_BUCKET_COUNT ==>
               buckets[b] == Indices(Renamed(s, s.newTable), b * BUCKET_SIZE, (b + 1) * BUCKET_SIZE)
    modifies m, m.vvNew
    ensures m.S() == Restored(s, |s.newTable|)
  {
    hide InvAt, Numbered, AddrsKnown, Renamed, Restored;
    for bucket := 0 to NEW_BUCKET_COUNT
      invariant m.S() == Restored(s, bucket * BUCKET_SIZE)
    {
      ReadBucket(m, bucket, buckets[bucket], s);
    }
  }

  /** Saving a manager and loading it into a new one loses nothing: the same entries, statistics and
      slots, up to numbering (and the time of the last try, which is not saved). */
  method SaveAndLoad(m: CAddrMan, fresh_: CAddrMan) returns (nLost: int, nLostUnk: int)
    requires m.Valid() && fresh_.Valid() && fresh_.S() == EmptyState(fresh_.nKey) && fresh_.h == m.h
    requires m != fresh_ && {m.vvTried, m.vvNew} !! {fresh_.vvTried, fresh_.vvNew}
    modifies fresh_, fresh_.vvTried, fresh_.vvNew
    ensures Numbered(m.S()) && AddrsKnown(m.S()) && fresh_.S() == Renumbered(m.S())
    ensures fresh_.Valid() && nLost == 0 && nLostUnk == 0
  {
    hide InvAt, Numbered, Holds;
    var f := Serialize(m);
    nLost, nLostUnk := Unserialize(fresh_, f, m.S());
  }
}
