/** Check_, the address manager's own consistency check, and runs of operations that keep passing it. */
module AddrManCheck {
  import opened AddrTables
  import opened AddrMan

  // ----- Check_ -----

  /** The loop over mapInfo: the ids in tried, and the reference counts of the others. */
  method CheckEntries(m: CAddrMan) returns (err: int, setTried: set<int>, mapNew: map<int, int>)
    requires m.Valid()
    ensures err == 0 && setTried == TriedIds(m.mapInfo) && mapNew.Keys == NewIds(m.mapInfo)
    ensures forall id :: id in mapNew ==> mapNew[id] == m.mapInfo[id].nRefCount
  {
    hide InvAt;
    err, setTried, mapNew := 0, {}, map[];
    var ids: set<int> := m.mapInfo.Keys;
    while ids != {}
      invariant ids <= m.mapInfo.Keys
      invariant forall id :: id in setTried <==> id in m.mapInfo && id !in ids && m.mapInfo[id].fInTried
      invariant forall id :: id in mapNew <==> id in m.mapInfo && id !in ids && !m.mapInfo[id].fInTried
      invariant forall id :: id in mapNew ==> mapNew[id] == m.mapInfo[id].nRefCount
      decreases |ids|
    {
      assert (forall id :: id !in ids) ==> ids == {};
      var n :| n in ids;
      var e := CheckEntry(m, n);
      if e != 0 {
        return e, setTried, mapNew;
      }
      if m.mapInfo[n].fInTried {
        setTried := setTried + {n};
      } else {
        mapNew := mapNew[n := m.mapInfo[n].nRefCount];
      }
      ids := ids - {n};
    }
    assert forall id :: id in mapNew.Keys <==> id in NewIds(m.mapInfo);
    assert forall id :: id in setTried <==> id in TriedIds(m.mapInfo);
  }

  method CheckEntry(m: CAddrMan, n: int) returns (err: int)
    requires m.Valid() && n in m.mapInfo
    ensures err == 0
  {
    hide TriedOk, NewOk, CountsOk;
    InTriedNotReferred(m.h, m.S(), n);
    var info := m.mapInfo[n];
    if info.fInTried {
      if info.nLastSuccess == 0 { return -1; }
      if info.nRefCount != 0 { return -2; }
    } else {
      if info.nRefCount < 0 || info.nRefCount > NEW_BUCKETS_PER_ADDRESS { return -3; }
      if info.nRefCount == 0 { return -4; }
    }
    if info.addr.ip !in m.mapAddr || m.mapAddr[info.addr.ip] != n { return -5; }
    if info.nRandomPos < 0 || info.nRandomPos >= |m.vRandom| || m.vRandom[info.nRandomPos] != n { return -14; }
    if info.nLastTry < 0 { return -6; }
    if info.nLastSuccess < 0 { return -8; }
    err := 0;
  }

  lemma InTriedNotReferred(h: Hashes, s: State, id: int)
    requires Inv(h, s) && id in s.mapInfo
    ensures s.mapInfo[id].fInTried ==> s.mapInfo[id].nRefCount == 0
  {
    NoSuchId(s);
    assert s.mapInfo[id].fInTried ==> id !in s.newTable;
  }

  /** The loop over the tried table, striking out the ids found. */
  method CheckTried(m: CAddrMan, setTriedIn: set<int>) returns (err: int, setTried: set<int>)
    requires m.Valid() && setTriedIn == TriedIds(m.mapInfo)
    ensures err == 0 && setTried == {}
  {
    hide AddrsOk, RandomOk, NewOk, RefsOk, TimesOk, CountsOk, TriedSlot, GetTriedBucket, GetBucketPosition;
    setTried := setTriedIn;
    TableSizes(m.h, m.S(), {}, 0);
    for j := 0 to m.vvTried.Length
      invariant forall id :: id in setTried <==>
        (id in m.mapInfo && m.mapInfo[id].fInTried && TriedSlot(m.h, m.nKey, m.mapInfo[id].addr) >= j)
    {
      var id := m.vvTried[j];
      if id != -1 {
        assert m.S().triedTable[j] == id;
        if id !in setTried { return -11, setTried; }
        var a := m.mapInfo[id].addr;
        TriedSlotIs(m.h, m.nKey, a);
        SlotParts(GetTriedBucket(m.h, m.nKey, a),
                  GetBucketPosition(m.h, m.nKey, false, GetTriedBucket(m.h, m.nKey, a), a));
        if GetTriedBucket(m.h, m.nKey, a) != j / BUCKET_SIZE { return -17, setTried; }
        if GetBucketPosition(m.h, m.nKey, false, j / BUCKET_SIZE, a) != j % BUCKET_SIZE { return -18, setTried; }
        setTried := setTried - {id};
      }
      assert forall x :: x in setTried && TriedSlot(m.h, m.nKey, m.mapInfo[x].addr) == j ==> m.S().triedTable[j] == x;
    }
    err := 0;
    assert forall id :: id !in setTried;
  }

  lemma SlotParts(bucket: nat, pos: nat)
    requires pos < BUCKET_SIZE
    ensures Slot(bucket, pos) / BUCKET_SIZE == bucket && Slot(bucket, pos) % BUCKET_SIZE == pos
  {
  }

  /** The loop over the new table, counting the references down. */
  method CheckNew(m: CAddrMan, mapNewIn: map<int, int>) returns (err: int, mapNew: map<int, int>)
    requires m.Valid() && mapNewIn.Keys == NewIds(m.mapInfo)
    requires forall id :: id in mapNewIn ==> mapNewIn[id] == m.mapInfo[id].nRefCount
    ensures err == 0 && mapNew == map[]
  {
    hide InvAt, NewSlot, GetNewBucket, GetBucketPosition;
    err, mapNew := 0, mapNewIn;
    NewCounts(m.h, m.S());
    assert m.vvNew[..][0..] == m.vvNew[..];
    for j := 0 to m.vvNew.Length
      invariant err == 0 && ToCome(m.mapInfo, m.vvNew[..], j, mapNew)
    {
      err, mapNew := CheckNewSlot(m.h, m.nKey, m.mapInfo, m.vvNew[..], j, mapNew);
      if err != 0 {
        return;
      }
    }
    assert m.vvNew[..][m.vvNew.Length..] == [];
    assert forall id :: id !in mapNew;
  }

  /** The references from slot j on, counted. */
  ghost predicate ToCome(mapInfo: map<int, Info>, t: seq<int>, j: nat, mapNew: map<int, int>)
    requires j <= |t|
  {
    && (forall id :: id in mapNew <==> id in mapInfo && multiset(t[j..])[id] > 0)
    && (forall id :: id in mapNew ==> mapNew[id] == multiset(t[j..])[id])
  }

  method CheckNewSlot(h: Hashes, nKey: nat, mapInfo: map<int, Info>, t: seq<int>, j: nat, mapNewIn: map<int, int>)
    returns (err: int, mapNew: map<int, int>)
    requires j < |t| && -1 !in mapInfo && ToCome(mapInfo, t, j, mapNewIn)
    requires t[j] != -1 ==> t[j] in mapInfo && j == NewSlot(h, nKey, mapInfo[t[j]].addr, j / BUCKET_SIZE)
    ensures err == 0 && ToCome(mapInfo, t, j + 1, mapNew)
  {
    err, mapNew := 0, mapNewIn;
    var id := t[j];
    assert t[j..] == [id] + t[j + 1..];
    assert multiset(t[j..]) == multiset{id} + multiset(t[j + 1..]);
    if id != -1 {
      if id !in mapNew { return -12, mapNew; }
      NewSlotPosition(h, nKey, mapInfo[id].addr, j);
      if GetBucketPosition(h, nKey, true, j / BUCKET_SIZE, mapInfo[id].addr) != j % BUCKET_SIZE { return -19, mapNew; }
      mapNew := mapNew[id := mapNew[id] - 1];
      if mapNew[id] == 0 {
        mapNew := mapNew - {id};
      }
    }
  }

  lemma NewCounts(h: Hashes, s: State)
    requires Inv(h, s)
    ensures -1 !in s.mapInfo
    ensures forall id :: id in NewIds(s.mapInfo) <==> id in s.mapInfo && multiset(s.newTable)[id] > 0
    ensures forall id :: id in s.mapInfo ==> s.mapInfo[id].nRefCount == multiset(s.newTable)[id]
    ensures forall j :: 0 <= j < |s.newTable| && s.newTable[j] != -1 ==>
              && s.newTable[j] in s.mapInfo
              && j == NewSlot(h, s.nKey, s.mapInfo[s.newTable[j]].addr, j / BUCKET_SIZE)
  {
    hide RandomOk, TriedOk, TimesOk, CountsOk, NewSlot;
    NoSuchId(s);
    hide AddrsOk;
    forall id | id in s.mapInfo
      ensures !s.mapInfo[id].fInTried <==> multiset(s.newTable)[id] > 0
    {
      assert s.mapInfo[id].fInTried ==> id !in s.newTable;
    }
  }

  lemma NewSlotPosition(h: Hashes, nKey: nat, a: Service, j: nat)
    requires j == NewSlot(h, nKey, a, j / BUCKET_SIZE)
    ensures GetBucketPosition(h, nKey, true, j / BUCKET_SIZE, a) == j % BUCKET_SIZE
  {
    SlotParts(j / BUCKET_SIZE, GetBucketPosition(h, nKey, true, j / BUCKET_SIZE, a));
  }

  /** A valid manager passes its own check (a zero key, which is as good as never drawn, is all that
      could fail). */
  method Check_(m: CAddrMan) returns (err: int)
    requires m.Valid()
    ensures err == if m.nKey == 0 then -16 else 0
  {
    hide AddrsOk, RandomOk, TriedOk, NewOk, RefsOk, TimesOk, TriedIds, NewIds;
    if |m.vRandom| != m.nTried + m.nNew { return -7; }
    var setTried, mapNew, e;
    e, setTried, mapNew := CheckEntries(m);
    if e != 0 { return e; }
    if |setTried| != m.nTried { return -9; }
    if |mapNew| != m.nNew { return -10; }
    e, setTried := CheckTried(m, setTried);
    if e != 0 { return e; }
    e, mapNew := CheckNew(m, mapNew);
    if e != 0 { return e; }
    if |setTried| != 0 { return -13; }
    if |mapNew| != 0 { return -15; }
    err := if m.nKey == 0 then -16 else 0;
  }

  // ----- Runs -----

  datatype Operation =
    | Add(address: Address, source: NetAddr, nTimePenalty: int)
    | Good(addr: Service)
    | Attempt(addr: Service)
    | Connected(addr: Service)
    | GetAddr

  /** Whatever the operations, their arguments, the (positive) time and the random choices, the manager
      passes Check_ after each of them. */
  method Run(m: CAddrMan, ops: seq<(Operation, int)>) returns (errors: seq<int>)
    requires m.Valid() && m.nKey != 0 && forall i :: 0 <= i < |ops| ==> ops[i].1 > 0
    modifies m, m.vvTried, m.vvNew
    ensures m.Valid() && |errors| == |ops| && forall i :: 0 <= i < |errors| ==> errors[i] == 0
  {
    errors := [];
    for i := 0 to |ops|
      invariant m.Valid() && m.nKey != 0 && |errors| == i
      invariant forall k :: 0 <= k < i ==> errors[k] == 0
    {
      Step(m, ops[i].0, ops[i].1);
      var err := Check_(m);
      errors := errors + [err];
    }
  }

  method Step(m: CAddrMan, op: Operation, nNow: int)
    requires m.Valid() && nNow > 0
    modifies m, m.vvTried, m.vvNew
    ensures m.Valid() && Keeps(old(m.S()), m.S())
  {
    hide InvAt, Keeps, IsGood, Added, IsSelection;
    ghost var s := m.S();
    match op {
      case Add(addr, source, nTimePenalty) =>
        var _, draw := m.Add_(addr, source, nTimePenalty, nNow);
        AddedKeeps(m.h, s, m.S(), addr, source, nTimePenalty, nNow, m.IsRoutable(addr.service.ip), draw);
      case Good(addr) =>
        m.Good_(addr, nNow);
        GoodKeeps(m.h, s, m.S(), addr, nNow);
      case Attempt(addr) =>
        m.Attempt_(addr, nNow);
        StatKeeps(s, m.S(), addr);
      case Connected(addr) =>
        m.Connected_(addr, nNow);
        StatKeeps(s, m.S(), addr);
      case GetAddr =>
        var _ := m.GetAddr_(nNow);
        ReorderKeeps(m.h, s, m.S());
    }
  }

  lemma StatKeeps(s: State, s': State, addr: Service)
    requires s' == s || (Knows(s, addr) && s.mapAddr[addr.ip] in s'.mapInfo
                         && s' == SetInfo(s, s.mapAddr[addr.ip], s'.mapInfo[s.mapAddr[addr.ip]])
                         && SameIdentity(s.mapInfo[s.mapAddr[addr.ip]], s'.mapInfo[s.mapAddr[addr.ip]]))
    ensures Keeps(s, s')
  {
  }

  lemma ReorderKeeps(h: Hashes, s: State, s': State)
    requires s'.nKey == s.nKey && s'.nIdCount == s.nIdCount && s'.mapInfo.Keys == s.mapInfo.Keys
    requires forall id :: id in s'.mapInfo ==> SameButPos(s.mapInfo[id], s'.mapInfo[id])
    ensures Keeps(s, s')
  {
    assert forall id :: id in s.mapInfo ==> id in s'.mapInfo.Keys;
    assert forall id :: id in s'.mapInfo ==> id in s.mapInfo.Keys;
  }
}
