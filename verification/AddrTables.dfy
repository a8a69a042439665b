/** The tables of the address manager as one value, the invariant its Check_ states, and what each
    elementary change does to it (src/addrman.h, src/addrman.cpp). */
module AddrTables {

  const TRIED_BUCKET_COUNT := 256
  const NEW_BUCKET_COUNT := 1024
  const BUCKET_SIZE := 64
  const TRIED_BUCKETS_PER_GROUP := 8
  const NEW_BUCKETS_PER_SOURCE_GROUP := 64
  const NEW_BUCKETS_PER_ADDRESS := 8
  const HORIZON_DAYS := 30
  const RETRIES := 3
  const MAX_FAILURES := 10
  const MIN_FAIL_DAYS := 7
  const GETADDR_MAX_PCT := 23
  const GETADDR_MAX := 2500

  type NetAddr = nat

  datatype Service = Service(ip: NetAddr, port: nat)

  datatype Info = Info(
    addr: Service, nServices: bv64, nTime: int, source: NetAddr,
    nLastSuccess: int, nLastTry: int, nAttempts: int,
    nRefCount: int, fInTried: bool, nRandomPos: int) {

    predicate IsTerrible(nNow: int) {
      if nLastTry != 0 && nLastTry >= nNow - 60 then false
      else if nTime > nNow + 10 * 60 then true
      else if nTime == 0 || nNow - nTime > HORIZON_DAYS * 24 * 60 * 60 then true
      else if nLastSuccess == 0 && nAttempts >= RETRIES then true
      else nNow - nLastSuccess > MIN_FAIL_DAYS * 24 * 60 * 60 && nAttempts >= MAX_FAILURES
    }
  }

  // ----- Buckets and positions -----

  /** The hashes, keyed by nKey, of what they are taken over. */
  datatype Hashes = Hashes(
    group: NetAddr -> nat,
    ofKey: (nat, Service) -> nat,
    ofGroup: (nat, nat, nat) -> nat,
    ofGroups: (nat, nat, nat) -> nat,
    ofSourceGroup: (nat, nat, nat) -> nat,
    ofPosition: (nat, bool, nat, Service) -> nat)

  function TriedBucketOfGroup(h: Hashes, nKey: nat, group: nat, r: nat): nat {
    h.ofGroup(nKey, group, r) % TRIED_BUCKET_COUNT
  }

  function GetTriedBucket(h: Hashes, nKey: nat, a: Service): (b: nat)
    ensures b < TRIED_BUCKET_COUNT
    ensures exists r :: 0 <= r < TRIED_BUCKETS_PER_GROUP && b == TriedBucketOfGroup(h, nKey, h.group(a.ip), r)
  {
    var r := h.ofKey(nKey, a) % TRIED_BUCKETS_PER_GROUP;
    TriedBucketOfGroup(h, nKey, h.group(a.ip), r)
  }

  function NewBucketOfSource(h: Hashes, nKey: nat, sourceGroup: nat, r: nat): nat {
    h.ofSourceGroup(nKey, sourceGroup, r) % NEW_BUCKET_COUNT
  }

  function GetNewBucket(h: Hashes, nKey: nat, a: Service, src: NetAddr): (b: nat)
    ensures b < NEW_BUCKET_COUNT
    ensures exists r :: 0 <= r < NEW_BUCKETS_PER_SOURCE_GROUP && b == NewBucketOfSource(h, nKey, h.group(src), r)
  {
    var r := h.ofGroups(nKey, h.group(a.ip), h.group(src)) % NEW_BUCKETS_PER_SOURCE_GROUP;
    NewBucketOfSource(h, nKey, h.group(src), r)
  }

  function GetBucketPosition(h: Hashes, nKey: nat, fNew: bool, bucket: nat, a: Service): (p: nat)
    ensures p < BUCKET_SIZE
  {
    h.ofPosition(nKey, fNew, bucket, a) % BUCKET_SIZE
  }

  /** Index into the tables, laid out bucket after bucket. */
  function Slot(bucket: nat, pos: nat): nat { bucket * BUCKET_SIZE + pos }

  function TriedSlot(h: Hashes, nKey: nat, a: Service): (i: nat)
    ensures i < TRIED_BUCKET_COUNT * BUCKET_SIZE
  {
    var b := GetTriedBucket(h, nKey, a);
    Slot(b, GetBucketPosition(h, nKey, false, b, a))
  }

  function NewSlot(h: Hashes, nKey: nat, a: Service, bucket: nat): (i: nat)
    ensures i / BUCKET_SIZE == bucket
    ensures bucket < NEW_BUCKET_COUNT ==> i < NEW_BUCKET_COUNT * BUCKET_SIZE
  {
    Slot(bucket, GetBucketPosition(h, nKey, true, bucket, a))
  }

  // ----- The state -----

  datatype State = State(
    nKey: nat, nIdCount: int, mapInfo: map<int, Info>, mapAddr: map<NetAddr, int>, vRandom: seq<int>,
    triedTable: seq<int>, newTable: seq<int>, nTried: int, nNew: int)

  /** mapInfo and mapAddr are inverse to each other. */
  ghost predicate AddrsOk(s: State) {
    && (forall id :: id in s.mapInfo ==>
          && 0 <= id < s.nIdCount
          && s.mapInfo[id].addr.ip in s.mapAddr && s.mapAddr[s.mapInfo[id].addr.ip] == id)
    && (forall a :: a in s.mapAddr ==> s.mapAddr[a] in s.mapInfo && s.mapInfo[s.mapAddr[a]].addr.ip == a)
  }

  /** vRandom lists each id once, at its nRandomPos. */
  ghost predicate RandomOk(s: State) {
    && (forall id :: id in s.mapInfo ==>
          && 0 <= s.mapInfo[id].nRandomPos < |s.vRandom| && s.vRandom[s.mapInfo[id].nRandomPos] == id)
    && (forall i :: 0 <= i < |s.vRandom| ==> s.vRandom[i] in s.mapInfo && s.mapInfo[s.vRandom[i]].nRandomPos == i)
  }

  /** A tried entry is in the tried table in its own slot, and nothing else is. */
  ghost predicate TriedOk(h: Hashes, s: State) {
    && |s.triedTable| == TRIED_BUCKET_COUNT * BUCKET_SIZE
    && (forall i :: 0 <= i < |s.triedTable| && s.triedTable[i] != -1 ==>
          && s.triedTable[i] in s.mapInfo && s.mapInfo[s.triedTable[i]].fInTried
          && i == TriedSlot(h, s.nKey, s.mapInfo[s.triedTable[i]].addr))
    && (forall id :: id in s.mapInfo && s.mapInfo[id].fInTried ==>
          s.triedTable[TriedSlot(h, s.nKey, s.mapInfo[id].addr)] == id)
  }

  /** The new table holds only new entries, each in the slot of its bucket, as often as nRefCount says. */
  ghost predicate NewOk(h: Hashes, s: State) {
    && |s.newTable| == NEW_BUCKET_COUNT * BUCKET_SIZE
    && (forall i :: 0 <= i < |s.newTable| && s.newTable[i] != -1 ==>
          && s.newTable[i] in s.mapInfo && !s.mapInfo[s.newTable[i]].fInTried
          && i == NewSlot(h, s.nKey, s.mapInfo[s.newTable[i]].addr, i / BUCKET_SIZE))
    && (forall id :: id in s.mapInfo ==> s.mapInfo[id].nRefCount == multiset(s.newTable)[id])
  }

  /** A new entry is referred to one to eight times; those in limbo perhaps not at all. */
  ghost predicate RefsOk(s: State, limbo: set<int>) {
    forall id :: id in s.mapInfo && !s.mapInfo[id].fInTried ==>
      && s.mapInfo[id].nRefCount <= NEW_BUCKETS_PER_ADDRESS
      && (id in limbo || s.mapInfo[id].nRefCount > 0)
  }

  ghost predicate TimesOk(s: State) {
    forall id :: id in s.mapInfo ==>
      && s.mapInfo[id].nLastTry >= 0 && s.mapInfo[id].nLastSuccess >= 0
      && (s.mapInfo[id].fInTried ==> s.mapInfo[id].nLastSuccess > 0)
  }

  ghost function TriedIds(m: map<int, Info>): set<int> { set id | id in m && m[id].fInTried }

  ghost function NewIds(m: map<int, Info>): set<int> { set id | id in m && !m[id].fInTried }

  /** The counters, when off of the new entries are not counted. */
  ghost predicate CountsOk(s: State, off: int) {
    && s.nTried == |TriedIds(s.mapInfo)|
    && s.nNew + off == |NewIds(s.mapInfo)|
    && |s.vRandom| == s.nTried + s.nNew + off
    && s.nIdCount >= 0
  }

  ghost predicate InvAt(h: Hashes, s: State, limbo: set<int>, off: int) {
    AddrsOk(s) && RandomOk(s) && TriedOk(h, s) && NewOk(h, s) && RefsOk(s, limbo) && TimesOk(s) && CountsOk(s, off)
  }

  ghost predicate Inv(h: Hashes, s: State) {
    InvAt(h, s, {}, 0)
  }

  function EmptyState(nKey: nat): State {
    State(nKey, 0, map[], map[], [], seq(TRIED_BUCKET_COUNT * BUCKET_SIZE, i => -1),
          seq(NEW_BUCKET_COUNT * BUCKET_SIZE, i => -1), 0, 0)
  }

  lemma EmptyOk(h: Hashes, nKey: nat)
    ensures Inv(h, EmptyState(nKey))
  {
  }

  // ----- Elementary changes -----

  function SetInfo(s: State, id: int, info: Info): State {
    s.(mapInfo := s.mapInfo[id := info])
  }

  /** The part of an entry the tables depend on is unchanged. */
  predicate SamePlace(a: Info, b: Info) {
    SameCount(a, b) && a.nRandomPos == b.nRandomPos
  }

  predicate SameCount(a: Info, b: Info) {
    a.addr == b.addr && a.nRefCount == b.nRefCount && a.fInTried == b.fInTried
  }

  lemma SameKinds(m: map<int, Info>, m': map<int, Info>)
    requires m.Keys == m'.Keys && forall id :: id in m ==> m[id].fInTried == m'[id].fInTried
    ensures TriedIds(m') == TriedIds(m) && NewIds(m') == NewIds(m)
  {
    forall id
      ensures id in TriedIds(m') <==> id in TriedIds(m)
      ensures id in NewIds(m') <==> id in NewIds(m)
    {
      assert id in m <==> id in m.Keys;
      assert id in m' <==> id in m'.Keys;
    }
  }

  lemma KindAdded(m: map<int, Info>, id: int, info: Info)
    requires id !in m && !info.fInTried
    ensures TriedIds(m[id := info]) == TriedIds(m)
    ensures |NewIds(m[id := info])| == |NewIds(m)| + 1
  {
    assert NewIds(m[id := info]) == NewIds(m) + {id};
  }

  lemma KindRemoved(m: map<int, Info>, id: int)
    requires id in m && !m[id].fInTried
    ensures TriedIds(m - {id}) == TriedIds(m)
    ensures |NewIds(m - {id})| == |NewIds(m)| - 1
  {
    assert NewIds(m - {id}) == NewIds(m) - {id};
  }

  lemma KindFlips(m: map<int, Info>, id: int, info: Info)
    requires id in m && m[id].fInTried != info.fInTried
    ensures |TriedIds(m[id := info])| == |TriedIds(m)| + if info.fInTried then 1 else -1
    ensures |NewIds(m[id := info])| == |NewIds(m)| + if info.fInTried then -1 else 1
  {
    var m' := m[id := info];
    if info.fInTried {
      assert TriedIds(m') == TriedIds(m) + {id} && NewIds(m') == NewIds(m) - {id};
    } else {
      assert TriedIds(m') == TriedIds(m) - {id} && NewIds(m') == NewIds(m) + {id};
    }
  }

  lemma StatsKeep(h: Hashes, s: State, limbo: set<int>, off: int, id: int, info: Info)
    requires InvAt(h, s, limbo, off) && id in s.mapInfo && SamePlace(s.mapInfo[id], info)
    requires info.nLastTry >= 0 && info.nLastSuccess >= 0 && (info.fInTried ==> info.nLastSuccess > 0)
    ensures InvAt(h, SetInfo(s, id, info), limbo, off)
  {
    hide AddrsOk, RandomOk, TriedOk, NewOk, TimesOk, TriedIds, NewIds;
    SetPlaces(s, limbo, id, info);
    SetTables(h, s, id, info);
    SameKinds(s.mapInfo, s.mapInfo[id := info]);
  }

  lemma OtherFields(s: State, s': State, limbo: set<int>)
    requires s'.mapInfo == s.mapInfo && s'.mapAddr == s.mapAddr && s'.vRandom == s.vRandom && s'.nIdCount == s.nIdCount
    requires AddrsOk(s) && RandomOk(s) && RefsOk(s, limbo) && TimesOk(s)
    ensures AddrsOk(s') && RandomOk(s') && RefsOk(s', limbo) && TimesOk(s')
  {
  }

  lemma NoSuchId(s: State)
    requires AddrsOk(s)
    ensures -1 !in s.mapInfo
  {
  }

  /** Storing an entry in the same place keeps what does not concern the tables ... */
  lemma SetPlaces(s: State, limbo: set<int>, id: int, info: Info)
    requires AddrsOk(s) && RandomOk(s) && RefsOk(s, limbo) && TimesOk(s) && id in s.mapInfo
    requires info.addr == s.mapInfo[id].addr && info.nRandomPos == s.mapInfo[id].nRandomPos
    requires info.nLastTry >= 0 && info.nLastSuccess >= 0 && (info.fInTried ==> info.nLastSuccess > 0)
    requires !info.fInTried ==> info.nRefCount <= NEW_BUCKETS_PER_ADDRESS
    requires !info.fInTried ==> id in limbo || info.nRefCount > 0
    ensures var s' := SetInfo(s, id, info);
            AddrsOk(s') && RandomOk(s') && RefsOk(s', limbo) && TimesOk(s')
  {
    SetAddrs(s, id, info);
    SetRandom(s, id, info);
    SetRefs(s, limbo, id, info);
    hide AddrsOk, RandomOk, RefsOk, TimesOk;
  }

  lemma SetAddrs(s: State, id: int, info: Info)
    requires AddrsOk(s) && id in s.mapInfo && info.addr == s.mapInfo[id].addr
    ensures AddrsOk(SetInfo(s, id, info))
  {
  }

  lemma SetRandom(s: State, id: int, info: Info)
    requires RandomOk(s) && id in s.mapInfo && info.nRandomPos == s.mapInfo[id].nRandomPos
    ensures RandomOk(SetInfo(s, id, info))
  {
  }

  lemma SetRefs(s: State, limbo: set<int>, id: int, info: Info)
    requires RefsOk(s, limbo) && TimesOk(s)
    requires info.nLastTry >= 0 && info.nLastSuccess >= 0 && (info.fInTried ==> info.nLastSuccess > 0)
    requires !info.fInTried ==> info.nRefCount <= NEW_BUCKETS_PER_ADDRESS
    requires !info.fInTried ==> id in limbo || info.nRefCount > 0
    ensures RefsOk(SetInfo(s, id, info), limbo) && TimesOk(SetInfo(s, id, info))
  {
  }

  /** ... and, if it counts the same, what does. */
  lemma SetTables(h: Hashes, s: State, id: int, info: Info)
    requires TriedOk(h, s) && NewOk(h, s) && id in s.mapInfo && SameCount(s.mapInfo[id], info)
    ensures TriedOk(h, SetInfo(s, id, info)) && NewOk(h, SetInfo(s, id, info))
  {
    hide TriedSlot, NewSlot, GetTriedBucket, GetNewBucket, GetBucketPosition, Slot;
  }

  /** Create, together with the increment of nNew its caller makes if counted. */
  lemma CreateKeeps(h: Hashes, s: State, info: Info, s': State)
    requires Inv(h, s) && info.addr.ip !in s.mapAddr
    requires info.nRefCount == 0 && !info.fInTried && info.nLastTry == info.nLastSuccess == 0
    requires info.nRandomPos == |s.vRandom|
    requires s' == Created(s, info)
    ensures InvAt(h, s', {s.nIdCount}, 1)
  {
    hide TriedOk, NewOk, TriedIds, NewIds;
    assert s.nIdCount !in s.mapInfo;
    CreateKeepsTables(h, s, info);
    KindAdded(s.mapInfo, s.nIdCount, info);
  }

  function Created(s: State, info: Info): State {
    s.(nIdCount := s.nIdCount + 1, mapInfo := s.mapInfo[s.nIdCount := info],
       mapAddr := s.mapAddr[info.addr.ip := s.nIdCount], vRandom := s.vRandom + [s.nIdCount])
  }

  lemma CreateKeepsTables(h: Hashes, s: State, info: Info)
    requires s.nIdCount !in s.mapInfo && s.nIdCount >= 0 && TriedOk(h, s) && NewOk(h, s)
    requires info.nRefCount == 0 && !info.fInTried
    ensures TriedOk(h, Created(s, info)) && NewOk(h, Created(s, info))
  {
    hide TriedSlot, NewSlot, GetTriedBucket, GetNewBucket, GetBucketPosition, Slot;
    assert s.nIdCount !in s.newTable;
  }

  /** The two entries change places in vRandom. */
  function Swapped(s: State, i: int, j: int): State
    requires 0 <= i < |s.vRandom| && 0 <= j < |s.vRandom|
    requires s.vRandom[i] in s.mapInfo && s.vRandom[j] in s.mapInfo
  {
    var a, b := s.vRandom[i], s.vRandom[j];
    var m := s.mapInfo[a := s.mapInfo[a].(nRandomPos := j)];
    s.(mapInfo := m[b := m[b].(nRandomPos := i)], vRandom := s.vRandom[i := b][j := a])
  }

  lemma SwapKeeps(h: Hashes, s: State, limbo: set<int>, off: int, i: int, j: int)
    requires InvAt(h, s, limbo, off) && 0 <= i < |s.vRandom| && 0 <= j < |s.vRandom|
    ensures InvAt(h, Swapped(s, i, j), limbo, off)
  {
    hide AddrsOk, TriedOk, NewOk, RefsOk, TimesOk, TriedIds, NewIds;
    SwapFrame(h, s, limbo, i, j);
    SwapRandomOk(s, i, j);
  }

  lemma SwapRandomOk(s: State, i: int, j: int)
    requires RandomOk(s) && 0 <= i < |s.vRandom| && 0 <= j < |s.vRandom|
    ensures RandomOk(Swapped(s, i, j))
  {
  }

  /** All but vRandom depends on nothing that Swapped changes. */
  lemma SwapFrame(h: Hashes, s: State, limbo: set<int>, i: int, j: int)
    requires AddrsOk(s) && TriedOk(h, s) && NewOk(h, s) && RefsOk(s, limbo) && TimesOk(s)
    requires RandomOk(s) && 0 <= i < |s.vRandom| && 0 <= j < |s.vRandom|
    ensures AddrsOk(Swapped(s, i, j)) && TriedOk(h, Swapped(s, i, j)) && NewOk(h, Swapped(s, i, j))
    ensures RefsOk(Swapped(s, i, j), limbo) && TimesOk(Swapped(s, i, j))
    ensures TriedIds(Swapped(s, i, j).mapInfo) == TriedIds(s.mapInfo)
    ensures NewIds(Swapped(s, i, j).mapInfo) == NewIds(s.mapInfo)
  {
    var a, b := s.vRandom[i], s.vRandom[j];
    var s1 := SetInfo(s, a, s.mapInfo[a].(nRandomPos := j));
    MoveFrame(h, s, limbo, a, j);
    MoveFrame(h, s1, limbo, b, i);
    hide AddrsOk, RandomOk, TriedOk, NewOk, RefsOk, TimesOk, TriedIds, NewIds;
    VRandomFrame(h, SetInfo(s1, b, s1.mapInfo[b].(nRandomPos := i)), limbo, Swapped(s, i, j).vRandom);
  }

  lemma MoveFrame(h: Hashes, s: State, limbo: set<int>, id: int, pos: int)
    requires AddrsOk(s) && TriedOk(h, s) && NewOk(h, s) && RefsOk(s, limbo) && TimesOk(s) && id in s.mapInfo
    ensures var s' := SetInfo(s, id, s.mapInfo[id].(nRandomPos := pos));
            && AddrsOk(s') && TriedOk(h, s') && NewOk(h, s') && RefsOk(s', limbo) && TimesOk(s')
            && TriedIds(s'.mapInfo) == TriedIds(s.mapInfo) && NewIds(s'.mapInfo) == NewIds(s.mapInfo)
  {
    hide AddrsOk, TriedOk, NewOk, TriedIds, NewIds;
    var info := s.mapInfo[id].(nRandomPos := pos);
    SetAddrs(s, id, info);
    SetTables(h, s, id, info);
    SetRefs(s, limbo, id, info);
    SameKinds(s.mapInfo, s.mapInfo[id := info]);
  }

  lemma VRandomFrame(h: Hashes, s: State, limbo: set<int>, vRandom: seq<int>)
    requires AddrsOk(s) && TriedOk(h, s) && NewOk(h, s) && RefsOk(s, limbo) && TimesOk(s)
    ensures var s' := s.(vRandom := vRandom);
            AddrsOk(s') && TriedOk(h, s') && NewOk(h, s') && RefsOk(s', limbo) && TimesOk(s')
  {
    hide TriedSlot, NewSlot, GetTriedBucket, GetNewBucket, GetBucketPosition, Slot;
  }

  /** The end of Delete, for an entry already at the back of vRandom. */
  function Dropped(s: State, id: int): State
    requires id in s.mapInfo && s.vRandom != []
  {
    s.(vRandom := s.vRandom[..|s.vRandom| - 1], mapAddr := s.mapAddr - {s.mapInfo[id].addr.ip},
       mapInfo := s.mapInfo - {id}, nNew := s.nNew - 1)
  }

  lemma DropKeeps(h: Hashes, s: State, limbo: set<int>, off: int, id: int)
    requires InvAt(h, s, limbo, off) && id in s.mapInfo && !s.mapInfo[id].fInTried && s.mapInfo[id].nRefCount == 0
    requires s.mapInfo[id].nRandomPos == |s.vRandom| - 1
    ensures InvAt(h, Dropped(s, id), limbo - {id}, off)
  {
    hide TriedOk, NewOk, RefsOk, TimesOk, TriedIds, NewIds;
    DropPlaces(s, limbo, id);
    DropTables(h, s, id);
    KindRemoved(s.mapInfo, id);
  }

  lemma DropPlaces(s: State, limbo: set<int>, id: int)
    requires AddrsOk(s) && RandomOk(s) && RefsOk(s, limbo) && TimesOk(s) && id in s.mapInfo
    requires s.mapInfo[id].nRandomPos == |s.vRandom| - 1
    ensures AddrsOk(Dropped(s, id)) && RandomOk(Dropped(s, id))
    ensures RefsOk(Dropped(s, id), limbo - {id}) && TimesOk(Dropped(s, id))
  {
  }

  lemma DropTables(h: Hashes, s: State, id: int)
    requires TriedOk(h, s) && NewOk(h, s) && id in s.mapInfo && id != -1 && s.vRandom != []
    requires !s.mapInfo[id].fInTried && s.mapInfo[id].nRefCount == 0
    ensures TriedOk(h, Dropped(s, id)) && NewOk(h, Dropped(s, id))
  {
    hide TriedSlot, NewSlot, GetTriedBucket, GetNewBucket, GetBucketPosition, Slot;
    assert id !in s.newTable;
    assert forall i :: 0 <= i < |s.triedTable| && s.triedTable[i] != -1 ==> s.triedTable[i] != id;
  }

  /** A slot of the new table is emptied. */
  function Unslotted(s: State, i: int): State
    requires 0 <= i < |s.newTable| && s.newTable[i] in s.mapInfo
  {
    var id := s.newTable[i];
    SetInfo(s, id, s.mapInfo[id].(nRefCount := s.mapInfo[id].nRefCount - 1)).(newTable := s.newTable[i := -1])
  }

  lemma UnslotKeeps(h: Hashes, s: State, limbo: set<int>, off: int, i: int)
    requires InvAt(h, s, limbo, off) && 0 <= i < |s.newTable| && s.newTable[i] != -1
    ensures s.mapInfo[s.newTable[i]].nRefCount > 0
    ensures InvAt(h, Unslotted(s, i), limbo + {s.newTable[i]}, off)
  {
    hide AddrsOk, RandomOk, TriedIds, NewIds;
    NoSuchId(s);
    UnslotTables(h, s, i);
    SetPlaces(s, limbo + {s.newTable[i]}, s.newTable[i], Unslotted(s, i).mapInfo[s.newTable[i]]);
    OtherFields(SetInfo(s, s.newTable[i], Unslotted(s, i).mapInfo[s.newTable[i]]), Unslotted(s, i),
                limbo + {s.newTable[i]});
    SameKinds(s.mapInfo, Unslotted(s, i).mapInfo);
    hide TriedOk, NewOk;
  }

  lemma UnslotTables(h: Hashes, s: State, i: int)
    requires TriedOk(h, s) && NewOk(h, s) && 0 <= i < |s.newTable| && s.newTable[i] != -1 && -1 !in s.mapInfo
    ensures s.mapInfo[s.newTable[i]].nRefCount > 0
    ensures TriedOk(h, Unslotted(s, i)) && NewOk(h, Unslotted(s, i))
  {
    hide TriedSlot, NewSlot, GetTriedBucket, GetNewBucket, GetBucketPosition, Slot;
    MultisetUpdate(s.newTable, i, -1);
  }

  lemma MultisetUpdate(s: seq<int>, i: int, x: int)
    requires 0 <= i < |s|
    ensures multiset(s[i := x]) == multiset(s) - multiset{s[i]} + multiset{x}
    ensures s[i] in multiset(s) && multiset(s)[s[i]] > 0
  {
    assert s[i] in s;
  }

  /** An empty slot of the new table is filled. */
  function Slotted(s: State, i: int, id: int): State
    requires 0 <= i < |s.newTable| && id in s.mapInfo
  {
    SetInfo(s, id, s.mapInfo[id].(nRefCount := s.mapInfo[id].nRefCount + 1)).(newTable := s.newTable[i := id])
  }

  lemma SlotKeeps(h: Hashes, s: State, limbo: set<int>, off: int, i: int, id: int)
    requires InvAt(h, s, limbo, off) && 0 <= i < |s.newTable| && s.newTable[i] == -1
    requires id in s.mapInfo && !s.mapInfo[id].fInTried && s.mapInfo[id].nRefCount < NEW_BUCKETS_PER_ADDRESS
    requires i == NewSlot(h, s.nKey, s.mapInfo[id].addr, i / BUCKET_SIZE)
    ensures InvAt(h, Slotted(s, i, id), limbo - {id}, off)
  {
    hide AddrsOk, RandomOk, TriedIds, NewIds;
    NoSuchId(s);
    SlotTables(h, s, i, id);
    assert s.mapInfo[id].nRefCount >= 0;
    SetPlaces(s, limbo, id, Slotted(s, i, id).mapInfo[id]);
    OtherFields(SetInfo(s, id, Slotted(s, i, id).mapInfo[id]), Slotted(s, i, id), limbo);
    SameKinds(s.mapInfo, Slotted(s, i, id).mapInfo);
    hide TriedOk, NewOk;
  }

  lemma SlotTables(h: Hashes, s: State, i: int, id: int)
    requires TriedOk(h, s) && NewOk(h, s) && 0 <= i < |s.newTable| && s.newTable[i] == -1
    requires id in s.mapInfo && -1 !in s.mapInfo && !s.mapInfo[id].fInTried
    requires i == NewSlot(h, s.nKey, s.mapInfo[id].addr, i / BUCKET_SIZE)
    ensures TriedOk(h, Slotted(s, i, id)) && NewOk(h, Slotted(s, i, id))
  {
    hide TriedSlot, NewSlot, GetTriedBucket, GetNewBucket, GetBucketPosition, Slot;
    MultisetUpdate(s.newTable, i, id);
  }

  /** A tried entry is taken out of the tried table. */
  function Untried(s: State, i: int): State
    requires 0 <= i < |s.triedTable| && s.triedTable[i] in s.mapInfo
  {
    SetInfo(s, s.triedTable[i], s.mapInfo[s.triedTable[i]].(fInTried := false)).(triedTable := s.triedTable[i := -1],
        nTried := s.nTried - 1)
  }

  lemma UntryKeeps(h: Hashes, s: State, limbo: set<int>, off: int, i: int)
    requires InvAt(h, s, limbo, off) && 0 <= i < |s.triedTable| && s.triedTable[i] != -1
    ensures s.mapInfo[s.triedTable[i]].nRefCount == 0
    ensures InvAt(h, Untried(s, i), limbo + {s.triedTable[i]}, off + 1)
  {
    hide AddrsOk, RandomOk, TriedIds, NewIds;
    NoSuchId(s);
    UntryTables(h, s, i);
    SetPlaces(s, limbo + {s.triedTable[i]}, s.triedTable[i], Untried(s, i).mapInfo[s.triedTable[i]]);
    OtherFields(SetInfo(s, s.triedTable[i], Untried(s, i).mapInfo[s.triedTable[i]]), Untried(s, i),
                limbo + {s.triedTable[i]});
    KindFlips(s.mapInfo, s.triedTable[i], Untried(s, i).mapInfo[s.triedTable[i]]);
    hide TriedOk, NewOk;
  }

  lemma UntryTables(h: Hashes, s: State, i: int)
    requires TriedOk(h, s) && NewOk(h, s) && 0 <= i < |s.triedTable| && s.triedTable[i] != -1
    ensures s.mapInfo[s.triedTable[i]].nRefCount == 0
    ensures TriedOk(h, Untried(s, i)) && NewOk(h, Untried(s, i))
  {
    hide TriedSlot, NewSlot, GetTriedBucket, GetNewBucket, GetBucketPosition, Slot;
    assert s.triedTable[i] !in s.newTable;
    assert forall j :: 0 <= j < |s.triedTable| && j != i ==> s.triedTable[j] != s.triedTable[i];
  }

  /** An entry no longer referred to becomes a tried one. */
  function MadeTried(s: State, i: int, id: int): State
    requires 0 <= i < |s.triedTable| && id in s.mapInfo
  {
    SetInfo(s, id, s.mapInfo[id].(fInTried := true)).(triedTable := s.triedTable[i := id], nTried := s.nTried + 1)
  }

  lemma TryKeeps(h: Hashes, s: State, limbo: set<int>, off: int, i: int, id: int)
    requires InvAt(h, s, limbo, off) && 0 <= i < |s.triedTable| && s.triedTable[i] == -1
    requires id in s.mapInfo && !s.mapInfo[id].fInTried && s.mapInfo[id].nRefCount == 0
    requires s.mapInfo[id].nLastSuccess > 0 && i == TriedSlot(h, s.nKey, s.mapInfo[id].addr)
    ensures InvAt(h, MadeTried(s, i, id), limbo - {id}, off - 1)
  {
    hide AddrsOk, RandomOk, TriedIds, NewIds;
    NoSuchId(s);
    TryTables(h, s, i, id);
    SetPlaces(s, limbo, id, MadeTried(s, i, id).mapInfo[id]);
    OtherFields(SetInfo(s, id, MadeTried(s, i, id).mapInfo[id]), MadeTried(s, i, id), limbo);
    KindFlips(s.mapInfo, id, MadeTried(s, i, id).mapInfo[id]);
    hide TriedOk, NewOk;
  }

  lemma TryTables(h: Hashes, s: State, i: int, id: int)
    requires TriedOk(h, s) && NewOk(h, s) && 0 <= i < |s.triedTable| && s.triedTable[i] == -1
    requires id in s.mapInfo && -1 !in s.mapInfo && !s.mapInfo[id].fInTried && s.mapInfo[id].nRefCount == 0
    requires i == TriedSlot(h, s.nKey, s.mapInfo[id].addr)
    ensures TriedOk(h, MadeTried(s, i, id)) && NewOk(h, MadeTried(s, i, id))
  {
    hide TriedSlot, NewSlot, GetTriedBucket, GetNewBucket, GetBucketPosition, Slot;
    assert id !in s.newTable;
  }

  /** An entry referred to is not in limbo; anything may be put there. */
  lemma OutOfLimbo(h: Hashes, s: State, limbo: set<int>, off: int, id: int)
    requires InvAt(h, s, limbo, off)
    ensures InvAt(h, s, limbo + {id}, off)
    ensures id !in s.mapInfo || s.mapInfo[id].nRefCount > 0 ==> InvAt(h, s, limbo - {id}, off)
  {
  }

  /** A new entry has a slot, in one of the buckets. */
  lemma NewEntryHasSlot(h: Hashes, s: State, limbo: set<int>, off: int, id: int) returns (bucket: nat)
    requires InvAt(h, s, limbo, off) && id in s.mapInfo && s.mapInfo[id].nRefCount > 0
    ensures bucket < NEW_BUCKET_COUNT && s.newTable[NewSlot(h, s.nKey, s.mapInfo[id].addr, bucket)] == id
  {
    assert id in multiset(s.newTable);
    var i :| 0 <= i < |s.newTable| && s.newTable[i] == id;
    bucket := i / BUCKET_SIZE;
  }
}
