/** CAddrMan (src/addrman.cpp): the address manager updates its five redundant structures step by step;
    every operation keeps what Check_ checks. */
module AddrMan {
  import opened AddrTables

  /** CAddress. */
  datatype Address = Address(service: Service, nServices: bv64, nTime: int)

  function Max(a: int, b: int): int { if a < b then b else a }

  /** The CAddrInfo constructed for a new address that will be the last in vRandom. */
  function NewInfo(addr: Address, source: NetAddr, pos: int): Info {
    Info(addr.service, addr.nServices, addr.nTime, source, 0, 0, 0, 0, false, pos)
  }

  function Deleted(s: State, id: int): State
    requires id in s.mapInfo && 0 <= s.mapInfo[id].nRandomPos < |s.vRandom| && s.vRandom[s.mapInfo[id].nRandomPos] == id
    requires s.vRandom[|s.vRandom| - 1] in s.mapInfo
  {
    Dropped(Swapped(s, s.mapInfo[id].nRandomPos, |s.vRandom| - 1), id)
  }

  /** What never changes and what never vanishes: an id keeps its address and source, ids are not
      reused, and a tried entry is not deleted (though it may become a new one). */
  ghost predicate Keeps(s: State, s': State) {
    && s.nIdCount <= s'.nIdCount && s.nKey == s'.nKey
    && (forall id :: id in s.mapInfo && id in s'.mapInfo ==> SameIdentity(s.mapInfo[id], s'.mapInfo[id]))
    && (forall id :: id in s.mapInfo && s.mapInfo[id].fInTried ==> id in s'.mapInfo)
    && (forall id :: id in s'.mapInfo && id < s.nIdCount ==> id in s.mapInfo)
  }

  predicate SameIdentity(a: Info, b: Info) {
    a.addr == b.addr && a.source == b.source
  }

  lemma DeleteKeeps(h: Hashes, s: State, limbo: set<int>, off: int, id: int)
    requires InvAt(h, s, limbo, off) && id in s.mapInfo && !s.mapInfo[id].fInTried && s.mapInfo[id].nRefCount == 0
    ensures 0 <= s.mapInfo[id].nRandomPos < |s.vRandom| && s.vRandom[s.mapInfo[id].nRandomPos] == id
    ensures s.vRandom[|s.vRandom| - 1] in s.mapInfo
    ensures InvAt(h, Deleted(s, id), limbo - {id}, off)
    ensures Deleted(s, id).mapInfo.Keys == s.mapInfo.Keys - {id}
    ensures forall x :: x in s.mapInfo && x != id ==>
              Deleted(s, id).mapInfo[x].(nRandomPos := 0) == s.mapInfo[x].(nRandomPos := 0)
  {
    hide AddrsOk, TriedOk, NewOk, RefsOk, TimesOk, TriedIds, NewIds;
    var pos, last := s.mapInfo[id].nRandomPos, |s.vRandom| - 1;
    SwapKeeps(h, s, limbo, off, pos, last);
    var s1 := Swapped(s, pos, last);
    DropKeeps(h, s1, limbo, off, id);
  }

  class CAddrMan {
    const h: Hashes
    const IsRoutable: NetAddr -> bool
    var nKey: nat
    var nIdCount: int
    var mapInfo: map<int, Info>
    var mapAddr: map<NetAddr, int>
    var vRandom: seq<int>
    var nTried: int
    const vvTried: array<int>
    var nNew: int
    const vvNew: array<int>

    ghost function S(): State
      reads this, vvTried, vvNew
    {
      State(nKey, nIdCount, mapInfo, mapAddr, vRandom, vvTried[..], vvNew[..], nTried, nNew)
    }

    ghost predicate At(limbo: set<int>, off: int)
      reads this, vvTried, vvNew
    {
      vvTried != vvNew && InvAt(h, S(), limbo, off)
    }

    ghost predicate Valid()
      reads this, vvTried, vvNew
    {
      At({}, 0)
    }

    constructor (h: Hashes, IsRoutable: NetAddr -> bool, nKey: nat)
      ensures Valid() && S() == EmptyState(nKey)
      ensures this.h == h && this.IsRoutable == IsRoutable
      ensures fresh(vvTried) && fresh(vvNew)
    {
      this.h, this.IsRoutable, this.nKey := h, IsRoutable, nKey;
      vvTried := new int[TRIED_BUCKET_COUNT * BUCKET_SIZE](i => -1);
      vvNew := new int[NEW_BUCKET_COUNT * BUCKET_SIZE](i => -1);
      nIdCount, nTried, nNew := 0, 0, 0;
      mapInfo, mapAddr, vRandom := map[], map[], [];
      new;
      assert vvTried[..] == EmptyState(nKey).triedTable;
      assert vvNew[..] == EmptyState(nKey).newTable;
      EmptyOk(h, nKey);
    }

    /** The id of an address, or -1. */
    method Find(addr: NetAddr) returns (nId: int)
      requires Valid()
      ensures nId == if addr in mapAddr then mapAddr[addr] else -1
      ensures addr in mapAddr ==> nId in mapInfo && mapInfo[nId].addr.ip == addr && nId != -1
    {
      nId := if addr in mapAddr then mapAddr[addr] else -1;
    }

    method Create(addr: Address, addrSource: NetAddr) returns (nId: int)
      requires Valid() && addr.service.ip !in mapAddr
      modifies this
      ensures nId == old(nIdCount) && nId != -1
      ensures S() == Created(old(S()), NewInfo(addr, addrSource, |old(vRandom)|))
      ensures At({nId}, 1)
    {
      hide TriedOk, NewOk, RandomOk, RefsOk, TimesOk, TriedIds, NewIds;
      ghost var s := S();
      nId := nIdCount;
      nIdCount := nIdCount + 1;
      mapInfo := mapInfo[nId := NewInfo(addr, addrSource, -1)];
      mapAddr := mapAddr[addr.service.ip := nId];
      mapInfo := mapInfo[nId := mapInfo[nId].(nRandomPos := |vRandom|)];
      vRandom := vRandom + [nId];
      assert S() == Created(s, NewInfo(addr, addrSource, |s.vRandom|));
      CreateKeeps(h, s, NewInfo(addr, addrSource, |s.vRandom|), S());
    }

    /** Swap two elements of vRandom. */
    method SwapRandom(nRndPos1: int, nRndPos2: int, ghost limbo: set<int>, ghost off: int)
      requires At(limbo, off) && 0 <= nRndPos1 < |vRandom| && 0 <= nRndPos2 < |vRandom|
      modifies this`mapInfo, this`vRandom
      ensures S() == Swapped(old(S()), nRndPos1, nRndPos2) && At(limbo, off)
    {
      hide AddrsOk, TriedOk, NewOk, RefsOk, TimesOk, CountsOk;
      ghost var s := S();
      SwapKeeps(h, s, limbo, off, nRndPos1, nRndPos2);
      if nRndPos1 == nRndPos2 {
        assert Swapped(s, nRndPos1, nRndPos2) == s;
        return;
      }
      var nId1, nId2 := vRandom[nRndPos1], vRandom[nRndPos2];
      assert nId1 in mapInfo && nId2 in mapInfo;
      mapInfo := mapInfo[nId1 := mapInfo[nId1].(nRandomPos := nRndPos2)];
      mapInfo := mapInfo[nId2 := mapInfo[nId2].(nRandomPos := nRndPos1)];
      vRandom := vRandom[nRndPos1 := nId2];
      vRandom := vRandom[nRndPos2 := nId1];
    }

    /** Delete an entry that is neither tried nor referred to. */
    method Delete(nId: int, ghost limbo: set<int>, ghost off: int)
      requires At(limbo, off) && nId in mapInfo && !mapInfo[nId].fInTried && mapInfo[nId].nRefCount == 0
      requires 0 <= mapInfo[nId].nRandomPos < |vRandom| && vRandom[mapInfo[nId].nRandomPos] == nId
      requires vRandom[|vRandom| - 1] in mapInfo
      modifies this
      ensures S() == Deleted(old(S()), nId) && At(limbo - {nId}, off)
    {
      hide InvAt;
      DeleteKeeps(h, S(), limbo, off, nId);
      SwapRandom(mapInfo[nId].nRandomPos, |vRandom| - 1, limbo, off);
      vRandom := vRandom[..|vRandom| - 1];
      mapAddr := mapAddr - {mapInfo[nId].addr.ip};
      mapInfo := mapInfo - {nId};
      nNew := nNew - 1;
    }

    // ----- Clearing a slot of the new table -----

    method ClearNew(nUBucket: nat, nUBucketPos: nat, ghost limbo: set<int>, ghost off: int)
      requires nUBucket < NEW_BUCKET_COUNT && nUBucketPos < BUCKET_SIZE
               && vvNew.Length == NEW_BUCKET_COUNT * BUCKET_SIZE
      requires At(limbo, off) && vvNew[Slot(nUBucket, nUBucketPos)] !in limbo
      modifies this, vvNew
      ensures At(limbo, off) && NewCleared(old(S()), S(), Slot(nUBucket, nUBucketPos))
    {
      hide AddrsOk, RandomOk, TriedOk, NewOk, RefsOk, TimesOk, CountsOk;
      var i := Slot(nUBucket, nUBucketPos);
      if vvNew[i] != -1 {
        ghost var s := S();
        UnslotKeeps(h, s, limbo, off, i);
        var nIdDelete := vvNew[i];
        SlotHolder(h, s, limbo, off, i);
        assert mapInfo[nIdDelete].nRefCount > 0;
        mapInfo := mapInfo[nIdDelete := mapInfo[nIdDelete].(nRefCount := mapInfo[nIdDelete].nRefCount - 1)];
        vvNew[i] := -1;
        assert S() == Unslotted(s, i);
        if mapInfo[nIdDelete].nRefCount == 0 {
          DeleteKeeps(h, S(), limbo + {nIdDelete}, off, nIdDelete);
          Delete(nIdDelete, limbo + {nIdDelete}, off);
          ClearDeleted(h, s, limbo, off, i);
          assert limbo + {nIdDelete} - {nIdDelete} == limbo;
        } else {
          OutOfLimbo(h, S(), limbo + {nIdDelete}, off, nIdDelete);
          assert limbo + {nIdDelete} - {nIdDelete} == limbo;
        }
      } else {
        NoSuchId(S());
        assert vvNew[..] == vvNew[..][i := -1];
      }
    }

    // ----- Moving an entry to the tried table -----

    /** The first loop of MakeTried: remove the entry from all new buckets. */
    method RemoveFromNew(nId: int)
      requires At({nId}, 0) && nId in mapInfo && !mapInfo[nId].fInTried
      modifies this`mapInfo, vvNew
      ensures At({nId}, 0) && UnreferredTo(old(S()), S(), nId, NEW_BUCKET_COUNT)
      ensures mapInfo[nId].nRefCount == 0
    {
      hide AddrsOk, RandomOk, TriedOk, NewOk, RefsOk, TimesOk, CountsOk;
      ghost var s := S();
      for bucket := 0 to NEW_BUCKET_COUNT
        invariant At({nId}, 0) && UnreferredTo(s, S(), nId, bucket)
      {
        RemoveFromBucket(nId, bucket, s);
      }
      NowhereLeft(h, s, S(), nId);
    }

    method RemoveFromBucket(nId: int, bucket: nat, ghost s: State)
      requires bucket < NEW_BUCKET_COUNT && At({nId}, 0) && InvAt(h, s, {nId}, 0)
      requires nId in s.mapInfo && UnreferredTo(s, S(), nId, bucket) && !s.mapInfo[nId].fInTried
      modifies this`mapInfo, vvNew
      ensures At({nId}, 0) && UnreferredTo(s, S(), nId, bucket + 1)
    {
      hide AddrsOk, RandomOk, TriedOk, NewOk, RefsOk, TimesOk, CountsOk, TriedSlot, GetBucketPosition;
      ghost var s1 := S();
      TableSizes(h, s1, {nId}, 0);
      var pos := GetBucketPosition(h, nKey, true, bucket, mapInfo[nId].addr);
      var i := Slot(bucket, pos);
      assert i == NewSlot(h, nKey, mapInfo[nId].addr, bucket);
      OneMoreBucket(h, s, s1, nId, bucket);
      if vvNew[i] == nId {
        UnslotKeeps(h, s1, {nId}, 0, i);
        vvNew[i] := -1;
        mapInfo := mapInfo[nId := mapInfo[nId].(nRefCount := mapInfo[nId].nRefCount - 1)];
        assert S() == Unslotted(s1, i);
        assert {nId} + {nId} == {nId};
      }
    }

    /** Make room in the tried table: its entry there goes back to the new table, to the bucket of its
        source, deleting or unreferring what is there. */
    method Evict(nKSlot: nat, ghost nId: int)
      requires nKSlot < vvTried.Length && At({nId}, 1) && vvTried[nKSlot] != -1
      requires nId in mapInfo && mapInfo[nId].nRefCount == 0 && !mapInfo[nId].fInTried
      modifies this, vvTried, vvNew
      ensures At({nId}, 1) && Evicted(h, old(S()), S(), nKSlot)
    {
      hide InvAt, TriedSlot, GetBucketPosition, GetNewBucket;
      ghost var s := S();
      TableSizes(h, s, {nId}, 1);
      TriedHolder(h, s, {nId}, 1, nKSlot);
      UntryKeeps(h, s, {nId}, 1, nKSlot);
      var nIdEvict := vvTried[nKSlot];
      mapInfo := mapInfo[nIdEvict := mapInfo[nIdEvict].(fInTried := false)];
      vvTried[nKSlot] := -1;
      nTried := nTried - 1;
      assert S() == Untried(s, nKSlot);
      assert {nId} + {nIdEvict} == {nId, nIdEvict};
      EnterNew(nIdEvict, nId);
    }

    /** Enter it into the new set again. */
    method EnterNew(nIdEvict: int, ghost nId: int)
      requires At({nId, nIdEvict}, 2) && nId != nIdEvict
      requires nId in mapInfo && mapInfo[nId].nRefCount == 0 && !mapInfo[nId].fInTried
      requires nIdEvict in mapInfo && mapInfo[nIdEvict].nRefCount == 0 && !mapInfo[nIdEvict].fInTried
      modifies this, vvNew
      ensures At({nId}, 1) && NewEntered(h, old(S()), S(), nIdEvict)
    {
      hide InvAt, TriedSlot, GetBucketPosition, GetNewBucket;
      ghost var s := S();
      TableSizes(h, s, {nId, nIdEvict}, 2);
      var infoOld := mapInfo[nIdEvict];
      var nUBucket := GetNewBucket(h, nKey, infoOld.addr, infoOld.source);
      var nUBucketPos := GetBucketPosition(h, nKey, true, nUBucket, infoOld.addr);
      var i := Slot(nUBucket, nUBucketPos);
      assert i == EvictionSlot(h, nKey, infoOld);
      Unreferred(h, s, {nId, nIdEvict}, 2, nId);
      Unreferred(h, s, {nId, nIdEvict}, 2, nIdEvict);
      ClearNew(nUBucket, nUBucketPos, {nId, nIdEvict}, 2);
      assert vvNew[i] == -1;
      ghost var s2 := S();
      assert mapInfo[nIdEvict].nRefCount == 0;
      SlotKeeps(h, s2, {nId, nIdEvict}, 2, i, nIdEvict);
      mapInfo := mapInfo[nIdEvict := mapInfo[nIdEvict].(nRefCount := 1)];
      vvNew[i] := nIdEvict;
      assert S() == Slotted(s2, i, nIdEvict);
      assert {nId, nIdEvict} - {nIdEvict} == {nId};
      Counted(h, S(), {nId}, 2, 1);
      nNew := nNew + 1;
    }

    /** Move a new entry to the tried table. */
    method MakeTried(nId: int)
      requires Valid() && nId in mapInfo && !mapInfo[nId].fInTried && mapInfo[nId].nLastSuccess > 0
      modifies this, vvTried, vvNew
      ensures Valid() && NowTried(h, old(S()), S(), nId)
    {
      hide AddrsOk, RandomOk, TriedOk, NewOk, RefsOk, TimesOk, CountsOk, TriedSlot, GetBucketPosition, GetTriedBucket;
      ghost var s := S();
      assert {} + {nId} == {nId};
      OutOfLimbo(h, s, {}, 0, nId);
      RemoveFromNew(nId);
      ghost var s1 := S();
      Counted(h, s1, {nId}, 0, -1);
      nNew := nNew - 1;
      assert mapInfo[nId].nRefCount == 0;

      TableSizes(h, S(), {nId}, 1);
      var nKBucket := GetTriedBucket(h, nKey, mapInfo[nId].addr);
      var nKBucketPos := GetBucketPosition(h, nKey, false, nKBucket, mapInfo[nId].addr);
      var k := Slot(nKBucket, nKBucketPos);
      assert k == TriedSlot(h, nKey, mapInfo[nId].addr) by { TriedSlotIs(h, nKey, mapInfo[nId].addr); }
      ghost var s2 := S();
      if vvTried[k] != -1 {
        TriedHolder(h, s2, {nId}, 1, k);
        Evict(k, nId);
      }
      assert vvTried[k] == -1;

      ghost var s3 := S();
      EvictionSpares(h, s, s1, s2, s3, nId, k);
      TryKeeps(h, s3, {nId}, 1, k, nId);
      vvTried[k] := nId;
      nTried := nTried + 1;
      mapInfo := mapInfo[nId := mapInfo[nId].(fInTried := true)];
      assert S() == MadeTried(s3, k, nId);
      assert {nId} - {nId} == {};
      MadeTriedTo(h, s, s1, s2, s3, nId, k);
    }

    // ----- The operations -----

    /** A bucket of the new table the entry is in, searched from a random one on. */
    method FindNewBucket(nId: int) returns (nUBucket: int)
      requires Valid() && nId in mapInfo && !mapInfo[nId].fInTried
      ensures 0 <= nUBucket < NEW_BUCKET_COUNT && |vvNew[..]| == NEW_BUCKET_COUNT * BUCKET_SIZE
      ensures vvNew[NewSlot(h, nKey, mapInfo[nId].addr, nUBucket)] == nId
    {
      TableSizes(h, S(), {}, 0);
      ghost var b := NewEntryHasSlot(h, S(), {}, 0, nId);
      var info := mapInfo[nId];
      var nRnd: int :| 0 <= nRnd < NEW_BUCKET_COUNT;
      nUBucket := -1;
      hide InvAt, NewSlot, Turn;
      ghost var turn := TurnOf(b, nRnd);
      for n := 0 to NEW_BUCKET_COUNT
        invariant forall m {:trigger Turn(m, nRnd)} :: 0 <= m < n ==>
                  vvNew[NewSlot(h, nKey, info.addr, Turn(m, nRnd))] != nId
      {
        var nB := Turn(n, nRnd);
        if vvNew[NewSlot(h, nKey, info.addr, nB)] == nId {
          return nB;
        }
      }
    }

    /** Mark an entry good: a known address becomes a tried one. */
    method Good_(addr: Service, nTime: int)
      requires Valid() && nTime > 0
      modifies this, vvTried, vvNew
      ensures Valid()
      ensures IsGood(h, old(S()), S(), addr, nTime)
    {
      var nId := Find(addr.ip);
      if nId == -1 || mapInfo[nId].addr != addr {
        return;
      }
      hide InvAt, NowTried;
      var info := mapInfo[nId].(nLastSuccess := nTime, nLastTry := nTime, nAttempts := 0);
      StatsKeep(h, S(), {}, 0, nId, info);
      mapInfo := mapInfo[nId := info];
      if info.fInTried {
        return;
      }
      var nUBucket := FindNewBucket(nId);
      if nUBucket == -1 {
        return;
      }
      MakeTried(nId);
    }

    method Attempt_(addr: Service, nTime: int)
      requires Valid() && nTime >= 0
      modifies this
      ensures Valid()
      ensures S() == if Knows(old(S()), addr) then
                       var id := old(mapAddr)[addr.ip];
                       SetInfo(old(S()), id,
                               old(mapInfo)[id].(nLastTry := nTime, nAttempts := old(mapInfo)[id].nAttempts + 1))
                     else old(S())
    {
      hide AddrsOk, RandomOk, TriedOk, NewOk, RefsOk, CountsOk;
      var nId := Find(addr.ip);
      if nId == -1 || mapInfo[nId].addr != addr {
        return;
      }
      var info := mapInfo[nId].(nLastTry := nTime, nAttempts := mapInfo[nId].nAttempts + 1);
      StatsKeep(h, S(), {}, 0, nId, info);
      mapInfo := mapInfo[nId := info];
    }

    method Connected_(addr: Service, nTime: int)
      requires Valid()
      modifies this
      ensures Valid()
      ensures S() == if Knows(old(S()), addr) && nTime - old(mapInfo)[old(mapAddr)[addr.ip]].nTime > 20 * 60 then
                       var id := old(mapAddr)[addr.ip];
                       SetInfo(old(S()), id, old(mapInfo)[id].(nTime := nTime))
                     else old(S())
    {
      hide AddrsOk, RandomOk, TriedOk, NewOk, RefsOk, CountsOk;
      var nId := Find(addr.ip);
      if nId == -1 || mapInfo[nId].addr != addr {
        return;
      }
      var nUpdateInterval := 20 * 60;
      if nTime - mapInfo[nId].nTime > nUpdateInterval {
        var info := mapInfo[nId].(nTime := nTime);
        StatsKeep(h, S(), {}, 0, nId, info);
        mapInfo := mapInfo[nId := info];
      }
    }

    /** Add_ for an address already known: refresh it, and decide whether to refer to it once more, by a
        draw among 2^nRefCount if it comes to that. */
    method UpdateKnown(nId: int, addr: Address, nTimePenalty: int, nNow: int) returns (again: bool, ghost draw: nat)
      requires Valid() && nId in mapInfo
      modifies this`mapInfo
      ensures Valid() && S() == SetInfo(old(S()), nId, Refreshed(old(mapInfo)[nId], addr, nTimePenalty, nNow))
      ensures draw < Odds(mapInfo[nId].nRefCount)
      ensures again <==> !IsStale(mapInfo[nId], addr) && !IsSettled(mapInfo[nId]) && draw == 0
      ensures again ==> !mapInfo[nId].fInTried && mapInfo[nId].nRefCount < NEW_BUCKETS_PER_ADDRESS
    {
      hide AddrsOk, RandomOk, TriedOk, NewOk, CountsOk;
      draw := 0;
      var info := Refreshed(mapInfo[nId], addr, nTimePenalty, nNow);
      StatsKeep(h, S(), {}, 0, nId, info);
      mapInfo := mapInfo[nId := info];
      if addr.nTime == 0 || (info.nTime != 0 && addr.nTime <= info.nTime) {
        return false, 0;
      }
      if info.fInTried {
        return false, 0;
      }
      if info.nRefCount == NEW_BUCKETS_PER_ADDRESS {
        return false, 0;
      }
      var nFactor := 1;
      for n := 0 to info.nRefCount
        invariant nFactor == Odds(n)
      {
        nFactor := nFactor * 2;
      }
      var nRnd :| 0 <= nRnd < nFactor;
      draw := nRnd;
      again := !(nFactor > 1 && nRnd != 0);
    }

    /** Clear the slot and give it to the entry. */
    method Overwrite(nId: int, nUBucket: nat, nUBucketPos: nat)
      requires At({nId}, 0) && nId in mapInfo && nUBucket < NEW_BUCKET_COUNT && nUBucketPos < BUCKET_SIZE
      requires !mapInfo[nId].fInTried && mapInfo[nId].nRefCount < NEW_BUCKETS_PER_ADDRESS
      requires vvNew.Length == NEW_BUCKET_COUNT * BUCKET_SIZE && vvNew[Slot(nUBucket, nUBucketPos)] != nId
      requires Slot(nUBucket, nUBucketPos) == NewSlot(h, nKey, mapInfo[nId].addr, nUBucket)
      modifies this, vvNew
      ensures Valid() && TookSlot(old(S()), S(), nId, Slot(nUBucket, nUBucketPos))
    {
      hide InvAt, NewSlot, TriedSlot, GetBucketPosition, GetNewBucket;
      ghost var s := S();
      var i := Slot(nUBucket, nUBucketPos);
      TableSizes(h, s, {nId}, 0);
      if vvNew[i] != -1 {
        SlotHolder(h, s, {nId}, 0, i);
      }
      ClearNew(nUBucket, nUBucketPos, {nId}, 0);
      ghost var s1 := S();
      SlotKeeps(h, s1, {nId}, 0, i, nId);
      mapInfo := mapInfo[nId := mapInfo[nId].(nRefCount := mapInfo[nId].nRefCount + 1)];
      vvNew[i] := nId;
      assert S() == Slotted(s1, i, nId);
      assert {nId} - {nId} == {};
    }

    /** The end of Add_: enter the entry into the bucket of this source, if its slot is free or its
        entry may be overwritten; a new address that finds no place is dropped. */
    method PlaceNew(nId: int, source: NetAddr, nNow: int)
      requires At({nId}, 0) && nId in mapInfo && nId < nIdCount
      requires !mapInfo[nId].fInTried && mapInfo[nId].nRefCount < NEW_BUCKETS_PER_ADDRESS
      modifies this, vvNew
      ensures Valid() && Placed(h, old(S()), S(), nId, source, nNow)
    {
      hide InvAt, TriedSlot, GetBucketPosition, GetNewBucket;
      ghost var s := S();
      TableSizes(h, s, {nId}, 0);
      var nUBucket := GetNewBucket(h, nKey, mapInfo[nId].addr, source);
      var nUBucketPos := GetBucketPosition(h, nKey, true, nUBucket, mapInfo[nId].addr);
      var i := Slot(nUBucket, nUBucketPos);
      assert i == NewSlot(h, nKey, mapInfo[nId].addr, nUBucket);
      assert {nId} - {nId} == {};
      if vvNew[i] != nId {
        var fInsert := vvNew[i] == -1;
        if !fInsert {
          SlotHolder(h, s, {nId}, 0, i);
          var infoExisting := mapInfo[vvNew[i]];
          if infoExisting.IsTerrible(nNow) || (infoExisting.nRefCount > 1 && mapInfo[nId].nRefCount == 0) {
            fInsert := true;
          }
        }
        if fInsert {
          Overwrite(nId, nUBucket, nUBucketPos);
        } else if mapInfo[nId].nRefCount == 0 {
          DeleteKeeps(h, s, {nId}, 0, nId);
          Delete(nId, {nId}, 0);
        } else {
          Referred(h, s, {nId}, 0, nId);
          OutOfLimbo(h, s, {nId}, 0, nId);
        }
      } else {
        Referred(h, s, {nId}, 0, nId);
        OutOfLimbo(h, s, {nId}, 0, nId);
      }
    }

    /** Create an entry, count it as new, and charge the time penalty. */
    method AddNew(addr: Address, source: NetAddr, nTimePenalty: int) returns (nId: int)
      requires Valid() && addr.service.ip !in mapAddr
      modifies this
      ensures At({nId}, 0) && nId in mapInfo && nId < nIdCount
      ensures mapInfo[nId] == NewInfo(addr, source, |old(vRandom)|).(nTime := Max(0, addr.nTime - nTimePenalty))
      ensures S() == Created(old(S()), mapInfo[nId]).(nNew := old(nNew) + 1) && nId == old(nIdCount)
    {
      hide InvAt;
      nId := Create(addr, source);
      var info := mapInfo[nId].(nTime := Max(0, mapInfo[nId].nTime - nTimePenalty));
      StatsKeep(h, S(), {nId}, 1, nId, info);
      mapInfo := mapInfo[nId := info];
      Counted(h, S(), {nId}, 1, 1);
      nNew := nNew + 1;
    }

    /** Add an address; true exactly if it is routable and was not known.  (It need not be known now: a
        new address that finds no place is dropped again.) */
    method Add_(addr: Address, source: NetAddr, nTimePenalty: int, nNow: int) returns (fNew: bool, ghost draw: nat)
      requires Valid()
      modifies this, vvNew
      ensures Valid()
      ensures Added(h, old(S()), S(), addr, source, nTimePenalty, nNow, IsRoutable(addr.service.ip), draw)
      ensures fNew <==> IsRoutable(addr.service.ip) && addr.service.ip !in old(mapAddr)
    {
      hide InvAt, Placed, IsStale, IsSettled;
      draw := 0;
      if !IsRoutable(addr.service.ip) {
        return false, 0;
      }
      var nId := Find(addr.service.ip);
      fNew := nId == -1;
      if !fNew {
        var again;
        again, draw := UpdateKnown(nId, addr, nTimePenalty, nNow);
        if !again {
          return;
        }
        assert {} + {nId} == {nId};
        OutOfLimbo(h, S(), {}, 0, nId);
        IdBounds(h, S(), {nId}, 0, nId);
      } else {
        nId := AddNew(addr, source, nTimePenalty);
      }
      PlaceNew(nId, source, nNow);
    }

    /** Move a random one of the ids from position n on to that position. */
    method DrawRandom(n: int)
      requires Valid() && 0 <= n < |vRandom|
      modifies this`mapInfo, this`vRandom
      ensures Valid() && |vRandom| == |old(vRandom)| && vRandom[..n] == old(vRandom)[..n]
      ensures vRandom[n] in mapInfo && Reordered(old(S()), S())
    {
      hide AddrsOk, TriedOk, NewOk, RefsOk, TimesOk, CountsOk;
      var nRndPos: int :| n <= nRndPos < |vRandom|;
      SwapRandom(n, nRndPos, {}, 0);
    }

    /** One turn of the loop of GetAddr_, which started in s. */
    method SelectNext(n: int, vAddr: seq<Service>, nNow: int, ghost s: State) returns (r: seq<Service>)
      requires Valid() && 0 <= n < |vRandom| && Reordered(s, S())
      requires vAddr == Selected(s.mapInfo, vRandom[..n], nNow)
      modifies this`mapInfo, this`vRandom
      ensures Valid() && |vRandom| == |old(vRandom)| && Reordered(s, S())
      ensures r == Selected(s.mapInfo, vRandom[..n + 1], nNow) && |r| <= |vAddr| + 1
    {
      hide InvAt, Selected;
      ghost var s1 := S();
      ghost var before := vRandom[..n];
      DrawRandom(n);
      assert vRandom[..n] == before;
      ReorderedTwice(s, s1, S());
      var ai := mapInfo[vRandom[n]];
      SelectOne(s.mapInfo, vRandom, n, nNow);
      assert vRandom[n] in s.mapInfo.Keys;
      ghost var s2, id := S(), vRandom[n];
      assert id in s.mapInfo && SameButPos(s.mapInfo[id], s2.mapInfo[id]);
      assert ai.addr == s.mapInfo[vRandom[n]].addr && ai.IsTerrible(nNow) == s.mapInfo[vRandom[n]].IsTerrible(nNow);
      r := if !ai.IsTerrible(nNow) then vAddr + [ai.addr] else vAddr;
    }

    /** A random selection: at most 23 per cent of the addresses and at most 2500, none twice and none
        terrible; and if fewer than that, all that are not terrible. */
    method GetAddr_(nNow: int) returns (vAddr: seq<Service>)
      requires Valid()
      modifies this`mapInfo, this`vRandom
      ensures Valid() && mapInfo.Keys == old(mapInfo).Keys
      ensures forall id :: id in mapInfo ==> SameButPos(old(mapInfo)[id], mapInfo[id])
      ensures IsSelection(old(S()), nNow, vAddr)
    {
      hide AddrsOk, TriedOk, NewOk, RefsOk, TimesOk, CountsOk;
      ghost var s := S();
      vAddr := [];
      assert vRandom[..0] == [];
      var nNodes := GETADDR_MAX_PCT * |vRandom| / 100;
      if nNodes > GETADDR_MAX {
        nNodes := GETADDR_MAX;
      }
      for n := 0 to |vRandom|
        invariant Valid() && |vRandom| == |s.vRandom| && Reordered(s, S())
        invariant vAddr == Selected(s.mapInfo, vRandom[..n], nNow) && |vAddr| <= nNodes
      {
        if |vAddr| >= nNodes {
          SelectionOk(h, s, S(), n, nNow);
          return;
        }
        vAddr := SelectNext(n, vAddr, nNow, s);
      }
      SelectionOk(h, s, S(), |s.vRandom|, nNow);
    }
  }

  /** The slot is empty, its former entry is referred to once less or gone; all else is as it was, up to
      the order of vRandom. */
  ghost predicate NewCleared(s: State, s': State, i: nat)
    requires i < |s.newTable|
  {
    && s'.nKey == s.nKey && s'.nIdCount == s.nIdCount && s'.nTried == s.nTried && s'.triedTable == s.triedTable
    && s'.newTable == s.newTable[i := -1]
    && s'.mapInfo.Keys <= s.mapInfo.Keys
    && (forall x :: x in s.mapInfo && x != s.newTable[i] ==> x in s'.mapInfo && SameButPos(s.mapInfo[x], s'.mapInfo[x]))
    && (s.newTable[i] in s.mapInfo ==> OnceLess(s, s', s.newTable[i]))
  }

  predicate SameButPos(a: Info, b: Info) {
    a.(nRandomPos := 0) == b.(nRandomPos := 0)
  }

  ghost predicate OnceLess(s: State, s': State, id: int)
    requires id in s.mapInfo
  {
    && (id in s'.mapInfo <==> s.mapInfo[id].nRefCount != 1)
    && (id in s'.mapInfo ==> SameButPos(s.mapInfo[id].(nRefCount := s.mapInfo[id].nRefCount - 1), s'.mapInfo[id]))
  }

  lemma ClearDeleted(h: Hashes, s: State, limbo: set<int>, off: int, i: nat)
    requires InvAt(h, s, limbo, off) && i < |s.newTable| && s.newTable[i] != -1
    requires InvAt(h, Unslotted(s, i), limbo + {s.newTable[i]}, off)
    requires s.newTable[i] in s.mapInfo && !s.mapInfo[s.newTable[i]].fInTried && s.mapInfo[s.newTable[i]].nRefCount == 1
    ensures var id := s.newTable[i];
            && 0 <= Unslotted(s, i).mapInfo[id].nRandomPos < |s.vRandom|
            && s.vRandom[Unslotted(s, i).mapInfo[id].nRandomPos] == id
            && s.vRandom[|s.vRandom| - 1] in Unslotted(s, i).mapInfo
            && NewCleared(s, Deleted(Unslotted(s, i), id), i)
  {
    hide InvAt;
    var s1, id := Unslotted(s, i), s.newTable[i];
    DeleteKeeps(h, s1, limbo + {id}, off, id);
    forall x | x in s.mapInfo && x != id
      ensures x in Deleted(s1, id).mapInfo && SameButPos(s.mapInfo[x], Deleted(s1, id).mapInfo[x])
    {
      assert x in Deleted(s1, id).mapInfo.Keys;
      assert s1.mapInfo[x] == s.mapInfo[x];
    }
    assert id !in Deleted(s1, id).mapInfo.Keys;
  }

  lemma SlotHolder(h: Hashes, s: State, limbo: set<int>, off: int, i: nat)
    requires InvAt(h, s, limbo, off) && i < |s.newTable| && s.newTable[i] != -1
    ensures s.newTable[i] in s.mapInfo && !s.mapInfo[s.newTable[i]].fInTried
  {
  }

  lemma TriedSlotIs(h: Hashes, nKey: nat, a: Service)
    ensures TriedSlot(h, nKey, a)
            == Slot(GetTriedBucket(h, nKey, a), GetBucketPosition(h, nKey, false, GetTriedBucket(h, nKey, a), a))
  {
  }

  lemma TableSizes(h: Hashes, s: State, limbo: set<int>, off: int)
    requires InvAt(h, s, limbo, off)
    ensures |s.newTable| == NEW_BUCKET_COUNT * BUCKET_SIZE && |s.triedTable| == TRIED_BUCKET_COUNT * BUCKET_SIZE
    ensures -1 !in s.mapInfo
  {
  }

  lemma TriedHolder(h: Hashes, s: State, limbo: set<int>, off: int, i: nat)
    requires InvAt(h, s, limbo, off) && i < |s.triedTable| && s.triedTable[i] != -1
    ensures s.triedTable[i] in s.mapInfo && s.mapInfo[s.triedTable[i]].fInTried
  {
  }

  /** An entry with reference count 0 is nowhere in the new table. */
  lemma Unreferred(h: Hashes, s: State, limbo: set<int>, off: int, id: int)
    requires InvAt(h, s, limbo, off) && id in s.mapInfo && s.mapInfo[id].nRefCount == 0
    ensures id !in s.newTable
  {
  }

  /** nNew changes by d, and so does the number of entries left uncounted. */
  lemma Counted(h: Hashes, s: State, limbo: set<int>, off: int, d: int)
    requires InvAt(h, s, limbo, off)
    ensures InvAt(h, s.(nNew := s.nNew + d), limbo, off - d)
  {
    hide TriedSlot, NewSlot, GetTriedBucket, GetNewBucket, GetBucketPosition, Slot, TriedIds, NewIds;
  }

  /** The entry has been removed from the first buckets of the new table; all else is as it was. */
  ghost predicate UnreferredTo(s: State, s': State, id: int, buckets: nat) {
    && id in s.mapInfo && id in s'.mapInfo && |s'.newTable| == |s.newTable|
    && s' == SetInfo(s, id, s.mapInfo[id].(nRefCount := s'.mapInfo[id].nRefCount)).(newTable := s'.newTable)
    && forall i :: 0 <= i < |s.newTable| ==>
         s'.newTable[i] == if s.newTable[i] == id && i / BUCKET_SIZE < buckets then -1 else s.newTable[i]
  }

  lemma OneMoreBucket(h: Hashes, s: State, s': State, id: int, bucket: nat)
    requires InvAt(h, s, {id}, 0) && UnreferredTo(s, s', id, bucket) && bucket < NEW_BUCKET_COUNT && id != -1
    ensures var i := NewSlot(h, s.nKey, s.mapInfo[id].addr, bucket);
            forall j :: 0 <= j < |s.newTable| && j / BUCKET_SIZE == bucket && s.newTable[j] == id ==> j == i
  {
    hide TriedSlot, NewSlot, GetTriedBucket, GetNewBucket, GetBucketPosition, Slot;
  }

  lemma NowhereLeft(h: Hashes, s: State, s': State, id: int)
    requires InvAt(h, s, {id}, 0) && InvAt(h, s', {id}, 0) && UnreferredTo(s, s', id, NEW_BUCKET_COUNT)
    ensures s'.mapInfo[id].nRefCount == 0
  {
    NoSuchId(s);
    assert forall i :: 0 <= i < |s'.newTable| ==> s'.newTable[i] != id;
  }

  /** Where a tried entry goes when it is evicted. */
  function EvictionSlot(h: Hashes, nKey: nat, info: Info): nat {
    NewSlot(h, nKey, info.addr, GetNewBucket(h, nKey, info.addr, info.source))
  }

  /** The entry is referred to once, in the bucket of its source; the one it displaced there is referred
      to once less or gone. */
  ghost predicate NewEntered(h: Hashes, s: State, s': State, e: int)
    requires e in s.mapInfo
  {
    && var i := EvictionSlot(h, s.nKey, s.mapInfo[e]);
    && i < |s.newTable|
    && s'.nKey == s.nKey && s'.nIdCount == s.nIdCount && s'.triedTable == s.triedTable
    && s'.newTable == s.newTable[i := e]
    && s'.mapInfo.Keys <= s.mapInfo.Keys
    && e in s'.mapInfo && SameButPos(s.mapInfo[e].(nRefCount := 1), s'.mapInfo[e])
    && (forall x :: x in s.mapInfo && x != e && x != s.newTable[i] ==>
          x in s'.mapInfo && SameButPos(s.mapInfo[x], s'.mapInfo[x]))
    && (s.newTable[i] in s.mapInfo ==> OnceLess(s, s', s.newTable[i]))
  }

  /** The tried slot k has been emptied and its entry entered into the new table. */
  ghost predicate Evicted(h: Hashes, s: State, s': State, k: nat) {
    && k < |s.triedTable| && s.triedTable[k] in s.mapInfo
    && NewEntered(h, Untried(s, k), s', s.triedTable[k])
  }

  /** The effect of MakeTried: the entry is the one in its tried slot; an entry that was there is a new
      one again; no other entry vanishes than the one that displaced, and only if referred to once. */
  ghost predicate NowTried(h: Hashes, s: State, s': State, id: int) {
    && id in s.mapInfo && id in s'.mapInfo
    && SameButPos(s.mapInfo[id].(fInTried := true, nRefCount := 0), s'.mapInfo[id])
    && var k := TriedSlot(h, s.nKey, s.mapInfo[id].addr);
    && k < |s.triedTable| && s'.triedTable == s.triedTable[k := id]
    && var e := s.triedTable[k];
    && s'.nKey == s.nKey && s'.nIdCount == s.nIdCount && s'.mapInfo.Keys <= s.mapInfo.Keys
    && (e in s.mapInfo ==>
          && e in s'.mapInfo && SameButPos(s.mapInfo[e].(fInTried := false, nRefCount := 1), s'.mapInfo[e]))
    && (forall x :: x in s.mapInfo && x != id && x != e ==> Spared(h, s, s', x, e))
  }

  /** An entry not concerned by MakeTried, unless it is the one displaced by the evicted entry e. */
  ghost predicate Spared(h: Hashes, s: State, s': State, x: int, e: int)
    requires x in s.mapInfo
  {
    if e in s.mapInfo && EvictionSlot(h, s.nKey, s.mapInfo[e]) < |s.newTable|
       && s.newTable[EvictionSlot(h, s.nKey, s.mapInfo[e])] == x
    then OnceLess(s, s', x)
    else x in s'.mapInfo && SameButPos(s.mapInfo[x], s'.mapInfo[x])
  }

  /** The entry being made tried is not touched by the eviction. */
  lemma EvictionSpares(h: Hashes, s: State, s1: State, s2: State, s3: State, id: int, k: nat)
    requires InvAt(h, s, {id}, 0) && UnreferredTo(s, s1, id, NEW_BUCKET_COUNT) && s2 == s1.(nNew := s1.nNew - 1)
    requires InvAt(h, s2, {id}, 1) && s2.mapInfo[id].nRefCount == 0 && !s2.mapInfo[id].fInTried && k < |s2.triedTable|
    requires if s2.triedTable[k] == -1 then s3 == s2 else Evicted(h, s2, s3, k)
    ensures id in s3.mapInfo && SameButPos(s2.mapInfo[id], s3.mapInfo[id]) && s3.nKey == s.nKey
    ensures |s3.triedTable| == |s.triedTable|
  {
    hide AddrsOk, RandomOk, RefsOk, TimesOk, CountsOk, NewSlot, GetNewBucket;
    Unreferred(h, s2, {id}, 1, id);
    if s2.triedTable[k] != -1 {
      TriedHolder(h, s2, {id}, 1, k);
    }
  }

  lemma MadeTriedTo(h: Hashes, s: State, s1: State, s2: State, s3: State, id: int, k: nat)
    requires InvAt(h, s, {id}, 0) && UnreferredTo(s, s1, id, NEW_BUCKET_COUNT) && s2 == s1.(nNew := s1.nNew - 1)
    requires InvAt(h, s2, {id}, 1) && s2.mapInfo[id].nRefCount == 0 && !s.mapInfo[id].fInTried
    requires k == TriedSlot(h, s.nKey, s.mapInfo[id].addr) && k < |s2.triedTable|
    requires if s2.triedTable[k] == -1 then s3 == s2 else Evicted(h, s2, s3, k)
    requires id in s3.mapInfo && SameButPos(s2.mapInfo[id], s3.mapInfo[id]) && |s3.triedTable| == |s.triedTable|
    ensures NowTried(h, s, MadeTried(s3, k, id), id)
  {
    hide AddrsOk, RandomOk, TriedOk, NewOk, RefsOk, TimesOk, CountsOk, NewSlot, GetNewBucket, TriedSlot;
    TableSizes(h, s, {id}, 0);
    var s', e := MadeTried(s3, k, id), s.triedTable[k];
    if e != -1 {
      TriedHolder(h, s, {id}, 0, k);
    }
    forall x | x in s.mapInfo && x != id && x != e
      ensures Spared(h, s, s', x, e)
    {
    }
  }

  // ----- What the operations do -----

  /** The bucket visited at turn n. */
  function Turn(n: int, nRnd: int): (b: nat)
    ensures b < NEW_BUCKET_COUNT
  {
    (n + nRnd) % NEW_BUCKET_COUNT
  }

  lemma TurnOf(b: nat, nRnd: nat) returns (n: nat)
    requires b < NEW_BUCKET_COUNT && nRnd < NEW_BUCKET_COUNT
    ensures n < NEW_BUCKET_COUNT && Turn(n, nRnd) == b
  {
    n := if b >= nRnd then b - nRnd else b - nRnd + NEW_BUCKET_COUNT;
  }

  predicate Knows(s: State, addr: Service) {
    addr.ip in s.mapAddr && s.mapAddr[addr.ip] in s.mapInfo && s.mapInfo[s.mapAddr[addr.ip]].addr == addr
  }

  ghost predicate IsGood(h: Hashes, s: State, s': State, addr: Service, nTime: int) {
    if !Knows(s, addr) then s' == s
    else
      var id := s.mapAddr[addr.ip];
      var s1 := SetInfo(s, id, s.mapInfo[id].(nLastSuccess := nTime, nLastTry := nTime, nAttempts := 0));
      if s.mapInfo[id].fInTried then s' == s1 else NowTried(h, s1, s', id)
  }

  /** The time and services of a known entry after hearing of it again. */
  function Refreshed(info: Info, addr: Address, nTimePenalty: int, nNow: int): Info {
    var fCurrentlyOnline := nNow - addr.nTime < 24 * 60 * 60;
    var nUpdateInterval := if fCurrentlyOnline then 60 * 60 else 24 * 60 * 60;
    var nTime :=
      if addr.nTime != 0 && (info.nTime == 0 || info.nTime < addr.nTime - nUpdateInterval - nTimePenalty)
      then Max(0, addr.nTime - nTimePenalty) else info.nTime;
    info.(nTime := nTime, nServices := info.nServices | addr.nServices)
  }

  /** The announced time is none, or not newer than the time of the entry. */
  ghost predicate IsStale(info: Info, addr: Address) {
    addr.nTime == 0 || (info.nTime != 0 && addr.nTime <= info.nTime)
  }

  /** The entry is tried, or in as many buckets as it may be. */
  ghost predicate IsSettled(info: Info) {
    info.fInTried || info.nRefCount == 8
  }

  /** An entry in n buckets is entered into one more with odds of one in so many. */
  ghost function Odds(n: int): (k: nat)
    ensures k >= 1
  {
    if n <= 0 then 1 else 2 * Odds(n - 1)
  }

  /** Whether an entry gets the slot it asks for: it is free, or its entry is terrible, or is referred to
      elsewhere while the one asking is not at all. */
  predicate GetsSlot(s: State, id: int, i: nat, nNow: int)
    requires i < |s.newTable| && id in s.mapInfo
  {
    var x := s.newTable[i];
    x == -1 || (x in s.mapInfo
                && (s.mapInfo[x].IsTerrible(nNow) || (s.mapInfo[x].nRefCount > 1 && s.mapInfo[id].nRefCount == 0)))
  }

  /** The entry has the slot; the one that had it is referred to once less or gone. */
  ghost predicate TookSlot(s: State, s': State, id: int, i: nat)
    requires id in s.mapInfo && i < |s.newTable|
  {
    && s'.nKey == s.nKey && s'.nIdCount == s.nIdCount && s'.triedTable == s.triedTable
    && s'.newTable == s.newTable[i := id] && s'.mapInfo.Keys <= s.mapInfo.Keys
    && var x := s.newTable[i];
    && id in s'.mapInfo && SameButPos(s.mapInfo[id].(nRefCount := s.mapInfo[id].nRefCount + 1), s'.mapInfo[id])
    && (forall y :: y in s.mapInfo && y != id && y != x ==> y in s'.mapInfo && SameButPos(s.mapInfo[y], s'.mapInfo[y]))
    && (x in s.mapInfo ==> OnceLess(s, s', x) && !s.mapInfo[x].fInTried)
  }

  /** The end of Add_. */
  ghost predicate Placed(h: Hashes, s: State, s': State, id: int, source: NetAddr, nNow: int) {
    && id in s.mapInfo
    && var i := NewSlot(h, s.nKey, s.mapInfo[id].addr, GetNewBucket(h, s.nKey, s.mapInfo[id].addr, source));
    && i < |s.newTable|
    && var x := s.newTable[i];
    if x == id then s' == s
    else if GetsSlot(s, id, i, nNow) then TookSlot(s, s', id, i)
    else if s.mapInfo[id].nRefCount == 0 then
      && s'.nKey == s.nKey && s'.nIdCount == s.nIdCount && s'.triedTable == s.triedTable && s'.newTable == s.newTable
      && s'.mapInfo.Keys == s.mapInfo.Keys - {id} && !s.mapInfo[id].fInTried
      && (forall y :: y in s'.mapInfo ==> SameButPos(s.mapInfo[y], s'.mapInfo[y]))
    else s' == s
  }

  /** An entry in a slot, or not at zero, is referred to. */
  lemma Referred(h: Hashes, s: State, limbo: set<int>, off: int, id: int)
    requires InvAt(h, s, limbo, off) && id in s.mapInfo && (s.mapInfo[id].nRefCount != 0 || id in s.newTable)
    ensures s.mapInfo[id].nRefCount > 0
  {
  }

  lemma IdBounds(h: Hashes, s: State, limbo: set<int>, off: int, id: int)
    requires InvAt(h, s, limbo, off) && id in s.mapInfo
    ensures 0 <= id < s.nIdCount
  {
  }

  /** The effect of Add_.  A new address is created and placed; a known one is refreshed and, if it is
      announced anew, may be in more buckets and the draw allows it, placed once more. */
  ghost predicate Added(h: Hashes, s: State, s': State, addr: Address, source: NetAddr, nTimePenalty: int, nNow: int,
                        routable: bool, draw: nat)
  {
    var ip := addr.service.ip;
    if !routable then s' == s
    else if ip !in s.mapAddr then
      var info := NewInfo(addr, source, |s.vRandom|).(nTime := Max(0, addr.nTime - nTimePenalty));
      Placed(h, Created(s, info).(nNew := s.nNew + 1), s', s.nIdCount, source, nNow)
    else
      && s.mapAddr[ip] in s.mapInfo
      && var s1 := SetInfo(s, s.mapAddr[ip], Refreshed(s.mapInfo[s.mapAddr[ip]], addr, nTimePenalty, nNow));
      var info := s1.mapInfo[s.mapAddr[ip]];
      && draw < Odds(info.nRefCount)
      && if IsStale(info, addr) || IsSettled(info) || draw != 0 then s' == s1
         else Placed(h, s1, s', s.mapAddr[ip], source, nNow)
  }

  /** The slot Add_ tries for the address. */
  ghost function SlotFor(h: Hashes, s: State, addr: Address, source: NetAddr): nat {
    var ip := addr.service.ip;
    var a := if ip in s.mapAddr && s.mapAddr[ip] in s.mapInfo then s.mapInfo[s.mapAddr[ip]].addr else addr.service;
    NewSlot(h, s.nKey, a, GetNewBucket(h, s.nKey, a, source))
  }

  lemma PlacedLoses(h: Hashes, s: State, s': State, id: int, source: NetAddr, nNow: int, y: int)
    requires Placed(h, s, s', id, source, nNow) && y in s.mapInfo && y !in s'.mapInfo
    requires y == id ==> s.mapInfo[id].fInTried || s.mapInfo[id].nRefCount > 0
    ensures var i := NewSlot(h, s.nKey, s.mapInfo[id].addr, GetNewBucket(h, s.nKey, s.mapInfo[id].addr, source));
            i < |s.newTable| && s.newTable[i] == y && s.mapInfo[y].nRefCount == 1
  {
    hide NewSlot, GetNewBucket;
  }

  /** The only entry Add_ may lose is the one whose last reference was the slot it wants. */
  lemma AddedLoses(h: Hashes, s: State, s': State, addr: Address, source: NetAddr, nTimePenalty: int, nNow: int,
                   routable: bool, draw: nat, y: int)
    requires Inv(h, s) && Added(h, s, s', addr, source, nTimePenalty, nNow, routable, draw)
    requires y in s.mapInfo && y !in s'.mapInfo
    ensures var i := SlotFor(h, s, addr, source); i < |s.newTable| && s.newTable[i] == y && s.mapInfo[y].nRefCount == 1
  {
    hide NewSlot, GetNewBucket, Placed, RandomOk, TriedOk, NewOk, TimesOk, CountsOk;
    var ip := addr.service.ip;
    if ip !in s.mapAddr {
      var info := NewInfo(addr, source, |s.vRandom|).(nTime := Max(0, addr.nTime - nTimePenalty));
      PlacedLoses(h, Created(s, info).(nNew := s.nNew + 1), s', s.nIdCount, source, nNow, y);
    } else {
      var id := s.mapAddr[ip];
      var s1 := SetInfo(s, id, Refreshed(s.mapInfo[id], addr, nTimePenalty, nNow));
      PlacedLoses(h, s1, s', id, source, nNow, y);
    }
  }

  /** Add_ deletes no tried entry, no other address it already knew but the one whose last slot it takes,
      and never the one it was called for if that was known. */
  lemma AddedKeeps(h: Hashes, s: State, s': State, addr: Address, source: NetAddr, nTimePenalty: int, nNow: int,
                   routable: bool, draw: nat)
    requires Inv(h, s) && Inv(h, s') && Added(h, s, s', addr, source, nTimePenalty, nNow, routable, draw)
    ensures Keeps(s, s')
    ensures addr.service.ip in s.mapAddr ==> addr.service.ip in s'.mapAddr
    ensures forall y :: y in s.mapInfo && y !in s'.mapInfo ==>
              var i := SlotFor(h, s, addr, source);
              i < |s.newTable| && s.newTable[i] == y && s.mapInfo[y].nRefCount == 1
  {
    hide Placed, SlotFor;
    forall y | y in s.mapInfo && y !in s'.mapInfo
      ensures var i := SlotFor(h, s, addr, source);
              i < |s.newTable| && s.newTable[i] == y && s.mapInfo[y].nRefCount == 1
    {
      AddedLoses(h, s, s', addr, source, nTimePenalty, nNow, routable, draw, y);
    }
    var ip := addr.service.ip;
    if routable && ip !in s.mapAddr {
      var info := NewInfo(addr, source, |s.vRandom|).(nTime := Max(0, addr.nTime - nTimePenalty));
      CreatedKeeps(h, s, info);
      var s1 := Created(s, info).(nNew := s.nNew + 1);
      PlacedKeeps(h, s1, s', s.nIdCount, source, nNow);
      KeepsTwice(h, s, s1, s');
    } else if routable {
      var id := s.mapAddr[ip];
      KnownKeeps(h, s, s', id, Refreshed(s.mapInfo[id], addr, nTimePenalty, nNow), source, nNow);
    }
  }

  /** Good_ deletes no tried entry either: one that loses its slot becomes a new entry again. */
  lemma GoodKeeps(h: Hashes, s: State, s': State, addr: Service, nTime: int)
    requires Inv(h, s) && IsGood(h, s, s', addr, nTime)
    ensures Keeps(s, s')
  {
    hide AddrsOk, RandomOk, TriedOk, RefsOk, TimesOk, CountsOk, NewSlot, GetNewBucket, TriedSlot;
    if Knows(s, addr) {
      var id := s.mapAddr[addr.ip];
      var s1 := SetInfo(s, id, s.mapInfo[id].(nLastSuccess := nTime, nLastTry := nTime, nAttempts := 0));
      SetKeeps(s, id, s1);
      if !s.mapInfo[id].fInTried {
        NowTriedKeeps(h, s, s1, s', id);
      }
    }
  }

  lemma NowTriedKeeps(h: Hashes, s: State, s1: State, s': State, id: int)
    requires Inv(h, s) && id in s.mapInfo && id in s1.mapInfo && s1 == SetInfo(s, id, s1.mapInfo[id])
    requires SameIdentity(s.mapInfo[id], s1.mapInfo[id]) && s1.mapInfo[id].fInTried == s.mapInfo[id].fInTried
    requires NowTried(h, s1, s', id)
    ensures Keeps(s, s')
  {
    hide AddrsOk, RandomOk, TriedOk, RefsOk, TimesOk, CountsOk, NewSlot, GetNewBucket, TriedSlot;
    var e := s1.triedTable[TriedSlot(h, s1.nKey, s1.mapInfo[id].addr)];
    NoSuchId(s);
    forall x | x in s.mapInfo
      ensures s.mapInfo[x].fInTried ==> x in s'.mapInfo
      ensures x in s'.mapInfo ==> SameIdentity(s.mapInfo[x], s'.mapInfo[x])
    {
      if x != id && x != e {
        assert Spared(h, s1, s', x, e);
      }
    }
  }

  lemma KnownKeeps(h: Hashes, s: State, s': State, id: int, info: Info, source: NetAddr, nNow: int)
    requires Inv(h, s) && Inv(h, s') && id in s.mapInfo && SamePlace(s.mapInfo[id], info)
             && SameIdentity(s.mapInfo[id], info)
    requires s' == SetInfo(s, id, info) || Placed(h, SetInfo(s, id, info), s', id, source, nNow)
    ensures Keeps(s, s') && s.mapInfo[id].addr.ip in s'.mapAddr
  {
    hide Placed, RandomOk, TriedOk, TimesOk, CountsOk;
    var s1 := SetInfo(s, id, info);
    SetKeeps(s, id, s1);
    if s' != s1 {
      PlacedKeeps(h, s1, s', id, source, nNow);
      KeepsTwice(h, s, s1, s');
      if !info.fInTried {
        StillKnown(h, s1, s', id, source, nNow);
      }
    }
  }

  lemma KeepsTwice(h: Hashes, a: State, b: State, c: State)
    requires Inv(h, a) && Keeps(a, b) && Keeps(b, c)
    requires forall id :: id in a.mapInfo && a.mapInfo[id].fInTried ==> id in b.mapInfo && b.mapInfo[id].fInTried
    ensures Keeps(a, c)
  {
    hide RandomOk, TriedOk, NewOk, RefsOk, TimesOk, CountsOk;
    forall id | id in a.mapInfo && id in c.mapInfo
      ensures SameIdentity(a.mapInfo[id], c.mapInfo[id])
    {
      assert id < b.nIdCount;
      assert id in b.mapInfo;
    }
  }

  lemma SetKeeps(s: State, id: int, s': State)
    requires id in s.mapInfo && id in s'.mapInfo && s' == SetInfo(s, id, s'.mapInfo[id])
    requires SameIdentity(s.mapInfo[id], s'.mapInfo[id])
    ensures Keeps(s, s')
  {
  }

  lemma CreatedKeeps(h: Hashes, s: State, info: Info)
    requires Inv(h, s)
    ensures Keeps(s, Created(s, info))
  {
    hide TriedOk, NewOk, RandomOk, TimesOk, RefsOk;
  }

  lemma PlacedKeeps(h: Hashes, s: State, s': State, id: int, source: NetAddr, nNow: int)
    requires Placed(h, s, s', id, source, nNow)
    ensures Keeps(s, s')
    ensures forall y :: y in s.mapInfo && s.mapInfo[y].fInTried ==> y in s'.mapInfo
  {
    hide NewSlot, GetNewBucket;
  }

  lemma StillKnown(h: Hashes, s: State, s': State, id: int, source: NetAddr, nNow: int)
    requires Placed(h, s, s', id, source, nNow) && Inv(h, s') && s.mapInfo[id].nRefCount > 0
    ensures s.mapInfo[id].addr.ip in s'.mapAddr
  {
    hide NewSlot, GetNewBucket, RandomOk, TriedOk, NewOk, RefsOk, TimesOk, CountsOk;
    assert id in s'.mapInfo;
  }

  // ----- The selection of GetAddr_ -----

  /** The entries among ids that are not terrible, in order. */
  function Selected(m: map<int, Info>, ids: seq<int>, nNow: int): seq<Service> {
    if ids == [] then [] else
      var r := Selected(m, ids[..|ids| - 1], nNow);
      var id := ids[|ids| - 1];
      if id in m && !m[id].IsTerrible(nNow) then r + [m[id].addr] else r
  }

  lemma SelectOne(m: map<int, Info>, ids: seq<int>, n: nat, nNow: int)
    requires n < |ids|
    ensures Selected(m, ids[..n + 1], nNow) == Selected(m, ids[..n], nNow) +
              if ids[n] in m && !m[ids[n]].IsTerrible(nNow) then [m[ids[n]].addr] else []
  {
    assert ids[..n + 1][..n] == ids[..n];
  }

  ghost predicate Reordered(s: State, s': State) {
    && s'.mapInfo.Keys == s.mapInfo.Keys && s'.mapAddr == s.mapAddr
    && forall id :: id in s.mapInfo ==> SameButPos(s.mapInfo[id], s'.mapInfo[id])
  }

  lemma ReorderedTwice(a: State, b: State, c: State)
    requires Reordered(a, b) && Reordered(b, c)
    ensures Reordered(a, c)
  {
    assert forall id :: id in a.mapInfo ==> id in b.mapInfo.Keys;
  }

  function Limit(s: State): int {
    var n := GETADDR_MAX_PCT * |s.vRandom| / 100;
    if n > GETADDR_MAX then GETADDR_MAX else n
  }

  /** A known address, not terrible. */
  predicate Selectable(s: State, nNow: int, a: Service) {
    Knows(s, a) && !s.mapInfo[s.mapAddr[a.ip]].IsTerrible(nNow)
  }

  ghost predicate IsSelection(s: State, nNow: int, r: seq<Service>) {
    && |r| <= Limit(s)
    && (forall i, j :: 0 <= i < j < |r| ==> r[i] != r[j])
    && (forall i :: 0 <= i < |r| ==> Selectable(s, nNow, r[i]))
    && (|r| < Limit(s) ==> forall a :: Selectable(s, nNow, a) ==> a in r)
  }

  /** Those selected among the first n of vRandom. */
  ghost predicate SelectedFrom(s: State, s': State, n: nat, nNow: int, r: seq<Service>)
    requires n <= |s'.vRandom|
  {
    && (forall i, j :: 0 <= i < j < |r| ==> r[i] != r[j])
    && (forall i :: 0 <= i < |r| ==> Selectable(s, nNow, r[i]) && s.mapAddr[r[i].ip] in s'.vRandom[..n])
    && (forall a :: Selectable(s, nNow, a) && s.mapAddr[a.ip] in s'.vRandom[..n] ==> a in r)
  }

  lemma {:induction false} SelectedIs(s: State, s': State, n: nat, nNow: int)
    requires AddrsOk(s) && RandomOk(s') && Reordered(s, s') && n <= |s'.vRandom|
    ensures SelectedFrom(s, s', n, nNow, Selected(s.mapInfo, s'.vRandom[..n], nNow))
  {
    hide AddrsOk, RandomOk, Reordered, Selected, SelectedFrom;
    if n == 0 {
      NoneSelected(s, s', nNow);
    } else {
      SelectedIs(s, s', n - 1, nNow);
      SelectedStep(s, s', n - 1, nNow);
    }
  }

  lemma NoneSelected(s: State, s': State, nNow: int)
    ensures SelectedFrom(s, s', 0, nNow, Selected(s.mapInfo, s'.vRandom[..0], nNow))
  {
    assert s'.vRandom[..0] == [];
  }

  lemma SelectedStep(s: State, s': State, n: nat, nNow: int)
    requires AddrsOk(s) && RandomOk(s') && Reordered(s, s') && n < |s'.vRandom|
    requires SelectedFrom(s, s', n, nNow, Selected(s.mapInfo, s'.vRandom[..n], nNow))
    ensures SelectedFrom(s, s', n + 1, nNow, Selected(s.mapInfo, s'.vRandom[..n + 1], nNow))
  {
    hide AddrsOk, RandomOk, Reordered, Selected, SelectedFrom;
    RandomDistinct(s', n);
    ReorderedKeys(s, s');
    assert s'.vRandom[n] in s'.mapInfo.Keys;
    SelectOne(s.mapInfo, s'.vRandom, n, nNow);
    OneSelected(s, s', n, nNow, Selected(s.mapInfo, s'.vRandom[..n], nNow));
  }

  lemma ReorderedKeys(s: State, s': State)
    requires Reordered(s, s')
    ensures s'.mapInfo.Keys == s.mapInfo.Keys
  {
  }

  lemma RandomDistinct(s: State, n: nat)
    requires RandomOk(s) && n < |s.vRandom|
    ensures s.vRandom[n] in s.mapInfo && s.vRandom[n] !in s.vRandom[..n]
  {
  }

  lemma OneSelected(s: State, s': State, n: nat, nNow: int, r: seq<Service>)
    requires AddrsOk(s) && n < |s'.vRandom| && SelectedFrom(s, s', n, nNow, r)
    requires s'.vRandom[n] in s.mapInfo && s'.vRandom[n] !in s'.vRandom[..n]
    ensures var info := s.mapInfo[s'.vRandom[n]];
            SelectedFrom(s, s', n + 1, nNow, r + if !info.IsTerrible(nNow) then [info.addr] else [])
  {
    var v, id := s'.vRandom, s'.vRandom[n];
    var info := s.mapInfo[id];
    var r' := r + if !info.IsTerrible(nNow) then [info.addr] else [];
    assert v[..n + 1] == v[..n] + [id];
    assert s.mapAddr[info.addr.ip] == id;
    forall a | Selectable(s, nNow, a) && s.mapAddr[a.ip] in v[..n + 1]
      ensures a in r'
    {
      if s.mapAddr[a.ip] == id {
        assert r'[|r|] == a;
      }
    }
  }

  lemma SelectionOk(h: Hashes, s: State, s': State, n: nat, nNow: int)
    requires AddrsOk(s) && RandomOk(s') && Reordered(s, s') && n <= |s'.vRandom|
    requires |Selected(s.mapInfo, s'.vRandom[..n], nNow)| <= Limit(s)
    requires n == |s'.vRandom| || |Selected(s.mapInfo, s'.vRandom[..n], nNow)| == Limit(s)
    ensures IsSelection(s, nNow, Selected(s.mapInfo, s'.vRandom[..n], nNow))
  {
    SelectedIs(s, s', n, nNow);
    var r := Selected(s.mapInfo, s'.vRandom[..n], nNow);
    forall a | Selectable(s, nNow, a) && |r| < Limit(s)
      ensures a in r
    {
      var id := s.mapAddr[a.ip];
      assert id in s'.mapInfo.Keys;
      assert s'.vRandom[..n] == s'.vRandom;
      assert id in s'.vRandom;
    }
  }
}
