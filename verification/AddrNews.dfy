/** What announcing an address, marking it good and asking for addresses come to, and when an entry counts
    as terrible (src/addrman.cpp: Add_, Good_, GetAddr_, IsTerrible, GetTriedBucket, GetNewBucket). */
module AddrNews {
  import opened AddrTables
  import opened AddrMan

  // ----- Time and services -----

  /** The time of an entry never goes back.  It moves to the announced time, less the penalty, exactly if
      that is more than an hour newer, or a day if the announcement itself is not of the last day. */
  lemma RefreshedTime(info: Info, addr: Address, nTimePenalty: int, nNow: int)
    requires info.nTime >= 0
    ensures var t := Refreshed(info, addr, nTimePenalty, nNow).nTime;
            var newer := addr.nTime - nTimePenalty - info.nTime;
            && t >= info.nTime
            && (t != info.nTime ==> t == Max(0, addr.nTime - nTimePenalty))
            && (info.nTime > 0 ==>
                 (t != info.nTime <==> addr.nTime != 0 && newer > if addr.nTime > nNow - 86400 then 3600 else 86400))
            && (info.nTime == 0 ==> t == if addr.nTime == 0 then 0 else Max(0, addr.nTime - nTimePenalty))
  {
  }

  /** Services are only ever added: for every mask, those the entry had and those announced.  Nothing else
      of the entry changes. */
  lemma RefreshedServices(info: Info, addr: Address, nTimePenalty: int, nNow: int, mask: bv64)
    ensures var r := Refreshed(info, addr, nTimePenalty, nNow);
            && r == info.(nTime := r.nTime, nServices := r.nServices)
            && r.nServices & mask == (info.nServices & mask) | (addr.nServices & mask)
  {
    MaskedOr(info.nServices, addr.nServices, mask);
  }

  lemma MaskedOr(a: bv64, b: bv64, mask: bv64)
    ensures (a | b) & mask == (a & mask) | (b & mask)
  {
  }

  // ----- The tables -----

  /** The entry of a known address once it has been refreshed. */
  ghost function Known(s: State, addr: Address, nTimePenalty: int, nNow: int): Info
    requires addr.service.ip in s.mapAddr && s.mapAddr[addr.service.ip] in s.mapInfo
  {
    Refreshed(s.mapInfo[s.mapAddr[addr.service.ip]], addr, nTimePenalty, nNow)
  }

  /** Neither table nor any reference count differs. */
  ghost predicate SameTables(s: State, s': State) {
    && s'.newTable == s.newTable && s'.triedTable == s.triedTable && s'.mapInfo.Keys == s.mapInfo.Keys
    && forall y :: y in s.mapInfo ==> s'.mapInfo[y].nRefCount == s.mapInfo[y].nRefCount
  }

  /** An announcement that is no news, or of an entry that is tried or in eight buckets, changes neither
      table nor any count of references, whatever is drawn. */
  lemma NoNewsNoChange(h: Hashes, s: State, s': State, addr: Address, source: NetAddr, nTimePenalty: int, nNow: int,
                       draw: nat)
    requires Inv(h, s) && Added(h, s, s', addr, source, nTimePenalty, nNow, true, draw)
    requires addr.service.ip in s.mapAddr && s.mapAddr[addr.service.ip] in s.mapInfo
    requires var info := Known(s, addr, nTimePenalty, nNow);
             addr.nTime == 0 || (info.nTime != 0 && addr.nTime <= info.nTime) || info.fInTried || info.nRefCount == 8
    ensures SameTables(s, s')
  {
    hide Placed, Inv, InvAt, Refreshed;
    RefreshedServices(s.mapInfo[s.mapAddr[addr.service.ip]], addr, nTimePenalty, nNow, 0);
  }

  /** News of an entry in fewer than eight buckets: of the 2^n draws for an entry in n buckets exactly 0
      enters it into the bucket of this source, if it is not there and its slot can be had. */
  lemma NewsPlaced(h: Hashes, s: State, s': State, addr: Address, source: NetAddr, nTimePenalty: int, nNow: int,
                   draw: nat)
    requires Inv(h, s) && Added(h, s, s', addr, source, nTimePenalty, nNow, true, draw)
    requires addr.service.ip in s.mapAddr && s.mapAddr[addr.service.ip] in s.mapInfo
    requires var info := Known(s, addr, nTimePenalty, nNow);
             addr.nTime != 0 && (info.nTime == 0 || addr.nTime > info.nTime) && !info.fInTried && info.nRefCount < 8
    ensures var id, i := s.mapAddr[addr.service.ip], SlotFor(h, s, addr, source);
            var was := s.mapInfo[id].nRefCount;
            && 0 <= draw < Odds(was) && i < |s.newTable|
            && if draw == 0 && s.newTable[i] != id
                  && CanBeHad(SetInfo(s, id, Known(s, addr, nTimePenalty, nNow)), id, i, nNow) then
                 s'.newTable == s.newTable[i := id] && id in s'.mapInfo && s'.mapInfo[id].nRefCount == was + 1
               else SameTables(s, s')
  {
    hide InvAt, Refreshed, NewSlot, GetNewBucket;
    var id := s.mapAddr[addr.service.ip];
    RefreshedServices(s.mapInfo[id], addr, nTimePenalty, nNow, 0);
    InNewTable(h, s, id);
    TableSizes(h, s, {}, 0);
  }

  /** The slot is free, or its entry is terrible.  (An entry that is known has a reference already, so it
      does not displace one that is merely elsewhere too.) */
  ghost predicate CanBeHad(s: State, id: int, i: nat, nNow: int)
    requires i < |s.newTable|
  {
    var x := s.newTable[i];
    x == -1 || (x in s.mapInfo && s.mapInfo[x].IsTerrible(nNow))
  }

  lemma InNewTable(h: Hashes, s: State, id: int)
    requires Inv(h, s) && id in s.mapInfo && !s.mapInfo[id].fInTried
    ensures s.mapInfo[id].nRefCount > 0
  {
  }

  /** A new address gets an entry of its own, in no other bucket than that of its source: if the slot there
      is free, or its entry terrible or in another bucket too.  Otherwise it stays unknown. */
  lemma NewAddressPlaced(h: Hashes, s: State, s': State, addr: Address, source: NetAddr, nTimePenalty: int,
                         nNow: int, draw: nat)
    requires Inv(h, s) && Inv(h, s') && Added(h, s, s', addr, source, nTimePenalty, nNow, true, draw)
    requires addr.service.ip !in s.mapAddr
    ensures var i := SlotFor(h, s, addr, source);
            && i < |s.newTable|
            && var x := s.newTable[i];
            if x == -1 || (x in s.mapInfo && (s.mapInfo[x].IsTerrible(nNow) || s.mapInfo[x].nRefCount > 1)) then
              && s'.newTable == s.newTable[i := s.nIdCount] && s.nIdCount in s'.mapInfo
              && s'.mapAddr.Keys >= {addr.service.ip} && s'.mapAddr[addr.service.ip] == s.nIdCount
              && IsNewEntry(s'.mapInfo[s.nIdCount], addr, source, nTimePenalty)
            else s'.newTable == s.newTable && addr.service.ip !in s'.mapAddr
  {
    hide InvAt, NewSlot, GetNewBucket;
    var id := s.nIdCount;
    NewIdIsNew(h, s);
    TableSizes(h, s, {}, 0);
    var info := NewInfo(addr, source, |s.vRandom|).(nTime := Max(0, addr.nTime - nTimePenalty));
    Placement(h, Created(s, info).(nNew := s.nNew + 1), s', id, source, nNow);
    if id in s'.mapInfo {
      FoundByAddress(h, s', id);
    } else {
      NotFound(h, s, info, s');
    }
  }

  /** Seen once, never tried, with the time announced less the penalty. */
  ghost predicate IsNewEntry(info: Info, addr: Address, source: NetAddr, nTimePenalty: int) {
    && info.addr == addr.service && info.nServices == addr.nServices && info.source == source
    && info.nTime == (if addr.nTime > nTimePenalty then addr.nTime - nTimePenalty else 0)
    && info.nLastSuccess == 0 && info.nLastTry == 0 && info.nAttempts == 0 && info.nRefCount == 1 && !info.fInTried
  }

  lemma NewIdIsNew(h: Hashes, s: State)
    requires Inv(h, s)
    ensures s.nIdCount !in s.mapInfo && s.nIdCount !in s.newTable && s.nIdCount >= 0
  {
    hide TriedSlot, NewSlot;
  }

  lemma Placement(h: Hashes, s: State, s': State, id: int, source: NetAddr, nNow: int)
    requires Placed(h, s, s', id, source, nNow) && id !in s.newTable && s.mapInfo[id].nRefCount == 0
    ensures var i := NewSlot(h, s.nKey, s.mapInfo[id].addr, GetNewBucket(h, s.nKey, s.mapInfo[id].addr, source));
            && i < |s.newTable|
            && if GetsSlot(s, id, i, nNow) then TookSlot(s, s', id, i)
               else s'.newTable == s.newTable && s'.mapInfo.Keys == s.mapInfo.Keys - {id}
  {
    hide NewSlot, GetNewBucket;
  }

  lemma FoundByAddress(h: Hashes, s: State, id: int)
    requires Inv(h, s) && id in s.mapInfo
    ensures s.mapInfo[id].addr.ip in s.mapAddr && s.mapAddr[s.mapInfo[id].addr.ip] == id
  {
    hide RandomOk, TriedOk, NewOk, RefsOk, TimesOk, CountsOk;
  }

  lemma NotFound(h: Hashes, s: State, info: Info, s': State)
    requires Inv(h, s) && Inv(h, s') && info.addr.ip !in s.mapAddr && s'.mapInfo.Keys <= s.mapInfo.Keys
    requires forall y :: y in s'.mapInfo ==> s'.mapInfo[y].addr == s.mapInfo[y].addr
    ensures info.addr.ip !in s'.mapAddr
  {
    hide RandomOk, TriedOk, NewOk, RefsOk, TimesOk, CountsOk;
    forall y | y in s'.mapInfo ensures s'.mapInfo[y].addr.ip != info.addr.ip {
      assert s.mapInfo[y].addr.ip in s.mapAddr;
    }
  }

  // ----- Buckets -----

  /** What is hashed for a bucket: for an address heard of, the groups of the address and of its source,
      so that one source group can reach each of its 64 buckets through the group of the address alone;
      for a tried address the address itself, so that one group can reach each of its 8. */
  lemma BucketsReached(nKey: nat, a: Service, b: Service, src: NetAddr, r: nat, q: nat)
    requires a.ip != b.ip && r < 64 && q < 64
    ensures exists h: Hashes ::
              GetNewBucket(h, nKey, a, src) == r && GetNewBucket(h, nKey, b, src) == q
    ensures r < 8 && q < 8 ==> exists h: Hashes ::
              h.group(a.ip) == h.group(b.ip) && GetTriedBucket(h, nKey, a) == r && GetTriedBucket(h, nKey, b) == q
  {
    var byGroup := Hashes(ip => ip, (k, s) => 0, (k, g, n) => 0, (k, g, n) => if g == a.ip then r else q,
                          (k, g, n) => n, (k, f, n, s) => 0);
    assert GetNewBucket(byGroup, nKey, a, src) == r && GetNewBucket(byGroup, nKey, b, src) == q;
    var byAddress := Hashes(ip => 0, (k, s) => if s == a then r else q, (k, g, n) => n, (k, g, n) => 0,
                            (k, g, n) => 0, (k, f, n, s) => 0);
    assert r < 8 && q < 8 ==> GetTriedBucket(byAddress, nKey, a) == r && GetTriedBucket(byAddress, nKey, b) == q;
  }

  // ----- Terrible entries -----

  /** An entry tried within the last minute is never terrible.  Any other is exactly if its time is unknown,
      more than ten minutes ahead or more than thirty days back, or three attempts have failed and none
      ever succeeded, or ten have failed and the last success is more than a week ago. */
  lemma TerribleIff(info: Info, nNow: int)
    ensures info.IsTerrible(nNow) <==>
            && (info.nLastTry == 0 || nNow - info.nLastTry > 60)
            && (info.nTime == 0 || info.nTime - nNow > 600 || nNow - info.nTime > 2592000
                || (info.nLastSuccess == 0 && info.nAttempts > 2)
                || (nNow - info.nLastSuccess > 604800 && info.nAttempts > 9))
  {
  }

  // ----- Good addresses -----

  /** A known address marked good is tried, in its slot and nowhere else, without failed attempts and not
      terrible; the entry that had the slot is new again, in one bucket.  An address that is not known, or
      with another port, changes nothing. */
  lemma GoodMeans(h: Hashes, s: State, s': State, addr: Service, nTime: int)
    requires Inv(h, s) && Inv(h, s') && IsGood(h, s, s', addr, nTime) && nTime > 0
    ensures !(addr.ip in s.mapAddr && s.mapAddr[addr.ip] in s.mapInfo && s.mapInfo[s.mapAddr[addr.ip]].addr == addr) ==>
              s' == s
    ensures Knows(s, addr) ==>
              var id, k := s.mapAddr[addr.ip], TriedSlot(h, s.nKey, addr);
              && id in s'.mapInfo && k < |s.triedTable| && s'.triedTable == s.triedTable[k := id]
              && IsGoodEntry(s.mapInfo[id], s'.mapInfo[id], nTime)
              && var e := s.triedTable[k];
              (e != id && e in s.mapInfo ==>
                 e in s'.mapInfo && !s'.mapInfo[e].fInTried && s'.mapInfo[e].nRefCount == 1)
  {
    hide AddrsOk, RandomOk, NewOk, TimesOk, CountsOk, NewSlot, GetNewBucket, TriedSlot;
    if Knows(s, addr) && s.mapInfo[s.mapAddr[addr.ip]].fInTried {
      TriedStands(h, s, s.mapAddr[addr.ip]);
    }
  }

  lemma TriedStands(h: Hashes, s: State, id: int)
    requires Inv(h, s) && id in s.mapInfo && s.mapInfo[id].fInTried
    ensures var k := TriedSlot(h, s.nKey, s.mapInfo[id].addr); k < |s.triedTable| && s.triedTable[k] == id
    ensures s.mapInfo[id].nRefCount == 0
  {
    hide RandomOk, TimesOk, CountsOk, NewSlot, GetNewBucket, TriedSlot;
    assert id in multiset(s.newTable) <==> id in s.newTable;
  }

  ghost predicate IsGoodEntry(was: Info, info: Info, nTime: int) {
    && info.addr == was.addr && info.nServices == was.nServices && info.nTime == was.nTime && info.source == was.source
    && info.nLastSuccess == nTime && info.nLastTry == nTime && info.nAttempts == 0
    && info.fInTried && info.nRefCount == 0 && !info.IsTerrible(nTime)
  }

  // ----- Asking for addresses -----

  /** At most 2500 addresses and 23 per cent of the entries, none twice and none terrible; and all that
      are not terrible if that allows for one more. */
  lemma SelectionMeans(s: State, nNow: int, r: seq<Service>)
    requires IsSelection(s, nNow, r)
    ensures |r| <= 2500 && 100 * |r| <= 23 * |s.vRandom|
    ensures forall i, j :: 0 <= i < j < |r| ==> r[i] != r[j]
    ensures forall a :: a in r ==> IsUsable(s, nNow, a)
    ensures |r| < 2500 && 100 * (|r| + 1) <= 23 * |s.vRandom| ==> forall a :: IsUsable(s, nNow, a) ==> a in r
  {
    forall a ensures IsUsable(s, nNow, a) <==> Selectable(s, nNow, a) {}
  }

  ghost predicate IsUsable(s: State, nNow: int, a: Service) {
    && a.ip in s.mapAddr && s.mapAddr[a.ip] in s.mapInfo && s.mapInfo[s.mapAddr[a.ip]].addr == a
    && !s.mapInfo[s.mapAddr[a.ip]].IsTerrible(nNow)
  }
}
