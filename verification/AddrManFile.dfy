/** Saving the address manager and loading it again (src/addrman.h: Serialize, Unserialize). */
module AddrManFile {
  import opened AddrTables
  import opened AddrMan

  /** What Serialize writes, version 1: the new entries, the tried entries, and for each new bucket the
      numbers of the entries in it. */
  datatype Saved = Saved(nKey: nat, nNew: int, nTried: int, newInfos: seq<Info>, triedInfos: seq<Info>,
                         buckets: seq<seq<int>>)

  /** An entry as read back: the fields that are memory only are reset. */
  function Stored(info: Info): Info {
    info.(nLastTry := 0, nRefCount := 0, fInTried := false, nRandomPos := -1)
  }

  // ----- Numbering the entries -----

  /** The new (or tried) ids below k, in order. */
  function Order(m: map<int, Info>, k: nat, fInTried: bool): seq<int> {
    if k == 0 then [] else
      Order(m, k - 1, fInTried) + if k - 1 in m && m[k - 1].fInTried == fInTried then [k - 1] else []
  }

  lemma {:induction false} OrderIs(m: map<int, Info>, k: nat, fInTried: bool)
    ensures forall x :: x in Order(m, k, fInTried) <==> 0 <= x < k && x in m && m[x].fInTried == fInTried
    ensures forall i, j :: 0 <= i < j < |Order(m, k, fInTried)| ==> Order(m, k, fInTried)[i] < Order(m, k, fInTried)[j]
  {
    if k > 0 {
      OrderIs(m, k - 1, fInTried);
      var o := Order(m, k - 1, fInTried);
      assert forall i :: 0 <= i < |o| ==> o[i] in o;
    }
  }

  /** An id stands at the position that counts the ids before it. */
  lemma {:induction false} OrderRank(m: map<int, Info>, k: nat, fInTried: bool, id: nat)
    requires id < k && id in m && m[id].fInTried == fInTried
    ensures |Order(m, id, fInTried)| < |Order(m, k, fInTried)|
    ensures Order(m, k, fInTried)[|Order(m, id, fInTried)|] == id
  {
    if id < k - 1 {
      OrderRank(m, k - 1, fInTried, id);
    }
  }

  lemma {:induction false} DistinctCount(order: seq<int>, ids: set<int>)
    requires forall i, j :: 0 <= i < j < |order| ==> order[i] != order[j]
    requires forall x :: x in order <==> x in ids
    ensures |order| == |ids|
  {
    if order != [] {
      var x := order[|order| - 1];
      assert forall y :: y in order[..|order| - 1] <==> y in ids - {x};
      DistinctCount(order[..|order| - 1], ids - {x});
    } else {
      assert forall x :: x !in order;
      assert (forall x :: x !in ids) ==> ids == {};
    }
  }

  /** The ids in the order in which a saved manager lists their entries. */
  function Ids(s: State): seq<int>
    requires s.nIdCount >= 0
  {
    Order(s.mapInfo, s.nIdCount, false) + Order(s.mapInfo, s.nIdCount, true)
  }

  /** The number an id gets when loaded. */
  function Number(s: State, id: int): nat
    requires s.nIdCount >= 0 && id in s.mapInfo && id >= 0
  {
    if s.mapInfo[id].fInTried then |Order(s.mapInfo, s.nIdCount, false)| + |Order(s.mapInfo, id, true)|
    else |Order(s.mapInfo, id, false)|
  }

  ghost predicate Numbered(s: State) {
    && s.nIdCount >= 0 && s.nNew >= 0 && s.nTried >= 0
    && (forall id :: id in s.mapInfo ==> id >= 0)
    && |Order(s.mapInfo, s.nIdCount, false)| == s.nNew && |Ids(s)| == s.nNew + s.nTried
    && (forall id :: id in s.mapInfo ==> Number(s, id) < |Ids(s)| && Ids(s)[Number(s, id)] == id)
    && (forall n :: 0 <= n < |Ids(s)| ==> Ids(s)[n] in s.mapInfo)
    && (forall n :: 0 <= n < |Ids(s)| ==> Number(s, Ids(s)[n]) == n)
    && (forall n :: 0 <= n < |Ids(s)| ==> (s.mapInfo[Ids(s)[n]].fInTried <==> n >= s.nNew))
  }

  /** Every entry has one number, the new ones the first nNew: so the assertions of Serialize hold. */
  lemma NumbersAreUnique(h: Hashes, s: State)
    requires Inv(h, s)
    ensures Numbered(s)
  {
    hide RandomOk, TriedOk, NewOk, RefsOk, TimesOk, TriedIds, NewIds;
    OrderCounts(h, s);
    IdRange(s);
    hide AddrsOk, CountsOk, Order;
    forall id | id in s.mapInfo
      ensures Number(s, id) < |Ids(s)| && Ids(s)[Number(s, id)] == id
    {
      OrderRank(s.mapInfo, s.nIdCount, s.mapInfo[id].fInTried, id);
    }
    hide Ids, Number;
    forall n | 0 <= n < |Ids(s)|
      ensures Ids(s)[n] in s.mapInfo
      ensures Number(s, Ids(s)[n]) == n
      ensures s.mapInfo[Ids(s)[n]].fInTried <==> n >= s.nNew
    {
      NumberOfNth(s, n);
    }
  }

  lemma IdRange(s: State)
    requires AddrsOk(s) && CountsOk(s, 0)
    ensures s.nIdCount >= 0 && s.nNew >= 0 && s.nTried >= 0
    ensures forall id :: id in s.mapInfo ==> 0 <= id < s.nIdCount
  {
  }

  lemma NumberOfNth(s: State, n: nat)
    requires s.nIdCount >= 0 && (forall id :: id in s.mapInfo ==> id >= 0) && n < |Ids(s)|
    ensures Ids(s)[n] in s.mapInfo && Number(s, Ids(s)[n]) == n
    ensures s.mapInfo[Ids(s)[n]].fInTried <==> n >= |Order(s.mapInfo, s.nIdCount, false)|
  {
    var a, b := Order(s.mapInfo, s.nIdCount, false), Order(s.mapInfo, s.nIdCount, true);
    OrderIs(s.mapInfo, s.nIdCount, false);
    OrderIs(s.mapInfo, s.nIdCount, true);
    hide Order;
    var id := Ids(s)[n];
    if n < |a| {
      assert id == a[n] && id in a;
      OrderRank(s.mapInfo, s.nIdCount, false, id);
      AscendingInjective(a);
    } else {
      assert id == b[n - |a|] && id in b;
      OrderRank(s.mapInfo, s.nIdCount, true, id);
      AscendingInjective(b);
    }
  }

  lemma AscendingInjective(a: seq<int>)
    requires forall i, j :: 0 <= i < j < |a| ==> a[i] < a[j]
    ensures forall i, j :: 0 <= i < |a| && 0 <= j < |a| && a[i] == a[j] ==> i == j
  {
  }

  lemma OrderCounts(h: Hashes, s: State)
    requires AddrsOk(s) && CountsOk(s, 0)
    ensures |Order(s.mapInfo, s.nIdCount, false)| == s.nNew && |Order(s.mapInfo, s.nIdCount, true)| == s.nTried
  {
    OrderIs(s.mapInfo, s.nIdCount, false);
    OrderIs(s.mapInfo, s.nIdCount, true);
    DistinctCount(Order(s.mapInfo, s.nIdCount, false), NewIds(s.mapInfo));
    DistinctCount(Order(s.mapInfo, s.nIdCount, true), TriedIds(s.mapInfo));
  }

  // ----- The manager that comes out -----

  /** A table with every id replaced by its number. */
  ghost function Renamed(s: State, t: seq<int>): (r: seq<int>)
    requires Numbered(s)
    ensures |r| == |t|
  {
    seq(|t|, i requires 0 <= i < |t| => if t[i] in s.mapInfo then Number(s, t[i]) else -1)
  }

  ghost function LoadedInfo(s: State, n: nat): Info
    requires Numbered(s) && n < |Ids(s)|
  {
    s.mapInfo[Ids(s)[n]].(nLastTry := 0, nRandomPos := n)
  }

  /** The same manager with the entries renumbered, in order in vRandom, and never tried last. */
  ghost function Renumbered(s: State): State
    requires Numbered(s) && forall a :: a in s.mapAddr ==> s.mapAddr[a] in s.mapInfo
  {
    State(s.nKey, |Ids(s)|, map n: int | 0 <= n < |Ids(s)| :: LoadedInfo(s, n),
          map a | a in s.mapAddr :: Number(s, s.mapAddr[a]) as int,
          seq(|Ids(s)|, i => i), Renamed(s, s.triedTable), Renamed(s, s.newTable), s.nTried, s.nNew)
  }

  lemma {:induction false} RenamedCount(s: State, t: seq<int>, id: int)
    requires Numbered(s) && id in s.mapInfo
    ensures multiset(Renamed(s, t))[Number(s, id)] == multiset(t)[id]
  {
    if t != [] {
      var k := |t| - 1;
      RenamedCount(s, t[..k], id);
      assert t == t[..k] + [t[k]];
      assert Renamed(s, t) == Renamed(s, t[..k]) + [Renamed(s, t)[k]];
      if t[k] in s.mapInfo {
        assert Ids(s)[Number(s, t[k])] == t[k];
      }
    }
  }

  ghost predicate AddrsKnown(s: State) {
    forall a :: a in s.mapAddr ==> s.mapAddr[a] in s.mapInfo
  }

  lemma RenumberedAddrs(s: State)
    requires Numbered(s) && AddrsOk(s) && AddrsKnown(s)
    ensures AddrsOk(Renumbered(s)) && RandomOk(Renumbered(s))
  {
  }

  lemma RenumberedTables(h: Hashes, s: State)
    requires Numbered(s) && AddrsKnown(s) && TriedOk(h, s) && NewOk(h, s) && -1 !in s.mapInfo
    ensures TriedOk(h, Renumbered(s)) && NewOk(h, Renumbered(s))
  {
    hide TriedSlot, NewSlot, GetTriedBucket, GetNewBucket, GetBucketPosition, Slot, Order, Number;
    var r := Renumbered(s);
    forall n | n in r.mapInfo
      ensures r.mapInfo[n].nRefCount == multiset(r.newTable)[n]
    {
      RenamedCount(s, s.newTable, Ids(s)[n]);
    }
  }

  lemma {:induction false} RangeCount(ids: set<int>, lo: int, hi: int)
    requires lo <= hi && forall n :: n in ids <==> lo <= n < hi
    ensures |ids| == hi - lo
    decreases hi - lo
  {
    if lo < hi {
      assert forall n :: n in ids - {lo} <==> lo + 1 <= n < hi;
      RangeCount(ids - {lo}, lo + 1, hi);
    } else {
      assert (forall n :: n !in ids) ==> ids == {};
    }
  }

  lemma RenumberedCounts(s: State)
    requires Numbered(s) && AddrsKnown(s)
    ensures CountsOk(Renumbered(s), 0)
  {
    hide Number, Order;
    var r := Renumbered(s);
    RangeCount(NewIds(r.mapInfo), 0, s.nNew);
    RangeCount(TriedIds(r.mapInfo), s.nNew, |Ids(s)|);
  }

  lemma RenumberedRefs(s: State)
    requires Numbered(s) && AddrsKnown(s) && RefsOk(s, {}) && TimesOk(s)
    ensures RefsOk(Renumbered(s), {}) && TimesOk(Renumbered(s))
  {
    hide Number, Order;
  }

  /** The loaded manager is as consistent as the saved one. */
  lemma RenumberedOk(h: Hashes, s: State)
    requires Inv(h, s)
    ensures Numbered(s) && AddrsKnown(s) && Inv(h, Renumbered(s))
  {
    NumbersAreUnique(h, s);
    hide RandomOk, TriedOk, NewOk, RefsOk, TimesOk, CountsOk;
    NoSuchId(s);
    hide Numbered, Renumbered;
    RenumberedAddrs(s);
    hide AddrsOk;
    RenumberedTables(h, s);
    RenumberedCounts(s);
    RenumberedRefs(s);
  }

  // ----- Saving -----

  /** The nonempty slots from lo up to hi, as numbers. */
  function Indices(r: seq<int>, lo: nat, hi: nat): seq<int>
    requires lo <= hi <= |r|
    decreases hi - lo
  {
    if lo == hi then [] else (if r[lo] != -1 then [r[lo]] else []) + Indices(r, lo + 1, hi)
  }

  lemma {:induction false} IndicesSplit(r: seq<int>, lo: nat, i: nat)
    requires lo <= i < |r|
    ensures Indices(r, lo, i + 1) == Indices(r, lo, i) + if r[i] != -1 then [r[i]] else []
    decreases i - lo
  {
    if lo < i {
      IndicesSplit(r, lo + 1, i);
    }
  }

  /** What the file holds. */
  ghost predicate Holds(s: State, f: Saved)
    requires Numbered(s)
  {
    && f.nKey == s.nKey && f.nNew == s.nNew && f.nTried == s.nTried
    && |f.newInfos| == s.nNew && |f.triedInfos| == s.nTried
    && (forall n :: 0 <= n < s.nNew ==> f.newInfos[n] == Stored(s.mapInfo[Ids(s)[n]]))
    && (forall n :: 0 <= n < s.nTried ==> f.triedInfos[n] == Stored(s.mapInfo[Ids(s)[s.nNew + n]]))
    && |s.newTable| == NEW_BUCKET_COUNT * BUCKET_SIZE && |f.buckets| == NEW_BUCKET_COUNT
    && (forall b :: 0 <= b < NEW_BUCKET_COUNT ==>
          f.buckets[b] == Indices(Renamed(s, s.newTable), b * BUCKET_SIZE, (b + 1) * BUCKET_SIZE))
  }

  /** One of the two loops that write the entries, asserting that they do not exceed the counter; it also
      numbers them. */
  method WriteInfos(mapInfo: map<int, Info>, nIdCount: nat, fInTried: bool, nCounted: int)
    returns (infos: seq<Info>, mapUnkIds: map<int, int>)
    requires nCounted == |Order(mapInfo, nIdCount, fInTried)|
    requires forall id :: id in mapInfo ==>
             0 <= id < nIdCount && (mapInfo[id].nRefCount != 0 <==> !mapInfo[id].fInTried)
    ensures |infos| == nCounted
    ensures forall i :: 0 <= i < nCounted ==> infos[i] == StoredNth(mapInfo, nIdCount, fInTried, i)
    ensures forall id :: id in mapInfo && mapInfo[id].fInTried == fInTried ==>
              id in mapUnkIds && mapUnkIds[id] == |Order(mapInfo, id, fInTried)|
  {
    infos, mapUnkIds := [], map[];
    var nIds := 0;
    for n := 0 to nIdCount
      invariant nIds == |infos| == |Order(mapInfo, n, fInTried)|
      invariant forall i :: 0 <= i < |infos| ==> infos[i] == StoredNth(mapInfo, n, fInTried, i)
      invariant forall id :: id in mapInfo && id < n && mapInfo[id].fInTried == fInTried ==>
                  id in mapUnkIds && mapUnkIds[id] == |Order(mapInfo, id, fInTried)|
    {
      if n in mapInfo {
        mapUnkIds := mapUnkIds[n := nIds];
        var info := mapInfo[n];
        if (if fInTried then info.fInTried else info.nRefCount != 0) {
          OrderRank(mapInfo, nIdCount, fInTried, n);
          assert nIds != nCounted;
          infos := infos + [Stored(info)];
          nIds := nIds + 1;
        }
      }
    }
  }

  function StoredNth(m: map<int, Info>, k: nat, fInTried: bool, n: nat): Info
    requires n < |Order(m, k, fInTried)|
  {
    var id := Order(m, k, fInTried)[n];
    if id in m then Stored(m[id]) else Info(Service(0, 0), 0, 0, 0, 0, 0, 0, 0, false, -1)
  }

  /** Write the indices of one bucket of the table t; r is that table renumbered. */
  method WriteBucket(t: seq<int>, bucket: nat, mapUnkIds: map<int, int>, ghost r: seq<int>) returns (indices: seq<int>)
    requires bucket < NEW_BUCKET_COUNT && |t| == |r| == NEW_BUCKET_COUNT * BUCKET_SIZE
    requires forall j :: 0 <= j < |t| ==>
             if t[j] == -1 then r[j] == -1 else t[j] in mapUnkIds && r[j] == mapUnkIds[t[j]] != -1
    ensures indices == Indices(r, bucket * BUCKET_SIZE, (bucket + 1) * BUCKET_SIZE)
  {
    indices := [];
    for i := 0 to BUCKET_SIZE
      invariant indices == Indices(r, bucket * BUCKET_SIZE, bucket * BUCKET_SIZE + i)
    {
      var j := Slot(bucket, i);
      IndicesSplit(r, bucket * BUCKET_SIZE, j);
      if t[j] != -1 {
        indices := indices + [mapUnkIds[t[j]]];
      }
    }
  }

  /** What the loops of Serialize rely on. */
  lemma Writable(h: Hashes, s: State, mapUnkIds: map<int, int>)
    requires Inv(h, s) && Numbered(s)
    ensures |Order(s.mapInfo, s.nIdCount, false)| == s.nNew && |Order(s.mapInfo, s.nIdCount, true)| == s.nTried
    ensures forall id :: id in s.mapInfo ==>
            0 <= id < s.nIdCount && (s.mapInfo[id].nRefCount != 0 <==> !s.mapInfo[id].fInTried)
    ensures |s.newTable| == NEW_BUCKET_COUNT * BUCKET_SIZE
  {
    hide Order, Number, NewSlot;
    NoSuchId(s);
    hide AddrsOk, RandomOk, TriedOk, TimesOk;
    forall id | id in s.mapInfo
      ensures s.mapInfo[id].nRefCount != 0 <==> !s.mapInfo[id].fInTried
    {
      assert s.mapInfo[id].fInTried ==> id !in s.newTable;
    }
    assert AddrsOk(s);
    IdRange(s);
  }

  lemma TableNumbered(h: Hashes, s: State, mapUnkIds: map<int, int>)
    requires Inv(h, s) && Numbered(s)
    requires forall id :: id in s.mapInfo && !s.mapInfo[id].fInTried ==>
             id in mapUnkIds && mapUnkIds[id] == |Order(s.mapInfo, id, false)|
    ensures forall j :: 0 <= j < |s.newTable| ==>
              if s.newTable[j] == -1 then Renamed(s, s.newTable)[j] == -1
              else s.newTable[j] in mapUnkIds && Renamed(s, s.newTable)[j] == mapUnkIds[s.newTable[j]] != -1
  {
    NoSuchId(s);
    hide AddrsOk, RandomOk, TriedOk, TimesOk, RefsOk, CountsOk, NewSlot, Order;
  }

  method WriteBuckets(t: seq<int>, mapUnkIds: map<int, int>, ghost r: seq<int>) returns (buckets: seq<seq<int>>)
    requires |t| == |r| == NEW_BUCKET_COUNT * BUCKET_SIZE
    requires forall j :: 0 <= j < |t| ==>
             if t[j] == -1 then r[j] == -1 else t[j] in mapUnkIds && r[j] == mapUnkIds[t[j]] != -1
    ensures |buckets| == NEW_BUCKET_COUNT
    ensures forall b :: 0 <= b < NEW_BUCKET_COUNT ==> buckets[b] == Indices(r, b * BUCKET_SIZE, (b + 1) * BUCKET_SIZE)
  {
    hide Indices;
    buckets := [];
    for bucket := 0 to NEW_BUCKET_COUNT
      invariant |buckets| == bucket
      invariant forall b :: 0 <= b < bucket ==> buckets[b] == Indices(r, b * BUCKET_SIZE, (b + 1) * BUCKET_SIZE)
    {
      var indices := WriteBucket(t, bucket, mapUnkIds, r);
      buckets := buckets + [indices];
    }
  }

  method Serialize(m: CAddrMan) returns (f: Saved)
    requires m.Valid()
    ensures Numbered(m.S()) && Holds(m.S(), f)
  {
    hide InvAt, Order, Number;
    ghost var s := m.S();
    NumbersAreUnique(m.h, s);
    Writable(m.h, s, map[]);
    var newInfos, mapUnkIds := WriteInfos(m.mapInfo, m.nIdCount, false, m.nNew);
    var triedInfos, _ := WriteInfos(m.mapInfo, m.nIdCount, true, m.nTried);
    TableNumbered(m.h, s, mapUnkIds);
    InfosHeld(s, newInfos, triedInfos);
    hide Numbered;
    var buckets := WriteBuckets(m.vvNew[..], mapUnkIds, Renamed(s, s.newTable));
    f := Saved(m.nKey, m.nNew, m.nTried, newInfos, triedInfos, buckets);
  }

  lemma InfosHeld(s: State, newInfos: seq<Info>, triedInfos: seq<Info>)
    requires Numbered(s) && |newInfos| == s.nNew && |triedInfos| == s.nTried
    requires |Order(s.mapInfo, s.nIdCount, true)| == s.nTried
    requires forall i :: 0 <= i < s.nNew ==> newInfos[i] == StoredNth(s.mapInfo, s.nIdCount, false, i)
    requires forall i :: 0 <= i < s.nTried ==> triedInfos[i] == StoredNth(s.mapInfo, s.nIdCount, true, i)
    ensures forall n :: 0 <= n < s.nNew ==> newInfos[n] == Stored(s.mapInfo[Ids(s)[n]])
    ensures forall n :: 0 <= n < s.nTried ==> triedInfos[n] == Stored(s.mapInfo[Ids(s)[s.nNew + n]])
  {
    hide Order, Number;
    forall n | 0 <= n < s.nTried
      ensures triedInfos[n] == Stored(s.mapInfo[Ids(s)[s.nNew + n]])
    {
      assert Ids(s)[s.nNew + n] == Order(s.mapInfo, s.nIdCount, true)[n];
    }
  }
}
