/** A stack of CCoinsViewCache layers over the coin database (src/coins.cpp, src/txdb.cpp), and the
    flat map each layer stands for. */
module CoinsCache {
  import opened Options
  import opened Coins

  /** An entry of cacheCoins with its two flags. */
  datatype Entry = Entry(coins: CCoins, fDirty: bool, fFresh: bool)

  type Cache = map<Txid, Entry>

  datatype Layer = Layer(cacheCoins: Cache, hasModifier: bool, cachedCoinsUsage: int)

  // ----- What a layer stands for -----

  /** Coins as they stand for an entry of a flat map. */
  ghost predicate Shows(m: Utxo, x: Txid, c: CCoins) {
    && Trim(c.vout) == c.vout
    && (if c.vout == [] then x !in m else x in m && m[x] == c)
  }

  ghost predicate SameAt(a: Utxo, b: Utxo, x: Txid) {
    (x in a <==> x in b) && (x in a && x in b ==> a[x] == b[x])
  }

  /** FRESH: the parent view has nothing.  Not DIRTY: the parent view has the same. */
  ghost predicate EntryOk(below: Utxo, here: Utxo, x: Txid, e: Entry) {
    && Shows(here, x, e.coins)
    && (e.fFresh ==> x !in below)
    && (!e.fDirty ==> SameAt(here, below, x))
  }

  /** The entries of a layer against the map below it and the map it stands for; an entry that is not
      FRESH has one in the parent cache (if the parent is a cache). */
  ghost predicate EntriesOk(below: Utxo, here: Utxo, parent: Option<Cache>, cache: Cache) {
    && (forall x {:trigger EntryOk(below, here, x, cache[x])} {:trigger x in cache} ::
          x in cache ==> EntryOk(below, here, x, cache[x]))
    && (forall x {:trigger SameAt(here, below, x)} {:trigger x in here} {:trigger x in below} ::
          x !in cache ==> SameAt(here, below, x))
    && (parent.Some? ==> forall x :: x in cache && !cache[x].fFresh ==> x in parent.value)
  }

  /** The database holds only coins with something unspent. */
  ghost predicate DbOk(db: Utxo) {
    forall x :: x in db ==> Shows(db, x, db[x])
  }

  // ----- Memory usage -----

  ghost function SumUsage(usage: CCoins -> nat, cache: Cache): nat
    decreases |cache|
  {
    if cache == map[] then 0 else
      var x :| x in cache;
      usage(cache[x].coins) + SumUsage(usage, cache - {x})
  }

  lemma {:induction false} SumRemove(usage: CCoins -> nat, cache: Cache, x: Txid)
    requires x in cache
    ensures SumUsage(usage, cache) == usage(cache[x].coins) + SumUsage(usage, cache - {x})
    decreases |cache|
  {
    var y :| y in cache && SumUsage(usage, cache) == usage(cache[y].coins) + SumUsage(usage, cache - {y});
    if y != x {
      SumRemove(usage, cache - {y}, x);
      SumRemove(usage, cache - {x}, y);
      assert cache - {y} - {x} == cache - {x} - {y};
    }
  }

  /** Storing an entry replaces the share of the one it replaces. */
  lemma SumStore(usage: CCoins -> nat, cache: Cache, x: Txid, e: Entry)
    ensures SumUsage(usage, cache[x := e]) == usage(e.coins) + SumUsage(usage, cache - {x})
    ensures SumUsage(usage, cache) == (if x in cache then usage(cache[x].coins) else 0) + SumUsage(usage, cache - {x})
  {
    SumRemove(usage, cache[x := e], x);
    assert cache[x := e] - {x} == cache - {x};
    if x in cache {
      SumRemove(usage, cache, x);
    } else {
      assert cache - {x} == cache;
    }
  }

  // ----- One layer changes -----

  lemma StoreKeeps(below: Utxo, here: Utxo, here': Utxo, parent: Option<Cache>, cache: Cache, x: Txid, e: Entry)
    requires EntriesOk(below, here, parent, cache) && EntryOk(below, here', x, e)
    requires here - {x} == here' - {x}
    requires parent.Some? && !e.fFresh ==> x in parent.value
    ensures EntriesOk(below, here', parent, cache[x := e])
  {
    var cache' := cache[x := e];
    forall y | y in cache'
      ensures EntryOk(below, here', y, cache'[y])
    {
      if y != x {
        assert EntryOk(below, here, y, cache[y]);
        SameElsewhere(here, here', x, y);
      }
    }
    forall y | y !in cache'
      ensures SameAt(here', below, y)
    {
      assert SameAt(here, below, y);
      SameElsewhere(here, here', x, y);
    }
  }

  lemma EraseKeeps(below: Utxo, here: Utxo, here': Utxo, parent: Option<Cache>, cache: Cache, x: Txid)
    requires EntriesOk(below, here, parent, cache)
    requires here - {x} == here' - {x} && SameAt(here', below, x)
    ensures EntriesOk(below, here', parent, cache - {x})
  {
    forall y | y in cache - {x}
      ensures EntryOk(below, here', y, (cache - {x})[y])
    {
      assert EntryOk(below, here, y, cache[y]);
      SameElsewhere(here, here', x, y);
    }
    forall y | y !in cache - {x}
      ensures SameAt(here', below, y)
    {
      if y != x {
        assert SameAt(here, below, y);
        SameElsewhere(here, here', x, y);
      }
    }
  }

  lemma SameElsewhere(a: Utxo, b: Utxo, x: Txid, y: Txid)
    requires a - {x} == b - {x} && y != x
    ensures SameAt(a, b, y)
  {
    assert y in a <==> y in a - {x};
    assert y in b <==> y in b - {x};
    assert y in a ==> a[y] == (a - {x})[y];
    assert y in b ==> b[y] == (b - {x})[y];
  }

  lemma ParentMayGrow(below: Utxo, here: Utxo, parent: Cache, parent': Cache, cache: Cache)
    requires EntriesOk(below, here, Some(parent), cache) && parent.Keys <= parent'.Keys
    ensures EntriesOk(below, here, Some(parent'), cache)
  {
  }

  /** What a child's dirty entry does to the parent cache in BatchWrite. */
  function Written(cache: Cache, x: Txid, e: Entry): Cache {
    if !e.fDirty then cache
    else if x !in cache then
      (if Trim(e.coins.vout) == [] then cache else cache[x := Entry(e.coins, true, true)])
    else if cache[x].fFresh && Trim(e.coins.vout) == [] then cache - {x}
    else cache[x := Entry(e.coins, true, cache[x].fFresh)]
  }

  /** here, but at x as in child. */
  function Moved(here: Utxo, child: Utxo, x: Txid): Utxo {
    if x in child then here[x := child[x]] else here - {x}
  }

  /** The step of BatchWrite: its FRESH assertion holds, and the parent now stands, at x, for what
      the child stands for. */
  lemma WrittenKeeps(below: Utxo, here: Utxo, child: Utxo, parent: Option<Cache>, cache: Cache, x: Txid, e: Entry)
    requires EntriesOk(below, here, parent, cache) && EntryOk(here, child, x, e)
    requires !e.fFresh ==> x in cache
    ensures e.fDirty && x !in cache && Trim(e.coins.vout) != [] ==> e.fFresh
    ensures EntriesOk(below, Moved(here, child, x), parent, Written(cache, x, e))
  {
    var here' := Moved(here, child, x);
    assert here' - {x} == here - {x};
    if !e.fDirty {
      assert here' == here;
    } else if x !in cache {
      assert SameAt(here, below, x);
      if Trim(e.coins.vout) == [] {
        assert here' == here;
      } else {
        StoreKeeps(below, here, here', parent, cache, x, Entry(e.coins, true, true));
      }
    } else {
      assert EntryOk(below, here, x, cache[x]);
      if cache[x].fFresh && Trim(e.coins.vout) == [] {
        EraseKeeps(below, here, here', parent, cache, x);
      } else {
        StoreKeeps(below, here, here', parent, cache, x, Entry(e.coins, true, cache[x].fFresh));
      }
    }
  }

  // ----- The stack -----

  ghost function ParentOf(layers: seq<Layer>, i: nat): Option<Cache>
    requires i <= |layers|
  {
    if i == 0 then None else Some(layers[i - 1].cacheCoins)
  }

  ghost predicate LayerOk(layers: seq<Layer>, views: seq<Utxo>, i: nat)
    requires i < |layers| && |views| == |layers| + 1
  {
    EntriesOk(views[i], views[i + 1], ParentOf(layers, i), layers[i].cacheCoins)
  }

  ghost predicate StackOk(db: Utxo, layers: seq<Layer>, views: seq<Utxo>) {
    && |views| == |layers| + 1 && views[0] == db && DbOk(db)
    && forall i :: 0 <= i < |layers| ==> LayerOk(layers, views, i)
  }

  /** Only the caches of the layers up to level were filled further. */
  ghost predicate Filled(a: seq<Layer>, b: seq<Layer>, level: nat) {
    && |a| == |b|
    && forall i :: 0 <= i < |a| ==>
         && a[i].hasModifier == b[i].hasModifier
         && a[i].cacheCoins.Keys <= b[i].cacheCoins.Keys
         && (i > level ==> a[i] == b[i])
  }

  class CoinsViews {
    var db: Utxo
    var layers: seq<Layer>
    const usage: CCoins -> nat
    ghost var views: seq<Utxo>

    ghost predicate UsageOk(l: Layer) {
      l.cachedCoinsUsage == SumUsage(usage, l.cacheCoins)
    }

    ghost predicate Valid()
      reads this
    {
      && StackOk(db, layers, views)
      && forall i :: 0 <= i < |layers| ==> UsageOk(layers[i]) && !layers[i].hasModifier
    }

    /** The map the stack stands for. */
    ghost function Top(): Utxo
      reads this
      requires |views| > 0
    {
      views[|views| - 1]
    }

    constructor (db: Utxo, usage: CCoins -> nat)
      requires DbOk(db)
      ensures Valid() && this.db == db && this.usage == usage && views == [db]
    {
      this.db, this.usage := db, usage;
      layers := [];
      views := [db];
    }

    /** Construct a CCoinsViewCache on top of the last one (or of the database). */
    method Push()
      requires Valid()
      modifies this`layers, this`views
      ensures Valid() && views == old(views) + [old(Top())]
    {
      ghost var layers0, views0 := layers, views;
      layers := layers + [Layer(map[], false, 0)];
      views := views + [Top()];
      forall i | 0 <= i < |layers|
        ensures LayerOk(layers, views, i)
      {
        assert i < |layers0| ==> LayerOk(layers0, views0, i);
      }
    }

    /** Destroy the top cache without flushing it: its changes are forgotten. */
    method Pop()
      requires Valid() && layers != []
      modifies this`layers, this`views
      ensures Valid() && views == old(views)[..|old(views)| - 1]
    {
      ghost var layers0, views0 := layers, views;
      assert !layers[|layers| - 1].hasModifier;
      layers := layers[..|layers| - 1];
      views := views[..|views| - 1];
      forall i | 0 <= i < |layers|
        ensures LayerOk(layers, views, i)
      {
        assert LayerOk(layers0, views0, i);
      }
    }

    /** The entry of the cache at that level, pulled in from below if need be. */
    method FetchCoins(level: nat, txid: Txid) returns (r: Option<CCoins>)
      requires level < |layers| && StackOk(db, layers, views)
      requires forall i :: 0 <= i <= level ==> UsageOk(layers[i])
      modifies this`layers
      ensures StackOk(db, layers, views) && Filled(old(layers), layers, level)
      ensures forall i :: 0 <= i <= level ==> UsageOk(layers[i])
      ensures r.Some? <==> txid in layers[level].cacheCoins
      ensures r.Some? ==> r.value == layers[level].cacheCoins[txid].coins
      ensures match r case None => txid !in views[level + 1] case Some(c) => Shows(views[level + 1], txid, c)
      decreases level
    {
      if txid in layers[level].cacheCoins {
        assert LayerOk(layers, views, level);
        assert EntryOk(views[level], views[level + 1], txid, layers[level].cacheCoins[txid]);
        return Some(layers[level].cacheCoins[txid].coins);
      }
      r := BaseGetCoins(level, txid);
      assert LayerOk(layers, views, level);
      assert SameAt(views[level + 1], views[level], txid);
      if r.None? {
        return;
      }
      var fPruned := CheckPruned(r.value);
      InsertFetched(level, txid, r.value, fPruned);
    }

    /** base->GetCoins: the next cache down, or the database. */
    method BaseGetCoins(level: nat, txid: Txid) returns (r: Option<CCoins>)
      requires level < |layers| && StackOk(db, layers, views)
      requires forall i :: 0 <= i < level ==> UsageOk(layers[i])
      modifies this`layers
      ensures StackOk(db, layers, views) && |layers| == |old(layers)|
      ensures level > 0 ==> Filled(old(layers), layers, level - 1)
      ensures level == 0 ==> layers == old(layers)
      ensures forall i :: 0 <= i < level ==> UsageOk(layers[i])
      ensures match r case None => txid !in views[level] case Some(c) => Shows(views[level], txid, c)
      ensures r.Some? && level > 0 ==> txid in layers[level - 1].cacheCoins
      decreases level, 0
    {
      if level == 0 {
        return if txid in db then Some(db[txid]) else None;
      }
      r := FetchCoins(level - 1, txid);
    }

    method InsertFetched(level: nat, txid: Txid, coins: CCoins, fPruned: bool)
      requires level < |layers| && StackOk(db, layers, views) && txid !in layers[level].cacheCoins
      requires forall i :: 0 <= i <= level ==> UsageOk(layers[i])
      requires Shows(views[level], txid, coins) && fPruned == IsPruned(coins)
      requires level > 0 ==> txid in layers[level - 1].cacheCoins
      modifies this`layers
      ensures StackOk(db, layers, views) && Filled(old(layers), layers, level)
      ensures forall i :: 0 <= i <= level ==> UsageOk(layers[i])
      ensures txid in layers[level].cacheCoins && layers[level].cacheCoins[txid].coins == coins
      ensures Shows(views[level + 1], txid, coins)
    {
      ghost var layers0 := layers;
      var l := layers[level];
      var e := Entry(coins, false, fPruned);
      layers := layers[level := Layer(l.cacheCoins[txid := e], l.hasModifier, l.cachedCoinsUsage + usage(coins))];
      SumStore(usage, l.cacheCoins, txid, e);
      PrunedIffTrimmedEmpty(coins);
      StoreInStack(db, layers0, views, level, txid, e, layers);
    }

    // ----- Reading -----

    method AccessCoins(txid: Txid) returns (r: Option<CCoins>)
      requires Valid() && layers != []
      modifies this`layers
      ensures Valid() && |layers| == |old(layers)|
      ensures match r case None => txid !in Top() case Some(c) => Shows(Top(), txid, c)
    {
      r := FetchCoins(|layers| - 1, txid);
    }

    method HaveCoins(txid: Txid) returns (r: bool)
      requires Valid() && layers != []
      modifies this`layers
      ensures Valid() && |layers| == |old(layers)|
      ensures r <==> txid in Top()
    {
      var it := FetchCoins(|layers| - 1, txid);
      r := it.Some? && it.value.vout != [];
    }

    method HaveInputs(tx: Transaction) returns (r: bool)
      requires Valid() && layers != []
      modifies this`layers
      ensures Valid() && |layers| == |old(layers)|
      ensures r <==>
              tx.IsCoinBase() || forall i :: 0 <= i < |tx.vin| ==> IsAvailable(Get(Top(), tx.vin[i].hash), tx.vin[i].n)
    {
      if tx.IsCoinBase() {
        return true;
      }
      for i := 0 to |tx.vin|
        invariant Valid() && |layers| == |old(layers)|
        invariant forall k :: 0 <= k < i ==> IsAvailable(Get(Top(), tx.vin[k].hash), tx.vin[k].n)
      {
        var prevout := tx.vin[i];
        var coins := AccessCoins(prevout.hash);
        if coins.None? || !IsAvailable(coins.value, prevout.n) {
          return false;
        }
      }
      r := true;
    }

    // ----- Modifying -----

    /** A modifier for txid is out on the top cache; old is the usage its entry is still counted with. */
    ghost predicate Modifying(txid: Txid, oldUsage: int)
      reads this
    {
      && StackOk(db, layers, views) && layers != []
      && (forall i :: 0 <= i < |layers| - 1 ==> UsageOk(layers[i]) && !layers[i].hasModifier)
      && var l := layers[|layers| - 1];
      && l.hasModifier && txid in l.cacheCoins && l.cacheCoins[txid].fDirty
      && l.cachedCoinsUsage == SumUsage(usage, l.cacheCoins - {txid}) + oldUsage
    }

    method ModifyCoins(txid: Txid) returns (coins: CCoins, cachedCoinUsage: int)
      requires Valid() && layers != []
      modifies this`layers
      ensures Modifying(txid, cachedCoinUsage) && |layers| == |old(layers)|
      ensures Shows(Top(), txid, coins)
    {
      var top := |layers| - 1;
      assert !layers[top].hasModifier;
      var fFresh, found := false, txid in layers[top].cacheCoins;
      cachedCoinUsage := 0;
      assert LayerOk(layers, views, top);
      if found {
        coins := layers[top].cacheCoins[txid].coins;
        fFresh := layers[top].cacheCoins[txid].fFresh;
        cachedCoinUsage := usage(coins);
        assert EntryOk(views[top], views[top + 1], txid, layers[top].cacheCoins[txid]);
      } else {
        var base := BaseGetCoins(top, txid);
        assert LayerOk(layers, views, top);
        assert SameAt(views[top + 1], views[top], txid);
        if base.None? {
          coins, fFresh := EMPTY, true;
        } else {
          coins := base.value;
          fFresh := CheckPruned(coins);
          PrunedIffTrimmedEmpty(coins);
        }
      }
      SetModified(txid, coins, fFresh, cachedCoinUsage);
    }

    /** Flag the entry DIRTY and hand it out. */
    method SetModified(txid: Txid, coins: CCoins, fFresh: bool, cachedCoinUsage: int)
      requires StackOk(db, layers, views) && layers != []
      requires forall i :: 0 <= i < |layers| ==> UsageOk(layers[i]) && !layers[i].hasModifier
      requires EntryOk(views[|layers| - 1], Top(), txid, Entry(coins, true, fFresh))
      requires !fFresh && |layers| > 1 ==> txid in layers[|layers| - 2].cacheCoins
      requires var cache := layers[|layers| - 1].cacheCoins;
               cachedCoinUsage == if txid in cache then usage(cache[txid].coins) else 0
      modifies this`layers
      ensures Modifying(txid, cachedCoinUsage) && |layers| == |old(layers)|
    {
      ghost var layers0 := layers;
      var top := |layers| - 1;
      var l := layers[top];
      var e := Entry(coins, true, fFresh);
      layers := layers[top := Layer(l.cacheCoins[txid := e], true, l.cachedCoinsUsage)];
      assert LayerOk(layers0, views, top);
      StoreKeeps(views[top], Top(), Top(), ParentOf(layers0, top), l.cacheCoins, txid, e);
      TopChanged(db, layers0, views, layers, views);
      SumStore(usage, l.cacheCoins, txid, e);
      assert l.cacheCoins[txid := e] - {txid} == l.cacheCoins - {txid};
    }

    /** The destructor of the modifier: clean up, and drop the entry or count it anew. */
    method Release(txid: Txid, modified: CCoins, cachedCoinUsage: int)
      requires Modifying(txid, cachedCoinUsage)
      modifies this`layers, this`views
      ensures Valid() && |layers| == |old(layers)|
      ensures views == old(views)[|old(views)| - 1 := Put(old(Top()), txid, modified)]
    {
      hide Trim, IsPruned, SumUsage, LayerOk, Put;
      ghost var layers0, views0 := layers, views;
      var top := |layers| - 1;
      var l := layers[top];
      var fFresh := l.cacheCoins[txid].fFresh;
      var coins := Cleanup(modified);
      var fPruned := CheckPruned(coins);
      var nUsage := l.cachedCoinsUsage - cachedCoinUsage;
      ReleaseKeeps(usage, db, layers, views, txid, modified, fPruned);
      views := views[|views| - 1 := Put(Top(), txid, modified)];
      if fFresh && fPruned {
        layers := layers[top := Layer(l.cacheCoins - {txid}, false, nUsage)];
      } else {
        layers := layers[top := Layer(l.cacheCoins[txid := Entry(coins, true, fFresh)], false, nUsage + usage(coins))];
      }
    }

    // ----- Flushing -----

    /** One turn of the loop of BatchWrite. */
    method WriteEntry(l: Layer, txid: Txid, e: Entry) returns (r: Layer)
      requires UsageOk(l)
      requires e.fDirty && txid !in l.cacheCoins && Trim(e.coins.vout) != [] ==> e.fFresh
      ensures UsageOk(r) && r.cacheCoins == Written(l.cacheCoins, txid, e) && r.hasModifier == l.hasModifier
    {
      r := l;
      if e.fDirty {
        var fPruned := CheckPruned(e.coins);
        PrunedIffTrimmedEmpty(e.coins);
        var n := Entry(e.coins, true, true);
        SumStore(usage, l.cacheCoins, txid, n);
        if txid !in l.cacheCoins {
          if !fPruned {
            assert e.fFresh;
            r := Layer(l.cacheCoins[txid := n], l.hasModifier, l.cachedCoinsUsage + usage(e.coins));
          }
        } else {
          var us := l.cacheCoins[txid];
          if us.fFresh && fPruned {
            r := Layer(l.cacheCoins - {txid}, l.hasModifier, l.cachedCoinsUsage - usage(us.coins));
          } else {
            r := Layer(l.cacheCoins[txid := Entry(e.coins, true, us.fFresh)], l.hasModifier,
                       l.cachedCoinsUsage - usage(us.coins) + usage(e.coins));
            SumStore(usage, l.cacheCoins, txid, Entry(e.coins, true, us.fFresh));
          }
        }
      }
    }

    /** BatchWrite into the cache at that level, from a child standing for child. */
    method BatchWrite(level: nat, mapCoinsIn: Cache, ghost child: Utxo)
      requires level < |layers| && |views| == |layers| + 1
      requires UsageOk(layers[level]) && !layers[level].hasModifier && LayerOk(layers, views, level)
      requires EntriesOk(views[level + 1], child, Some(layers[level].cacheCoins), mapCoinsIn)
      modifies this`layers, this`views
      ensures |layers| == |old(layers)| && layers == old(layers)[level := layers[level]]
      ensures views == old(views)[level + 1 := child]
      ensures UsageOk(layers[level]) && !layers[level].hasModifier && LayerOk(layers, views, level)
    {
      var l, mapCoins := layers[level], mapCoinsIn;
      ghost var here := views[level + 1];
      ghost var parent := ParentOf(layers, level);
      while mapCoins != map[]
        invariant layers == old(layers) && views == old(views)
        invariant UsageOk(l) && !l.hasModifier
        invariant EntriesOk(views[level], here, parent, l.cacheCoins)
        invariant EntriesOk(here, child, Some(l.cacheCoins), mapCoins)
        decreases |mapCoins|
      {
        var txid :| txid in mapCoins;
        var e := mapCoins[txid];
        assert EntryOk(here, child, txid, e);
        WrittenKeeps(views[level], here, child, parent, l.cacheCoins, txid, e);
        StillPending(here, child, l.cacheCoins, mapCoins, txid);
        l := WriteEntry(l, txid, e);
        mapCoins := mapCoins - {txid};
        here := Moved(here, child, txid);
      }
      NothingPending(here, child, Some(l.cacheCoins));
      layers := layers[level := l];
      views := views[level + 1 := child];
    }

    /** BatchWrite into the database: pruned coins are erased, others written. */
    method DbBatchWrite(mapCoinsIn: Cache, ghost child: Utxo)
      requires EntriesOk(db, child, None, mapCoinsIn)
      modifies this`db
      ensures db == child
    {
      var batch, mapCoins := db, mapCoinsIn;
      while mapCoins != map[]
        invariant EntriesOk(batch, child, None, mapCoins)
        decreases |mapCoins|
      {
        var txid :| txid in mapCoins;
        var e := mapCoins[txid];
        assert EntryOk(batch, child, txid, e);
        StillPending(batch, child, map[], mapCoins, txid);
        if e.fDirty {
          var fPruned := CheckPruned(e.coins);
          PrunedIffTrimmedEmpty(e.coins);
          batch := if fPruned then batch - {txid} else batch[txid := e.coins];
        }
        mapCoins := mapCoins - {txid};
      }
      NothingPending(batch, child, None);
      db := batch;
    }

    /** Push the modifications of the top cache to its base. */
    method Flush()
      requires Valid() && layers != []
      modifies this
      ensures Valid() && |layers| == |old(layers)|
      ensures views == old(views)[|old(views)| - 2 := old(Top())]
    {
      hide EntriesOk, EntryOk, Shows, SameAt, DbOk;
      ghost var layers0, views0 := layers, views;
      var top := |layers| - 1;
      assert LayerOk(layers0, views0, top);
      ViewsOk(db, layers, views, top + 1);
      if top == 0 {
        DbBatchWrite(layers[top].cacheCoins, Top());
        views := views[0 := Top()];
      } else {
        assert LayerOk(layers0, views0, top - 1);
        BatchWrite(top - 1, layers[top].cacheCoins, Top());
      }
      layers := layers[top := Layer(map[], false, 0)];
      FlushedOk(layers0, views0, layers, views);
    }
  }

  /** The top cache once a modifier is released. */
  ghost function Released(cache: Cache, txid: Txid, modified: CCoins, fPruned: bool): Cache
    requires txid in cache
  {
    if cache[txid].fFresh && fPruned then cache - {txid}
    else cache[txid := Entry(Cleaned(modified), true, cache[txid].fFresh)]
  }

  /** Releasing a modifier keeps the stack, whatever the usage counts and modifier flags. */
  lemma ReleaseKeeps(usage: CCoins -> nat, db: Utxo, layers: seq<Layer>, views: seq<Utxo>, txid: Txid,
                     modified: CCoins, fPruned: bool)
    requires StackOk(db, layers, views) && layers != [] && fPruned == IsPruned(Cleaned(modified))
    requires txid in layers[|layers| - 1].cacheCoins
    ensures var cache := layers[|layers| - 1].cacheCoins; var cache' := Released(cache, txid, modified, fPruned);
            && (forall hasModifier, n :: StackOk(db, layers[|layers| - 1 := Layer(cache', hasModifier, n)],
                                                 views[|layers| := Put(views[|layers|], txid, modified)]))
            && SumUsage(usage, cache') == SumUsage(usage, cache - {txid})
                 + (if cache[txid].fFresh && fPruned then 0 else usage(Cleaned(modified)))
  {
    var top := |layers| - 1;
    var cache := layers[top].cacheCoins;
    var cache' := Released(cache, txid, modified, fPruned);
    var here := Put(views[|layers|], txid, modified);
    assert LayerOk(layers, views, top);
    ReleasedEntries(views[top], views[top + 1], ParentOf(layers, top), cache, txid, modified, fPruned);
    SumStore(usage, cache, txid, Entry(Cleaned(modified), true, cache[txid].fFresh));
    forall hasModifier, n
      ensures StackOk(db, layers[top := Layer(cache', hasModifier, n)], views[|layers| := here])
    {
      TopChanged(db, layers, views, layers[top := Layer(cache', hasModifier, n)], views[|layers| := here]);
    }
  }

  lemma ReleasedEntries(below: Utxo, here: Utxo, parent: Option<Cache>, cache: Cache, txid: Txid, modified: CCoins,
                        fPruned: bool)
    requires EntriesOk(below, here, parent, cache) && txid in cache && fPruned == IsPruned(Cleaned(modified))
    ensures EntriesOk(below, Put(here, txid, modified), parent, Released(cache, txid, modified, fPruned))
  {
    assert EntryOk(below, here, txid, cache[txid]);
    PutShows(here, txid, modified);
    PrunedIffTrimmedEmpty(Cleaned(modified));
    TrimOk(Cleaned(modified).vout);
    hide EntriesOk, Trim, IsPruned;
    if cache[txid].fFresh && fPruned {
      EraseKeeps(below, here, Put(here, txid, modified), parent, cache, txid);
    } else {
      StoreKeepsAll(below, here, Put(here, txid, modified), parent, cache, txid,
                    Entry(Cleaned(modified), true, cache[txid].fFresh));
    }
  }

  /** An entry replaced by one as fresh. */
  lemma StoreKeepsAll(below: Utxo, here: Utxo, here': Utxo, parent: Option<Cache>, cache: Cache, x: Txid, e: Entry)
    requires EntriesOk(below, here, parent, cache) && EntryOk(below, here', x, e)
    requires here - {x} == here' - {x} && x in cache && e.fFresh == cache[x].fFresh
    ensures EntriesOk(below, here', parent, cache[x := e])
  {
    StoreKeeps(below, here, here', parent, cache, x, e);
  }

  /** A stack whose top layer and map were replaced. */
  lemma TopChanged(db: Utxo, layers: seq<Layer>, views: seq<Utxo>, layers': seq<Layer>, views': seq<Utxo>)
    requires StackOk(db, layers, views) && layers != []
    requires |layers'| == |layers| && layers'[..|layers| - 1] == layers[..|layers| - 1]
    requires |views'| == |views| && views'[..|layers|] == views[..|layers|]
    requires LayerOk(layers', views', |layers| - 1)
    ensures StackOk(db, layers', views')
  {
    forall i | 0 <= i < |layers'|
      ensures LayerOk(layers', views', i)
    {
      assert LayerOk(layers, views, i);
      assert i < |layers| - 1 ==> layers'[i] == layers'[..|layers| - 1][i] == layers[i];
      assert i > 0 ==> layers'[i - 1] == layers'[..|layers| - 1][i - 1] == layers[i - 1];
      assert views'[i] == views'[..|layers|][i] == views[i];
      assert i < |layers| - 1 ==> views'[i + 1] == views'[..|layers|][i + 1] == views[i + 1];
    }
    assert views'[0] == views'[..|layers|][0];
  }

  lemma PutShows(m: Utxo, x: Txid, c: CCoins)
    ensures Shows(Put(m, x, c), x, Cleaned(c))
    ensures m - {x} == Put(m, x, c) - {x}
  {
    TrimOk(Cleaned(c).vout);
  }

  /** The rest of a batch once the entry of x has been moved to the parent. */
  lemma StillPending(here: Utxo, child: Utxo, cache: Cache, batch: Cache, x: Txid)
    requires x in batch && EntryOk(here, child, x, batch[x])
    requires EntriesOk(here, child, Some(cache), batch) || EntriesOk(here, child, None, batch)
    ensures EntriesOk(here, child, Some(cache), batch) ==>
              EntriesOk(Moved(here, child, x), child, Some(Written(cache, x, batch[x])), batch - {x})
    ensures EntriesOk(Moved(here, child, x), child, None, batch - {x})
    ensures !batch[x].fDirty ==> Moved(here, child, x) == here
    ensures batch[x].fDirty ==>
              (Moved(here, child, x) ==
               if Trim(batch[x].coins.vout) == [] then here - {x} else here[x := batch[x].coins])
  {
    var here', batch' := Moved(here, child, x), batch - {x};
    assert here' - {x} == here - {x};
    forall y | y in batch'
      ensures EntryOk(here', child, y, batch'[y])
    {
      assert EntryOk(here, child, y, batch[y]);
      SameElsewhere(here, here', x, y);
    }
    forall y | y !in batch'
      ensures SameAt(child, here', y)
    {
      if y != x {
        assert SameAt(child, here, y);
        SameElsewhere(here, here', x, y);
      }
    }
  }

  lemma NothingPending(here: Utxo, child: Utxo, parent: Option<Cache>)
    requires EntriesOk(here, child, parent, map[])
    ensures here == child
  {
    forall x
      ensures x in here <==> x in child
      ensures x in here ==> here[x] == child[x]
    {
      assert SameAt(child, here, x);
    }
  }

  /** Every map of the stack holds only coins with something unspent. */
  lemma {:induction false} ViewsOk(db: Utxo, layers: seq<Layer>, views: seq<Utxo>, i: nat)
    requires StackOk(db, layers, views) && i <= |layers|
    ensures DbOk(views[i])
  {
    if i > 0 {
      ViewsOk(db, layers, views, i - 1);
      assert LayerOk(layers, views, i - 1);
      var below, here, cache := views[i - 1], views[i], layers[i - 1].cacheCoins;
      forall x | x in here
        ensures Shows(here, x, here[x])
      {
        if x in cache {
          assert EntryOk(below, here, x, cache[x]);
        } else {
          assert SameAt(here, below, x);
        }
      }
    }
  }

  lemma FlushedOk(layers: seq<Layer>, views: seq<Utxo>, layers': seq<Layer>, views': seq<Utxo>)
    requires layers != [] && views != [] && StackOk(views[0], layers, views) && DbOk(views[|views| - 1])
    requires var top := |layers| - 1;
             && |layers'| == |layers| && layers'[top].cacheCoins == map[]
             && (forall i :: 0 <= i < top - 1 ==> layers'[i] == layers[i])
             && views' == views[top := views[top + 1]]
             && (top > 0 ==>
                 EntriesOk(views[top - 1], views[top + 1], ParentOf(layers, top - 1), layers'[top - 1].cacheCoins))
    ensures StackOk(views'[0], layers', views')
  {
    hide EntryOk, DbOk;
    forall i | 0 <= i < |layers'|
      ensures LayerOk(layers', views', i)
    {
      assert LayerOk(layers, views, i);
    }
  }

  lemma StoreInStack(db: Utxo, layers: seq<Layer>, views: seq<Utxo>, level: nat, x: Txid, e: Entry, layers': seq<Layer>)
    requires StackOk(db, layers, views) && level < |layers| && x !in layers[level].cacheCoins
    requires Shows(views[level], x, e.coins) && (e.fFresh ==> e.coins.vout == [])
    requires level > 0 && !e.fFresh ==> x in layers[level - 1].cacheCoins
    requires |layers'| == |layers| && layers'[level].cacheCoins == layers[level].cacheCoins[x := e]
    requires forall i :: 0 <= i < |layers| && i != level ==> layers'[i] == layers[i]
    ensures StackOk(db, layers', views) && Shows(views[level + 1], x, e.coins)
  {
    assert LayerOk(layers, views, level);
    assert SameAt(views[level + 1], views[level], x);
    StoreKeeps(views[level], views[level + 1], views[level + 1], ParentOf(layers, level), layers[level].cacheCoins, x,
               e);
    forall i | 0 <= i < |layers'|
      ensures LayerOk(layers', views, i)
    {
      assert LayerOk(layers, views, i);
      if i == level + 1 {
        ParentMayGrow(views[i], views[i + 1], layers[level].cacheCoins, layers'[level].cacheCoins,
                      layers[i].cacheCoins);
      }
    }
  }
}
