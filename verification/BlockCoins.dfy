/** ConnectBlock, DisconnectBlock and their callers on a stack of coin caches (src/main.cpp), proved
    against the flat map. */
module BlockCoins {
  import opened Options
  import opened Coins
  import opened BlockUndo
  import opened CoinsCache

  // ----- Connecting -----

  /** Spend one input and record how to restore it; the assertion is that of the source. */
  method SpendInput(inputs: CoinsViews, out: OutPoint) returns (undo: TxInUndo)
    requires inputs.Valid() && inputs.layers != []
    requires IsAvailable(Get(inputs.Top(), out.hash), out.n)
    modifies inputs
    ensures inputs.Valid() && |inputs.layers| == |old(inputs.layers)|
    ensures inputs.views == old(inputs.views)[|old(inputs.views)| - 1 := SpendOne(old(inputs.Top()), out)]
    ensures undo == UndoOf(Get(old(inputs.Top()), out.hash), out.n)
  {
    hide CoinsViews.Valid, CoinsViews.Modifying;
    ValidViews(inputs);
    var coins, usage := inputs.ModifyCoins(out.hash);
    var nPos := out.n;
    if nPos >= |coins.vout| || coins.vout[nPos].IsNull() {
      assert false;
    }
    undo := TxInUndo(coins.vout[nPos], false, 0, 0);
    var spent, _ := Spend(coins, nPos);
    if |spent.vout| == 0 {
      undo := TxInUndo(undo.txout, coins.fCoinBase, coins.nHeight, coins.nVersion);
    }
    inputs.Release(out.hash, spent, usage);
  }

  lemma ValidViews(v: CoinsViews)
    requires v.Valid()
    ensures |v.views| == |v.layers| + 1
  {
  }

  /** The loop of UpdateCoins over the inputs. */
  method SpendInputsOf(vin: seq<OutPoint>, inputs: CoinsViews) returns (txundo: seq<TxInUndo>)
    requires inputs.Valid() && inputs.layers != [] && UtxoOk(inputs.Top())
    requires AllAvailable(inputs.Top(), vin) && NoDuplicates(vin)
    modifies inputs
    ensures inputs.Valid() && |inputs.layers| == |old(inputs.layers)|
    ensures inputs.views == old(inputs.views)[|old(inputs.views)| - 1 := inputs.Top()]
    ensures SpendAll(old(inputs.Top()), vin) == Some((inputs.Top(), txundo))
  {
    hide CoinsViews.Valid, UtxoOk, AllAvailable, NoDuplicates, IsAvailable, UndoOf, SpendOne;
    ValidViews(inputs);
    ghost var m := inputs.Top();
    txundo := [];
    for j := 0 to |vin|
      invariant inputs.Valid() && |inputs.layers| == |old(inputs.layers)| && |inputs.views| == |old(inputs.views)|
      invariant inputs.views == old(inputs.views)[|old(inputs.views)| - 1 := inputs.Top()]
      invariant SpendAll(m, vin[..j]) == Some((inputs.Top(), txundo))
    {
      NextIsThere(m, vin, j);
      assert vin[..j + 1][..j] == vin[..j];
      var undo := SpendInput(inputs, vin[j]);
      txundo := txundo + [undo];
    }
    assert vin[..|vin|] == vin;
  }

  /** Behind its callers' checks UpdateCoins spends all inputs and adds the outputs. */
  method UpdateCoins(tx: Transaction, inputs: CoinsViews, nHeight: int) returns (txundo: seq<TxInUndo>)
    requires inputs.Valid() && inputs.layers != [] && UtxoOk(inputs.Top())
    requires tx.IsCoinBase() || (AllAvailable(inputs.Top(), tx.vin) && NoDuplicates(tx.vin))
    modifies inputs
    ensures inputs.Valid() && |inputs.layers| == |old(inputs.layers)|
    ensures inputs.views == old(inputs.views)[|old(inputs.views)| - 1 := inputs.Top()]
    ensures UpdateCoinsValue(old(inputs.Top()), tx, nHeight) == Some((inputs.Top(), txundo))
  {
    hide CoinsViews.Valid, CoinsViews.Modifying, UtxoOk, FromTxValue, SpendAll, AllAvailable, NoDuplicates;
    ValidViews(inputs);
    txundo := [];
    if !tx.IsCoinBase() {
      txundo := SpendInputsOf(tx.vin, inputs);
    }
    var coins, usage := inputs.ModifyCoins(tx.hash);
    coins := FromTx(tx, nHeight);
    inputs.Release(tx.hash, coins, usage);
  }

  lemma NextIsThere(m: Utxo, vin: seq<OutPoint>, j: nat)
    requires UtxoOk(m) && AllAvailable(m, vin) && NoDuplicates(vin) && j < |vin| && SpendAll(m, vin[..j]).Some?
    ensures IsAvailable(Get(SpendAll(m, vin[..j]).value.0, vin[j].hash), vin[j].n)
  {
    SpendAllKeepsOthers(m, vin[..j], vin[j]);
  }

  /** The verdicts of ConnectBlock on the first k transactions: every input of the second and later ones
      is there at its turn, and the oracle accept (signature operations, CheckInputs) lets them pass. */
  ghost predicate Accepted(m: Utxo, vtx: seq<Transaction>, nHeight: int, accept: seq<bool>, k: nat)
    requires k <= |vtx| == |accept|
  {
    k > 0 ==>
      && Accepted(m, vtx, nHeight, accept, k - 1) && accept[k - 1]
      && ConnectTo(m, vtx, nHeight, k - 1).Some?
      && (vtx[k - 1].IsCoinBase() || AllAvailable(ConnectTo(m, vtx, nHeight, k - 1).value.0, vtx[k - 1].vin))
  }

  lemma {:induction false} AcceptedBefore(m: Utxo, vtx: seq<Transaction>, nHeight: int, accept: seq<bool>, i: nat,
                                          k: nat)
    requires i <= k <= |vtx| == |accept| && Accepted(m, vtx, nHeight, accept, k)
    ensures Accepted(m, vtx, nHeight, accept, i)
  {
    if i < k {
      AcceptedBefore(m, vtx, nHeight, accept, i, k - 1);
    }
  }

  /** The loop of the BIP 30 check. */
  method CheckBip30(view: CoinsViews, vtx: seq<Transaction>) returns (ok: bool)
    requires view.Valid() && view.layers != []
    modifies view`layers
    ensures view.Valid() && |view.layers| == |old(view.layers)|
    ensures ok <==> Bip30(view.Top(), vtx)
  {
    for i := 0 to |vtx|
      invariant view.Valid() && |view.layers| == |old(view.layers)|
      invariant forall k :: 0 <= k < i ==> vtx[k].hash !in view.Top()
    {
      var coins := view.AccessCoins(vtx[i].hash);
      if coins.Some? {
        var fPruned := CheckPruned(coins.value);
        PrunedIffTrimmedEmpty(coins.value);
        if !fPruned {
          return false;
        }
      }
    }
    ok := true;
  }

  /** The coin updates of ConnectBlock.  On success the view stands for what ConnectTo says, and it
      succeeds exactly if every check does. */
  method ConnectBlock(vtx: seq<Transaction>, nHeight: int, view: CoinsViews, fEnforceBIP30: bool, accept: seq<bool>)
    returns (ok: bool, vtxundo: seq<seq<TxInUndo>>)
    requires view.Valid() && view.layers != [] && UtxoOk(view.Top())
    requires BlockOk(vtx) && nHeight > 0 && |accept| == |vtx|
    modifies view
    ensures view.Valid() && |view.layers| == |old(view.layers)|
    ensures view.views == old(view.views)[|old(view.views)| - 1 := view.Top()]
    ensures ok <==>
            (fEnforceBIP30 ==> Bip30(old(view.Top()), vtx)) && Accepted(old(view.Top()), vtx, nHeight, accept, |vtx|)
    ensures ok ==> ConnectTo(old(view.Top()), vtx, nHeight, |vtx|) == Some((view.Top(), vtxundo))
  {
    hide CoinsViews.Valid, UtxoOk, SpendAll, UpdateCoinsValue, AllAvailable, Bip30;
    ValidViews(view);
    ghost var m := view.Top();
    vtxundo := [];
    if fEnforceBIP30 {
      ok := CheckBip30(view, vtx);
      if !ok {
        return;
      }
    }
    ValidViews(view);
    for i := 0 to |vtx|
      invariant view.Valid() && |view.layers| == |old(view.layers)| && |view.views| == |old(view.views)|
      invariant view.views == old(view.views)[|old(view.views)| - 1 := view.Top()]
      invariant Accepted(m, vtx, nHeight, accept, i)
      invariant ConnectTo(m, vtx, nHeight, i) == Some((view.Top(), vtxundo))
    {
      ConnectToOk(m, vtx, nHeight, i);
      var pass := CheckTransactionInputs(vtx[i], view, accept[i]);
      if !pass {
        ok := false;
        NotAccepted(m, vtx, nHeight, accept, i + 1);
        return;
      }
      ValidViews(view);
      var txundo := UpdateCoins(vtx[i], view, nHeight);
      if i > 0 {
        vtxundo := vtxundo + [txundo];
      }
      ValidViews(view);
    }
    ok := true;
  }

  method CheckTransactionInputs(tx: Transaction, view: CoinsViews, accept: bool) returns (ok: bool)
    requires view.Valid() && view.layers != []
    modifies view`layers
    ensures view.Valid() && |view.layers| == |old(view.layers)|
    ensures ok <==> accept && (tx.IsCoinBase() || AllAvailable(view.Top(), tx.vin))
  {
    if !tx.IsCoinBase() {
      var have := view.HaveInputs(tx);
      if !have {
        return false;
      }
    }
    ok := accept;
  }

  lemma NotAccepted(m: Utxo, vtx: seq<Transaction>, nHeight: int, accept: seq<bool>, k: nat)
    requires k <= |vtx| == |accept| && !Accepted(m, vtx, nHeight, accept, k)
    ensures !Accepted(m, vtx, nHeight, accept, |vtx|)
  {
    if Accepted(m, vtx, nHeight, accept, |vtx|) {
      AcceptedBefore(m, vtx, nHeight, accept, k, |vtx|);
    }
  }

  // ----- Disconnecting -----

  /** Apply one undo record.  It reports clean exactly if none of the three complaints is due, and then
      the map is the one RestoreOne says; otherwise only the one entry changed. */
  method ApplyTxInUndo(undo: TxInUndo, view: CoinsViews, out: OutPoint) returns (fClean: bool)
    requires view.Valid() && view.layers != []
    modifies view
    ensures view.Valid() && |view.layers| == |old(view.layers)|
    ensures view.views == old(view.views)[|old(view.views)| - 1 := view.Top()]
    ensures fClean <==> UndoClean(undo, Get(old(view.Top()), out.hash), out.n)
    ensures fClean ==> view.Top() == RestoreOne(old(view.Top()), undo, out)
    ensures view.Top() - {out.hash} == old(view.Top()) - {out.hash}
  {
    hide CoinsViews.Valid, CoinsViews.Modifying, UndoClean, WithOut, UndoBase;
    ValidViews(view);
    var coins, usage := view.ModifyCoins(out.hash);
    SameUndo(view.Top(), out.hash, coins, undo, out.n);
    coins, fClean := UndoCoins(undo, coins, out.n);
    PutShows(view.Top(), out.hash, coins);
    view.Release(out.hash, coins, usage);
  }

  /** The coins with the output restored, and whether none of the complaints was due. */
  method UndoCoins(undo: TxInUndo, coinsIn: CCoins, n: nat) returns (coins: CCoins, fClean: bool)
    ensures fClean <==> UndoClean(undo, coinsIn, n)
    ensures coins == WithOut(UndoBase(undo, coinsIn), n, undo.txout)
  {
    coins, fClean := coinsIn, true;
    var fPruned := CheckPruned(coins);
    if undo.nHeight != 0 {
      if !fPruned {
        fClean := false;
      }
      coins := CCoins(undo.fCoinBase, [], undo.nHeight, undo.nVersion);
    } else {
      if fPruned {
        fClean := false;
      }
    }
    if IsAvailable(coins, n) {
      fClean := false;
    }
    if |coins.vout| < n + 1 {
      coins := coins.(vout := coins.vout + seq(n + 1 - |coins.vout|, i => NULL_OUT));
    }
    coins := coins.(vout := coins.vout[n := undo.txout]);
  }

  /** Coins handed out for a transaction without unspent outputs are as good as none. */
  lemma SameUndo(m: Utxo, x: Txid, c: CCoins, undo: TxInUndo, n: nat)
    requires Shows(m, x, c)
    ensures UndoClean(undo, c, n) <==> UndoClean(undo, Get(m, x), n)
    ensures UndoClean(undo, c, n) ==>
            WithOut(UndoBase(undo, c), n, undo.txout) == WithOut(UndoBase(undo, Get(m, x)), n, undo.txout)
  {
    PrunedIffTrimmedEmpty(c);
    PrunedIffTrimmedEmpty(Get(m, x));
  }

  method RestoreInputs(vin: seq<OutPoint>, undos: seq<TxInUndo>, view: CoinsViews) returns (fClean: bool)
    requires view.Valid() && view.layers != [] && |undos| == |vin|
    modifies view
    ensures view.Valid() && |view.layers| == |old(view.layers)|
    ensures view.views == old(view.views)[|old(view.views)| - 1 := view.Top()]
    ensures fClean <==> RestoreAll(old(view.Top()), vin, undos).1
    ensures fClean ==> view.Top() == RestoreAll(old(view.Top()), vin, undos).0
  {
    hide CoinsViews.Valid, UndoClean, RestoreOne;
    ValidViews(view);
    ghost var m := view.Top();
    fClean := true;
    var j := |vin|;
    assert vin[..j] == vin && undos[..j] == undos;
    while j > 0
      invariant 0 <= j <= |vin|
      invariant view.Valid() && |view.layers| == |old(view.layers)| && |view.views| == |old(view.views)|
      invariant view.views == old(view.views)[|old(view.views)| - 1 := view.Top()]
      invariant fClean ==> RestoreAll(m, vin, undos) == RestoreAll(view.Top(), vin[..j], undos[..j])
      invariant !fClean ==> !RestoreAll(m, vin, undos).1
    {
      j := j - 1;
      assert vin[..j + 1][..j] == vin[..j] && undos[..j + 1][..j] == undos[..j];
      var ok := ApplyTxInUndo(undos[j], view, vin[j]);
      if !ok {
        fClean := false;
      }
      ValidViews(view);
    }
  }

  /** Compare the outputs found with those of the block, then remove them. */
  method RemoveOutputs(tx: Transaction, nHeight: int, view: CoinsViews) returns (fClean: bool)
    requires view.Valid() && view.layers != []
    modifies view
    ensures view.Valid() && |view.layers| == |old(view.layers)|
    ensures view.views == old(view.views)[|old(view.views)| - 1 := old(view.Top()) - {tx.hash}]
    ensures fClean <==> OutsClean(old(view.Top()), tx, nHeight)
  {
    hide CoinsViews.Valid, CoinsViews.Modifying;
    ValidViews(view);
    var coins, usage := view.ModifyCoins(tx.hash);
    var outs := ClearUnspendable(coins);
    var outsBlock := FromTx(tx, nHeight);
    if outsBlock.nVersion < 0 {
      outs := outs.(nVersion := outsBlock.nVersion);
    }
    var fPruned := CheckPruned(outs);
    var fPrunedBlock := CheckPruned(outsBlock);
    fClean := (fPruned && fPrunedBlock) || outs == outsBlock;
    view.Release(tx.hash, EMPTY, usage);
  }

  /** The undo data have the shape of the block. */
  predicate UndoSizes(vtx: seq<Transaction>, vtxundo: seq<seq<TxInUndo>>, k: nat)
    requires k <= |vtx| == |vtxundo| + 1
  {
    forall i :: k <= i < |vtx| && i > 0 ==> |vtxundo[i - 1]| == |vtx[i].vin|
  }

  /** Undo a block's effect on the coins.  ok: the undo data fit; fClean: nothing unexpected was found, and
      then the view stands for what DisconnectFrom says. */
  method DisconnectBlock(vtx: seq<Transaction>, vtxundo: seq<seq<TxInUndo>>, nHeight: int, view: CoinsViews)
    returns (ok: bool, fClean: bool)
    requires view.Valid() && view.layers != []
    modifies view
    ensures view.Valid() && |view.layers| == |old(view.layers)|
    ensures view.views == old(view.views)[|old(view.views)| - 1 := view.Top()]
    ensures ok <==> |vtxundo| + 1 == |vtx| && UndoSizes(vtx, vtxundo, 0)
    ensures |vtxundo| + 1 == |vtx| ==>
              var r := DisconnectFrom(old(view.Top()), vtx, vtxundo, nHeight, |vtx|);
              && (ok && fClean <==> r.Some? && r.value.1)
              && (ok && fClean ==> view.Top() == r.value.0)
  {
    hide CoinsViews.Valid, OutsClean, RestoreAll;
    ValidViews(view);
    ghost var m := view.Top();
    fClean := true;
    if |vtxundo| + 1 != |vtx| {
      return false, false;
    }
    ghost var r := DisconnectFrom(m, vtx, vtxundo, nHeight, |vtx|);
    var i := |vtx|;
    while i > 0
      invariant 0 <= i <= |vtx| && UndoSizes(vtx, vtxundo, i)
      invariant view.Valid() && |view.layers| == |old(view.layers)| && |view.views| == |old(view.views)|
      invariant view.views == old(view.views)[|old(view.views)| - 1 := view.Top()]
      invariant fClean ==> r == DisconnectFrom(view.Top(), vtx, vtxundo, nHeight, i)
      invariant !fClean ==> r.None? || !r.value.1
    {
      i := i - 1;
      var clean := RemoveOutputs(vtx[i], nHeight, view);
      ValidViews(view);
      if i > 0 {
        if |vtxundo[i - 1]| != |vtx[i].vin| {
          return false, false;
        }
        var clean2 := RestoreInputs(vtx[i].vin, vtxundo[i - 1], view);
        ValidViews(view);
        clean := clean && clean2;
      }
      if !clean {
        fClean := false;
      }
    }
    ok := true;
  }

  // ----- On a cache of their own -----

  /** The coins side of ConnectTip: connect on a cache on top of the tip's, flushed only on success. */
  method ConnectTip(vtx: seq<Transaction>, nHeight: int, tip: CoinsViews, fEnforceBIP30: bool, accept: seq<bool>)
    returns (ok: bool, vtxundo: seq<seq<TxInUndo>>)
    requires tip.Valid() && tip.layers != [] && UtxoOk(tip.Top())
    requires BlockOk(vtx) && nHeight > 0 && |accept| == |vtx|
    modifies tip
    ensures tip.Valid() && tip.layers != []
    ensures !ok ==> tip.views == old(tip.views)
    ensures ok ==> tip.views == old(tip.views)[|old(tip.views)| - 1 := tip.Top()]
    ensures ok ==> ConnectTo(old(tip.Top()), vtx, nHeight, |vtx|) == Some((tip.Top(), vtxundo))
    ensures ok ==> UtxoOk(tip.Top()) && |vtxundo| + 1 == |vtx| && (fEnforceBIP30 ==> Bip30(old(tip.Top()), vtx))
  {
    hide CoinsViews.Valid, UtxoOk, Bip30, ConnectTo, Accepted;
    ValidViews(tip);
    ghost var m := tip.Top();
    tip.Push();
    ValidViews(tip);
    ok, vtxundo := ConnectBlock(vtx, nHeight, tip, fEnforceBIP30, accept);
    if ok {
      ConnectToOk(m, vtx, nHeight, |vtx|);
      ValidViews(tip);
      tip.Flush();
    }
    ValidViews(tip);
    tip.Pop();
    ValidViews(tip);
  }

  /** The coins side of DisconnectTip; fails, leaving the tip's coins alone, unless all was clean. */
  method DisconnectTip(vtx: seq<Transaction>, vtxundo: seq<seq<TxInUndo>>, nHeight: int, tip: CoinsViews)
    returns (ok: bool)
    requires tip.Valid() && tip.layers != [] && |vtxundo| + 1 == |vtx|
    modifies tip
    ensures tip.Valid() && tip.layers != []
    ensures !ok ==> tip.views == old(tip.views)
    ensures ok ==> tip.views == old(tip.views)[|old(tip.views)| - 1 := tip.Top()]
    ensures var r := DisconnectFrom(old(tip.Top()), vtx, vtxundo, nHeight, |vtx|);
            (ok <==> r.Some? && r.value.1) && (ok ==> tip.Top() == r.value.0)
  {
    hide CoinsViews.Valid, DisconnectFrom;
    ValidViews(tip);
    tip.Push();
    ValidViews(tip);
    var fits, fClean := DisconnectBlock(vtx, vtxundo, nHeight, tip);
    ok := fits && fClean;
    ValidViews(tip);
    if ok {
      tip.Flush();
    }
    ValidViews(tip);
    tip.Pop();
    ValidViews(tip);
  }

  /** A tip connected and disconnected again leaves every map of the stack as it was. */
  method ConnectThenDisconnect(vtx: seq<Transaction>, nHeight: int, tip: CoinsViews, accept: seq<bool>)
    returns (connected: bool, ok: bool)
    requires tip.Valid() && tip.layers != [] && UtxoOk(tip.Top())
    requires BlockOk(vtx) && nHeight > 0 && |accept| == |vtx|
    modifies tip
    ensures tip.Valid() && tip.views == old(tip.views)
    ensures connected ==> ok
  {
    hide CoinsViews.Valid, UtxoOk, BlockOk, Bip30, ConnectTo, DisconnectFrom;
    ValidViews(tip);
    ghost var m := tip.Top();
    var vtxundo;
    connected, vtxundo := ConnectTip(vtx, nHeight, tip, true, accept);
    ok := false;
    if connected {
      DisconnectRestores(m, vtx, nHeight);
      ok := DisconnectTip(vtx, vtxundo, nHeight, tip);
    }
  }
}
