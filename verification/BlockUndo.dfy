/** Connecting a block's transactions to the flat map of unspent outputs, and disconnecting them again
    from the undo data (src/main.cpp: UpdateCoins, ConnectBlock, ApplyTxInUndo, DisconnectBlock). */
module BlockUndo {
  import opened Options
  import opened Coins

  // ----- The inputs of one transaction -----

  /** What HaveInputs asks. */
  predicate AllAvailable(m: Utxo, vin: seq<OutPoint>) {
    forall j :: 0 <= j < |vin| ==> IsAvailable(Get(m, vin[j].hash), vin[j].n)
  }

  /** What CheckTransaction asks of the inputs. */
  predicate NoDuplicates(vin: seq<OutPoint>) {
    forall i, j :: 0 <= i < j < |vin| ==> vin[i] != vin[j]
  }

  /** The inputs spent one after the other; None if one is not there, where UpdateCoins asserts false. */
  function SpendAll(m: Utxo, vin: seq<OutPoint>): Option<(Utxo, seq<TxInUndo>)> {
    if vin == [] then Some((m, [])) else
      var out := vin[|vin| - 1];
      match SpendAll(m, vin[..|vin| - 1])
      case None => None
      case Some(p) =>
        if !IsAvailable(Get(p.0, out.hash), out.n) then None
        else Some((SpendOne(p.0, out), p.1 + [UndoOf(Get(p.0, out.hash), out.n)]))
  }

  /** The inputs restored, last one first. */
  ghost function RestoreAll(m: Utxo, vin: seq<OutPoint>, undos: seq<TxInUndo>): (Utxo, bool)
    requires |undos| == |vin|
    decreases |vin|
  {
    if vin == [] then (m, true) else
      var k := |vin| - 1;
      var clean := UndoClean(undos[k], Get(m, vin[k].hash), vin[k].n);
      var (m', clean') := RestoreAll(RestoreOne(m, undos[k], vin[k]), vin[..k], undos[..k]);
      (m', clean && clean')
  }

  predicate UndoOk(undo: TxInUndo) {
    !undo.txout.IsNull() && OutOk(undo.txout) && undo.nHeight >= 0
  }

  ghost predicate UndosOk(undos: seq<TxInUndo>) {
    forall j :: 0 <= j < |undos| ==> UndoOk(undos[j])
  }

  lemma {:induction false} SpendAllPreserves(m: Utxo, vin: seq<OutPoint>)
    requires UtxoOk(m) && SpendAll(m, vin).Some?
    ensures UtxoOk(SpendAll(m, vin).value.0) && SpendAll(m, vin).value.0.Keys <= m.Keys
    ensures |SpendAll(m, vin).value.1| == |vin| && UndosOk(SpendAll(m, vin).value.1)
  {
    if vin != [] {
      var out := vin[|vin| - 1];
      SpendAllPreserves(m, vin[..|vin| - 1]);
      var p := SpendAll(m, vin[..|vin| - 1]).value;
      SpendPreserves(p.0, out);
      assert CoinsOk(p.0[out.hash]);
    }
  }

  lemma SpendKeepsOthers(m: Utxo, out: OutPoint, other: OutPoint)
    requires UtxoOk(m) && IsAvailable(Get(m, out.hash), out.n)
    requires other != out && IsAvailable(Get(m, other.hash), other.n)
    ensures IsAvailable(Get(SpendOne(m, out), other.hash), other.n)
  {
    if other.hash == out.hash {
      var c := m[out.hash];
      var w := c.vout[out.n := NULL_OUT];
      assert !w[other.n].IsNull();
      assert other.n < |Trim(w)|;
      SpentOk(c, out.n);
    }
  }

  lemma {:induction false} SpendAllKeepsOthers(m: Utxo, vin: seq<OutPoint>, other: OutPoint)
    requires UtxoOk(m) && SpendAll(m, vin).Some?
    requires other !in vin && IsAvailable(Get(m, other.hash), other.n)
    ensures IsAvailable(Get(SpendAll(m, vin).value.0, other.hash), other.n)
  {
    if vin != [] {
      var rest := vin[..|vin| - 1];
      SpendAllKeepsOthers(m, rest, other);
      SpendAllPreserves(m, rest);
      SpendKeepsOthers(SpendAll(m, rest).value.0, vin[|vin| - 1], other);
    }
  }

  /** Behind HaveInputs and the check for duplicate inputs, the assertion in UpdateCoins is unreachable. */
  lemma {:induction false} InputsAreThere(m: Utxo, vin: seq<OutPoint>)
    requires UtxoOk(m) && AllAvailable(m, vin) && NoDuplicates(vin)
    ensures SpendAll(m, vin).Some?
  {
    if vin != [] {
      var rest := vin[..|vin| - 1];
      InputsAreThere(m, rest);
      SpendAllKeepsOthers(m, rest, vin[|vin| - 1]);
    }
  }

  /** Restoring the inputs just spent, in reverse, gives back the map without complaint. */
  lemma {:induction false} RestoreAllUndoes(m: Utxo, vin: seq<OutPoint>)
    requires UtxoOk(m) && SpendAll(m, vin).Some? && |SpendAll(m, vin).value.1| == |vin|
    ensures RestoreAll(SpendAll(m, vin).value.0, vin, SpendAll(m, vin).value.1) == (m, true)
  {
    if vin != [] {
      var k := |vin| - 1;
      var p := SpendAll(m, vin[..k]).value;
      var q := SpendAll(m, vin).value;
      SpendAllPreserves(m, vin[..k]);
      RestoreUndoesSpend(p.0, vin[k]);
      assert q.1[..k] == p.1;
      RestoreAllUndoes(m, vin[..k]);
    }
  }

  lemma RestorePreserves(m: Utxo, undo: TxInUndo, out: OutPoint)
    requires UtxoOk(m) && UndoOk(undo)
    requires UndoClean(undo, Get(m, out.hash), out.n)
    ensures UtxoOk(RestoreOne(m, undo, out))
  {
    var x, n := out.hash, out.n;
    StoredOk(m, x);
    var c := WithOut(UndoBase(undo, Get(m, x)), n, undo.txout);
    assert x in m ==> CoinsOk(m[x]);
    TrimOk(c.vout);
    assert CoinsOk(c);
  }

  /** Conversely, inputs restored without complaint are there to be spent, which undoes the restoring. */
  lemma {:induction false} SpendAllUndoes(m: Utxo, vin: seq<OutPoint>, undos: seq<TxInUndo>)
    requires UtxoOk(m) && |undos| == |vin| && UndosOk(undos) && RestoreAll(m, vin, undos).1
    ensures UtxoOk(RestoreAll(m, vin, undos).0)
    ensures SpendAll(RestoreAll(m, vin, undos).0, vin).Some?
    ensures SpendAll(RestoreAll(m, vin, undos).0, vin).value.0 == m
    decreases |vin|
  {
    if vin != [] {
      var k := |vin| - 1;
      RestorePreserves(m, undos[k], vin[k]);
      SpendUndoesRestore(m, undos[k], vin[k]);
      SpendAllUndoes(RestoreOne(m, undos[k], vin[k]), vin[..k], undos[..k]);
    }
  }

  // ----- One transaction -----

  function AddOutputs(m: Utxo, tx: Transaction, nHeight: int): Utxo {
    Put(m, tx.hash, FromTxValue(tx, nHeight))
  }

  function SpendInputs(m: Utxo, tx: Transaction): Option<(Utxo, seq<TxInUndo>)> {
    if tx.IsCoinBase() then Some((m, [])) else SpendAll(m, tx.vin)
  }

  function UpdateCoinsValue(m: Utxo, tx: Transaction, nHeight: int): Option<(Utxo, seq<TxInUndo>)> {
    match SpendInputs(m, tx)
    case None => None
    case Some(p) => Some((AddOutputs(p.0, tx, nHeight), p.1))
  }

  /** The coins DisconnectBlock compares with those of the transaction in the block. */
  function OutsFound(c: CCoins, tx: Transaction): CCoins {
    CCoins(c.fCoinBase, Trim(SpendableOuts(c.vout)), c.nHeight,
           if tx.nVersion < 0 then tx.nVersion else c.nVersion)
  }

  ghost predicate OutsClean(m: Utxo, tx: Transaction, nHeight: int) {
    SameCoins(OutsFound(Get(m, tx.hash), tx), FromTxValue(tx, nHeight))
  }

  /** The outputs CheckTransaction lets through. */
  predicate OutsNonnegative(tx: Transaction) {
    forall i :: 0 <= i < |tx.vout| ==> tx.vout[i].nValue >= 0
  }

  lemma FromTxOk(tx: Transaction, nHeight: int)
    requires OutsNonnegative(tx) && nHeight > 0
    ensures FromTxValue(tx, nHeight).vout != [] ==> CoinsOk(FromTxValue(tx, nHeight))
    ensures Trim(FromTxValue(tx, nHeight).vout) == FromTxValue(tx, nHeight).vout
    ensures SpendableOuts(FromTxValue(tx, nHeight).vout) == FromTxValue(tx, nHeight).vout
  {
  }

  /** Right after the outputs were added they are found unchanged, and taking them out leaves what was
      there before exactly if that had no coins of the same hash. */
  lemma OutputsTakenOut(m: Utxo, tx: Transaction, nHeight: int)
    requires UtxoOk(m) && OutsNonnegative(tx) && nHeight > 0
    ensures UtxoOk(AddOutputs(m, tx, nHeight)) && OutsClean(AddOutputs(m, tx, nHeight), tx, nHeight)
    ensures AddOutputs(m, tx, nHeight) - {tx.hash} == m <==> tx.hash !in m
  {
    var c := FromTxValue(tx, nHeight);
    FromTxOk(tx, nHeight);
    var m' := AddOutputs(m, tx, nHeight);
    PrunedIffTrimmedEmpty(c);
    PrunedIffTrimmedEmpty(OutsFound(Get(m', tx.hash), tx));
    assert tx.hash !in m ==> m' - {tx.hash} == m;
  }

  // ----- A block -----

  /** The first k transactions connected: the map and the undo data of all but the coinbase. */
  function ConnectTo(m: Utxo, vtx: seq<Transaction>, nHeight: int, k: nat): Option<(Utxo, seq<seq<TxInUndo>>)>
    requires k <= |vtx|
  {
    if k == 0 then Some((m, [])) else
      match ConnectTo(m, vtx, nHeight, k - 1)
      case None => None
      case Some(p) =>
        match UpdateCoinsValue(p.0, vtx[k - 1], nHeight)
        case None => None
        case Some(q) => Some((q.0, if k > 1 then p.1 + [q.1] else p.1))
  }

  /** The first k transactions disconnected, last one first; None if the undo data do not fit. */
  ghost function DisconnectFrom(m: Utxo, vtx: seq<Transaction>, vtxundo: seq<seq<TxInUndo>>, nHeight: int, k: nat)
    : Option<(Utxo, bool)>
    requires k <= |vtx| && |vtxundo| + 1 == |vtx|
    decreases k
  {
    if k == 0 then Some((m, true)) else
      var tx := vtx[k - 1];
      var clean := OutsClean(m, tx, nHeight);
      var m1 := m - {tx.hash};
      if k > 1 && |vtxundo[k - 2]| != |tx.vin| then None else
      var (m2, clean2) := if k > 1 then RestoreAll(m1, tx.vin, vtxundo[k - 2]) else (m1, true);
      match DisconnectFrom(m2, vtx, vtxundo, nHeight, k - 1)
      case None => None
      case Some(r) => Some((r.0, clean && clean2 && r.1))
  }

  /** What CheckBlock guarantees, and the distinct hashes of distinct transactions. */
  ghost predicate BlockOk(vtx: seq<Transaction>) {
    && vtx != [] && vtx[0].IsCoinBase()
    && (forall i :: 0 < i < |vtx| ==> !vtx[i].IsCoinBase())
    && (forall i :: 0 <= i < |vtx| ==> NoDuplicates(vtx[i].vin) && OutsNonnegative(vtx[i]))
    && (forall i, j :: 0 <= i < j < |vtx| ==> vtx[i].hash != vtx[j].hash)
  }

  /** What ConnectBlock's BIP 30 loop asks. */
  predicate Bip30(m: Utxo, vtx: seq<Transaction>) {
    forall i :: 0 <= i < |vtx| ==> vtx[i].hash !in m
  }

  /** When transaction k's outputs are added, coins of the same hash are still unspent. */
  ghost predicate Overwrites(m: Utxo, vtx: seq<Transaction>, nHeight: int, k: nat)
    requires k < |vtx|
  {
    && ConnectTo(m, vtx, nHeight, k).Some?
    && var p := ConnectTo(m, vtx, nHeight, k).value;
    && SpendInputs(p.0, vtx[k]).Some?
    && vtx[k].hash in SpendInputs(p.0, vtx[k]).value.0
  }

  lemma {:induction false} ConnectToOk(m: Utxo, vtx: seq<Transaction>, nHeight: int, k: nat)
    requires UtxoOk(m) && BlockOk(vtx) && nHeight > 0 && k <= |vtx| && ConnectTo(m, vtx, nHeight, k).Some?
    ensures UtxoOk(ConnectTo(m, vtx, nHeight, k).value.0)
    ensures |ConnectTo(m, vtx, nHeight, k).value.1| == if k == 0 then 0 else k - 1
    ensures forall i :: 0 <= i < k - 1 ==>
              && |ConnectTo(m, vtx, nHeight, k).value.1[i]| == |vtx[i + 1].vin|
              && UndosOk(ConnectTo(m, vtx, nHeight, k).value.1[i])
  {
    hide UtxoOk, UndosOk, FromTxValue, NoDuplicates, OutsNonnegative, SpendAll, Put;
    if k > 0 {
      ConnectToOk(m, vtx, nHeight, k - 1);
      UpdatePreserves(ConnectTo(m, vtx, nHeight, k - 1).value.0, vtx[k - 1], nHeight);
    }
  }

  lemma UpdatePreserves(m: Utxo, tx: Transaction, nHeight: int)
    requires UtxoOk(m) && OutsNonnegative(tx) && nHeight > 0 && UpdateCoinsValue(m, tx, nHeight).Some?
    ensures UtxoOk(UpdateCoinsValue(m, tx, nHeight).value.0)
    ensures UndosOk(UpdateCoinsValue(m, tx, nHeight).value.1)
    ensures !tx.IsCoinBase() ==> |UpdateCoinsValue(m, tx, nHeight).value.1| == |tx.vin|
  {
    if !tx.IsCoinBase() {
      SpendAllPreserves(m, tx.vin);
    }
    OutputsTakenOut(SpendInputs(m, tx).value.0, tx, nHeight);
  }

  lemma {:induction false} ConnectToKeys(m: Utxo, vtx: seq<Transaction>, nHeight: int, k: nat)
    requires UtxoOk(m) && BlockOk(vtx) && nHeight > 0 && k <= |vtx| && ConnectTo(m, vtx, nHeight, k).Some?
    ensures forall x :: x in ConnectTo(m, vtx, nHeight, k).value.0 ==>
              x in m || exists i :: 0 <= i < k && vtx[i].hash == x
  {
    if k > 0 {
      ConnectToKeys(m, vtx, nHeight, k - 1);
      ConnectToOk(m, vtx, nHeight, k - 1);
      var p := ConnectTo(m, vtx, nHeight, k - 1).value;
      if k > 1 {
        SpendAllPreserves(p.0, vtx[k - 1].vin);
      }
    }
  }

  /** The BIP 30 check, made once against the map before the block, rules out every overwriting. */
  lemma Bip30Suffices(m: Utxo, vtx: seq<Transaction>, nHeight: int, k: nat)
    requires UtxoOk(m) && BlockOk(vtx) && nHeight > 0 && Bip30(m, vtx) && k < |vtx|
    ensures !Overwrites(m, vtx, nHeight, k)
  {
    if Overwrites(m, vtx, nHeight, k) {
      ConnectToKeys(m, vtx, nHeight, k);
      ConnectToOk(m, vtx, nHeight, k);
      if k > 0 {
        SpendAllPreserves(ConnectTo(m, vtx, nHeight, k).value.0, vtx[k].vin);
      }
    }
  }

  /** The undo data of the first k transactions. */
  ghost predicate UndoFits(m: Utxo, vtx: seq<Transaction>, vtxundo: seq<seq<TxInUndo>>, nHeight: int, k: nat)
    requires k <= |vtx|
  {
    && |vtxundo| + 1 == |vtx|
    && ConnectTo(m, vtx, nHeight, k).Some?
    && ConnectTo(m, vtx, nHeight, k).value.1 <= vtxundo
  }

  lemma UndoFitsBefore(m: Utxo, vtx: seq<Transaction>, vtxundo: seq<seq<TxInUndo>>, nHeight: int, k: nat)
    requires UtxoOk(m) && BlockOk(vtx) && nHeight > 0 && 0 < k <= |vtx| && UndoFits(m, vtx, vtxundo, nHeight, k)
    ensures UndoFits(m, vtx, vtxundo, nHeight, k - 1)
    ensures k > 1 ==> SpendAll(ConnectTo(m, vtx, nHeight, k - 1).value.0, vtx[k - 1].vin).Some?
    ensures k > 1 ==> vtxundo[k - 2] == SpendAll(ConnectTo(m, vtx, nHeight, k - 1).value.0, vtx[k - 1].vin).value.1
    ensures k > 1 ==> |vtxundo[k - 2]| == |vtx[k - 1].vin| && UndosOk(vtxundo[k - 2])
  {
    ConnectToOk(m, vtx, nHeight, k);
    ConnectToOk(m, vtx, nHeight, k - 1);
    if k > 1 {
      var p, q := ConnectTo(m, vtx, nHeight, k - 1).value, ConnectTo(m, vtx, nHeight, k).value;
      SpendAllPreserves(p.0, vtx[k - 1].vin);
      assert q.1[k - 2] == vtxundo[k - 2];
    }
  }

  /** Without overwriting, disconnecting takes back one transaction after the other. */
  lemma {:induction false} DisconnectGoesBack(m: Utxo, vtx: seq<Transaction>, vtxundo: seq<seq<TxInUndo>>,
                                              nHeight: int, k: nat)
    requires UtxoOk(m) && BlockOk(vtx) && nHeight > 0 && k <= |vtx| && UndoFits(m, vtx, vtxundo, nHeight, k)
    requires forall i :: 0 <= i < k ==> !Overwrites(m, vtx, nHeight, i)
    ensures DisconnectFrom(ConnectTo(m, vtx, nHeight, k).value.0, vtx, vtxundo, nHeight, k) == Some((m, true))
  {
    if k > 0 {
      UndoFitsBefore(m, vtx, vtxundo, nHeight, k);
      DisconnectGoesBack(m, vtx, vtxundo, nHeight, k - 1);
      ConnectToOk(m, vtx, nHeight, k - 1);
      var p := ConnectTo(m, vtx, nHeight, k - 1).value;
      var s := SpendInputs(p.0, vtx[k - 1]).value;
      if k > 1 {
        SpendAllPreserves(p.0, vtx[k - 1].vin);
        RestoreAllUndoes(p.0, vtx[k - 1].vin);
      }
      assert !Overwrites(m, vtx, nHeight, k - 1);
      OutputsTakenOut(s.0, vtx[k - 1], nHeight);
    }
  }

  // ----- When disconnecting restores the map -----

  /** Equal but for the versions. */
  ghost predicate SameButVersions(a: Utxo, b: Utxo) {
    && a.Keys == b.Keys
    && forall x :: x in a ==> a[x].(nVersion := 0) == b[x].(nVersion := 0)
  }

  lemma {:induction false} SpendAllSame(a: Utxo, b: Utxo, vin: seq<OutPoint>)
    requires SameButVersions(a, b) && SpendAll(a, vin).Some? && SpendAll(b, vin).Some?
    ensures SameButVersions(SpendAll(a, vin).value.0, SpendAll(b, vin).value.0)
  {
    if vin != [] {
      SpendAllSame(a, b, vin[..|vin| - 1]);
    }
  }

  /** A clean disconnection of the first k transactions that ends in m started, versions aside, from
      the map those transactions make of m, and they overwrote nothing. */
  lemma {:induction false} CleanDisconnectFrom(m: Utxo, vtx: seq<Transaction>, vtxundo: seq<seq<TxInUndo>>,
                                               nHeight: int, k: nat, a: Utxo)
    requires UtxoOk(m) && BlockOk(vtx) && nHeight > 0 && k <= |vtx| && UndoFits(m, vtx, vtxundo, nHeight, k)
    requires UtxoOk(a) && DisconnectFrom(a, vtx, vtxundo, nHeight, k) == Some((m, true))
    ensures SameButVersions(a, ConnectTo(m, vtx, nHeight, k).value.0)
    ensures forall i :: 0 <= i < k ==> !Overwrites(m, vtx, nHeight, i)
    decreases k
  {
    hide UtxoOk, UndosOk, FromTxValue, NoDuplicates, OutsNonnegative, OutsClean, SpendAll, RestoreAll, Put;
    if k > 0 {
      UndoFitsBefore(m, vtx, vtxundo, nHeight, k);
      var tx := vtx[k - 1];
      var m1 := a - {tx.hash};
      RemoveOk(a, tx.hash);
      var p := ConnectTo(m, vtx, nHeight, k - 1).value;
      if k > 1 {
        SpendAllUndoes(m1, tx.vin, vtxundo[k - 2]);
        var m2 := RestoreAll(m1, tx.vin, vtxundo[k - 2]).0;
        CleanDisconnectFrom(m, vtx, vtxundo, nHeight, k - 1, m2);
        SpendAllSame(m2, p.0, tx.vin);
      } else {
        CleanDisconnectFrom(m, vtx, vtxundo, nHeight, k - 1, m1);
      }
      OutsMatch(a, tx, nHeight, SpendInputs(p.0, tx).value.0);
    }
  }

  lemma RemoveOk(a: Utxo, x: Txid)
    requires UtxoOk(a)
    ensures UtxoOk(a - {x})
  {
  }

  lemma OutsMatch(a: Utxo, tx: Transaction, nHeight: int, before: Utxo)
    requires UtxoOk(a) && OutsNonnegative(tx) && nHeight > 0 && OutsClean(a, tx, nHeight)
    requires SameButVersions(a - {tx.hash}, before)
    ensures SameButVersions(a, AddOutputs(before, tx, nHeight)) && tx.hash !in before
  {
    FromTxOk(tx, nHeight);
    PrunedIffTrimmedEmpty(FromTxValue(tx, nHeight));
    StoredOk(a, tx.hash);
  }

  /** A block that was connected is disconnected again, back to the map before it and without a
      complaint, if and only if none of its transactions overwrote unspent outputs of the same hash. */
  lemma DisconnectRestoresIff(m: Utxo, vtx: seq<Transaction>, nHeight: int)
    requires UtxoOk(m) && BlockOk(vtx) && nHeight > 0 && ConnectTo(m, vtx, nHeight, |vtx|).Some?
    ensures |ConnectTo(m, vtx, nHeight, |vtx|).value.1| + 1 == |vtx|
    ensures var p := ConnectTo(m, vtx, nHeight, |vtx|).value;
            (DisconnectFrom(p.0, vtx, p.1, nHeight, |vtx|) == Some((m, true)) <==>
             forall k :: 0 <= k < |vtx| ==> !Overwrites(m, vtx, nHeight, k))
  {
    var p := ConnectTo(m, vtx, nHeight, |vtx|).value;
    ConnectToOk(m, vtx, nHeight, |vtx|);
    if forall k :: 0 <= k < |vtx| ==> !Overwrites(m, vtx, nHeight, k) {
      DisconnectGoesBack(m, vtx, p.1, nHeight, |vtx|);
    }
    if DisconnectFrom(p.0, vtx, p.1, nHeight, |vtx|) == Some((m, true)) {
      CleanDisconnectFrom(m, vtx, p.1, nHeight, |vtx|, p.0);
    }
  }

  /** In particular for every block that passes the BIP 30 check. */
  lemma DisconnectRestores(m: Utxo, vtx: seq<Transaction>, nHeight: int)
    requires UtxoOk(m) && BlockOk(vtx) && nHeight > 0 && Bip30(m, vtx) && ConnectTo(m, vtx, nHeight, |vtx|).Some?
    ensures |ConnectTo(m, vtx, nHeight, |vtx|).value.1| + 1 == |vtx|
    ensures var p := ConnectTo(m, vtx, nHeight, |vtx|).value;
            DisconnectFrom(p.0, vtx, p.1, nHeight, |vtx|) == Some((m, true))
  {
    ConnectToOk(m, vtx, nHeight, |vtx|);
    forall k | 0 <= k < |vtx|
      ensures !Overwrites(m, vtx, nHeight, k)
    {
      Bip30Suffices(m, vtx, nHeight, k);
    }
    DisconnectRestoresIff(m, vtx, nHeight);
  }
}
