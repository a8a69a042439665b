/** What connecting transactions does to each single output: which are there to be spent afterwards, with
    what value, script, height and coinbase flag (src/coins.h: FromTx; src/main.cpp: UpdateCoins). */
module Outputs {
  import opened Options
  import opened Coins
  import opened BlockUndo

  /** An output that can be spent, with what is known of the transaction that created it. */
  datatype Coin = Coin(out: TxOut, nHeight: int, nVersion: int, fCoinBase: bool)

  /** Output n of x. */
  function Held(m: Utxo, x: Txid, n: nat): Option<Coin> {
    if x in m && n < |m[x].vout| && m[x].vout[n].nValue != -1
    then Some(Coin(m[x].vout[n], m[x].nHeight, m[x].nVersion, m[x].fCoinBase))
    else None
  }

  /** A single input that names no output. */
  predicate IsCoinBaseTx(tx: Transaction) {
    |tx.vin| == 1 && tx.vin[0].hash == 0 && tx.vin[0].n == 0xffff_ffff
  }

  /** Output n of a transaction in a block of that height, unless it is null or its script begins with
      OP_RETURN. */
  function Created(tx: Transaction, nHeight: int, n: nat): Option<Coin> {
    if n < |tx.vout| && tx.vout[n].nValue != -1
       && (tx.vout[n].scriptPubKey == [] || tx.vout[n].scriptPubKey[0] != 0x6a)
    then Some(Coin(tx.vout[n], nHeight, tx.nVersion, IsCoinBaseTx(tx)))
    else None
  }

  /** The transaction has output n of x among its inputs; a coinbase spends nothing. */
  predicate Spends(tx: Transaction, x: Txid, n: nat) {
    !IsCoinBaseTx(tx) && OutPoint(x, n) in tx.vin
  }

  lemma HeldIsAvailable(m: Utxo, x: Txid, n: nat)
    ensures IsAvailable(Get(m, x), n) <==> Held(m, x, n) != None
  {
  }

  lemma TrimKeeps(vout: seq<TxOut>, n: nat)
    ensures n < |Trim(vout)| && !Trim(vout)[n].IsNull() <==> n < |vout| && !vout[n].IsNull()
    ensures n < |Trim(vout)| ==> Trim(vout)[n] == vout[n]
  {
  }

  lemma PutHeld(m: Utxo, y: Txid, c: CCoins, x: Txid, n: nat)
    ensures Held(Put(m, y, c), x, n) == Held(if x == y then map[y := c] else m, x, n)
  {
    TrimKeeps(c.vout, n);
  }

  /** The outputs of a transaction replace whatever stood at its hash. */
  lemma AddedHeld(m: Utxo, tx: Transaction, nHeight: int, x: Txid, n: nat)
    ensures Held(AddOutputs(m, tx, nHeight), x, n) == if x == tx.hash then Created(tx, nHeight, n) else Held(m, x, n)
  {
    hide Trim;
    TrimKeeps(SpendableOuts(tx.vout), n);
    PutHeld(m, tx.hash, FromTxValue(tx, nHeight), x, n);
  }

  lemma SpentHeld(m: Utxo, out: OutPoint, x: Txid, n: nat)
    requires IsAvailable(Get(m, out.hash), out.n)
    ensures Held(SpendOne(m, out), x, n) == if out == OutPoint(x, n) then None else Held(m, x, n)
  {
    hide Trim, Put;
    var c := Get(m, out.hash);
    TrimKeeps(c.vout[out.n := NULL_OUT], n);
    PutHeld(m, out.hash, Spent(c, out.n), x, n);
  }

  /** Spending takes away exactly the inputs, and the undo data hold what was taken. */
  lemma {:induction false} SpendAllHeld(m: Utxo, vin: seq<OutPoint>, x: Txid, n: nat)
    requires SpendAll(m, vin).Some?
    ensures Held(SpendAll(m, vin).value.0, x, n) == if OutPoint(x, n) in vin then None else Held(m, x, n)
  {
    if vin != [] {
      var rest, out := vin[..|vin| - 1], vin[|vin| - 1];
      SpendAllHeld(m, rest, x, n);
      SpentHeld(SpendAll(m, rest).value.0, out, x, n);
      assert vin == rest + [out];
    }
  }

  /** The inputs can be spent if and only if each names an output that is there, and none is named twice;
      the undo data hold those outputs. */
  lemma {:induction false} SpendAllIff(m: Utxo, vin: seq<OutPoint>)
    ensures SpendAll(m, vin).Some? <==>
            NoDuplicates(vin) && forall j :: 0 <= j < |vin| ==> Held(m, vin[j].hash, vin[j].n) != None
    ensures SpendAll(m, vin).Some? ==>
              && |SpendAll(m, vin).value.1| == |vin|
              && forall j :: 0 <= j < |vin| ==>
                   Some(SpendAll(m, vin).value.1[j].txout) == OutOf(Held(m, vin[j].hash, vin[j].n))
  {
    hide SpendOne, Held;
    if vin != [] {
      var rest, out := vin[..|vin| - 1], vin[|vin| - 1];
      SpendAllIff(m, rest);
      assert vin == rest + [out];
      if SpendAll(m, rest).Some? {
        var p := SpendAll(m, rest).value;
        SpendAllHeld(m, rest, out.hash, out.n);
        HeldIsAvailable(p.0, out.hash, out.n);
        assert out == OutPoint(out.hash, out.n);
        LastUndo(m, rest, out);
      }
    }
  }

  function OutOf(c: Option<Coin>): Option<TxOut> {
    if c == None then None else Some(c.value.out)
  }

  lemma LastUndo(m: Utxo, rest: seq<OutPoint>, out: OutPoint)
    requires SpendAll(m, rest).Some?
    ensures var p := SpendAll(m, rest).value;
            IsAvailable(Get(p.0, out.hash), out.n) ==>
              Some(UndoOf(Get(p.0, out.hash), out.n).txout) == OutOf(Held(m, out.hash, out.n))
  {
    SpendAllHeld(m, rest, out.hash, out.n);
    assert out == OutPoint(out.hash, out.n);
  }

  /** The undo record of an output: with height, version and flag exactly if it is the last one left of its
      transaction. */
  lemma UndoRecord(m: Utxo, out: OutPoint)
    requires UtxoOk(m) && IsAvailable(Get(m, out.hash), out.n)
    ensures var c := Held(m, out.hash, out.n);
            c != None &&
            UndoOf(Get(m, out.hash), out.n) ==
            if forall k: nat :: k != out.n ==> Held(m, out.hash, k) == None
            then TxInUndo(c.value.out, c.value.fCoinBase, c.value.nHeight, c.value.nVersion)
            else TxInUndo(c.value.out, false, 0, 0)
  {
    hide Trim;
    var c := Get(m, out.hash);
    var was := c.vout[out.n := NULL_OUT];
    forall k: nat ensures Held(m, out.hash, k) != None && k != out.n <==> k < |Trim(was)| && !Trim(was)[k].IsNull() {
      TrimKeeps(was, k);
    }
    var t := Trim(was);
    assert t != [] ==> Held(m, out.hash, |t| - 1) != None;
  }

  // ----- One transaction -----

  /** UpdateCoins: the outputs of the transaction are there and its inputs are not; all others are as
      they were. */
  lemma UpdatedHeld(m: Utxo, tx: Transaction, nHeight: int, x: Txid, n: nat)
    requires UpdateCoinsValue(m, tx, nHeight).Some?
    ensures Held(UpdateCoinsValue(m, tx, nHeight).value.0, x, n) ==
            if x == tx.hash then Created(tx, nHeight, n)
            else if Spends(tx, x, n) then None
            else Held(m, x, n)
  {
    hide SpendAll, Held, Created, AddOutputs;
    if !tx.IsCoinBase() {
      SpendAllHeld(m, tx.vin, x, n);
    }
    AddedHeld(SpendInputs(m, tx).value.0, tx, nHeight, x, n);
  }

  /** It can be connected if and only if its inputs are there, each once. */
  lemma UpdatesIff(m: Utxo, tx: Transaction, nHeight: int)
    ensures UpdateCoinsValue(m, tx, nHeight).Some? <==>
            IsCoinBaseTx(tx) ||
            (NoDuplicates(tx.vin) && forall j :: 0 <= j < |tx.vin| ==> Held(m, tx.vin[j].hash, tx.vin[j].n) != None)
  {
    SpendAllIff(m, tx.vin);
  }

  // ----- A block -----

  /** The last of the first k transactions with that hash. */
  function Maker(vtx: seq<Transaction>, k: nat, x: Txid): (i: int)
    requires k <= |vtx|
    ensures -1 <= i < k && (i >= 0 ==> vtx[i].hash == x)
    ensures forall j :: i < j < k ==> vtx[j].hash != x
  {
    if k == 0 then -1 else if vtx[k - 1].hash == x then k - 1 else Maker(vtx, k - 1, x)
  }

  ghost predicate SpentSince(vtx: seq<Transaction>, i: int, k: nat, x: Txid, n: nat)
    requires -1 <= i < k <= |vtx|
  {
    exists j :: i < j < k && Spends(vtx[j], x, n)
  }

  /** Output n of x after the first k transactions of a block: as the last of them with that hash created
      it, or as it was before the block, unless one since then has spent it. */
  ghost function HeldAfter(m: Utxo, vtx: seq<Transaction>, nHeight: int, k: nat, x: Txid, n: nat): Option<Coin>
    requires k <= |vtx|
  {
    var i := Maker(vtx, k, x);
    if SpentSince(vtx, i, k, x, n) then None
    else if i >= 0 then Created(vtx[i], nHeight, n) else Held(m, x, n)
  }

  lemma {:induction false} BlockHeld(m: Utxo, vtx: seq<Transaction>, nHeight: int, k: nat, x: Txid, n: nat)
    requires k <= |vtx| && ConnectTo(m, vtx, nHeight, k).Some?
    ensures Held(ConnectTo(m, vtx, nHeight, k).value.0, x, n) == HeldAfter(m, vtx, nHeight, k, x, n)
  {
    hide UpdateCoinsValue, Held, Created, Spends;
    if k > 0 {
      BlockHeld(m, vtx, nHeight, k - 1, x, n);
      UpdatedHeld(ConnectTo(m, vtx, nHeight, k - 1).value.0, vtx[k - 1], nHeight, x, n);
      var i := Maker(vtx, k, x);
      if vtx[k - 1].hash != x {
        assert SpentSince(vtx, i, k, x, n) <==> SpentSince(vtx, i, k - 1, x, n) || Spends(vtx[k - 1], x, n);
      }
    }
  }

  ghost predicate InputsHeld(m: Utxo, vtx: seq<Transaction>, nHeight: int, i: nat)
    requires i < |vtx|
  {
    var vin := vtx[i].vin;
    IsCoinBaseTx(vtx[i]) ||
    (NoDuplicates(vin) &&
     forall j :: 0 <= j < |vin| ==> HeldAfter(m, vtx, nHeight, i, vin[j].hash, vin[j].n) != None)
  }

  lemma NextConnectsIff(m: Utxo, vtx: seq<Transaction>, nHeight: int, i: nat)
    requires i < |vtx| && ConnectTo(m, vtx, nHeight, i).Some?
    ensures UpdateCoinsValue(ConnectTo(m, vtx, nHeight, i).value.0, vtx[i], nHeight).Some? <==>
            InputsHeld(m, vtx, nHeight, i)
  {
    hide ConnectTo, UpdateCoinsValue, Held, HeldAfter;
    var u, tx := ConnectTo(m, vtx, nHeight, i).value.0, vtx[i];
    UpdatesIff(u, tx, nHeight);
    forall j | 0 <= j < |tx.vin|
      ensures Held(u, tx.vin[j].hash, tx.vin[j].n) == HeldAfter(m, vtx, nHeight, i, tx.vin[j].hash, tx.vin[j].n)
    {
      BlockHeld(m, vtx, nHeight, i, tx.vin[j].hash, tx.vin[j].n);
    }
  }

  /** A block connects if and only if every input of every transaction but a coinbase names an output that
      is there when its turn comes, each only once. */
  lemma {:induction false} BlockConnectsIff(m: Utxo, vtx: seq<Transaction>, nHeight: int, k: nat)
    requires k <= |vtx|
    ensures ConnectTo(m, vtx, nHeight, k).Some? <==>
            forall i {:trigger InputsHeld(m, vtx, nHeight, i)} :: 0 <= i < k ==> InputsHeld(m, vtx, nHeight, i)
  {
    hide UpdateCoinsValue, Held, HeldAfter, InputsHeld;
    if k > 0 {
      BlockConnectsIff(m, vtx, nHeight, k - 1);
      if ConnectTo(m, vtx, nHeight, k - 1).Some? {
        NextConnectsIff(m, vtx, nHeight, k - 1);
      }
      assert ConnectTo(m, vtx, nHeight, k).Some? <==>
             ConnectTo(m, vtx, nHeight, k - 1).Some? && InputsHeld(m, vtx, nHeight, k - 1);
    }
  }

  // ----- What DisconnectBlock compares -----

  /** Outputs as they are stored: none null at the end, and null ones all alike. */
  ghost predicate Stored(vout: seq<TxOut>) {
    && (vout == [] || vout[|vout| - 1].nValue != -1)
    && forall i :: 0 <= i < |vout| && vout[i].nValue == -1 ==> vout[i] == NULL_OUT
  }

  function Out(vout: seq<TxOut>, n: nat): Option<TxOut> {
    if n < |vout| && vout[n].nValue != -1 then Some(vout[n]) else None
  }

  lemma StoredSame(a: seq<TxOut>, b: seq<TxOut>)
    requires Stored(a) && Stored(b) && forall n: nat :: Out(a, n) == Out(b, n)
    ensures a == b
  {
    assert a != [] ==> Out(a, |a| - 1) == Out(b, |a| - 1);
    assert b != [] ==> Out(a, |b| - 1) == Out(b, |b| - 1);
    forall n: nat | n < |a| ensures a[n] == b[n] {
      assert Out(a, n) == Out(b, n);
    }
  }

  /** The same output of the same transaction, whatever the version if that does not matter. */
  predicate Matches(a: Option<Coin>, b: Option<Coin>, anyVersion: bool) {
    a == b || (anyVersion && a != None && b != None && a.value.(nVersion := 0) == b.value.(nVersion := 0))
  }

  ghost predicate AllMatch(m: Utxo, tx: Transaction, nHeight: int) {
    forall n: nat :: Matches(Held(m, tx.hash, n), Created(tx, nHeight, n), tx.nVersion < 0)
  }

  lemma FromTxOuts(tx: Transaction, nHeight: int, n: nat)
    requires OutsNonnegative(tx)
    ensures Stored(FromTxValue(tx, nHeight).vout)
    ensures Out(FromTxValue(tx, nHeight).vout, n) == OutOf(Created(tx, nHeight, n))
  {
    TrimKeeps(SpendableOuts(tx.vout), n);
  }

  lemma FoundOuts(m: Utxo, tx: Transaction, n: nat)
    requires UtxoOk(m)
    ensures Stored(OutsFound(Get(m, tx.hash), tx).vout)
    ensures Out(OutsFound(Get(m, tx.hash), tx).vout, n) == OutOf(Held(m, tx.hash, n))
  {
    assert tx.hash in m ==> CoinsOk(m[tx.hash]);
    TrimKeeps(SpendableOuts(Get(m, tx.hash).vout), n);
  }

  lemma PrunedHasNone(c: CCoins)
    requires Stored(c.vout)
    ensures IsPruned(c) <==> c.vout == []
    ensures c.vout != [] ==> Out(c.vout, |c.vout| - 1) != None
  {
  }

  /** The outputs of the transaction are found as expected if and only if each is there that it created and
      no other, with its height and coinbase flag, and with its version unless that is negative. */
  lemma OutsCleanIff(m: Utxo, tx: Transaction, nHeight: int)
    requires UtxoOk(m) && OutsNonnegative(tx) && nHeight > 0
    ensures OutsClean(m, tx, nHeight) <==> AllMatch(m, tx, nHeight)
  {
    hide UtxoOk, SpendableOuts, Trim;
    var a, b := OutsFound(Get(m, tx.hash), tx), FromTxValue(tx, nHeight);
    forall n: nat
      ensures Stored(a.vout) && Out(a.vout, n) == OutOf(Held(m, tx.hash, n))
      ensures Stored(b.vout) && Out(b.vout, n) == OutOf(Created(tx, nHeight, n))
    {
      FoundOuts(m, tx, n);
      FromTxOuts(tx, nHeight, n);
    }
    FoundOuts(m, tx, 0);
    FromTxOuts(tx, nHeight, 0);
    PrunedHasNone(a);
    PrunedHasNone(b);
    if OutsClean(m, tx, nHeight) {
      CleanMatches(m, tx, nHeight, a, b);
    }
    if AllMatch(m, tx, nHeight) {
      MatchesClean(m, tx, nHeight, a, b);
    }
  }

  lemma CleanMatches(m: Utxo, tx: Transaction, nHeight: int, a: CCoins, b: CCoins)
    requires a == OutsFound(Get(m, tx.hash), tx) && b == FromTxValue(tx, nHeight) && SameCoins(a, b)
    requires IsPruned(a) ==> a.vout == []
    requires IsPruned(b) ==> b.vout == []
    requires forall n: nat :: Out(a.vout, n) == OutOf(Held(m, tx.hash, n))
    requires forall n: nat :: Out(b.vout, n) == OutOf(Created(tx, nHeight, n))
    ensures AllMatch(m, tx, nHeight)
  {
    hide SpendableOuts, Trim, IsPruned;
    assert a.vout == b.vout;
    forall n: nat ensures Matches(Held(m, tx.hash, n), Created(tx, nHeight, n), tx.nVersion < 0) {
      assert Out(a.vout, n) == OutOf(Held(m, tx.hash, n)) && Out(b.vout, n) == OutOf(Created(tx, nHeight, n));
    }
  }

  lemma MatchesClean(m: Utxo, tx: Transaction, nHeight: int, a: CCoins, b: CCoins)
    requires a == OutsFound(Get(m, tx.hash), tx) && b == FromTxValue(tx, nHeight) && AllMatch(m, tx, nHeight)
    requires Stored(a.vout) && Stored(b.vout)
    requires forall n: nat :: Out(a.vout, n) == OutOf(Held(m, tx.hash, n))
    requires forall n: nat :: Out(b.vout, n) == OutOf(Created(tx, nHeight, n))
    ensures SameCoins(a, b)
  {
    hide SpendableOuts, Trim;
    forall n: nat ensures Out(a.vout, n) == Out(b.vout, n) {
      assert Matches(Held(m, tx.hash, n), Created(tx, nHeight, n), tx.nVersion < 0);
    }
    StoredSame(a.vout, b.vout);
    if a.vout != [] {
      var n := |a.vout| - 1;
      assert Out(a.vout, n) != None;
      assert Matches(Held(m, tx.hash, n), Created(tx, nHeight, n), tx.nVersion < 0);
    }
  }
}
