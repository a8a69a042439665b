/** Transactions, CCoins and undo records as values, and connecting and disconnecting transactions on
    a flat map of unspent outputs (src/coins.h, src/coins.cpp, src/undo.h, src/main.cpp). */
module Coins {
  type Txid = nat
  type Script = seq<nat>

  const OP_RETURN := 0x6a

  datatype TxOut = TxOut(nValue: int, scriptPubKey: Script) {
    predicate IsNull() { nValue == -1 }
  }

  const NULL_OUT := TxOut(-1, [])

  datatype OutPoint = OutPoint(hash: Txid, n: nat) {
    predicate IsNull() { hash == 0 && n == 0xffff_ffff }
  }

  /** A transaction carries its hash; vin lists the prevouts only. */
  datatype Transaction = Transaction(hash: Txid, vin: seq<OutPoint>, vout: seq<TxOut>, nVersion: int) {
    predicate IsCoinBase() { |vin| == 1 && vin[0].IsNull() }
  }

  datatype CCoins = CCoins(fCoinBase: bool, vout: seq<TxOut>, nHeight: int, nVersion: int)

  const EMPTY := CCoins(false, [], 0, 0)

  predicate IsUnspendable(s: Script) { |s| > 0 && s[0] == OP_RETURN }

  ghost predicate IsPruned(c: CCoins) {
    forall i :: 0 <= i < |c.vout| ==> c.vout[i].IsNull()
  }

  predicate IsAvailable(c: CCoins, n: nat) {
    n < |c.vout| && !c.vout[n].IsNull()
  }

  /** Equality of CCoins: all pruned ones are equal. */
  ghost predicate SameCoins(a: CCoins, b: CCoins) {
    (IsPruned(a) && IsPruned(b)) || a == b
  }

  /** The outputs up to the last one that is not null. */
  function Trim(vout: seq<TxOut>): (r: seq<TxOut>)
    ensures r <= vout
    ensures r == [] || !r[|r| - 1].IsNull()
    ensures forall i :: |r| <= i < |vout| ==> vout[i].IsNull()
  {
    if vout != [] && vout[|vout| - 1].IsNull() then Trim(vout[..|vout| - 1]) else vout
  }

  /** These three properties determine Trim. */
  lemma TrimUnique(vout: seq<TxOut>, r: seq<TxOut>)
    requires r <= vout && (r == [] || !r[|r| - 1].IsNull())
    requires forall i :: |r| <= i < |vout| ==> vout[i].IsNull()
    ensures r == Trim(vout)
  {
    var t := Trim(vout);
    assert t != [] ==> vout[|t| - 1] == t[|t| - 1];
    assert r != [] ==> vout[|r| - 1] == r[|r| - 1];
  }

  function Cleaned(c: CCoins): CCoins { c.(vout := Trim(c.vout)) }

  function Spendable(o: TxOut): TxOut {
    if IsUnspendable(o.scriptPubKey) then NULL_OUT else o
  }

  function SpendableOuts(vout: seq<TxOut>): seq<TxOut> {
    seq(|vout|, i requires 0 <= i < |vout| => Spendable(vout[i]))
  }

  function FromTxValue(tx: Transaction, nHeight: int): CCoins {
    CCoins(tx.IsCoinBase(), Trim(SpendableOuts(tx.vout)), nHeight, tx.nVersion)
  }

  // ----- The loops -----

  method Cleanup(c: CCoins) returns (r: CCoins)
    ensures r == Cleaned(c)
  {
    var vout := c.vout;
    while |vout| > 0 && vout[|vout| - 1].IsNull()
      invariant vout <= c.vout
      invariant forall i :: |vout| <= i < |c.vout| ==> c.vout[i].IsNull()
    {
      vout := vout[..|vout| - 1];
    }
    TrimUnique(c.vout, vout);
    r := c.(vout := vout);
  }

  method ClearUnspendable(c: CCoins) returns (r: CCoins)
    ensures r == c.(vout := Trim(SpendableOuts(c.vout)))
  {
    var vout := c.vout;
    for i := 0 to |c.vout|
      invariant |vout| == |c.vout|
      invariant forall k :: 0 <= k < |vout| ==> vout[k] == if k < i then Spendable(c.vout[k]) else c.vout[k]
    {
      if IsUnspendable(vout[i].scriptPubKey) {
        vout := vout[i := NULL_OUT];
      }
    }
    assert vout == SpendableOuts(c.vout);
    r := Cleanup(c.(vout := vout));
  }

  method FromTx(tx: Transaction, nHeight: int) returns (r: CCoins)
    ensures r == FromTxValue(tx, nHeight)
  {
    r := ClearUnspendable(CCoins(tx.IsCoinBase(), tx.vout, nHeight, tx.nVersion));
  }

  method CheckPruned(c: CCoins) returns (r: bool)
    ensures r == IsPruned(c)
  {
    for i := 0 to |c.vout|
      invariant forall k :: 0 <= k < i ==> c.vout[k].IsNull()
    {
      if !c.vout[i].IsNull() {
        return false;
      }
    }
    return true;
  }

  /** Spend returns false and changes nothing unless the output is there; else it is marked spent. */
  method Spend(c: CCoins, nPos: nat) returns (r: CCoins, ok: bool)
    ensures ok == IsAvailable(c, nPos)
    ensures r == if ok then Cleaned(c.(vout := c.vout[nPos := NULL_OUT])) else c
  {
    if nPos >= |c.vout| || c.vout[nPos].IsNull() {
      return c, false;
    }
    r := Cleanup(c.(vout := c.vout[nPos := NULL_OUT]));
    ok := true;
  }

  // ----- The flat map -----

  /** The unspent outputs: a transaction without any is absent. */
  type Utxo = map<Txid, CCoins>

  predicate OutOk(o: TxOut) {
    (o.IsNull() ==> o == NULL_OUT) && !IsUnspendable(o.scriptPubKey)
  }

  /** Stored coins have something unspent, no null output at the end, null outputs only of the form
      SetNull leaves, no unspendable output, and (the genesis block being left out) a height above zero. */
  ghost predicate CoinsOk(c: CCoins) {
    && c.nHeight > 0
    && c.vout != [] && !c.vout[|c.vout| - 1].IsNull()
    && (forall i :: 0 <= i < |c.vout| ==> OutOk(c.vout[i]))
  }

  ghost predicate UtxoOk(m: Utxo) {
    forall x :: x in m ==> CoinsOk(m[x])
  }

  function Get(m: Utxo, x: Txid): CCoins {
    if x in m then m[x] else EMPTY
  }

  /** The map once coins at x have been modified to c and the modifier released. */
  function Put(m: Utxo, x: Txid, c: CCoins): Utxo {
    if Trim(c.vout) == [] then m - {x} else m[x := Cleaned(c)]
  }

  lemma PrunedIffTrimmedEmpty(c: CCoins)
    ensures IsPruned(c) <==> Trim(c.vout) == []
  {
    var t := Trim(c.vout);
    if t != [] {
      assert c.vout[|t| - 1] == t[|t| - 1];
    }
  }

  lemma TrimOk(vout: seq<TxOut>)
    requires vout == [] || !vout[|vout| - 1].IsNull()
    ensures Trim(vout) == vout
  {
  }

  // ----- Spending and restoring one output -----

  /** CTxInUndo: the output spent and, if it was the last one, where it was. */
  datatype TxInUndo = TxInUndo(txout: TxOut, fCoinBase: bool, nHeight: int, nVersion: int)

  function Spent(c: CCoins, n: nat): CCoins
    requires n < |c.vout|
  {
    Cleaned(c.(vout := c.vout[n := NULL_OUT]))
  }

  function UndoOf(c: CCoins, n: nat): TxInUndo
    requires n < |c.vout|
  {
    if Spent(c, n).vout == [] then TxInUndo(c.vout[n], c.fCoinBase, c.nHeight, c.nVersion)
    else TxInUndo(c.vout[n], false, 0, 0)
  }

  function SpendOne(m: Utxo, out: OutPoint): Utxo
    requires IsAvailable(Get(m, out.hash), out.n)
  {
    Put(m, out.hash, Spent(Get(m, out.hash), out.n))
  }

  function Resized(vout: seq<TxOut>, n: nat): seq<TxOut> {
    if |vout| < n then vout + seq(n - |vout|, i => NULL_OUT) else vout
  }

  /** The coins an undo record is applied to. */
  function UndoBase(undo: TxInUndo, c: CCoins): CCoins {
    if undo.nHeight != 0 then CCoins(undo.fCoinBase, [], undo.nHeight, undo.nVersion) else c
  }

  function WithOut(c: CCoins, n: nat, txout: TxOut): CCoins {
    c.(vout := Resized(c.vout, n + 1)[n := txout])
  }

  /** None of the three complaints of ApplyTxInUndo is raised. */
  ghost predicate UndoClean(undo: TxInUndo, c: CCoins, n: nat) {
    && (undo.nHeight != 0 ==> IsPruned(c))
    && (undo.nHeight == 0 ==> !IsPruned(c))
    && !IsAvailable(UndoBase(undo, c), n)
  }

  function RestoreOne(m: Utxo, undo: TxInUndo, out: OutPoint): Utxo {
    Put(m, out.hash, WithOut(UndoBase(undo, Get(m, out.hash)), out.n, undo.txout))
  }

  lemma StoredOk(m: Utxo, x: Txid)
    requires UtxoOk(m)
    ensures IsPruned(Get(m, x)) <==> x !in m
    ensures Trim(Get(m, x).vout) == Get(m, x).vout
    ensures Put(m, x, Get(m, x)) == m
  {
    if x in m {
      assert CoinsOk(m[x]);
      PrunedIffTrimmedEmpty(m[x]);
      assert m[x := m[x]] == m;
    } else {
      assert m - {x} == m;
    }
  }

  lemma PutPut(m: Utxo, x: Txid, a: CCoins, b: CCoins)
    ensures Put(Put(m, x, a), x, b) == Put(m, x, b)
  {
  }

  lemma SpentOk(c: CCoins, n: nat)
    requires CoinsOk(c) && IsAvailable(c, n)
    ensures Spent(c, n).vout != [] ==> CoinsOk(Spent(c, n))
    ensures Trim(Spent(c, n).vout) == Spent(c, n).vout
    ensures WithOut(Spent(c, n), n, c.vout[n]).vout == c.vout
  {
    var w := c.vout[n := NULL_OUT];
    var t := Trim(w);
    assert |t| <= n ==> n == |c.vout| - 1;
    assert Resized(t, n + 1)[n := c.vout[n]] == c.vout;
  }

  lemma SpendPreserves(m: Utxo, out: OutPoint)
    requires UtxoOk(m) && IsAvailable(Get(m, out.hash), out.n)
    ensures UtxoOk(SpendOne(m, out))
  {
    var c := m[out.hash];
    assert CoinsOk(c);
    SpentOk(c, out.n);
  }

  /** Restoring the output just spent gives back the map, without complaint. */
  lemma RestoreUndoesSpend(m: Utxo, out: OutPoint)
    requires UtxoOk(m) && IsAvailable(Get(m, out.hash), out.n)
    ensures RestoreOne(SpendOne(m, out), UndoOf(m[out.hash], out.n), out) == m
    ensures UndoClean(UndoOf(m[out.hash], out.n), Get(SpendOne(m, out), out.hash), out.n)
  {
    var x, n := out.hash, out.n;
    var c := m[x];
    assert CoinsOk(c);
    var s := Spent(c, n);
    var undo := UndoOf(c, n);
    SpentOk(c, n);
    TrimOk(c.vout);
    var m1 := SpendOne(m, out);
    PrunedIffTrimmedEmpty(Get(m1, x));
    assert WithOut(UndoBase(undo, Get(m1, x)), n, undo.txout) == c;
    PutPut(m, x, s, c);
    assert Put(m, x, c) == m;
  }

  /** Conversely a restore without complaint is undone by spending: so two maps on which it gives the
      same map, without complaint, are the same. */
  lemma SpendUndoesRestore(m: Utxo, undo: TxInUndo, out: OutPoint)
    requires UtxoOk(m) && !undo.txout.IsNull()
    requires UndoClean(undo, Get(m, out.hash), out.n)
    ensures IsAvailable(Get(RestoreOne(m, undo, out), out.hash), out.n)
    ensures SpendOne(RestoreOne(m, undo, out), out) == m
  {
    var x, n := out.hash, out.n;
    StoredOk(m, x);
    var base := UndoBase(undo, Get(m, x));
    var c := WithOut(base, n, undo.txout);
    assert base.vout == Get(m, x).vout;
    assert !c.vout[n].IsNull();
    PrunedIffTrimmedEmpty(c);
    assert n < |base.vout| ==> Trim(c.vout) == c.vout by { TrimOk(c.vout); }
    assert n >= |base.vout| ==> Trim(c.vout) == c.vout by { TrimOk(c.vout); }
    var m1 := RestoreOne(m, undo, out);
    assert m1[x] == c;
    RespentVout(m, undo, out);
    PutPut(m, x, c, Spent(c, n));
    assert x in m ==> Spent(c, n) == m[x];
    assert SpendOne(m1, out) == Put(m, x, Get(m, x));
  }

  lemma RespentVout(m: Utxo, undo: TxInUndo, out: OutPoint)
    requires UtxoOk(m) && !undo.txout.IsNull()
    requires UndoClean(undo, Get(m, out.hash), out.n)
    ensures Spent(WithOut(UndoBase(undo, Get(m, out.hash)), out.n, undo.txout), out.n).vout == Get(m, out.hash).vout
  {
    var x, n := out.hash, out.n;
    StoredOk(m, x);
    var v := Get(m, x).vout;
    assert x in m ==> CoinsOk(m[x]);
    var w := Resized(v, n + 1)[n := undo.txout][n := NULL_OUT];
    TrimUnique(w, v);
  }
}
