/** Whole runs of a stack of coin caches against a stack of plain maps, as in src/test/coins_tests.cpp. */
module CoinsRuns {
  import opened Options
  import opened Coins
  import opened CoinsCache

  datatype Operation =
    | Access(txid: Txid)
    | Have(txid: Txid)
    | Modify(txid: Txid, f: CCoins -> CCoins)
    | Push
    | Flush
    | Pop

  datatype Answer = Found(coins: Option<CCoins>) | Has(r: bool) | Done

  // ----- The plain maps -----

  /** The maps after an operation; the last one is the one in use, the first the database. */
  function After(views: seq<Utxo>, op: Operation): seq<Utxo>
    requires views != []
  {
    var top := |views| - 1;
    match op
    case Access(_) => views
    case Have(_) => views
    case Modify(x, f) => views[top := Put(views[top], x, f(Get(views[top], x)))]
    case Push => views + [views[top]]
    case Flush => if top > 0 then views[top - 1 := views[top]] else views
    case Pop => if top > 0 then views[..top] else views
  }

  function AnswerOf(views: seq<Utxo>, op: Operation): Answer
    requires views != []
  {
    var m := views[|views| - 1];
    match op
    case Access(x) => Found(if x in m then Some(m[x]) else None)
    case Have(x) => Has(x in m)
    case _ => Done
  }

  /** Every operation but Push has a cache to work on, and a modification treats all pruned coins alike,
      as their equality says it must. */
  ghost predicate CanRun(views: seq<Utxo>, op: Operation) {
    && (op.Push? || |views| > 1)
    && (op.Modify? ==> Respects(op.f))
  }

  ghost predicate Respects(f: CCoins -> CCoins) {
    forall c: CCoins :: c.vout == [] ==> SameCoins(f(c), f(EMPTY))
  }

  ghost predicate CanRunAll(views: seq<Utxo>, ops: seq<Operation>)
    decreases |ops|
  {
    views != [] &&
    (ops != [] ==> CanRun(views, ops[0]) && CanRunAll(After(views, ops[0]), ops[1..]))
  }

  function AfterAll(views: seq<Utxo>, ops: seq<Operation>): seq<Utxo>
    requires views != []
    decreases |ops|
  {
    if ops == [] || After(views, ops[0]) == [] then views else AfterAll(After(views, ops[0]), ops[1..])
  }

  function AnswersOf(views: seq<Utxo>, ops: seq<Operation>): seq<Answer>
    requires views != []
    decreases |ops|
  {
    if ops == [] || After(views, ops[0]) == [] then []
    else [AnswerOf(views, ops[0])] + AnswersOf(After(views, ops[0]), ops[1..])
  }

  lemma ModifyAlike(m: Utxo, x: Txid, c: CCoins, f: CCoins -> CCoins)
    requires Shows(m, x, c) && Respects(f)
    ensures Put(m, x, f(c)) == Put(m, x, f(Get(m, x)))
  {
    if x !in m {
      assert SameCoins(f(c), f(EMPTY));
      PrunedIffTrimmedEmpty(f(c));
      PrunedIffTrimmedEmpty(f(EMPTY));
    }
  }

  // ----- The caches -----

  method Step(s: CoinsViews, op: Operation) returns (answer: Answer)
    requires s.Valid() && CanRun(s.views, op)
    modifies s
    ensures s.Valid() && s.views == After(old(s.views), op)
    ensures answer == AnswerOf(old(s.views), op)
  {
    answer := Done;
    match op {
      case Access(x) =>
        var r := s.AccessCoins(x);
        answer := Found(if r.Some? && r.value.vout != [] then r else None);
      case Have(x) =>
        var r := s.HaveCoins(x);
        answer := Has(r);
      case Modify(x, f) =>
        var coins, usage := s.ModifyCoins(x);
        ModifyAlike(s.Top(), x, coins, f);
        s.Release(x, f(coins), usage);
      case Push =>
        s.Push();
      case Flush =>
        s.Flush();
      case Pop =>
        s.Pop();
    }
  }

  /** Any run that works on the top cache only answers like the plain maps; in particular flags, sizes
      and entries pulled in on the way never show. */
  method Run(s: CoinsViews, ops: seq<Operation>) returns (answers: seq<Answer>)
    requires s.Valid() && CanRunAll(s.views, ops)
    modifies s
    ensures s.Valid() && s.views == AfterAll(old(s.views), ops)
    ensures answers == AnswersOf(old(s.views), ops)
    decreases |ops|
  {
    if ops == [] {
      return [];
    }
    var answer := Step(s, ops[0]);
    var rest := Run(s, ops[1..]);
    answers := [answer] + rest;
  }

  /** Flush and drop one cache after the other. */
  function Drain(n: nat): seq<Operation> {
    if n == 0 then [] else [Flush, Pop] + Drain(n - 1)
  }

  /** Flushing the whole stack down leaves in the database exactly what the top cache stood for. */
  lemma {:induction false} DrainReachesDatabase(views: seq<Utxo>)
    requires views != []
    ensures CanRunAll(views, Drain(|views| - 1))
    ensures AfterAll(views, Drain(|views| - 1)) == [views[|views| - 1]]
    decreases |views|
  {
    if |views| > 1 {
      var ops := Drain(|views| - 1);
      var v1 := After(views, Flush);
      var v2 := After(v1, Pop);
      DrainReachesDatabase(v2);
      assert ops[0] == Flush && ops[1..][0] == Pop && ops[1..][1..] == Drain(|v2| - 1);
      assert AfterAll(views, ops) == AfterAll(v1, ops[1..]) == AfterAll(v2, ops[1..][1..]);
    }
  }
}
