/** CCheckQueue (src/checkqueue.h) as a system of interleaved steps.  Each critical section of Loop,
    each Add and each evaluation of one check outside the mutex is one atomic step. */
module CheckQueue {

  type Check = nat

  /** The fields guarded by the mutex. */
  datatype Shared = Shared(queue: seq<Check>, nIdle: int, nTotal: int, fAllOk: bool, nTodo: int)

  /** How a thread comes to hold the mutex: on its first turn, after a batch, or out of the wait. */
  datatype Phase = First | Finished(nNow: nat, fOk: bool) | Woken

  /** How it releases it: leaving Loop, going to sleep, or with a batch to execute. */
  datatype Outcome = Return(fRet: bool) | Sleep | Work(vChecks: seq<Check>, fOk: bool)

  function Min(a: int, b: int): int { if a < b then a else b }
  function Max(a: int, b: int): int { if a < b then b else a }

  /** The clean-up at the head of the critical section. */
  function CleanUp(q: Shared, phase: Phase): Shared {
    match phase
    case First => q.(nTotal := q.nTotal + 1)
    case Finished(nNow, fOk) => q.(fAllOk := q.fAllOk && fOk, nTodo := q.nTodo - nNow)
    case Woken => q.(nIdle := q.nIdle - 1)
  }

  /** Whether the clean-up notifies the master. */
  predicate NotifiesMaster(q: Shared, phase: Phase, fMaster: bool) {
    phase.Finished? && CleanUp(q, phase).nTodo == 0 && !fMaster
  }

  /** The size of the next batch. */
  function BatchSize(q: Shared, nBatchSize: nat): int
    requires q.nTotal + q.nIdle + 1 > 0
  {
    Max(1, Min(nBatchSize, |q.queue| / (q.nTotal + q.nIdle + 1)))
  }

  /** The last n elements of the queue, last one first. */
  function TakeBack(queue: seq<Check>, n: nat): (r: seq<Check>)
    requires n <= |queue|
    ensures |r| == n
  {
    seq(n, i requires 0 <= i < n => queue[|queue| - 1 - i])
  }

  /** A batch is never empty, nor larger than the queue.  Unless it is a single check it is at most
      nBatchSize and at most an equal share among the threads, one more counted than there are; and it is
      the largest such. */
  lemma BatchFits(q: Shared, nBatchSize: nat)
    requires q.queue != [] && q.nTotal >= 0 && q.nIdle >= 0
    ensures var n, d := BatchSize(q, nBatchSize), q.nTotal + q.nIdle + 1;
            && 1 <= n <= |q.queue|
            && (n > 1 ==> n <= nBatchSize && n * d <= |q.queue|)
            && (n >= nBatchSize || (n + 1) * d > |q.queue|)
  {
    var d := q.nTotal + q.nIdle + 1;
    DivideDown(|q.queue|, d);
    ShareIsLargest(|q.queue|, d, |q.queue| / d, |q.queue| % d, BatchSize(q, nBatchSize));
  }

  lemma ShareIsLargest(size: nat, d: int, share: int, r: int, n: int)
    requires d >= 1 && size == d * share + r && 0 <= r < d && n >= 1
    ensures n <= share ==> n * d <= size
    ensures n >= share ==> (n + 1) * d > size
  {
    assert n <= share ==> (share - n) * d >= 0;
    assert n >= share ==> (n - share) * d >= 0;
  }

  lemma QuotientAtMost(n: nat, d: int, q: int, r: int)
    requires d >= 1 && n == d * q + r && 0 <= r < d
    ensures 0 <= q <= n
  {
    assert q <= -1 ==> d * q <= d * -1;
    assert q >= 1 ==> (d - 1) * q >= 0;
  }

  lemma DivideDown(n: nat, d: int)
    requires d >= 1
    ensures 0 <= n / d <= n
  {
    QuotientAtMost(n, d, n / d, n % d);
  }

  /** The rest of the critical section, from the head of the inner while loop. */
  function Decide(q: Shared, nBatchSize: nat, fMaster: bool): (Shared, Outcome)
    requires q.nTotal >= 0 && q.nIdle >= 0
  {
    if q.queue == [] then
      if fMaster && q.nTodo == 0 then
        (q.(nTotal := q.nTotal - 1, fAllOk := true), Return(q.fAllOk))
      else
        (q.(nIdle := q.nIdle + 1), Sleep)
    else
      BatchFits(q, nBatchSize);
      var nNow := BatchSize(q, nBatchSize);
      (q.(queue := q.queue[..|q.queue| - nNow]), Work(TakeBack(q.queue, nNow), q.fAllOk))
  }

  // ----- The object -----

  class Queue {
    var queue: seq<Check>
    var nIdle: int
    var nTotal: int
    var fAllOk: bool
    var nTodo: int
    const nBatchSize: nat

    ghost function S(): Shared
      reads this
    {
      Shared(queue, nIdle, nTotal, fAllOk, nTodo)
    }

    constructor (nBatchSizeIn: nat)
      ensures S() == Shared([], 0, 0, true, 0) && nBatchSize == nBatchSizeIn
    {
      nBatchSize := nBatchSizeIn;
      queue, nIdle, nTotal, fAllOk, nTodo := [], 0, 0, true, 0;
    }

    /** Add a batch of checks: one notification for one check, a broadcast for more. */
    method Add(vChecks: seq<Check>) returns (notifyOne: bool, notifyAll: bool)
      modifies this
      ensures S() == old(S()).(queue := old(queue) + vChecks, nTodo := old(nTodo) + |vChecks|)
      ensures notifyOne == (|vChecks| == 1) && notifyAll == (|vChecks| > 1)
    {
      for i := 0 to |vChecks|
        invariant queue == old(queue) + vChecks[..i]
        invariant S() == old(S()).(queue := queue)
      {
        queue := queue + [vChecks[i]];
      }
      nTodo := nTodo + |vChecks|;
      notifyOne := |vChecks| == 1;
      notifyAll := |vChecks| > 1;
    }

    /** One critical section of Loop, from taking the mutex to releasing it. */
    method CriticalSection(fMaster: bool, phase: Phase) returns (outcome: Outcome, notifyMaster: bool)
      requires nTotal >= 0 && nIdle >= 0 && (phase.Woken? ==> nIdle > 0)
      modifies this
      ensures notifyMaster == NotifiesMaster(old(S()), phase, fMaster)
      ensures (S(), outcome) == Decide(CleanUp(old(S()), phase), nBatchSize, fMaster)
    {
      notifyMaster := false;
      match phase {
        case First =>
          nTotal := nTotal + 1;
        case Finished(nNow, fOk) =>
          fAllOk := fAllOk && fOk;
          nTodo := nTodo - nNow;
          notifyMaster := nTodo == 0 && !fMaster;
        case Woken =>
          nIdle := nIdle - 1;
      }
      if queue == [] {
        if fMaster && nTodo == 0 {
          nTotal := nTotal - 1;
          var fRet := fAllOk;
          if fMaster {
            fAllOk := true;
          }
          return Return(fRet), notifyMaster;
        }
        nIdle := nIdle + 1;
        return Sleep, notifyMaster;
      }
      var vChecks := TakeBatch();
      return Work(vChecks, fAllOk), notifyMaster;
    }

    /** The end of the critical section: move the next batch out of the queue. */
    method TakeBatch() returns (vChecks: seq<Check>)
      requires nTotal >= 0 && nIdle >= 0 && queue != []
      modifies this`queue
      ensures (S(), Work(vChecks, fAllOk)) == Decide(old(S()), nBatchSize, false)
      ensures (S(), Work(vChecks, fAllOk)) == Decide(old(S()), nBatchSize, true)
    {
      ghost var q := S();
      BatchFits(q, nBatchSize);
      var nNow := Max(1, Min(nBatchSize, |queue| / (nTotal + nIdle + 1)));
      vChecks := [];
      for i := 0 to nNow
        invariant queue == q.queue[..|q.queue| - i]
        invariant vChecks == TakeBack(q.queue, i)
      {
        vChecks := vChecks + [queue[|queue| - 1]];
        queue := queue[..|queue| - 1];
      }
    }

    method IsIdle() returns (r: bool)
      ensures r == (nTotal == nIdle && nTodo == 0 && fAllOk)
    {
      r := nTotal == nIdle && nTodo == 0 && fAllOk;
    }
  }

  /** The loop over a batch outside the mutex. */
  method Execute(eval: Check -> bool, vChecks: seq<Check>, fOk: bool) returns (r: bool)
    ensures r <==> fOk && forall c :: c in vChecks ==> eval(c)
  {
    r := fOk;
    for i := 0 to |vChecks|
      invariant r <==> fOk && forall c :: c in vChecks[..i] ==> eval(c)
    {
      if r {
        r := eval(vChecks[i]);
      }
      assert vChecks[..i + 1] == vChecks[..i] + [vChecks[i]];
    }
  }
}
