/** One master and any number of workers around a CCheckQueue, interleaved step by step: what holds in
    every reachable state, what Wait answers, and why it answers at all. */
module CheckQueueRuns {
  import opened CheckQueue

  /** Where a thread is.  Inside, holding the mutex, is never seen between two steps. */
  datatype Local =
    | Outside
    | Inside
    | Executing(batch: seq<Check>, next: nat, fOk: bool)
    | Sleeping(notified: bool)

  /** Thread 0 is the master.  added and log are history: the checks added since the last Wait, and
      the checks and the answer of each Wait that returned. */
  datatype State = State(q: Shared, threads: seq<Local>, added: seq<Check>, log: seq<(seq<Check>, bool)>)

  datatype Action =
    | AddChecks(vChecks: seq<Check>, woken: nat)
    | Enter(t: nat)
    | Exec(t: nat)
    | Finish(t: nat)
    | Wake(t: nat)

  function Init(workers: nat): State {
    State(Shared([], 0, 0, true, 0), seq(workers + 1, i => Outside), [], [])
  }

  // ----- Steps -----

  function Notified(l: Local): Local {
    if l.Sleeping? then Sleeping(true) else l
  }

  predicate Waits(l: Local) { l == Sleeping(false) }

  /** The workers after Add: none, one or all of those waiting on condWorker are notified. */
  function AfterAdd(threads: seq<Local>, n: nat, woken: nat): (r: seq<Local>)
    ensures |r| == |threads|
  {
    if n == 0 then threads
    else if n == 1 then (if 0 < woken < |threads| then threads[woken := Notified(threads[woken])] else threads)
    else seq(|threads|, i requires 0 <= i < |threads| => if i == 0 then threads[0] else Notified(threads[i]))
  }

  /** Thread t takes the mutex and cleans up. */
  function Grab(s: State, t: nat, phase: Phase): State
    requires t < |s.threads|
  {
    var threads := if NotifiesMaster(s.q, phase, t == 0) then s.threads[0 := Notified(s.threads[0])] else s.threads;
    s.(q := CleanUp(s.q, phase), threads := threads[t := Inside])
  }

  /** It decides what to do next and releases the mutex. */
  function Release(nBatchSize: nat, s: State, t: nat): State
    requires t < |s.threads| && s.q.nTotal >= 0 && s.q.nIdle >= 0
  {
    var (q, outcome) := Decide(s.q, nBatchSize, t == 0);
    match outcome
    case Return(fRet) => State(q, s.threads[t := Outside], [], s.log + [(s.added, fRet)])
    case Sleep => s.(q := q, threads := s.threads[t := Sleeping(false)])
    case Work(vChecks, fOk) => s.(q := q, threads := s.threads[t := Executing(vChecks, 0, fOk)])
  }

  function PhaseOf(l: Local): Phase
    requires !l.Inside?
  {
    match l
    case Outside => First
    case Executing(batch, _, fOk) => Finished(|batch|, fOk)
    case Sleeping(_) => Woken
  }

  /** Outside the mutex: evaluate one check of the batch, or skip it once one has failed. */
  function ExecOne(eval: Check -> bool, l: Local): Local
    requires l.Executing? && l.next < |l.batch|
  {
    l.(next := l.next + 1, fOk := if l.fOk then eval(l.batch[l.next]) else l.fOk)
  }

  /** A step that takes the mutex is possible once the counters are (as they always are) nonnegative. */
  predicate Enabled(s: State, a: Action) {
    |s.threads| > 0 &&
    match a
    case AddChecks(vChecks, woken) =>
      && s.threads[0].Outside?
      && (|vChecks| == 1 && (exists i :: 0 < i < |s.threads| && Waits(s.threads[i])) ==>
            0 < woken < |s.threads| && Waits(s.threads[woken]))
    case Enter(t) => t < |s.threads| && s.threads[t].Outside?
    case Exec(t) => t < |s.threads| && s.threads[t].Executing? && s.threads[t].next < |s.threads[t].batch|
    case Finish(t) => t < |s.threads| && s.threads[t].Executing? && s.threads[t].next == |s.threads[t].batch|
    case Wake(t) => t < |s.threads| && s.threads[t].Sleeping?
  }

  ghost predicate Step(eval: Check -> bool, nBatchSize: nat, s: State, a: Action, s': State) {
    && Enabled(s, a)
    && match a
       case AddChecks(vChecks, woken) =>
         s' == State(s.q.(queue := s.q.queue + vChecks, nTodo := s.q.nTodo + |vChecks|),
                     AfterAdd(s.threads, |vChecks|, woken), s.added + vChecks, s.log)
       case Exec(t) =>
         s' == s.(threads := s.threads[t := ExecOne(eval, s.threads[t])])
       case _ =>
         (&& !s.threads[a.t].Inside?
          && var g := Grab(s, a.t, PhaseOf(s.threads[a.t]));
          && g.q.nTotal >= 0 && g.q.nIdle >= 0
          && s' == Release(nBatchSize, g, a.t))
  }

  /** A run from the start: states[i + 1] follows from states[i] by actions[i]. */
  ghost predicate IsRun(eval: Check -> bool, nBatchSize: nat, workers: nat, states: seq<State>, actions: seq<Action>) {
    && |states| == |actions| + 1
    && states[0] == Init(workers)
    && forall i :: 0 <= i < |actions| ==> Step(eval, nBatchSize, states[i], actions[i], states[i + 1])
  }

  // ----- Sums over the threads -----

  function Sum(threads: seq<Local>, f: Local -> nat): nat {
    if threads == [] then 0 else f(threads[0]) + Sum(threads[1..], f)
  }

  function InLoop(l: Local): nat { if l.Outside? then 0 else 1 }
  function Idle(l: Local): nat { if l.Sleeping? then 1 else 0 }
  function HoldsBatch(l: Local): nat { if l.Executing? then 1 else 0 }
  function InHand(l: Local): nat { if l.Executing? then |l.batch| else 0 }

  lemma {:induction false} SumUpdate(threads: seq<Local>, f: Local -> nat, t: nat, l: Local)
    requires t < |threads|
    ensures Sum(threads[t := l], f) == Sum(threads, f) - f(threads[t]) + f(l)
  {
    if t == 0 {
      assert threads[0 := l][1..] == threads[1..];
    } else {
      assert threads[t := l][1..] == threads[1..][t - 1 := l];
      SumUpdate(threads[1..], f, t - 1, l);
    }
  }

  lemma {:induction false} SumPointwise(a: seq<Local>, b: seq<Local>, f: Local -> nat)
    requires |a| == |b| && forall i :: 0 <= i < |a| ==> f(a[i]) == f(b[i])
    ensures Sum(a, f) == Sum(b, f)
  {
    if a != [] {
      SumPointwise(a[1..], b[1..], f);
    }
  }

  lemma {:induction false} SumAtLeast(threads: seq<Local>, f: Local -> nat, t: nat)
    requires t < |threads|
    ensures f(threads[t]) <= Sum(threads, f)
  {
    if t > 0 {
      SumAtLeast(threads[1..], f, t - 1);
    }
  }

  lemma {:induction false} SumPositive(threads: seq<Local>, f: Local -> nat) returns (t: nat)
    requires Sum(threads, f) > 0
    ensures t < |threads| && f(threads[t]) > 0
  {
    if f(threads[0]) > 0 {
      t := 0;
    } else {
      var k := SumPositive(threads[1..], f);
      t := k + 1;
    }
  }

  lemma {:induction false} SumAdds(threads: seq<Local>)
    requires forall i :: 0 <= i < |threads| ==> !threads[i].Inside?
    ensures Sum(threads, InLoop) == Sum(threads, Idle) + Sum(threads, HoldsBatch)
  {
    if threads != [] {
      SumAdds(threads[1..]);
    }
  }

  // ----- The invariant -----

  /** The counters count what they say: the checks not yet finished, the threads in Loop, those asleep. */
  ghost predicate Counts(s: State) {
    && s.q.nTodo == |s.q.queue| + Sum(s.threads, InHand)
    && s.q.nTotal == Sum(s.threads, InLoop)
    && s.q.nIdle == Sum(s.threads, Idle)
  }

  ghost predicate Refuted(eval: Check -> bool, cs: seq<Check>) {
    exists c :: c in cs && !eval(c)
  }

  ghost predicate LocalOk(eval: Check -> bool, added: seq<Check>, l: Local) {
    l.Executing? ==>
      && l.batch != [] && l.next <= |l.batch|
      && (forall c :: c in l.batch ==> c in added)
      && (l.fOk || Refuted(eval, added))
  }

  /** Nothing is held or rejected without a reason among the checks added. */
  ghost predicate Sound(eval: Check -> bool, s: State) {
    && (forall c :: c in s.q.queue ==> c in s.added)
    && (s.q.fAllOk || Refuted(eval, s.added))
    && (forall i :: 0 <= i < |s.threads| ==> LocalOk(eval, s.added, s.threads[i]))
  }

  predicate Carries(l: Local, c: Check) {
    l.Executing? && (!l.fOk || (l.next <= |l.batch| && c in l.batch[l.next..]))
  }

  ghost predicate Traced(s: State, c: Check) {
    c in s.q.queue || !s.q.fAllOk || exists t :: 0 <= t < |s.threads| && Carries(s.threads[t], c)
  }

  /** No failing check is lost: it is still queued, still to be executed, or already reported. */
  ghost predicate Complete(eval: Check -> bool, s: State) {
    forall c :: c in s.added && !eval(c) ==> Traced(s, c)
  }

  ghost predicate AnswerOk(eval: Check -> bool, wait: (seq<Check>, bool)) {
    wait.1 <==> forall c :: c in wait.0 ==> eval(c)
  }

  ghost predicate LogOk(eval: Check -> bool, log: seq<(seq<Check>, bool)>) {
    forall i :: 0 <= i < |log| ==> AnswerOk(eval, log[i])
  }

  /** A master asleep that nobody has notified still has unfinished checks in other threads' hands. */
  ghost predicate MasterOk(s: State) {
    && |s.threads| > 0
    && (Waits(s.threads[0]) ==> s.q.queue == [] && s.q.nTodo > 0)
  }

  ghost predicate AllBut(s: State, t: int) {
    forall i :: 0 <= i < |s.threads| ==> (s.threads[i].Inside? <==> i == t)
  }

  /** The invariant while thread t holds the mutex, or (t < 0) while nobody does. */
  ghost predicate InvAt(eval: Check -> bool, s: State, t: int) {
    Counts(s) && Sound(eval, s) && Complete(eval, s) && LogOk(eval, s.log) && MasterOk(s) && AllBut(s, t)
  }

  ghost predicate Inv(eval: Check -> bool, s: State) {
    InvAt(eval, s, -1)
  }

  lemma {:induction false} AllOutside(threads: seq<Local>)
    requires forall i :: 0 <= i < |threads| ==> threads[i] == Outside
    ensures Sum(threads, InHand) == Sum(threads, InLoop) == Sum(threads, Idle) == 0
  {
    if threads != [] {
      AllOutside(threads[1..]);
    }
  }

  lemma InitEstablishes(eval: Check -> bool, workers: nat)
    ensures Inv(eval, Init(workers))
  {
    AllOutside(Init(workers).threads);
  }

  // ----- Preservation -----

  lemma AddPreserves(eval: Check -> bool, nBatchSize: nat, s: State, a: Action, s': State)
    requires Inv(eval, s) && a.AddChecks? && Step(eval, nBatchSize, s, a, s')
    ensures Inv(eval, s')
  {
    SumPointwise(s.threads, s'.threads, InHand);
    SumPointwise(s.threads, s'.threads, InLoop);
    SumPointwise(s.threads, s'.threads, Idle);
    RefutedGrows(eval, s.added, a.vChecks);
    forall i | 0 <= i < |s'.threads|
      ensures LocalOk(eval, s'.added, s'.threads[i])
    {
      assert LocalOk(eval, s.added, s.threads[i]);
    }
    forall c | c in s'.added && !eval(c)
      ensures Traced(s', c)
    {
      if c in s.added {
        assert Traced(s, c);
        SameCarriers(s, s', c);
      }
    }
  }

  lemma RefutedGrows(eval: Check -> bool, a: seq<Check>, b: seq<Check>)
    ensures Refuted(eval, a) ==> Refuted(eval, a + b)
  {
    if Refuted(eval, a) {
      var c :| c in a && !eval(c);
      assert c in a + b;
    }
  }

  lemma SameCarriers(s: State, s': State, c: Check)
    requires Traced(s, c) && |s'.threads| == |s.threads|
    requires c in s.q.queue ==> c in s'.q.queue
    requires !s.q.fAllOk ==> !s'.q.fAllOk
    requires forall i :: 0 <= i < |s.threads| && s.threads[i].Executing? ==> s'.threads[i] == s.threads[i]
    ensures Traced(s', c)
  {
    if t :| 0 <= t < |s.threads| && Carries(s.threads[t], c) {
      assert Carries(s'.threads[t], c);
    }
  }

  lemma ExecPreserves(eval: Check -> bool, nBatchSize: nat, s: State, a: Action, s': State)
    requires Inv(eval, s) && a.Exec? && Step(eval, nBatchSize, s, a, s')
    ensures Inv(eval, s')
  {
    var l, l' := s.threads[a.t], s'.threads[a.t];
    SumUpdate(s.threads, InHand, a.t, l');
    SumUpdate(s.threads, InLoop, a.t, l');
    SumUpdate(s.threads, Idle, a.t, l');
    assert LocalOk(eval, s.added, l);
    assert l.batch[l.next] in l.batch;
    forall i | 0 <= i < |s'.threads|
      ensures LocalOk(eval, s'.added, s'.threads[i])
    {
      assert LocalOk(eval, s.added, s.threads[i]);
    }
    forall c | c in s'.added && !eval(c)
      ensures Traced(s', c)
    {
      assert Traced(s, c);
      assert l.batch[l.next..] == [l.batch[l.next]] + l'.batch[l'.next..];
      if t :| 0 <= t < |s.threads| && Carries(s.threads[t], c) {
        assert Carries(s'.threads[t], c);
      }
    }
  }

  lemma GrabPreserves(eval: Check -> bool, s: State, t: nat)
    requires Inv(eval, s) && t < |s.threads|
    requires s.threads[t].Executing? ==> s.threads[t].next == |s.threads[t].batch|
    ensures InvAt(eval, Grab(s, t, PhaseOf(s.threads[t])), t)
    ensures Grab(s, t, PhaseOf(s.threads[t])).q.nIdle >= 0
  {
    var l := s.threads[t];
    var phase := PhaseOf(l);
    var woken := if NotifiesMaster(s.q, phase, t == 0) then s.threads[0 := Notified(s.threads[0])] else s.threads;
    var g := Grab(s, t, phase);
    GrabCounts(s, t);
    assert LocalOk(eval, s.added, l);
    forall i | 0 <= i < |g.threads|
      ensures LocalOk(eval, g.added, g.threads[i])
    {
      assert LocalOk(eval, s.added, s.threads[i]);
    }
    forall c | c in g.added && !eval(c)
      ensures Traced(g, c)
    {
      assert Traced(s, c);
      if i :| 0 <= i < |s.threads| && Carries(s.threads[i], c) {
        assert i != t ==> Carries(g.threads[i], c);
        assert i == t && !l.fOk ==> !g.q.fAllOk;
      }
    }
    SumAtLeast(g.threads, Idle, t);
    assert g.q.nTodo >= 0;
  }

  lemma GrabCounts(s: State, t: nat)
    requires Counts(s) && t < |s.threads| && !s.threads[t].Inside?
    ensures Counts(Grab(s, t, PhaseOf(s.threads[t])))
  {
    var phase := PhaseOf(s.threads[t]);
    var woken := if NotifiesMaster(s.q, phase, t == 0) then s.threads[0 := Notified(s.threads[0])] else s.threads;
    SumPointwise(s.threads, woken, InHand);
    SumPointwise(s.threads, woken, InLoop);
    SumPointwise(s.threads, woken, Idle);
    SumUpdate(woken, InHand, t, Inside);
    SumUpdate(woken, InLoop, t, Inside);
    SumUpdate(woken, Idle, t, Inside);
  }

  lemma ReleaseCounts(nBatchSize: nat, s: State, t: nat)
    requires Counts(s) && t < |s.threads| && s.threads[t].Inside?
    ensures Counts(Release(nBatchSize, s, t))
  {
    var l' := Release(nBatchSize, s, t).threads[t];
    SumUpdate(s.threads, InHand, t, l');
    SumUpdate(s.threads, InLoop, t, l');
    SumUpdate(s.threads, Idle, t, l');
    if s.q.queue != [] {
      BatchFits(s.q, nBatchSize);
    }
  }

  lemma TakeBackMembers(queue: seq<Check>, n: nat, c: Check)
    requires n <= |queue|
    ensures c in queue <==> c in queue[..|queue| - n] || c in TakeBack(queue, n)
  {
    if c in queue {
      var i :| 0 <= i < |queue| && queue[i] == c;
      assert i < |queue| - n ==> queue[..|queue| - n][i] == c;
      assert i >= |queue| - n ==> TakeBack(queue, n)[|queue| - 1 - i] == c;
    }
    if c in TakeBack(queue, n) {
      var i :| 0 <= i < n && TakeBack(queue, n)[i] == c;
      assert queue[|queue| - 1 - i] == c;
    }
  }

  lemma ReleasePreserves(eval: Check -> bool, nBatchSize: nat, s: State, t: nat)
    requires t < |s.threads| && InvAt(eval, s, t)
    ensures Inv(eval, Release(nBatchSize, s, t))
  {
    var s' := Release(nBatchSize, s, t);
    ReleaseCounts(nBatchSize, s, t);
    if s.q.queue == [] && t == 0 && s.q.nTodo == 0 {
      NobodyBusy(eval, s);
      WaitAnswers(eval, s);
      assert forall i :: 0 <= i < |s'.threads| ==> LocalOk(eval, [], s'.threads[i]);
      assert LogOk(eval, s'.log);
    } else if s.q.queue == [] {
      forall i | 0 <= i < |s'.threads|
        ensures LocalOk(eval, s'.added, s'.threads[i])
      {
        assert LocalOk(eval, s.added, s.threads[i]);
      }
      forall c | c in s'.added && !eval(c)
        ensures Traced(s', c)
      {
        assert Traced(s, c);
        SameCarriers(s, s', c);
      }
      SumAtLeastZero(s);
    } else {
      ReleaseWork(eval, nBatchSize, s, t);
    }
  }

  lemma SumAtLeastZero(s: State)
    requires Counts(s)
    ensures s.q.nTodo >= 0 && s.q.nTotal >= 0 && s.q.nIdle >= 0
  {
  }

  lemma ReleaseWork(eval: Check -> bool, nBatchSize: nat, s: State, t: nat)
    requires t < |s.threads| && InvAt(eval, s, t) && s.q.queue != []
    ensures Inv(eval, Release(nBatchSize, s, t))
  {
    var s' := Release(nBatchSize, s, t);
    ReleaseCounts(nBatchSize, s, t);
    BatchFits(s.q, nBatchSize);
    var nNow := BatchSize(s.q, nBatchSize);
    forall c
      ensures c in s.q.queue <==> c in s'.q.queue || c in s'.threads[t].batch
    {
      TakeBackMembers(s.q.queue, nNow, c);
    }
    forall i | 0 <= i < |s'.threads|
      ensures LocalOk(eval, s'.added, s'.threads[i])
    {
      assert LocalOk(eval, s.added, s.threads[i]);
    }
    forall c | c in s'.added && !eval(c)
      ensures Traced(s', c)
    {
      assert Traced(s, c);
      assert s'.threads[t].batch[0..] == s'.threads[t].batch;
      if c in s.q.queue && c !in s'.q.queue {
        assert Carries(s'.threads[t], c);
      } else if i :| 0 <= i < |s.threads| && Carries(s.threads[i], c) {
        assert Carries(s'.threads[i], c);
      }
    }
  }

  /** With nothing left to do, no thread holds a batch. */
  lemma NobodyBusy(eval: Check -> bool, s: State)
    requires Counts(s) && Sound(eval, s) && s.q.nTodo == 0
    ensures s.q.queue == []
    ensures forall i :: 0 <= i < |s.threads| ==> !s.threads[i].Executing?
  {
    forall i | 0 <= i < |s.threads|
      ensures !s.threads[i].Executing?
    {
      SumAtLeast(s.threads, InHand, i);
      assert LocalOk(eval, s.added, s.threads[i]);
    }
  }

  /** At that point fAllOk is the verdict on all the checks added. */
  lemma WaitAnswers(eval: Check -> bool, s: State)
    requires Counts(s) && Sound(eval, s) && Complete(eval, s) && s.q.nTodo == 0
    ensures AnswerOk(eval, (s.added, s.q.fAllOk))
  {
    NobodyBusy(eval, s);
    forall c | c in s.added && !eval(c)
      ensures !s.q.fAllOk
    {
      assert Traced(s, c);
    }
  }

  lemma StepPreserves(eval: Check -> bool, nBatchSize: nat, s: State, a: Action, s': State)
    requires Inv(eval, s) && Step(eval, nBatchSize, s, a, s')
    ensures Inv(eval, s')
  {
    match a
    case AddChecks(_, _) => AddPreserves(eval, nBatchSize, s, a, s');
    case Exec(_) => ExecPreserves(eval, nBatchSize, s, a, s');
    case _ =>
      GrabPreserves(eval, s, a.t);
      ReleasePreserves(eval, nBatchSize, Grab(s, a.t, PhaseOf(s.threads[a.t])), a.t);
  }

  // ----- What holds in every run -----

  lemma {:induction false} RunKeepsInvariant(eval: Check -> bool, nBatchSize: nat, workers: nat,
                                             states: seq<State>, actions: seq<Action>, k: nat)
    requires IsRun(eval, nBatchSize, workers, states, actions) && k < |states|
    ensures Inv(eval, states[k])
  {
    if k == 0 {
      InitEstablishes(eval, workers);
    } else {
      RunKeepsInvariant(eval, nBatchSize, workers, states, actions, k - 1);
      StepPreserves(eval, nBatchSize, states[k - 1], actions[k - 1], states[k]);
    }
  }

  /** Every Wait that returned in a run answered whether all checks added since the one before hold. */
  lemma WaitIsExact(eval: Check -> bool, nBatchSize: nat, workers: nat,
                    states: seq<State>, actions: seq<Action>, k: nat, i: nat)
    requires IsRun(eval, nBatchSize, workers, states, actions) && k < |states| && i < |states[k].log|
    ensures states[k].log[i].1 <==> forall c :: c in states[k].log[i].0 ==> eval(c)
  {
    RunKeepsInvariant(eval, nBatchSize, workers, states, actions, k);
    assert AnswerOk(eval, states[k].log[i]);
  }

  /** nTotal - nIdle is the number of threads holding a batch, and nTodo the checks queued and held. */
  lemma CountersCountBatches(eval: Check -> bool, nBatchSize: nat, workers: nat,
                             states: seq<State>, actions: seq<Action>, k: nat)
    requires IsRun(eval, nBatchSize, workers, states, actions) && k < |states|
    ensures states[k].q.nTotal - states[k].q.nIdle == Sum(states[k].threads, HoldsBatch)
    ensures states[k].q.nTodo == |states[k].q.queue| + Sum(states[k].threads, InHand)
  {
    RunKeepsInvariant(eval, nBatchSize, workers, states, actions, k);
    SumAdds(states[k].threads);
  }

  /** Whenever the master is outside and has added nothing since its last Wait, IsIdle holds, so the
      assertion in the constructor of the next CCheckQueueControl does not fire. */
  lemma IdleBetweenWaits(eval: Check -> bool, nBatchSize: nat, workers: nat,
                         states: seq<State>, actions: seq<Action>, k: nat)
    requires IsRun(eval, nBatchSize, workers, states, actions) && k < |states|
    requires states[k].added == []
    ensures states[k].q.nTotal == states[k].q.nIdle && states[k].q.nTodo == 0 && states[k].q.fAllOk
  {
    var s := states[k];
    RunKeepsInvariant(eval, nBatchSize, workers, states, actions, k);
    SumAdds(s.threads);
    forall i | 0 <= i < |s.threads|
      ensures !s.threads[i].Executing?
    {
      BatchWasAdded(eval, s.added, s.threads[i]);
    }
    NoneExecuting(s.threads);
    var c := if s.q.queue == [] then 0 else s.q.queue[0];
    assert s.q.queue != [] ==> c in s.q.queue;
  }

  lemma BatchWasAdded(eval: Check -> bool, added: seq<Check>, l: Local)
    requires LocalOk(eval, added, l)
    ensures l.Executing? ==> added != []
  {
    if l.Executing? {
      assert l.batch[0] in added;
    }
  }

  lemma {:induction false} NoneExecuting(threads: seq<Local>)
    requires forall i :: 0 <= i < |threads| ==> !threads[i].Executing?
    ensures Sum(threads, HoldsBatch) == Sum(threads, InHand) == 0
  {
    if threads != [] {
      NoneExecuting(threads[1..]);
    }
  }

  /** A master asleep and not notified waits for a worker that holds an unfinished batch. */
  lemma SleepingMasterHasWorker(eval: Check -> bool, nBatchSize: nat, workers: nat,
                                states: seq<State>, actions: seq<Action>, k: nat) returns (t: nat)
    requires IsRun(eval, nBatchSize, workers, states, actions) && k < |states|
    requires |states[k].threads| > 0 && states[k].threads[0] == Sleeping(false)
    ensures 0 < t < |states[k].threads| && states[k].threads[t].Executing?
  {
    RunKeepsInvariant(eval, nBatchSize, workers, states, actions, k);
    t := SumPositive(states[k].threads, InHand);
  }

  // ----- Wait returns -----

  function Effort(l: Local): nat {
    match l
    case Outside => 3
    case Inside => 2
    case Executing(batch, next, _) => 2 + if next <= |batch| then 2 * (|batch| - next) else 0
    case Sleeping(notified) => if notified then 1 else 0
  }

  function Remaining(s: State): nat {
    5 * |s.q.queue| + Sum(s.threads, Effort)
  }

  /** A step no thread has cause for: waking without a notification to find the queue empty. */
  predicate Spurious(s: State, a: Action) {
    a.Wake? && a.t < |s.threads| && Waits(s.threads[a.t]) && s.q.queue == []
  }

  lemma GrabUsesEffort(s: State, t: nat)
    requires t < |s.threads| && !s.threads[t].Inside? && (t > 0 ==> !s.threads[0].Inside?)
    ensures Remaining(Grab(s, t, PhaseOf(s.threads[t])))
         <= Remaining(s) + 2 - Effort(s.threads[t]) + if s.threads[t].Executing? then 1 else 0
  {
    var phase := PhaseOf(s.threads[t]);
    var woken := if NotifiesMaster(s.q, phase, t == 0) then s.threads[0 := Notified(s.threads[0])] else s.threads;
    SumUpdate(s.threads, Effort, 0, Notified(s.threads[0]));
    SumUpdate(woken, Effort, t, Inside);
  }

  lemma ReleaseUsesEffort(nBatchSize: nat, s: State, t: nat)
    requires t < |s.threads| && s.threads[t].Inside? && s.q.nTotal >= 0 && s.q.nIdle >= 0
    requires t == 0 ==> !Release(nBatchSize, s, t).threads[0].Outside?
    ensures Remaining(Release(nBatchSize, s, t)) <= Remaining(s) - 2
    ensures s.q.queue != [] ==> Remaining(Release(nBatchSize, s, t)) < Remaining(s) - 2
    ensures s.q.queue == [] ==> Remaining(Release(nBatchSize, s, t)) == Remaining(s) - 2
  {
    SumUpdate(s.threads, Effort, t, Release(nBatchSize, s, t).threads[t]);
    if s.q.queue != [] {
      BatchFits(s.q, nBatchSize);
    }
  }

  lemma SpuriousCostsNothing(s: State, t: nat)
    requires t < |s.threads| && Waits(s.threads[t])
    ensures Remaining(Grab(s, t, Woken)) == Remaining(s) + 2
  {
    SumUpdate(s.threads, Effort, t, Inside);
  }

  /** Until Wait returns, every step that is not spurious uses up some of the remaining effort, and a
      spurious one adds none. */
  lemma StepUsesEffort(eval: Check -> bool, nBatchSize: nat, s: State, a: Action, s': State)
    requires Inv(eval, s) && Step(eval, nBatchSize, s, a, s')
    requires !s.threads[0].Outside? && !s'.threads[0].Outside?
    ensures if Spurious(s, a) then Remaining(s') == Remaining(s) else Remaining(s') < Remaining(s)
  {
    hide Inv, Sum, Decide;
    if a.Exec? {
      SumUpdate(s.threads, Effort, a.t, s'.threads[a.t]);
    } else {
      var g := Grab(s, a.t, PhaseOf(s.threads[a.t]));
      NobodyInside(eval, s);
      GrabUsesEffort(s, a.t);
      ReleaseUsesEffort(nBatchSize, g, a.t);
      if Waits(s.threads[a.t]) {
        SpuriousCostsNothing(s, a.t);
      }
    }
  }

  lemma NobodyInside(eval: Check -> bool, s: State)
    requires Inv(eval, s)
    ensures forall i :: 0 <= i < |s.threads| ==> !s.threads[i].Inside?
  {
  }

  /** Until then some thread can take such a step. */
  lemma SomeStepPossible(eval: Check -> bool, nBatchSize: nat, s: State) returns (a: Action, s': State)
    requires Inv(eval, s) && !s.threads[0].Outside?
    ensures Step(eval, nBatchSize, s, a, s') && !Spurious(s, a)
  {
    var t := 0;
    if s.threads[0] == Sleeping(false) {
      t := SumPositive(s.threads, InHand);
    }
    var l := s.threads[t];
    assert LocalOk(eval, s.added, l);
    if l.Executing? && l.next < |l.batch| {
      a := Exec(t);
      s' := s.(threads := s.threads[t := ExecOne(eval, l)]);
    } else {
      a := if l.Executing? then Finish(t) else Wake(t);
      GrabPreserves(eval, s, t);
      s' := Release(nBatchSize, Grab(s, t, PhaseOf(l)), t);
    }
  }

  function Useful(states: seq<State>, actions: seq<Action>): nat
    requires |states| == |actions| + 1
  {
    if actions == [] then 0
    else (if Spurious(states[0], actions[0]) then 0 else 1) + Useful(states[1..], actions[1..])
  }

  /** So from any reachable state Wait returns within Remaining(s) steps that are not spurious,
      whatever the order of the threads. */
  lemma {:induction false} WaitReturns(eval: Check -> bool, nBatchSize: nat,
                                       states: seq<State>, actions: seq<Action>)
    requires |states| == |actions| + 1 && Inv(eval, states[0])
    requires forall i :: 0 <= i < |actions| ==> Step(eval, nBatchSize, states[i], actions[i], states[i + 1])
    requires forall i :: 0 <= i < |states| ==> |states[i].threads| > 0 && !states[i].threads[0].Outside?
    ensures Useful(states, actions) <= Remaining(states[0])
  {
    if actions != [] {
      assert Step(eval, nBatchSize, states[0], actions[0], states[1]);
      StepPreserves(eval, nBatchSize, states[0], actions[0], states[1]);
      StepUsesEffort(eval, nBatchSize, states[0], actions[0], states[1]);
      forall i | 0 <= i < |actions[1..]|
        ensures Step(eval, nBatchSize, states[1..][i], actions[1..][i], states[1..][i + 1])
      {
        assert Step(eval, nBatchSize, states[i + 1], actions[i + 1], states[i + 2]);
      }
      WaitReturns(eval, nBatchSize, states[1..], actions[1..]);
    }
  }
}
