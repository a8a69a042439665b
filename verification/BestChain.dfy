/** Moving the active chain towards the best candidate: what it may change, what it keeps, and
    what the result of ActivateBestChain is. */
module BestChain {
  import opened BlockIndex
  import opened ActiveChain
  import opened BlockTree
  import opened BlockTreeSteps

  /** What activating a better chain may change: failed flags, validity and undo marks of entries,
      the candidates and the active chain.  New FAILED_VALID marks only go to refused blocks, and all
      new flags to linked ones. */
  ghost predicate Progress(t: Tree, t': Tree, ok: BlockId -> bool)
  {
    && t'.genesis == t.genesis && t'.headers == t.headers && t'.unlinked == t.unlinked
    && t'.nextSequenceId == t.nextSequenceId && t'.status.Keys == t.status.Keys
    && t'.candidates <= t.candidates
    && forall b {:trigger t'.status[b]} :: b in t.status ==> EntryProgress(t.status[b], t'.status[b], ok(b))
  }

  ghost predicate EntryProgress(s: Status, s': Status, okBlock: bool)
  {
    && s'.nTx == s.nTx && s'.nChainTx == s.nChainTx && s'.nSequenceId == s.nSequenceId && s'.haveData == s.haveData
    && (s.failedValid ==> s'.failedValid) && (s.failedChild ==> s'.failedChild)
    && (s'.failedValid && !s.failedValid ==> !okBlock) && (s'.Failed() && !s.Failed() ==> s.nChainTx > 0)
  }

  lemma ProgressTransitive(a: Tree, b: Tree, c: Tree, ok: BlockId -> bool)
    requires Progress(a, b, ok) && Progress(b, c, ok)
    ensures Progress(a, c, ok)
  {
    forall x | x in a.status ensures EntryProgress(a.status[x], c.status[x], ok(x)) {
      assert b.status[x] == b.status[x];
    }
  }

  lemma ProgressKeepsOrder(t: Tree, t': Tree, ok: BlockId -> bool, a: BlockId, b: BlockId)
    requires Shape(t) && Shape(t') && Progress(t, t', ok) && a in t.headers && b in t.headers
    ensures Less(t', a, b) == Less(t, a, b)
  {
    assert t'.status[a].nSequenceId == t.status[a].nSequenceId;
    assert t'.status[b].nSequenceId == t.status[b].nSequenceId;
  }

  /** The entries that are not marked FAILED_VALID. */
  ghost function NotFailed(t: Tree): set<BlockId> {
    set b | b in t.status && !t.status[b].failedValid
  }

  lemma ProgressShrinksNotFailed(t: Tree, t': Tree, ok: BlockId -> bool)
    requires Progress(t, t', ok)
    ensures NotFailed(t') <= NotFailed(t)
  {
    forall b | b in NotFailed(t') ensures b in NotFailed(t) { assert t'.status[b] == t'.status[b]; }
  }

  ghost function Unreceived(t: Tree): set<BlockId> {
    set b | b in t.status && t.status[b].nChainTx == 0
  }

  predicate IsLast(h: Headers, st: map<BlockId, Status>, s: set<BlockId>, m: BlockId)
    requires forall c :: c in s ==> c in h && c in st
  {
    m in s && forall c :: c in s ==> !SortsBefore(h, st, m, c)
  }

  predicate IsFirst(h: Headers, st: map<BlockId, Status>, s: set<BlockId>, m: BlockId)
    requires forall c :: c in s ==> c in h && c in st
  {
    m in s && forall c :: c in s ==> !SortsBefore(h, st, c, m)
  }

  /** A finite nonempty set of blocks has a last and a first element under the comparator. */
  lemma {:induction false} EndsExist(h: Headers, st: map<BlockId, Status>, s: set<BlockId>)
    returns (last: BlockId, first: BlockId)
    requires s != {} && forall c :: c in s ==> c in h && c in st
    ensures IsLast(h, st, s, last) && IsFirst(h, st, s, first)
    decreases |s|
  {
    var x :| x in s;
    var r := s - {x};
    if r == {} {
      assert s == {x};
      return x, x;
    }
    var m, n := EndsExist(h, st, r);
    last := if SortsBefore(h, st, m, x) then x else m;
    first := if SortsBefore(h, st, x, n) then x else n;
    forall c | c in s ensures !SortsBefore(h, st, last, c) && !SortsBefore(h, st, c, first) {
      if c != x {
        assert c in r;
      }
    }
  }

  // ----- FindMostWorkChain -----

  /** What FindMostWorkChain is to find: the last candidate, its path free of flags. */
  ghost predicate MostWork(t: Tree, m: BlockId)
  {
    && Shape(t) && m in t.candidates && m in t.headers && CleanPath(t, m)
    && forall c {:trigger c in t.candidates} :: c in t.candidates && c in t.headers ==> !Less(t, m, c)
  }

  lemma MostWorkIsLast(t: Tree, m: BlockId, c: BlockId)
    requires MostWork(t, m) && t.candidates <= t.headers.Keys
    requires IsLast(t.headers, t.status, t.candidates, c)
    ensures c == m
  {
    ComparatorIsStrictTotalOrder(t, m, c, c);
  }

  /** No block of b's path carries a failed flag. */
  ghost predicate CleanPath(t: Tree, b: BlockId)
    requires Shape(t) && b in t.headers
  {
    forall k {:trigger PathOf(t, b)[k]} :: 0 <= k <= t.headers[b].nHeight ==>
      PathOf(t, b)[k] in t.status && !t.status[PathOf(t, b)[k]].Failed()
  }

  /** Above height k no block of b's path is in the active chain, and none at or above it is flagged. */
  ghost predicate CleanAbove(t: Tree, b: BlockId, k: int)
    requires Shape(t) && b in t.headers && -1 <= k
  {
    forall j {:trigger PathOf(t, b)[j]} :: k < j <= t.headers[b].nHeight ==>
      PathOf(t, b)[j] in t.status && !t.status[PathOf(t, b)[j]].Failed() && PathOf(t, b)[j] !in t.vChain
  }

  lemma CleanDownToChain(t: Tree, ok: BlockId -> bool, b: BlockId, k: nat)
    requires Shape(t) && ActiveOk(t, ok) && b in t.headers && k <= t.headers[b].nHeight
    requires CleanAbove(t, b, k) && PathOf(t, b)[k] in t.vChain
    ensures CleanPath(t, b)
  {
    PathInTree(t, b, k);
    var a := PathOf(t, b)[k];
    InChainIffMember(t.headers, t.genesis, t.vChain, a);
    forall j | 0 <= j <= t.headers[b].nHeight
      ensures PathOf(t, b)[j] in t.status && !t.status[PathOf(t, b)[j]].Failed()
    {
      if j <= k {
        InChainDownward(t.headers, t.genesis, t.vChain, a, j);
        assert PathOf(t, a)[j] == PathOf(t, b)[j];
        assert t.vChain[j] in t.vChain;
        assert ActiveBlockOk(t, ok, t.vChain[j]);
      }
    }
  }

  /** b lies on m's path strictly above height k. */
  ghost predicate InTail(t: Tree, m: BlockId, k: int, b: BlockId)
    requires Shape(t) && m in t.headers && b in t.headers
  {
    k < t.headers[b].nHeight <= t.headers[m].nHeight && PathOf(t, m)[t.headers[b].nHeight] == b
  }

  /** The part of m's path above height k becomes FAILED_CHILD and leaves the candidates,
      as does the flagged block at height k. */
  ghost function FailedChain(t: Tree, m: BlockId, k: nat): Tree
    requires Shape(t) && m in t.headers && k <= t.headers[m].nHeight
  {
    t.(status := map b | b in t.headers && b in t.status ::
         if InTail(t, m, k, b) then t.status[b].(failedChild := true) else t.status[b],
       candidates := set c | c in t.candidates && c in t.headers && !InTail(t, m, k, c) && c != PathOf(t, m)[k])
  }

  /** As far as FindMostWorkChain has got when it has marked m's path above height j. */
  ghost function TailFailed(t: Tree, m: BlockId, j: nat): Tree
    requires Shape(t) && m in t.headers
  {
    t.(status := map b | b in t.headers && b in t.status ::
         if InTail(t, m, j, b) then t.status[b].(failedChild := true) else t.status[b],
       candidates := set c | c in t.candidates && c in t.headers && !InTail(t, m, j, c))
  }

  lemma TailStartsEmpty(t: Tree, m: BlockId)
    requires Shape(t) && m in t.headers && t.candidates <= t.headers.Keys
    ensures TailFailed(t, m, t.headers[m].nHeight) == t
  {
    hide SkipsBuilt, WellFormed;
    var t' := TailFailed(t, m, t.headers[m].nHeight);
    assert t'.status == t.status;
    assert t'.candidates == t.candidates;
  }

  lemma TailGrows(t: Tree, m: BlockId, j: nat, k: nat)
    requires Shape(t) && m in t.headers && k <= j <= t.headers[m].nHeight
    requires PathOf(t, m)[j] != PathOf(t, m)[k]
    ensures var x := PathOf(t, m)[j];
            && 0 < j && x in t.headers && x in t.status && x in TailFailed(t, m, j).status
            && TailFailed(t, m, j - 1) == TailFailed(t, m, j).(
                 status := TailFailed(t, m, j).status[x := TailFailed(t, m, j).status[x].(failedChild := true)],
                 candidates := TailFailed(t, m, j).candidates - {x})
  {
    hide SkipsBuilt, WellFormed;
    var x := PathOf(t, m)[j];
    PathInTree(t, m, j);
    forall b | b in t.headers ensures InTail(t, m, j - 1, b) <==> InTail(t, m, j, b) || b == x {}
    var was, now := TailFailed(t, m, j), TailFailed(t, m, j - 1);
    assert now.status == was.status[x := was.status[x].(failedChild := true)];
    assert now.candidates == was.candidates - {x};
  }

  /** The flagged block that FindMostWorkChain ran into at height k of m's path. */
  ghost predicate FlaggedAt(t: Tree, m: BlockId, k: nat)
    requires Shape(t)
  {
    && m in t.candidates && m in t.headers && k <= t.headers[m].nHeight && CleanAbove(t, m, k)
    && PathOf(t, m)[k] in t.status && t.status[PathOf(t, m)[k]].Failed() && PathOf(t, m)[k] !in t.vChain
  }

  lemma TailFacts(t: Tree, m: BlockId, k: nat, b: BlockId)
    requires Shape(t) && EntriesOk(t) && FlagsOk(t) && FlaggedAt(t, m, k) && t.status[m].nChainTx > 0
    requires b in t.headers && (InTail(t, m, k, b) || b == PathOf(t, m)[k])
    ensures b !in t.vChain && t.status[b].nChainTx > 0 && OnFailedPath(t, b)
    ensures InTail(t, m, k, b) ==> !t.status[b].Failed()
  {
    var bad := PathOf(t, m)[k];
    PathInTree(t, m, k);
    assert OnFailedPath(t, bad);
    var j := t.headers[b].nHeight;
    assert PathOf(t, m)[j] == b;
    PathInTree(t, m, j);
    assert PathOf(t, b)[k] == bad;
    FailedPathDescends(t, bad, b, k);
    LinkedDownward(t, m, j);
  }

  lemma FailedChainFlags(t: Tree, m: BlockId, k: nat)
    requires Shape(t) && EntriesOk(t) && FlagsOk(t) && FlaggedAt(t, m, k) && t.status[m].nChainTx > 0
    ensures Shape(FailedChain(t, m, k)) && FlagsOk(FailedChain(t, m, k))
    ensures forall b :: b in t.headers && (InTail(t, m, k, b) || b == PathOf(t, m)[k]) ==>
              b !in t.vChain && t.status[b].nChainTx > 0 && OnFailedPath(FailedChain(t, m, k), b)
  {
    hide EntryOk, SkipsBuilt;
    var t' := FailedChain(t, m, k);
    FailedChainView(t, m, k);
    forall b | b in t.headers && (InTail(t, m, k, b) || b == PathOf(t, m)[k])
      ensures b !in t.vChain && t.status[b].nChainTx > 0 && OnFailedPath(t', b)
    {
      TailFacts(t, m, k, b);
      FlagsKeepFailedPaths(t, t', b);
    }
    forall b | b in t'.headers && t'.status[b].Failed() ensures OnFailedPath(t', b) {
      if t.status[b].Failed() {
        assert OnFailedPath(t, b);
        FlagsKeepFailedPaths(t, t', b);
      }
    }
  }

  lemma FailedChainPreserves(t: Tree, ok: BlockId -> bool, floor: BlockId, m: BlockId, k: nat)
    requires Inv(t, ok, floor) && FlaggedAt(t, m, k)
    ensures Inv(FailedChain(t, m, k), ok, floor)
  {
    hide EntryOk, UnlinkedPairOk, SortsBefore, SkipsBuilt;
    FailedChainView(t, m, k);
    FailedChainFlags(t, m, k);
    FailedChainKeepsValid(t, m, k, floor);
    FlaggingPreserves(t, FailedChain(t, m, k), ok, floor);
  }

  lemma FailedChainShrinks(t: Tree, ok: BlockId -> bool, floor: BlockId, m: BlockId, k: nat)
    requires Inv(t, ok, floor) && FlaggedAt(t, m, k)
    ensures FailedChain(t, m, k).candidates < t.candidates
    ensures Progress(t, FailedChain(t, m, k), ok)
  {
    hide EntryOk, UnlinkedPairOk, SortsBefore, SkipsBuilt, WellFormed;
    forall b | b in t.headers && InTail(t, m, k, b) ensures t.status[b].nChainTx > 0 {
      TailFacts(t, m, k, b);
    }
    assert InTail(t, m, k, m) || m == PathOf(t, m)[k];
    assert m !in FailedChain(t, m, k).candidates;
  }

  lemma FailedChainView(t: Tree, m: BlockId, k: nat)
    requires Shape(t) && m in t.headers && k <= t.headers[m].nHeight
    ensures Shape(FailedChain(t, m, k)) && OnlyFlagsAdded(t, FailedChain(t, m, k))
  {}

  lemma FailedChainKeepsValid(t: Tree, m: BlockId, k: nat, b: BlockId)
    requires Shape(t) && m in t.headers && k <= t.headers[m].nHeight && b in t.headers && !OnFailedPath(t, b)
    ensures Shape(FailedChain(t, m, k)) && !OnFailedPath(FailedChain(t, m, k), b)
  {
    var t' := FailedChain(t, m, k);
    assert PathOf(t', b) == PathOf(t, b);
  }

  // ----- ConnectTip -----

  /** ConnectBlock refused b: InvalidBlockFound marks it and drops it from the candidates. */
  ghost function Rejected(t: Tree, b: BlockId): Tree
    requires b in t.status
  {
    t.(status := t.status[b := t.status[b].(failedValid := true)], candidates := t.candidates - {b})
  }

  lemma RejectedFlags(t: Tree, b: BlockId)
    requires Shape(t) && FlagsOk(t) && b in t.headers
    ensures Shape(Rejected(t, b)) && OnlyFlagsAdded(t, Rejected(t, b))
    ensures FlagsOk(Rejected(t, b)) && OnFailedPath(Rejected(t, b), b)
  {
    var t' := Rejected(t, b);
    assert OnFailedPath(t', b) by { assert b in PathOf(t', b); }
    forall x | x in t'.headers && t'.status[x].Failed() ensures OnFailedPath(t', x) {
      if x != b {
        assert OnFailedPath(t, x);
        FlagsKeepFailedPaths(t, t', x);
      }
    }
  }

  lemma RejectedPreserves(t: Tree, ok: BlockId -> bool, floor: BlockId, b: BlockId)
    requires Inv(t, ok, floor) && b in t.headers && t.status[b].nChainTx > 0 && !ok(b)
    ensures Inv(Rejected(t, b), ok, floor)
  {
    hide EntryOk, UnlinkedPairOk, SortsBefore, SkipsBuilt;
    RejectedFlags(t, b);
    assert b in t.vChain ==> ActiveBlockOk(t, ok, b);
    OkPathStaysUsable(t, Rejected(t, b), ok, floor);
    FlaggingPreserves(t, Rejected(t, b), ok, floor);
  }

  lemma RejectedProgress(t: Tree, ok: BlockId -> bool, b: BlockId)
    requires b in t.status && !ok(b) && t.status[b].nChainTx > 0
    ensures Progress(t, Rejected(t, b), ok)
    ensures !t.status[b].failedValid ==> NotFailed(Rejected(t, b)) < NotFailed(t)
  {
    assert !t.status[b].failedValid ==> b in NotFailed(t) && b !in NotFailed(Rejected(t, b));
  }

  lemma ConnectedProgress(t: Tree, t': Tree, ok: BlockId -> bool, b: BlockId)
    requires Shape(t) && Connected(t, t', b)
    ensures Progress(t, t', ok)
  {}

  // ----- The result -----

  /** A block ActivateBestChain may end up on: fully received, nothing on its path is marked
      FAILED_VALID and ConnectBlock accepts every block of it. */
  ghost predicate Eligible(t: Tree, ok: BlockId -> bool, b: BlockId)
    requires Shape(t)
  {
    Usable(t, b) && AllOk(ok, PathOf(t, b))
  }

  /** The eligible block that sorts highest. */
  ghost predicate IsBest(t: Tree, ok: BlockId -> bool, b: BlockId)
    requires Shape(t)
  {
    Eligible(t, ok, b) && forall c {:trigger Eligible(t, ok, c)} :: Eligible(t, ok, c) ==> !Less(t, b, c)
  }

  /** There is at most one best block. */
  lemma BestIsUnique(t: Tree, ok: BlockId -> bool, a: BlockId, b: BlockId)
    requires Shape(t) && IsBest(t, ok, a) && IsBest(t, ok, b)
    ensures a == b
  {
    ComparatorIsStrictTotalOrder(t, a, b, b);
  }

  /** At rest on the last candidate, the tip is the best block of any earlier tree this one progressed from. */
  lemma RestingOnBest(t: Tree, t': Tree, ok: BlockId -> bool)
    requires Shape(t) && AtRest(t', ok) && Progress(t, t', ok)
    requires forall c :: c in t'.candidates && c in t'.headers ==> !Less(t', Tip(t'), c)
    ensures IsBest(t, ok, Tip(t'))
  {
    hide EntryOk, UnlinkedPairOk, SortsBefore, SkipsBuilt, ActiveBlockOk;
    var b := Tip(t');
    assert Eligible(t', ok, b);
    EligibleBefore(t, t', ok, b);
    forall c | Eligible(t, ok, c) ensures !Less(t, b, c) {
      EligibleBefore(t, t', ok, c);
      ProgressKeepsOrder(t, t', ok, b, c);
      ComparatorIsStrictTotalOrder(t', b, c, b);
      assert Usable(t', c);
    }
  }

  /** Activating a better chain makes no block eligible or ineligible. */
  lemma EligibleBefore(t: Tree, t': Tree, ok: BlockId -> bool, b: BlockId)
    requires Shape(t) && Shape(t') && Progress(t, t', ok)
    ensures Eligible(t', ok, b) <==> Eligible(t, ok, b)
  {
    if b in t.headers {
      assert PathOf(t', b) == PathOf(t, b);
      assert EntryProgress(t.status[b], t'.status[b], ok(b));
      if AllOk(ok, PathOf(t, b)) {
        ProgressKeepsOkPath(t, t', ok, b);
      }
    }
  }

  lemma ProgressKeepsOkPath(t: Tree, t': Tree, ok: BlockId -> bool, b: BlockId)
    requires Shape(t) && Shape(t') && Progress(t, t', ok) && b in t.headers && AllOk(ok, PathOf(t, b))
    ensures PathOf(t', b) == PathOf(t, b) && (OnFailedPath(t', b) <==> OnFailedPath(t, b))
  {
    forall x | x in PathOf(t, b) && x in t.status ensures t'.status[x].failedValid == t.status[x].failedValid {
      assert EntryProgress(t.status[x], t'.status[x], ok(x));
    }
  }

  /** The best block never sorts below a tip the node already had. */
  lemma BestNotBelowTip(t: Tree, ok: BlockId -> bool, floor: BlockId, b: BlockId)
    requires Inv(t, ok, floor) && IsBest(t, ok, b)
    ensures !Less(t, b, Tip(t)) && !Less(t, b, floor)
  {
    assert Eligible(t, ok, floor);
    ComparatorIsStrictTotalOrder(t, b, floor, Tip(t));
  }

  /** Some bound on the work in a finite tree. */
  lemma {:induction false} WorkBound(h: Headers, s: set<BlockId>) returns (w: nat)
    requires forall b :: b in s ==> b in h
    ensures forall b :: b in s ==> h[b].nChainWork <= w
    decreases |s|
  {
    if s == {} {
      return 0;
    }
    var x :| x in s;
    w := WorkBound(h, s - {x});
    w := if w < h[x].nChainWork then h[x].nChainWork else w;
  }
}
