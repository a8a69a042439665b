/** InvalidateBlock (src/main.cpp): marking a block as failed by hand and falling back from it. */
module Invalidation {
  import opened Options
  import opened BlockIndex
  import opened ActiveChain
  import opened BlockTree
  import opened BlockTreeSteps
  import opened Tracking

  /** The entry of x once b has been marked and the chain from height n up has been disconnected. */
  function MarkedStatus(t: Tree, b: BlockId, n: nat, x: BlockId): Status
    requires x in t.status && n <= |t.vChain|
  {
    var s := if x == b then t.status[x].(failedValid := true) else t.status[x];
    if x in t.vChain[n..] then s.(failedChild := true) else s
  }

  /** b marked FAILED_VALID, and the active chain from height n up disconnected and marked FAILED_CHILD. */
  ghost function MarkedDown(t: Tree, b: BlockId, n: nat): Tree
    requires n <= |t.vChain|
  {
    t.(vChain := t.vChain[..n],
       status := map x | x in t.status :: MarkedStatus(t, b, n, x),
       candidates := set c | c in t.candidates && c != b && c !in t.vChain[n..])
  }

  /** Where the fall back ends: just below b if b is in the active chain, else at the tip. */
  ghost function FallbackHeight(t: Tree, b: BlockId): (n: nat)
    requires Shape(t) && b in t.headers && b != t.genesis
    ensures 0 < n <= |t.vChain|
  {
    if InChain(t.headers, t.vChain, b) then t.headers[b].nHeight else |t.vChain|
  }

  lemma FallbackReached(t: Tree, b: BlockId, n: nat)
    requires Shape(t) && b in t.headers && b != t.genesis && FallbackHeight(t, b) <= n <= |t.vChain|
    ensures InChain(t.headers, t.vChain[..n], b) <==> n > FallbackHeight(t, b)
  {}

  /** The tree InvalidateBlock leaves: marked, fallen back, and every valid linked block that sorts
      no lower than the new tip put back among the candidates. */
  ghost function Invalidated(t: Tree, b: BlockId): Tree
    requires Shape(t) && b in t.headers && b != t.genesis
  {
    var u := MarkedDown(t, b, FallbackHeight(t, b));
    u.(candidates := u.candidates + set x | x in u.headers && Readded(u, x))
  }

  /** The condition under which InvalidateBlock's last loop inserts a block. */
  predicate Readded(t: Tree, x: BlockId)
  {
    && t.vChain != [] && x in t.headers && x in t.status && Tip(t) in t.headers && Tip(t) in t.status
    && !t.status[x].Failed() && t.status[x].validity >= VALID_TRANSACTIONS && t.status[x].nChainTx > 0
    && !SortsBefore(t.headers, t.status, x, Tip(t))
  }

  lemma MarkedShape(t: Tree, b: BlockId, n: nat)
    requires Shape(t) && b in t.headers && 0 < n <= |t.vChain|
    ensures Shape(MarkedDown(t, b, n)) && OnlyFlagsAdded(t, MarkedDown(t, b, n))
    ensures Tip(MarkedDown(t, b, n)) == t.vChain[n - 1] && t.vChain[n - 1] in t.headers
  {
    hide SkipsBuilt, WellFormed;
    ChainStartsAtGenesis(t);
    PathInTree(t, Tip(t), n - 1);
  }

  lemma MarkedStepPath(t: Tree, b: BlockId, n: nat)
    requires Shape(t) && b in t.headers && 1 < n <= |t.vChain|
    ensures var u := MarkedDown(t, b, n); var x := t.vChain[n - 1];
            && Shape(u) && Tip(u) == x && x in u.status && x != t.genesis && x in t.headers
            && PathOf(u, Parent(u, x)) == t.vChain[..n - 1]
  {
    hide SkipsBuilt;
    MarkedShape(t, b, n);
    var u := MarkedDown(t, b, n);
    var x := t.vChain[n - 1];
    assert |PathOf(u, x)| == n;
    assert PathOf(u, x) == PathOf(u, Parent(u, x)) + [x];
    assert t.vChain[..n][..n - 1] == t.vChain[..n - 1];
  }

  lemma MarkedStepMaps(t: Tree, b: BlockId, n: nat)
    requires 1 < n <= |t.vChain| && t.vChain[n - 1] in t.status
    ensures var u := MarkedDown(t, b, n); var x := t.vChain[n - 1];
            && x in u.status
            && MarkedDown(t, b, n - 1) == u.(
                 status := u.status[x := u.status[x].(failedChild := true)],
                 candidates := u.candidates - {x}, vChain := t.vChain[..n - 1])
  {
    var u, v := MarkedDown(t, b, n), MarkedDown(t, b, n - 1);
    var x := t.vChain[n - 1];
    assert t.vChain[n - 1..] == [x] + t.vChain[n..];
    assert v.status == u.status[x := u.status[x].(failedChild := true)];
    assert v.candidates == u.candidates - {x};
  }

  lemma MarkedStart(t: Tree, b: BlockId)
    requires Shape(t) && b in t.headers
    ensures MarkedDown(t, b, |t.vChain|) ==
            t.(status := t.status[b := t.status[b].(failedValid := true)], candidates := t.candidates - {b})
  {
    hide SkipsBuilt, WellFormed;
    var u := MarkedDown(t, b, |t.vChain|);
    assert t.vChain[|t.vChain|..] == [];
    assert t.vChain[..|t.vChain|] == t.vChain;
    assert u.status == t.status[b := t.status[b].(failedValid := true)];
    assert u.candidates == t.candidates - {b};
  }

  /** Below the fallback height the chain does not contain b; above it, b is on every path. */
  lemma FallbackSplits(t: Tree, b: BlockId, n: nat)
    requires Shape(t) && b in t.headers && b != t.genesis && n == FallbackHeight(t, b)
    ensures b !in t.vChain[..n]
    ensures forall x :: x in t.vChain[n..] ==> x in t.headers && b in PathOf(t, x)
  {
    hide SkipsBuilt;
    InChainIffMember(t.headers, t.genesis, t.vChain, b);
    ChainStartsAtGenesis(t);
    if b in t.vChain[..n] {
      var i :| 0 <= i < n && t.vChain[i] == b;
      PathInTree(t, Tip(t), i);
    }
    forall x | x in t.vChain[n..] ensures x in t.headers && b in PathOf(t, x) {
      var i :| 0 <= i < |t.vChain| - n && t.vChain[n..][i] == x;
      PathInTree(t, Tip(t), n + i);
      assert PathOf(t, x)[n] == t.vChain[n];
    }
  }

  lemma MarkedFlags(t: Tree, b: BlockId, n: nat)
    requires Shape(t) && FlagsOk(t) && b in t.headers && b != t.genesis && n == FallbackHeight(t, b)
    ensures Shape(MarkedDown(t, b, n)) && FlagsOk(MarkedDown(t, b, n))
  {
    hide SkipsBuilt, WellFormed, SortsBefore;
    var u := MarkedDown(t, b, n);
    MarkedShape(t, b, n);
    FallbackSplits(t, b, n);
    forall x | x in u.headers && u.status[x].Failed() ensures OnFailedPath(u, x) {
      FlagsKeepFailedPaths(t, u, x);
      assert u.status[b].failedValid;
      if t.status[x].Failed() {
        assert OnFailedPath(t, x);
      } else {
        assert b in PathOf(t, x);
      }
    }
  }

  lemma MarkedActive(t: Tree, ok: BlockId -> bool, b: BlockId, n: nat)
    requires Shape(t) && ActiveOk(t, ok) && b in t.headers && b != t.genesis && n == FallbackHeight(t, b)
    ensures ActiveOk(MarkedDown(t, b, n), ok)
  {
    hide SkipsBuilt, WellFormed, SortsBefore;
    var u := MarkedDown(t, b, n);
    FallbackSplits(t, b, n);
    forall i | 0 <= i < n ensures t.vChain[i] !in t.vChain[n..] {
      ChainIsInjective(t, i, n);
    }
    forall x | x in u.vChain ensures ActiveBlockOk(u, ok, x) {
      assert x in t.vChain;
      assert ActiveBlockOk(t, ok, x);
      var i :| 0 <= i < n && t.vChain[..n][i] == x;
      assert t.vChain[i] == x;
      assert u.status[x] == t.status[x];
    }
  }

  lemma ChainIsInjective(t: Tree, i: nat, n: nat)
    requires Shape(t) && i < n <= |t.vChain|
    ensures t.vChain[i] !in t.vChain[n..]
  {
    ChainStartsAtGenesis(t);
    PathInTree(t, Tip(t), i);
    if t.vChain[i] in t.vChain[n..] {
      var j :| 0 <= j < |t.vChain| - n && t.vChain[n..][j] == t.vChain[i];
      PathInTree(t, Tip(t), n + j);
    }
  }

  /** Invalidating a block keeps the invariant, and the node is at rest on its new tip. */
  lemma InvalidatedPreserves(t: Tree, ok: BlockId -> bool, floor: BlockId, b: BlockId)
    requires Inv(t, ok, floor) && b in t.headers && b != t.genesis
    ensures AtRest(Invalidated(t, b), ok)
  {
    hide SortsBefore, SkipsBuilt, WellFormed, EntryOk, UnlinkedPairOk;
    var n := FallbackHeight(t, b);
    var u, v := MarkedDown(t, b, n), Invalidated(t, b);
    MarkedShape(t, b, n);
    ChainBlocksLinked(t, ok, n);
    FlagsKeepEntries(t, u);
    MarkedFlags(t, b, n);
    MarkedActive(t, ok, b, n);
    assert Tip(u) in u.vChain;
    ActiveIsUsable(u, ok, Tip(u));
    CandidateSwap(u, v);
    InvalidatedCandidates(t, ok, floor, b);
    assert AllOk(ok, PathOf(v, Tip(v))) by {
      forall x | x in PathOf(v, Tip(v)) ensures ok(x) {
        assert x in u.vChain;
        assert ActiveBlockOk(u, ok, x);
      }
    }
  }

  /** The block is linked, or its data will be refused, or it will never be linked, or no data can come
      on top of it: then no block is ever lost track of by invalidating it. */
  ghost predicate Harmless(t: Tree, b: BlockId)
    requires Shape(t) && b in t.headers
  {
    t.status[b].nChainTx > 0 || !t.status[b].haveData || Dead(t, b) || Settled(t, b)
  }

  /** x was disconnected: it stood in the active chain at b or above it. */
  ghost predicate Disconnected(t: Tree, b: BlockId, x: BlockId) {
    b in t.vChain && exists i, j :: 0 <= i <= j < |t.vChain| && t.vChain[i] == b && t.vChain[j] == x
  }

  lemma ChainHeights(t: Tree)
    requires Shape(t)
    ensures forall i :: 0 <= i < |t.vChain| ==> t.vChain[i] in t.headers && t.headers[t.vChain[i]].nHeight == i
  {
    hide SkipsBuilt;
    ChainStartsAtGenesis(t);
    forall i | 0 <= i < |t.vChain| ensures t.vChain[i] in t.headers && t.headers[t.vChain[i]].nHeight == i {
      PathInTree(t, Tip(t), i);
    }
  }

  lemma FallbackIs(t: Tree, b: BlockId)
    requires Shape(t) && b in t.headers && b != t.genesis
    ensures FallbackHeight(t, b) == if b in t.vChain then t.headers[b].nHeight else |t.vChain|
    ensures b in t.vChain ==> FallbackHeight(t, b) < |t.vChain| && t.vChain[FallbackHeight(t, b)] == b
  {
    hide SkipsBuilt;
    InChainIffMember(t.headers, t.genesis, t.vChain, b);
  }

  lemma CutAt(s: seq<BlockId>, n: nat, b: BlockId, x: BlockId)
    requires n <= |s| && (if b in s then n < |s| && s[n] == b && forall i :: 0 <= i < |s| && s[i] == b ==> i == n
                          else n == |s|)
    ensures x in s[n..] <==> b in s && exists i, j :: 0 <= i <= j < |s| && s[i] == b && s[j] == x
    ensures b !in s[..n]
  {
    if x in s[n..] {
      var j :| 0 <= j < |s| - n && s[n..][j] == x;
      assert s[n] == b && s[n + j] == x;
    }
    if i, j :| 0 <= i <= j < |s| && s[i] == b && s[j] == x {
      assert s[n..][j - n] == x;
    }
  }

  lemma DisconnectedIff(t: Tree, b: BlockId, x: BlockId)
    requires Shape(t) && b in t.headers && b != t.genesis
    ensures x in t.vChain[FallbackHeight(t, b)..] <==> Disconnected(t, b, x)
    ensures b !in t.vChain[..FallbackHeight(t, b)]
  {
    hide SkipsBuilt, WellFormed, FallbackHeight;
    ChainHeights(t);
    FallbackIs(t, b);
    CutAt(t.vChain, FallbackHeight(t, b), b, x);
  }

  /** The whole of what InvalidateBlock does: only b gets FAILED_VALID and only the blocks disconnected
      FAILED_CHILD; the chain ends just below b, or as before; and the candidates are those kept and those
      that are valid, linked and do not sort before the new tip. */
  lemma InvalidatedIs(t: Tree, b: BlockId)
    requires Shape(t) && b in t.headers && b != t.genesis
    ensures var v := Invalidated(t, b);
            && v.headers == t.headers && v.unlinked == t.unlinked && v.nextSequenceId == t.nextSequenceId
            && v.vChain <= t.vChain && b !in v.vChain
            && (b !in t.vChain ==> v.vChain == t.vChain)
            && (b in t.vChain ==> |v.vChain| < |t.vChain| && t.vChain[|v.vChain|] == b)
            && (forall x {:trigger v.status[x]} :: x in t.status ==>
                  v.status[x] == t.status[x].(failedValid := t.status[x].failedValid || x == b,
                                              failedChild := t.status[x].failedChild || Disconnected(t, b, x)))
  {
    hide SkipsBuilt;
    FallbackIs(t, b);
    forall x | x in t.status ensures x in t.vChain[FallbackHeight(t, b)..] <==> Disconnected(t, b, x) {
      DisconnectedIff(t, b, x);
    }
    DisconnectedIff(t, b, b);
  }

  lemma InvalidatedFlags(t: Tree, ok: BlockId -> bool, floor: BlockId, b: BlockId)
    requires Inv(t, ok, floor) && b in t.headers && b != t.genesis
    ensures var v := Invalidated(t, b);
            && Shape(v) && OnlyFlagsAdded(t, v) && v.status[b].failedValid
            && forall x :: x in t.headers && x != b && t.status[x].nChainTx == 0 ==> v.status[x] == t.status[x]
  {
    hide SortsBefore, SkipsBuilt, WellFormed, EntryOk, UnlinkedPairOk;
    var n := FallbackHeight(t, b);
    MarkedShape(t, b, n);
    ChainBlocksLinked(t, ok, n);
  }

  /** Right after InvalidateBlock every waiting block is still registered, so CheckBlockIndex passes
      whichever block it was. */
  lemma InvalidatedPassesCheck(t: Tree, ok: BlockId -> bool, floor: BlockId, b: BlockId)
    requires Inv(t, ok, floor) && b in t.headers && b != t.genesis && Tracked(t, {})
    ensures Tracked(Invalidated(t, b), {}) && CheckBlockIndex(Invalidated(t, b))
  {
    hide SortsBefore, SkipsBuilt, WellFormed, EntryOk, UnlinkedPairOk;
    InvalidatedFlags(t, ok, floor, b);
    FlagsKeepTracked(t, Invalidated(t, b), {});
    InvalidatedPreserves(t, ok, floor, b);
    CheckBlockIndexAtRest(Invalidated(t, b), ok);
  }

  /** But the promise that no block will be lost track of is kept exactly for harmless blocks. */
  lemma InvalidateKeepsCompleteIff(t: Tree, ok: BlockId -> bool, floor: BlockId, b: BlockId)
    requires Inv(t, ok, floor) && b in t.headers && b != t.genesis && Complete(t)
    ensures Complete(Invalidated(t, b)) <==> Harmless(t, b)
  {
    hide SortsBefore, SkipsBuilt, WellFormed, IsPath, EntryOk, UnlinkedPairOk;
    var v := Invalidated(t, b);
    InvalidatedFlags(t, ok, floor, b);
    if Harmless(t, b) {
      FlagsKeepComplete(t, v);
    } else {
      UnsettledStays(t, v, ok, floor, b);
      assert !GuardedEntry(v, b);
    }
  }

  lemma UnsettledStays(t: Tree, v: Tree, ok: BlockId -> bool, floor: BlockId, b: BlockId)
    requires Inv(t, ok, floor) && b in t.headers && b != t.genesis && v == Invalidated(t, b)
    requires t.status[b].nChainTx == 0 && t.status[b].haveData && !Dead(t, b) && !Settled(t, b)
    ensures Shape(v) && !Dead(v, b) && !Settled(v, b)
  {
    hide SortsBefore, SkipsBuilt, WellFormed, IsPath, UnlinkedPairOk;
    InvalidatedFlags(t, ok, floor, b);
    assert PathOf(v, b) == PathOf(t, b);
    forall x | x in PathOf(v, b) && x in v.status && v.status[x].Failed() ensures v.status[x].haveData {
      assert EntryOk(t, x);
      assert v.status[x].haveData == t.status[x].haveData;
    }
    var c :| c in t.headers && t.headers[c].pprev == Some(b) && !t.status[c].haveData && !t.status[c].Failed();
    assert EntryOk(t, c);
    assert v.headers[c] == t.headers[c];
  }

  lemma ChainBlocksLinked(t: Tree, ok: BlockId -> bool, n: nat)
    requires ActiveOk(t, ok) && n <= |t.vChain|
    ensures forall x :: x in t.vChain[n..] ==> x in t.status && t.status[x].nChainTx > 0
  {
    forall x | x in t.vChain[n..] ensures x in t.status && t.status[x].nChainTx > 0 {
      assert x in t.vChain;
      assert ActiveBlockOk(t, ok, x);
    }
  }

  /** Only CandidatesOk looks at the candidate set. */
  lemma CandidateSwap(u: Tree, v: Tree)
    requires Shape(u) && v == u.(candidates := v.candidates)
    ensures Shape(v)
    ensures EntriesOk(u) ==> EntriesOk(v)
    ensures UnlinkedOk(u, {}) ==> UnlinkedOk(v, {})
    ensures FlagsOk(u) ==> FlagsOk(v)
    ensures forall ok :: ActiveOk(u, ok) ==> ActiveOk(v, ok)
    ensures forall b :: b in u.headers ==> (OnFailedPath(v, b) <==> OnFailedPath(u, b)) && PathOf(v, b) == PathOf(u, b)
  {
    hide SkipsBuilt, WellFormed, IsPath, EntriesOk, UnlinkedPairOk, ActiveBlockOk;
    forall b | b in u.headers ensures (OnFailedPath(v, b) <==> OnFailedPath(u, b)) && PathOf(v, b) == PathOf(u, b) {}
    SwapKeepsEntries(u, v);
    if FlagsOk(u) {
      forall b | b in v.headers && v.status[b].Failed() ensures OnFailedPath(v, b) { assert OnFailedPath(u, b); }
    }
    forall ok | ActiveOk(u, ok) ensures ActiveOk(v, ok) {
      forall b | b in v.vChain ensures ActiveBlockOk(v, ok, b) {
        SwapKeepsActive(u, v, ok, b);
      }
    }
  }

  lemma SwapKeepsActive(u: Tree, v: Tree, ok: BlockId -> bool, b: BlockId)
    requires v == u.(candidates := v.candidates) && ActiveOk(u, ok) && b in v.vChain
    ensures ActiveBlockOk(v, ok, b)
  {
    assert ActiveBlockOk(u, ok, b);
  }

  lemma SwapKeepsEntries(u: Tree, v: Tree)
    requires Shape(u) && Shape(v) && v == u.(candidates := v.candidates)
    ensures EntriesOk(u) ==> EntriesOk(v)
    ensures UnlinkedOk(u, {}) ==> UnlinkedOk(v, {})
  {
    hide SkipsBuilt, WellFormed, IsPath;
    if EntriesOk(u) {
      forall b | b in v.headers ensures EntryOk(v, b) {
        assert EntryOk(u, b);
        assert b != u.genesis ==> Parent(v, b) == Parent(u, b);
      }
    }
    if UnlinkedOk(u, {}) {
      forall q | q in v.unlinked
        ensures forall x {:trigger x in v.unlinked[q]} :: x in v.unlinked[q] ==> UnlinkedPairOk(v, {}, q, x)
      {
        forall x | x in v.unlinked[q] ensures UnlinkedPairOk(v, {}, q, x) { assert UnlinkedPairOk(u, {}, q, x); }
      }
    }
  }

  lemma TipNotAbove(t: Tree, n: nat)
    requires Shape(t) && 0 < n <= |t.vChain|
    ensures t.vChain[n - 1] in t.headers && Tip(t) in t.headers && !Less(t, Tip(t), t.vChain[n - 1])
  {
    hide SkipsBuilt, WellFormed;
    ChainStartsAtGenesis(t);
    PathInTree(t, Tip(t), n - 1);
    if n < |t.vChain| {
      PathWork(t.headers, t.genesis, Tip(t), n - 1);
    }
  }

  lemma InvalidatedCandidates(t: Tree, ok: BlockId -> bool, floor: BlockId, b: BlockId)
    requires Inv(t, ok, floor) && b in t.headers && b != t.genesis
    requires var u := MarkedDown(t, b, FallbackHeight(t, b));
             Shape(u) && EntriesOk(u) && FlagsOk(u) && Usable(u, Tip(u))
    ensures var v := Invalidated(t, b); Shape(v) && CandidatesOk(v, Tip(v))
  {
    hide SkipsBuilt, WellFormed, UnlinkedPairOk;
    var n := FallbackHeight(t, b);
    var u, v := MarkedDown(t, b, n), Invalidated(t, b);
    MarkedShape(t, b, n);
    TipNotAbove(t, n);
    assert Usable(v, Tip(v)) by { assert PathOf(v, Tip(v)) == PathOf(u, Tip(u)); }
    ComparatorIsStrictTotalOrder(v, Tip(v), Tip(v), Tip(v));
    forall c | c in v.candidates ensures c in v.headers && v.status[c].nChainTx > 0 && !Less(v, c, Tip(v)) {
      if c in t.candidates {
        assert u.status[c] == u.status[c];
        ComparatorIsStrictTotalOrder(t, c, Tip(t), Tip(u));
        FlagsKeepOrder(t, v, c, Tip(u));
      }
    }
    forall x | Usable(v, x) && !Less(v, x, Tip(v)) ensures x in v.candidates {
      assert PathOf(v, x) == PathOf(u, x);
      assert EntryOk(u, x);
      assert !OnFailedPath(u, x);
      assert !u.status[x].Failed();
      assert Readded(u, x);
    }
  }
}
