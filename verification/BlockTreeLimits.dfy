/** Where the promises of the block tree stop: the situations in which CheckBlockIndex fails. */
module BlockTreeLimits {
  import opened Options
  import opened BlockIndex
  import opened ActiveChain
  import opened BlockTree
  import opened BlockTreeSteps
  import opened BestChain
  import opened Invalidation
  import opened ChainState

  // ----- Between two turns of ActivateBestChain -----

  lemma {:induction false} FallBackPreserves(t: Tree, ok: BlockId -> bool, floor: BlockId, n: nat)
    requires Inv(t, ok, floor) && 0 < n <= |t.vChain|
    ensures Inv(t.(vChain := t.vChain[..n]), ok, floor)
    decreases |t.vChain|
  {
    hide SortsBefore, SkipsBuilt, WellFormed, EntryOk, UnlinkedPairOk;
    InvShape(t, ok, floor);
    if n == |t.vChain| {
      assert t.vChain[..n] == t.vChain;
    } else {
      assert t.vChain[..|t.vChain|] == t.vChain;
      DisconnectFactsTip(t);
      var u := t.(vChain := PathOf(t, Parent(t, Tip(t))));
      DisconnectPreserves(t, u, ok, floor);
      FallBackPreserves(u, ok, floor, n);
      assert u.vChain[..n] == t.vChain[..n];
    }
  }

  lemma DisconnectFactsTip(t: Tree)
    requires Shape(t) && |t.vChain| > 1
    ensures Tip(t) in t.headers && Tip(t) != t.genesis
    ensures PathOf(t, Parent(t, Tip(t))) == t.vChain[..|t.vChain| - 1]
  {
    hide SkipsBuilt;
    ChainStartsAtGenesis(t);
    assert t.vChain == PathOf(t, Parent(t, Tip(t))) + [Tip(t)];
  }

  /** At rest, with the most work in a chain whose first block above the fork is refused: on the fork,
      below the old tip, CheckBlockIndex fails until the next turn has moved the tip back up. */
  lemma RefusedReorganisationFailsCheck(t: Tree, ok: BlockId -> bool, m: BlockId, f: nat)
    requires AtRest(t, ok) && Complete(t) && MostWork(t, m) && RefusedAbove(t, ok, m, f) && f < |t.vChain| - 1
    ensures PathOf(t, m)[f + 1] in t.status
    ensures !CheckBlockIndex(Rejected(FallenBack(t, f), PathOf(t, m)[f + 1]))
  {
    hide EntryOk, UnlinkedPairOk, Complete, SkipsBuilt, WellFormed, IsPath;
    var floor, b := Tip(t), PathOf(t, m)[f + 1];
    var u := FallenBack(t, f);
    FallBackPreserves(t, ok, floor, f + 1);
    AtFork(t, u, ok, floor, m, f);
    TowardsNext(u, ok, floor, m, f);
    assert PathOf(u, m) == PathOf(t, m);
    ConnectableFacts(u, b);
    var w := Rejected(u, b);
    RejectedPreserves(u, ok, floor, b);
    RejectedProgress(u, ok, b);
    AtRestNoneBelow(t, ok);
    AdvancedByRejecting(t, u, ok, floor, floor, b);
    AdvancedKeeps(t, w, ok, floor, floor);
    ForkBelowTip(t, f);
    ProgressKeepsOrder(t, w, ok, Tip(w), floor);
    CheckBlockIndexIffTipAtFloor(w, ok, floor);
  }

  lemma ForkBelowTip(t: Tree, f: nat)
    requires Shape(t) && f < |t.vChain| - 1
    ensures t.vChain[f] in t.headers && Tip(t) in t.headers && Less(t, t.vChain[f], Tip(t))
  {
    ChainStartsAtGenesis(t);
    PathInTree(t, Tip(t), f);
    PathWork(t.headers, t.genesis, Tip(t), f);
  }

  lemma NotOnTip(t: Tree, ok: BlockId -> bool, m: BlockId, f: nat)
    requires Shape(t) && m in t.headers && RefusedAbove(t, ok, m, f) && f < |t.vChain| - 1
    ensures m != Tip(t)
  {
    ChainStartsAtGenesis(t);
    assert t.vChain[f + 1] == PathOf(t, Tip(t))[f + 1];
  }

  /** One turn from such a state, by the methods themselves. */
  method RefusedTurn(s: ChainState, m: BlockId, f: nat)
    requires s.Valid() && AtRest(s.S(), s.ok) && Complete(s.S()) && MostWork(s.S(), m)
    requires RefusedAbove(s.S(), s.ok, m, f) && f < |s.chainActive.vChain| - 1
    modifies s`status, s`setBlockIndexCandidates, s`floor, s.chainActive
    ensures s.Valid() && s.chainActive.vChain == old(s.chainActive.vChain[..f + 1])
    ensures Complete(s.S()) && !CheckBlockIndex(s.S())
  {
    hide Inv, AtRest, Complete, CheckBlockIndex, CloserToBest, OnLast, NoneBelowFloor, CleanPath, SortsBefore;
    RefusedReorganisationFailsCheck(s.S(), s.ok, m, f);
    NotOnTip(s.S(), s.ok, m, f);
    var _ := s.ActivateBestChainIteration();
  }

  /** Block 1 is the tip; block 2, also a child of genesis, has more work. */
  function Forked(): Tree {
    Tree(0,
      map[0 := Header(None, None, 0, 1), 1 := Header(Some(0), Some(0), 1, 2), 2 := Header(Some(0), Some(0), 1, 3)],
      map[0 := GENESIS_STATUS, 1 := Status(1, 2, 2, VALID_SCRIPTS, true, true, false, false),
          2 := Status(1, 2, 3, VALID_TRANSACTIONS, true, false, false, false)],
      map[], {1, 2}, [0, 1], 4)
  }

  lemma ForkedShape()
    ensures Shape(Forked()) && Forked().headers.Keys == {0, 1, 2}
    ensures PathOf(Forked(), 0) == [0] && PathOf(Forked(), 1) == [0, 1] && PathOf(Forked(), 2) == [0, 2]
  {
    var h := Forked().headers;
    assert WellFormed(h, 0);
    assert Path(h, 0, 0) == [0];
    assert Path(h, 0, 1) == [0, 1];
    assert Path(h, 0, 2) == [0, 2];
    assert And(1, 0) == 0;
    assert SkipBuilt(h, 0, 1);
    assert SkipBuilt(h, 0, 2);
  }

  /** If 2 is refused, this is a state at rest in which the next turn makes CheckBlockIndex fail. */
  lemma ForkedIsRefused(ok: BlockId -> bool)
    requires ok(0) && ok(1) && !ok(2)
    ensures AtRest(Forked(), ok) && Complete(Forked()) && MostWork(Forked(), 2)
    ensures RefusedAbove(Forked(), ok, 2, 0) && 0 < |Forked().vChain| - 1
  {
    hide SkipsBuilt, WellFormed;
    var t := Forked();
    ForkedShape();
    assert EntryOk(t, 0) && EntryOk(t, 1) && EntryOk(t, 2);
    assert ActiveBlockOk(t, ok, 0) && ActiveBlockOk(t, ok, 1);
    assert forall b :: b in t.headers ==> !t.status[b].Failed() && t.status[b].nChainTx > 0;
    assert !OnFailedPath(t, 1) && !OnFailedPath(t, 2);
    assert Usable(t, 1) && Usable(t, 2) && Less(t, 0, 1);
    assert AllOk(ok, PathOf(t, 1));
  }

  // ----- Invalidating a block whose ancestors are not all received -----

  const GENESIS_STATUS := Status(1, 1, 1, VALID_TRANSACTIONS, true, false, false, false)
  const RECEIVED := Status(1, 0, 0, VALID_TRANSACTIONS, true, false, false, false)

  /** A line of headers 0 <- 1 <- 2 <- 3 with genesis 0 the whole active chain. */
  function Line(s1: Status, s2: Status, s3: Status, unlinked: map<BlockId, seq<BlockId>>,
                candidates: set<BlockId>, nextSequenceId: nat): Tree {
    Tree(0,
      map[0 := Header(None, None, 0, 1), 1 := Header(Some(0), Some(0), 1, 2),
          2 := Header(Some(1), Some(0), 2, 3), 3 := Header(Some(2), Some(1), 3, 4)],
      map[0 := GENESIS_STATUS, 1 := s1, 2 := s2, 3 := s3],
      unlinked, candidates, [0], nextSequenceId)
  }

  lemma LineShape(t: Tree)
    requires exists s1, s2, s3, u, c, n :: t == Line(s1, s2, s3, u, c, n)
    ensures Shape(t) && t.headers.Keys == {0, 1, 2, 3} == t.status.Keys
    ensures PathOf(t, 0) == [0] && PathOf(t, 1) == [0, 1] && PathOf(t, 2) == [0, 1, 2] && PathOf(t, 3) == [0, 1, 2, 3]
  {
    var h := t.headers;
    assert h.Keys == {0, 1, 2, 3};
    assert WellFormed(h, 0);
    assert Path(h, 0, 0) == [0];
    assert Path(h, 0, 1) == [0, 1];
    assert Path(h, 0, 2) == [0, 1, 2];
    assert Path(h, 0, 3) == [0, 1, 2, 3];
    assert And(1, 0) == 0;
    assert And(2, 1) == 0;
    assert SkipBuilt(h, 0, 1);
    assert SkipBuilt(h, 0, 2);
    assert SkipBuilt(h, 0, 3);
  }

  /** Genesis and 2 have their data; 2 waits for 1. */
  function Waiting(): Tree { Line(FRESH_STATUS, RECEIVED, FRESH_STATUS, map[1 := [2]], {0}, 2) }

  /** 2 has been invalidated by hand. */
  function AfterInvalidate(): Tree {
    Line(FRESH_STATUS, RECEIVED.(failedValid := true), FRESH_STATUS, map[1 := [2]], {0}, 2)
  }

  /** Then the data of 3 has arrived: its parent is flagged, so it is not registered as waiting. */
  function AfterChildData(): Tree {
    Line(FRESH_STATUS, RECEIVED.(failedValid := true), RECEIVED, map[1 := [2]], {0}, 2)
  }

  /** Then the data of 1 has arrived, and 1 is queued for linking. */
  function AfterParentData(): Tree {
    Line(RECEIVED, RECEIVED.(failedValid := true), RECEIVED, map[1 := [2]], {0}, 2)
  }

  lemma InvalidateWaiting()
    ensures Shape(Waiting()) && Invalidated(Waiting(), 2) == AfterInvalidate()
  {
    var t := Waiting();
    LineShape(t);
    var v := Invalidated(t, 2);
    assert FallbackHeight(t, 2) == 1;
    assert t.vChain[1..] == [];
    assert v.status == AfterInvalidate().status;
    assert v.candidates == {0};
  }

  lemma LinkFirst()
    ensures Shape(AfterParentData()) && PendingOk(AfterParentData(), 1) && KidsOf(AfterParentData(), 1) == [2]
    ensures LinkStep(AfterParentData(), 1) ==
            Line(RECEIVED.(nChainTx := 2, nSequenceId := 2), RECEIVED.(failedValid := true), RECEIVED, map[], {0, 1}, 3)
  {
    LineShape(AfterParentData());
    assert map[1 := [2]] - {1} == map[];
  }

  lemma LinkSecond(t: Tree)
    requires t == Line(RECEIVED.(nChainTx := 2, nSequenceId := 2), RECEIVED.(failedValid := true), RECEIVED, map[],
                       {0, 1}, 3)
    ensures Shape(t) && PendingOk(t, 2) && KidsOf(t, 2) == []
    ensures LinkStep(t, 2) == Line(RECEIVED.(nChainTx := 2, nSequenceId := 2),
              RECEIVED.(failedValid := true, nChainTx := 3, nSequenceId := 3), RECEIVED, map[], {0, 1, 2}, 4)
  {
    LineShape(t);
  }

  /** Block 2 of Waiting() is invalidated, and CheckBlockIndex still passes; then the data of 3 arrives,
      which is not registered since its parent is flagged, and then that of 1.  Every block has been
      received by now and 1 and 2 get linked, but nothing is left that would link 3. */
  lemma InvalidatedUnlinkedStrandsChildren(ok: BlockId -> bool)
    requires ok(0)
    ensures Shape(Waiting()) && Invalidated(Waiting(), 2) == AfterInvalidate() && CheckBlockIndex(AfterInvalidate())
    ensures Shape(AfterInvalidate()) && DataReceived(AfterInvalidate(), AfterChildData(), 3, 1)
    ensures Received(AfterInvalidate(), AfterChildData(), 3, 1)
    ensures Shape(AfterChildData()) && DataReceived(AfterChildData(), AfterParentData(), 1, 1)
    ensures Shape(AfterParentData()) && PendingOk(AfterParentData(), 1)
    ensures var t := LinkStep(AfterParentData(), 1);
            Shape(t) && PendingOk(t, 2) && KidsOf(AfterParentData(), 1) == [2] && KidsOf(t, 2) == []
            && LinkStep(t, 2).status[3].nChainTx == 0 && !CheckBlockIndex(LinkStep(t, 2))
  {
    hide CheckBlockIndex, SkipsBuilt, WellFormed, Complete;
    InvalidateWaiting();
    WaitingIsAtRest(ok);
    InvalidatedFacts(Waiting(), ok, 0, 2);
    Arrivals();
    LinkFirst();
    var t := LinkStep(AfterParentData(), 1);
    LinkSecond(t);
    StrandedFailsCheck(LinkStep(t, 2));
  }

  lemma Arrivals()
    ensures Shape(AfterInvalidate()) && DataReceived(AfterInvalidate(), AfterChildData(), 3, 1)
    ensures Received(AfterInvalidate(), AfterChildData(), 3, 1)
    ensures Shape(AfterChildData()) && DataReceived(AfterChildData(), AfterParentData(), 1, 1)
  {
    hide SkipsBuilt, WellFormed;
    LineShape(AfterInvalidate());
    LineShape(AfterChildData());
    var t, u, w := AfterInvalidate(), AfterChildData(), AfterParentData();
    assert t.status[3 := WithData(t.status[3], 1)] == u.status;
    assert u.status[1 := WithData(u.status[1], 1)] == w.status;
  }

  lemma StrandedFailsCheck(u: Tree)
    requires u == Line(RECEIVED.(nChainTx := 2, nSequenceId := 2),
              RECEIVED.(failedValid := true, nChainTx := 3, nSequenceId := 3), RECEIVED, map[], {0, 1, 2}, 4)
    ensures Shape(u) && !CheckBlockIndex(u)
  {
    LineShape(u);
    assert !SomeOnPath(u, 3, false, (x: Status) => x.nTx == 0);
    assert !CheckEntry(u, 3);
  }

  /** Waiting() is an ordinary state. */
  lemma WaitingIsAtRest(ok: BlockId -> bool)
    requires ok(0)
    ensures AtRest(Waiting(), ok) && Complete(Waiting())
  {
    hide SkipsBuilt, WellFormed;
    var t := Waiting();
    LineShape(t);
    WaitingEntries();
    WaitingIsComplete();
    assert forall b :: b in t.headers ==> !t.status[b].Failed();
    assert UnlinkedOk(t, {}) by { assert UnlinkedPairOk(t, {}, 1, 2); }
    assert ActiveOk(t, ok) by { assert ActiveBlockOk(t, ok, 0); }
    assert !OnFailedPath(t, 0);
    assert CandidatesOk(t, 0);
    assert AllOk(ok, PathOf(t, 0));
  }

  lemma WaitingIsComplete()
    ensures Complete(Waiting())
  {
    hide SkipsBuilt, WellFormed;
    LineShape(Waiting());
    assert InUnlinked(Waiting(), 1, 2);
  }

  lemma WaitingEntries()
    ensures Shape(Waiting()) && EntriesOk(Waiting())
  {
    var t := Waiting();
    LineShape(t);
    assert EntryOk(t, 0);
    assert EntryOk(t, 1);
    assert EntryOk(t, 2);
    assert EntryOk(t, 3);
  }

  // ----- Exactly the blocks that are not harmless -----

  /** c, a child of b, holds data but will not be linked: it stands nowhere in mapBlocksUnlinked.  No
      block below it has failed before its data came, and up to height k all the data is there. */
  ghost predicate Stranded(t: Tree, b: BlockId, c: BlockId, k: nat)
  {
    && Shape(t) && b in t.headers && c in t.headers && t.headers[c].pprev == Some(b) && k <= t.headers[b].nHeight
    && t.status[c].haveData && t.status[c].nChainTx == 0 && !IsWaiting(t, c)
    && (forall j {:trigger PathOf(t, b)[j]} :: 0 <= j <= t.headers[b].nHeight ==> StillOpen(t, PathOf(t, b)[j], j <= k))
  }

  ghost predicate StillOpen(t: Tree, x: BlockId, received: bool)
  {
    x in t.status && (received || t.status[x].Failed() ==> t.status[x].haveData)
  }

  /** The first child without data of the block just invalidated, once its data has come. */
  lemma StrandedStart(t: Tree, ok: BlockId -> bool, floor: BlockId, b: BlockId, c: BlockId, t': Tree)
    requires Inv(t, ok, floor) && b in t.headers && t.status[b].Failed() && t.status[b].nChainTx == 0 && !Dead(t, b)
    requires c in t.headers && t.headers[c].pprev == Some(b) && !t.status[c].haveData
    requires Received(t, t', c, 1)
    ensures Stranded(t', b, c, 0)
  {
    hide SkipsBuilt, WellFormed, IsPath, LinkProgress, SortsBefore;
    assert t' == t.(status := t.status[c := WithData(t.status[c], 1)]);
    assert PathOf(t', b) == PathOf(t, b);
    forall p ensures !InUnlinked(t', p, c) {
      assert InUnlinked(t, p, c) ==> UnlinkedPairOk(t, {}, p, c);
    }
    PathKeys(t, b);
    assert EntryOk(t, t.genesis);
    forall j | 0 <= j <= t.headers[b].nHeight ensures StillOpen(t', PathOf(t, b)[j], j <= 0) {
      assert PathOf(t, b)[j] in PathOf(t, b);
    }
  }

  lemma ChildAbove(t: Tree, b: BlockId, c: BlockId)
    requires Shape(t) && b in t.headers && c in t.headers && t.headers[c].pprev == Some(b)
    ensures c != t.genesis && t.headers[c].nHeight == t.headers[b].nHeight + 1 && PathOf(t, c) == PathOf(t, b) + [c]
  {
    assert c != t.genesis;
    assert Parent(t, c) == b;
  }

  /** One more block below it has its data. */
  lemma StrandedOn(t: Tree, t': Tree, b: BlockId, c: BlockId, k: nat, x: BlockId)
    requires Stranded(t, b, c, k) && k < t.headers[b].nHeight && x == PathOf(t, b)[k + 1]
    requires Shape(t') && Received(t, t', x, 1)
    ensures Stranded(t', b, c, k + 1)
  {
    hide SkipsBuilt, WellFormed, IsPath, SortsBefore;
    var u := t.(status := t.status[x := WithData(t.status[x], 1)]);
    assert PathOf(t', b) == PathOf(t, b);
    PathInTree(t, b, k + 1);
    ChildAbove(t, b, c);
    assert IsWaiting(u, c) ==> IsWaiting(t, c) by {
      assert forall p :: InUnlinked(u, p, c) ==> InUnlinked(t, p, c);
    }
    assert t'.status[c] == t'.status[c];
    forall j | 0 <= j <= t.headers[b].nHeight ensures StillOpen(t', PathOf(t, b)[j], j <= k + 1) {
      var y := PathOf(t, b)[j];
      assert StillOpen(t, y, j <= k);
      assert EntryLinkProgress(u.status[y], t'.status[y], u.nextSequenceId, t'.nextSequenceId);
    }
  }

  lemma StrandedFurther(t: Tree, b: BlockId, c: BlockId, k: nat)
    requires Stranded(t, b, c, k) && k < t.headers[b].nHeight
    requires PathOf(t, b)[k + 1] in t.status && t.status[PathOf(t, b)[k + 1]].haveData
    ensures Stranded(t, b, c, k + 1)
  {
    hide SkipsBuilt, WellFormed, IsPath, SortsBefore;
    forall j | 0 <= j <= t.headers[b].nHeight ensures StillOpen(t, PathOf(t, b)[j], j <= k + 1) {
      assert StillOpen(t, PathOf(t, b)[j], j <= k);
    }
  }

  /** All the data is there, and c is not linked. */
  lemma StrandedFailsCheckAtLast(t: Tree, ok: BlockId -> bool, floor: BlockId, b: BlockId, c: BlockId)
    requires Inv(t, ok, floor) && b in t.headers && Stranded(t, b, c, t.headers[b].nHeight)
    ensures !CheckBlockIndex(t)
  {
    hide SkipsBuilt, WellFormed, IsPath, SortsBefore;
    ChildAbove(t, b, c);
    forall x | x in PathOf(t, c) ensures x in t.status && t.status[x].nTx > 0 {
      PathKeys(t, c);
      assert EntryOk(t, x);
      if x != c {
        var j :| 0 <= j <= t.headers[b].nHeight && PathOf(t, b)[j] == x;
        assert StillOpen(t, PathOf(t, b)[j], true);
      }
    }
    assert !SomeOnPath(t, c, false, (x: Status) => x.nTx == 0);
    assert !CheckEntry(t, c);
  }

  /** Invalidating a block that is not harmless loses track of blocks: the data of one of its children
      and then that of its ancestors arrives, and CheckBlockIndex fails. */
  method StrandChild(s: ChainState, b: BlockId)
    requires s.Valid() && Complete(s.S()) && b in s.headers && b != s.genesis && !Harmless(s.S(), b)
    modifies s, s.chainActive
    ensures s.Valid() && !CheckBlockIndex(s.S())
  {
    hide Complete, CheckBlockIndex, AtRest, Invalidated, PendingInv, Received, Stranded, Dead, SortsBefore,
      WellFormed, SkipsBuilt, IsPath;
    ghost var t := s.S();
    InvShape(t, s.ok, s.floor);
    UnsettledStays(t, Invalidated(t, b), s.ok, s.floor, b);
    InvalidatedFlags(t, s.ok, s.floor, b);
    s.InvalidateBlock(b);
    var c :| c in s.headers && s.headers[c].pprev == Some(b) && !s.status[c].haveData && !s.status[c].Failed();
    ghost var v := s.S();
    TakeData(s, c);
    StrandedStart(v, s.ok, s.floor, b, c, s.S());
    var k := 0;
    while k < s.headers[b].nHeight
      invariant s.Valid() && b in s.headers && s.genesis == t.genesis && Stranded(s.S(), b, c, k)
      invariant 0 <= k <= s.headers[b].nHeight && s.headers == v.headers
    {
      ghost var u := s.S();
      var x := AncestorOf(s, b, c, k);
      if s.status[x].haveData {
        StrandedFurther(u, b, c, k);
      } else {
        TakeData(s, x);
        StrandedOn(u, s.S(), b, c, k, x);
      }
      k := k + 1;
    }
    StrandedFailsCheckAtLast(s.S(), s.ok, s.floor, b, c);
  }

  method AncestorOf(s: ChainState, b: BlockId, ghost c: BlockId, k: nat) returns (x: BlockId)
    requires s.Valid() && b in s.headers && Stranded(s.S(), b, c, k) && k < s.headers[b].nHeight
    ensures Shape(s.S()) && x == PathOf(s.S(), b)[k + 1] && x in s.headers && x in s.status && x != s.genesis
    ensures s.status[x].Failed() ==> s.status[x].haveData
  {
    hide PendingInv, SortsBefore;
    InvShape(s.S(), s.ok, s.floor);
    PathInTree(s.S(), b, k + 1);
    ChainStartsAtGenesis(s.S());
    var a := GetAncestor(s.headers, s.genesis, b, k + 1);
    x := a.value;
    assert StillOpen(s.S(), PathOf(s.S(), b)[k + 1], k + 1 <= k);
  }

  /** The data of a known block arrives that was asked for and passes its checks. */
  method TakeData(s: ChainState, x: BlockId)
    requires s.Valid() && x in s.headers && x in s.status && !s.status[x].haveData && !s.status[x].Failed()
    modifies s
    ensures s.Valid() && Shape(s.S()) && Received(old(s.S()), s.S(), x, 1)
    ensures s.headers == old(s.headers) && s.floor == old(s.floor)
  {
    hide PendingInv, Received, SortsBefore, Complete;
    InvShape(s.S(), s.ok, s.floor);
    AcceptFacts(s.S(), s.ok, s.floor, x);
    ghost var t := s.S();
    var accepted, _ := s.AcceptBlock(x, x, 1, true, true, true, Passed, 1);
    InvShape(s.S(), s.ok, s.floor);
    ReceivedKeepsHeaders(t, s.S(), x, 1);
  }

  lemma ReceivedKeepsHeaders(t: Tree, t': Tree, b: BlockId, nTx: nat)
    requires Received(t, t', b, nTx)
    ensures t'.headers == t.headers
  {}
}
