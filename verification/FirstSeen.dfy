/** The rule that decides between chains of equal work: the node stays on the one whose blocks it
    received first (src/main.cpp: CBlockIndexWorkComparator, ReceivedBlockTransactions). */
module FirstSeen {
  import opened BlockIndex
  import opened BlockTree
  import opened BlockTreeSteps
  import opened BestChain
  import opened ChainState

  /** No fully received block without failed ancestor sorts above the tip unless it has more work. */
  ghost predicate TipIsFirst(t: Tree)
  {
    && Shape(t) && Tip(t) in t.headers && Usable(t, Tip(t))
    && forall c {:trigger Usable(t, c)} :: Usable(t, c) && t.headers[c].nChainWork <= t.headers[Tip(t)].nChainWork ==>
         !Less(t, Tip(t), c)
  }

  /** A block that got linked on the way has a later sequence id than the tip. */
  lemma LinkedSince(t: Tree, t': Tree, x: BlockId, nTx: nat, c: BlockId)
    requires Shape(t) && Shape(t') && EntriesOk(t) && Received(t, t', x, nTx) && !t.status[x].haveData
    requires Usable(t, Tip(t)) && Usable(t', c)
    ensures t'.headers == t.headers && t'.status[Tip(t)] == t.status[Tip(t)]
    ensures if t.status[c].nChainTx > 0 then t'.status[c] == t.status[c]
            else t'.status[c].nSequenceId > t'.status[Tip(t)].nSequenceId
  {
    hide SkipsBuilt, WellFormed, OnFailedPath, IsWaiting;
    assert EntryOk(t, x) && EntryOk(t, Tip(t));
    var u := t.(status := t.status[x := WithData(t.status[x], nTx)]);
    assert EntryLinkProgress(u.status[c], t'.status[c], u.nextSequenceId, t'.nextSequenceId);
    assert EntryLinkProgress(u.status[Tip(t)], t'.status[Tip(t)], u.nextSequenceId, t'.nextSequenceId);
  }

  /** Linking sets no failed flag and clears none. */
  lemma ReceivedKeepsFailedPaths(t: Tree, t': Tree, x: BlockId, nTx: nat, c: BlockId)
    requires Shape(t) && Shape(t') && Received(t, t', x, nTx) && c in t.headers
    ensures OnFailedPath(t', c) <==> OnFailedPath(t, c)
  {
    hide SkipsBuilt, WellFormed, IsWaiting;
    var u := t.(status := t.status[x := WithData(t.status[x], nTx)]);
    assert PathOf(t', c) == PathOf(t, c);
    forall y | y in t.status ensures t'.status[y].failedValid == t.status[y].failedValid {
      assert EntryLinkProgress(u.status[y], t'.status[y], u.nextSequenceId, t'.nextSequenceId);
    }
  }

  lemma ReceivedKeepsFirst(t: Tree, t': Tree, ok: BlockId -> bool, floor: BlockId, x: BlockId, nTx: nat)
    requires Inv(t, ok, floor) && Shape(t') && TipIsFirst(t)
    requires Received(t, t', x, nTx) && !t.status[x].haveData
    ensures TipIsFirst(t') && t'.vChain == t.vChain && t'.headers == t.headers
  {
    hide SkipsBuilt, WellFormed, EntryOk, OnFailedPath, Received;
    ReceivedShape(t, t', x, nTx);
    ReceivedKeepsFailedPaths(t, t', x, nTx, Tip(t));
    LinkedTip(t, t', x, nTx);
    forall c | Usable(t', c) && t'.headers[c].nChainWork <= t'.headers[Tip(t')].nChainWork
      ensures !Less(t', Tip(t'), c)
    {
      LinkedSince(t, t', x, nTx, c);
      ReceivedKeepsFailedPaths(t, t', x, nTx, c);
      assert t.status[c].nChainTx > 0 ==> Usable(t, c);
    }
  }

  lemma ReceivedShape(t: Tree, t': Tree, x: BlockId, nTx: nat)
    requires Received(t, t', x, nTx)
    ensures t'.headers == t.headers && t'.vChain == t.vChain && t'.status.Keys == t.status.Keys
  {}

  lemma LinkedTip(t: Tree, t': Tree, x: BlockId, nTx: nat)
    requires Shape(t) && Shape(t') && EntriesOk(t) && Received(t, t', x, nTx) && !t.status[x].haveData
    requires Usable(t, Tip(t))
    ensures t'.status[Tip(t)] == t.status[Tip(t)]
  {
    hide SkipsBuilt, WellFormed, OnFailedPath, IsWaiting;
    assert EntryOk(t, x) && EntryOk(t, Tip(t));
    var u := t.(status := t.status[x := WithData(t.status[x], nTx)]);
    assert EntryLinkProgress(u.status[Tip(t)], t'.status[Tip(t)], u.nextSequenceId, t'.nextSequenceId);
  }

  /** Among chains of equal work the one received first: whatever block arrives, the best block is the
      tip or has strictly more work. */
  lemma BestIsTipOrHeavier(t: Tree, ok: BlockId -> bool, floor: BlockId, b: BlockId)
    requires Inv(t, ok, floor) && TipIsFirst(t) && IsBest(t, ok, b)
    ensures b in t.headers && (b == Tip(t) || t.headers[b].nChainWork > t.headers[Tip(t)].nChainWork)
  {
    hide SkipsBuilt, WellFormed, EntryOk, SortsBefore;
    BestNotBelowTip(t, ok, floor, b);
    ComparatorIsStrictTotalOrder(t, b, Tip(t), b);
  }

  /** The best block, without the comparator: it has the most work, and of those with as much the one
      linked first (blocks linked alike being told apart by their address). */
  lemma BestIsHeaviest(t: Tree, ok: BlockId -> bool, b: BlockId)
    requires Shape(t) && Eligible(t, ok, b)
    ensures IsBest(t, ok, b) <==> forall c {:trigger Eligible(t, ok, c)} :: Eligible(t, ok, c) ==> NotBefore(t, b, c)
  {
    hide SkipsBuilt, WellFormed;
    forall c | Eligible(t, ok, c) ensures !Less(t, b, c) <==> NotBefore(t, b, c) {}
  }

  ghost predicate NotBefore(t: Tree, b: BlockId, c: BlockId)
    requires b in t.headers && b in t.status && c in t.headers && c in t.status
  {
    t.headers[c].nChainWork < t.headers[b].nChainWork ||
    (t.headers[c].nChainWork == t.headers[b].nChainWork &&
     (t.status[b].nSequenceId < t.status[c].nSequenceId ||
      (t.status[b].nSequenceId == t.status[c].nSequenceId && b <= c)))
  }

  /** At rest on the last candidate, the arrival of a block moves the best block only for more work. */
  lemma FirstReceivedStays(t: Tree, t': Tree, ok: BlockId -> bool, floor: BlockId, x: BlockId, nTx: nat, b: BlockId)
    requires OnLast(t, ok, floor) && Received(t, t', x, nTx) && !t.status[x].haveData
    requires Inv(t', ok, floor) && IsBest(t', ok, b)
    ensures b in t.headers && Tip(t) in t.headers
    ensures b == Tip(t) || t.headers[b].nChainWork > t.headers[Tip(t)].nChainWork
  {
    hide SkipsBuilt, WellFormed, EntryOk, SortsBefore, Received;
    OnLastIsMaximal(t, ok, floor);
    assert TipIsFirst(t);
    ReceivedKeepsFirst(t, t', ok, floor, x, nTx);
    BestIsTipOrHeavier(t', ok, floor, b);
  }

  lemma HeaderKeepsFirst(t: Tree, t': Tree, id: BlockId, hashPrev: BlockId, proof: nat)
    requires TipIsFirst(t) && Shape(t') && HeaderAppended(t, t', id, hashPrev, proof)
    ensures TipIsFirst(t') && t'.vChain == t.vChain
  {
    hide SkipsBuilt, WellFormed, OnFailedPath;
    forall c | c in t.headers
      ensures PathOf(t', c) == PathOf(t, c) && (Usable(t', c) <==> Usable(t, c)) && t'.headers[c] == t.headers[c]
    {
      HeaderKeepsUsable(t, t', id, hashPrev, proof, c);
    }
    assert t'.status[id].nChainTx == 0;
  }

  lemma HeaderKeepsUsable(t: Tree, t': Tree, id: BlockId, hashPrev: BlockId, proof: nat, c: BlockId)
    requires Shape(t) && Shape(t') && HeaderAppended(t, t', id, hashPrev, proof) && c in t.headers
    ensures PathOf(t', c) == PathOf(t, c) && (Usable(t', c) <==> Usable(t, c)) && t'.headers[c] == t.headers[c]
  {
    hide SkipsBuilt;
    PathExtend(t.headers, t'.headers, t.genesis, c);
    PathKeys(t, c);
  }

  lemma MarkKeepsFirst(t: Tree, t': Tree, ok: BlockId -> bool, floor: BlockId, id: BlockId)
    requires Inv(t, ok, floor) && Inv(t', ok, floor) && TipIsFirst(t) && id in t.status && !t.status[id].haveData
    requires t' == t.(status := t.status[id := t.status[id].(failedValid := true)])
    ensures TipIsFirst(t')
  {
    hide SkipsBuilt, WellFormed;
    ChainStartsAtGenesis(t);
    assert Tip(t) in t.vChain;
    ActiveIsUsable(t', ok, Tip(t));
    forall c | Usable(t', c) && t'.headers[c].nChainWork <= t'.headers[Tip(t')].nChainWork
      ensures !Less(t', Tip(t'), c)
    {
      assert PathOf(t', c) == PathOf(t, c);
      assert Usable(t, c);
    }
  }

  // ----- By the methods -----

  ghost predicate Kept(h: Headers, h': Headers) {
    forall b :: b in h ==> b in h' && h'[b] == h[b]
  }

  lemma HeaderStep(t: Tree, t': Tree, ok: BlockId -> bool, floor: BlockId, r: HeaderResult,
                   id: BlockId, hashPrev: BlockId, proof: nat)
    requires TipIsFirst(t) && Inv(t', ok, floor)
    requires if r == Added then HeaderAppended(t, t', id, hashPrev, proof) else t' == t
    ensures TipIsFirst(t') && Kept(t.headers, t'.headers)
  {
    hide SkipsBuilt, WellFormed, PendingInv, TipIsFirst;
    if r == Added {
      InvShape(t', ok, floor);
      HeaderKeepsFirst(t, t', id, hashPrev, proof);
    }
  }

  lemma DataStep(t: Tree, t': Tree, ok: BlockId -> bool, floor: BlockId, r: DataResult, id: BlockId, nTx: nat)
    requires TipIsFirst(t) && Inv(t, ok, floor) && Inv(t', ok, floor)
    requires match r
             case Refused => t' == t
             case Ignored => t' == t
             case MarkedFailed => (id in t.status && !t.status[id].haveData &&
               t' == t.(status := t.status[id := t.status[id].(failedValid := true)]))
             case Stored => id in t.status && !t.status[id].haveData && Received(t, t', id, nTx)
    ensures TipIsFirst(t') && t'.headers == t.headers && t'.vChain == t.vChain
  {
    hide PendingInv, TipIsFirst, Received;
    InvShape(t', ok, floor);
    if r == MarkedFailed {
      MarkKeepsFirst(t, t', ok, floor, id);
    } else if r == Stored {
      ReceivedKeepsFirst(t, t', ok, floor, id, nTx);
    }
  }

  lemma FirstFacts(t: Tree)
    requires TipIsFirst(t)
    ensures t.vChain != [] && Tip(t) in t.headers
  {}

  /** AcceptBlockHeader or AcceptBlock: whatever arrives, the tip stays where it is and stays first. */
  method Receive(s: ChainState, op: Operation)
    requires s.Valid() && TipIsFirst(s.S()) && (op.ReceiveHeader? || op.ReceiveBlock?)
    modifies s`headers, s`status, s`mapBlocksUnlinked, s`setBlockIndexCandidates, s`nBlockSequenceId
    ensures s.Valid() && TipIsFirst(s.S()) && s.chainActive.vChain != [] && Kept(old(s.headers), s.headers)
    ensures Tip(s.S()) in s.headers
  {
    hide PendingInv, TipIsFirst, Complete, Received, Kept;
    ghost var t := s.S();
    InvShape(t, s.ok, s.floor);
    FirstFacts(t);
    match op {
      case ReceiveHeader(id, hashPrev, proof, headerOk, contextOk) =>
        var r := s.AcceptBlockHeader(id, hashPrev, proof + 1, headerOk, contextOk);
        HeaderStep(t, s.S(), s.ok, s.floor, r, id, hashPrev, proof + 1);
      case ReceiveBlock(id, hashPrev, proof, headerOk, contextOk, requested, check, nTx) =>
        ghost var r := HeaderOutcome(t, id, hashPrev, headerOk, contextOk);
        var _, u := s.AcceptBlock(id, hashPrev, proof + 1, headerOk, contextOk, requested, check, nTx + 1);
        InvShape(u, s.ok, s.floor);
        HeaderStep(t, u, s.ok, s.floor, r, id, hashPrev, proof + 1);
        DataStep(u, s.S(), s.ok, s.floor, DataOutcome(u, r, id, requested, check), id, nTx + 1);
    }
  }

  /** ActivateBestChain from there: the tip stays, or moves to strictly more work, and is first again. */
  method Activate(s: ChainState)
    requires s.Valid() && TipIsFirst(s.S())
    modifies s`status, s`setBlockIndexCandidates, s`floor, s.chainActive
    ensures s.Valid() && TipIsFirst(s.S()) && s.chainActive.vChain != []
    ensures old(s.chainActive.vChain) != [] && Tip(old(s.S())) in s.headers && Tip(s.S()) in s.headers
    ensures Tip(s.S()) == Tip(old(s.S())) ||
            s.headers[Tip(s.S())].nChainWork > s.headers[Tip(old(s.S()))].nChainWork
    ensures Shape(old(s.S())) && Eligible(old(s.S()), s.ok, Tip(s.S()))
    ensures forall c :: Eligible(old(s.S()), s.ok, c) ==> NotBefore(old(s.S()), Tip(s.S()), c)
  {
    hide PendingInv, Complete, CheckBlockIndex, SkipsBuilt, WellFormed, Usable, AllOk, NotBefore;
    ghost var t, floor := s.S(), s.floor;
    s.ActivateBestChain();
    InvShape(s.S(), s.ok, s.floor);
    BestIsTipOrHeavier(t, s.ok, floor, Tip(s.S()));
    BestIsHeaviest(t, s.ok, Tip(s.S()));
  }

  /** Over any sequence of headers, blocks and activations in any order, once the best chain has been
      activated the tip only ever moves to strictly more work: of chains of equal work the one whose
      blocks were received first stays. */
  method Run(s: ChainState, ops: seq<Operation>) returns (ghost tips: seq<BlockId>)
    requires s.Valid() && forall op :: op in ops ==> op.ReceiveHeader? || op.ReceiveBlock? || op.Activate?
    modifies s, s.chainActive
    ensures s.Valid() && |tips| == |ops| + 1 && tips[|ops|] == Tip(s.S())
    ensures forall i :: 0 <= i <= |ops| ==> tips[i] in s.headers
    ensures forall i :: 0 <= i < |ops| ==>
              tips[i + 1] == tips[i] ||
              (ops[i].Activate? && s.headers[tips[i + 1]].nChainWork > s.headers[tips[i]].nChainWork)
  {
    hide Inv, TipIsFirst, Complete, IsBest, CheckBlockIndex, Less, Shape, Eligible, NotBefore, Usable;
    s.ActivateBestChain();
    RestedIsFirst(s.S(), s.ok);
    tips := [Tip(s.S())];
    for i := 0 to |ops|
      invariant s.Valid() && TipIsFirst(s.S()) && s.chainActive.vChain != []
      invariant |tips| == i + 1 && tips[i] == Tip(s.S())
      invariant forall k :: 0 <= k <= i ==> tips[k] in s.headers
      invariant forall k :: 0 <= k < i ==>
                  tips[k + 1] == tips[k] ||
                  (ops[k].Activate? && s.headers[tips[k + 1]].nChainWork > s.headers[tips[k]].nChainWork)
    {
      assert ops[i] in ops;
      if ops[i].Activate? {
        Activate(s);
      } else {
        Receive(s, ops[i]);
      }
      tips := tips + [Tip(s.S())];
    }
  }

  lemma RestedIsFirst(t: Tree, ok: BlockId -> bool)
    requires AtRest(t, ok) && Usable(t, Tip(t)) && forall c :: Usable(t, c) ==> !Less(t, Tip(t), c)
    ensures TipIsFirst(t)
  {}
}
