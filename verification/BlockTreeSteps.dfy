/** Each elementary change main.cpp makes to the block tree preserves the invariant. */
module BlockTreeSteps {
  import opened BlockIndex
  import opened BlockTree

  /** A fresh index entry knows only its header. */
  const FRESH_STATUS := Status(0, 0, 0, VALID_TREE, false, false, false, false)

  /** Statuses agree up to the failed flags, which are never cleared, and the same tree shape. */
  ghost predicate OnlyFlagsAdded(t: Tree, t': Tree)
  {
    && t'.genesis == t.genesis && t'.headers == t.headers && t'.unlinked == t.unlinked
    && t'.nextSequenceId == t.nextSequenceId && t'.status.Keys == t.status.Keys
    && forall b {:trigger t'.status[b]} :: b in t.status ==>
        && t'.status[b]
           == t.status[b].(failedValid := t'.status[b].failedValid, failedChild := t'.status[b].failedChild)
        && (t.status[b].failedValid ==> t'.status[b].failedValid)
        && (t.status[b].failedChild ==> t'.status[b].failedChild)
  }

  /** The order of blocks ignores failed flags. */
  lemma FlagsKeepOrder(t: Tree, t': Tree, a: BlockId, b: BlockId)
    requires Shape(t) && Shape(t') && OnlyFlagsAdded(t, t') && a in t.headers && b in t.headers
    ensures Less(t', a, b) == Less(t, a, b)
  {
    assert t'.status[a].nSequenceId == t.status[a].nSequenceId;
    assert t'.status[b].nSequenceId == t.status[b].nSequenceId;
  }

  lemma FlagsKeepFailedPaths(t: Tree, t': Tree, b: BlockId)
    requires Shape(t) && Shape(t') && OnlyFlagsAdded(t, t') && b in t.headers
    ensures PathOf(t', b) == PathOf(t, b)
    ensures OnFailedPath(t, b) ==> OnFailedPath(t', b)
  {
    if OnFailedPath(t, b) {
      var x :| x in PathOf(t, b) && x in t.status && t.status[x].failedValid;
      assert t'.status[x].failedValid;
    }
  }

  /** Flags keep the entries consistent. */
  lemma FlagsKeepEntries(t: Tree, t': Tree)
    requires Shape(t) && Shape(t') && OnlyFlagsAdded(t, t')
    requires EntriesOk(t) && UnlinkedOk(t, {})
    ensures EntriesOk(t') && UnlinkedOk(t', {})
  {
    forall b | b in t'.headers ensures EntryOk(t', b) {
      assert EntryOk(t, b);
      assert t'.status[b] == t'.status[b];
      if b != t.genesis {
        assert Parent(t', b) == Parent(t, b);
        assert t'.status[Parent(t, b)] == t'.status[Parent(t, b)];
      }
    }
    forall p | p in t'.unlinked
      ensures forall b {:trigger b in t'.unlinked[p]} :: b in t'.unlinked[p] ==> UnlinkedPairOk(t', {}, p, b)
    {
      forall b | b in t'.unlinked[p] ensures UnlinkedPairOk(t', {}, p, b) {
        assert UnlinkedPairOk(t, {}, p, b);
        assert t'.status[b] == t'.status[b];
      }
    }
  }

  /** Marking blocks failed, and dropping from the candidates only blocks below failed ones. */
  lemma FlaggingPreserves(t: Tree, t': Tree, ok: BlockId -> bool, floor: BlockId)
    requires Inv(t, ok, floor) && Shape(t') && OnlyFlagsAdded(t, t') && t'.vChain == t.vChain
    requires FlagsOk(t')
    requires forall b :: b in t.vChain && b in t.headers ==> t'.status[b] == t.status[b]
    requires t'.candidates <= t.candidates
    requires forall c :: c in t.candidates && c in t.headers && c !in t'.candidates ==> OnFailedPath(t', c)
    requires !OnFailedPath(t', floor)
    ensures Inv(t', ok, floor)
  {
    FlagsKeepEntries(t, t');
    assert ActiveOk(t', ok) by {
      forall b | b in t'.vChain ensures ActiveBlockOk(t', ok, b) { assert ActiveBlockOk(t, ok, b); }
    }
    assert CandidatesOk(t', floor) by {
      FlagsKeepOrder(t, t', floor, Tip(t));
      assert t'.status[floor] == t'.status[floor];
      forall c | c in t'.candidates
        ensures c in t'.headers && t'.status[c].nChainTx > 0 && !Less(t', c, Tip(t'))
      {
        assert c in t.candidates;
        FlagsKeepOrder(t, t', c, Tip(t));
        assert t'.status[c] == t'.status[c];
      }
      forall b | Usable(t', b) && !Less(t', b, floor) ensures b in t'.candidates {
        FlagsKeepOrder(t, t', b, floor);
        FlagsKeepFailedPaths(t, t', b);
        assert t'.status[b] == t'.status[b];
        assert Usable(t, b);
      }
    }
    FlagsKeepFailedPaths(t, t', floor);
  }

  /** A path free of refused blocks stays free of failed ones when only refused blocks fail. */
  lemma OkPathStaysUsable(t: Tree, t': Tree, ok: BlockId -> bool, b: BlockId)
    requires Shape(t) && Shape(t') && OnlyFlagsAdded(t, t') && b in t.headers
    requires !OnFailedPath(t, b) && AllOk(ok, PathOf(t, b))
    requires forall x :: x in t.headers && t'.status[x].failedValid && !t.status[x].failedValid ==> !ok(x)
    ensures !OnFailedPath(t', b)
  {
    FlagsKeepFailedPaths(t, t', b);
    assert forall x :: x in PathOf(t', b) ==> ok(x);
  }

  // ----- A new header -----

  ghost predicate HeaderAdded(t: Tree, t': Tree, id: BlockId)
    requires Shape(t) && Shape(t')
  {
    && id !in t.headers && id in t'.headers
    && t'.headers == t.headers[id := t'.headers[id]] && t'.status == t.status[id := FRESH_STATUS]
    && t' == t.(headers := t'.headers, status := t'.status)
    && forall b {:trigger PathOf(t', b)} :: b in t.headers ==> PathOf(t', b) == PathOf(t, b)
  }

  lemma HeaderKeepsEntries(t: Tree, t': Tree, id: BlockId)
    requires Shape(t) && Shape(t') && HeaderAdded(t, t', id)
    requires EntriesOk(t) && UnlinkedOk(t, {})
    ensures EntriesOk(t') && UnlinkedOk(t', {})
  {
    assert EntryOk(t, t.genesis);
    forall b | b in t'.headers ensures EntryOk(t', b) {
      if b != id {
        assert EntryOk(t, b);
        if b != t.genesis {
          assert Parent(t', b) == Parent(t, b);
        }
      }
    }
    forall p | p in t'.unlinked
      ensures forall b {:trigger b in t'.unlinked[p]} :: b in t'.unlinked[p] ==> UnlinkedPairOk(t', {}, p, b)
    {
      forall b | b in t'.unlinked[p] ensures UnlinkedPairOk(t', {}, p, b) {
        assert UnlinkedPairOk(t, {}, p, b);
      }
    }
  }

  lemma HeaderKeepsFailedPath(t: Tree, t': Tree, id: BlockId, b: BlockId)
    requires Shape(t) && Shape(t') && HeaderAdded(t, t', id) && b in t.headers
    ensures OnFailedPath(t', b) <==> OnFailedPath(t, b)
  {
    PathKeys(t, b);
    assert PathOf(t', b) == PathOf(t, b);
  }

  lemma HeaderPreserves(t: Tree, t': Tree, ok: BlockId -> bool, floor: BlockId, id: BlockId)
    requires Inv(t, ok, floor) && Shape(t') && HeaderAdded(t, t', id)
    ensures Inv(t', ok, floor)
  {
    HeaderKeepsEntries(t, t', id);
    assert FlagsOk(t') by {
      forall b | b in t'.headers && t'.status[b].Failed() ensures OnFailedPath(t', b) {
        assert OnFailedPath(t, b);
        HeaderKeepsFailedPath(t, t', id, b);
      }
    }
    assert ActiveOk(t', ok) by {
      forall b | b in t'.vChain ensures ActiveBlockOk(t', ok, b) { assert ActiveBlockOk(t, ok, b); }
    }
    assert CandidatesOk(t', floor) by {
      HeaderKeepsFailedPath(t, t', id, floor);
      forall b | Usable(t', b) && !Less(t', b, floor) ensures b in t'.candidates {
        assert b != id;
        HeaderKeepsFailedPath(t, t', id, b);
        assert Usable(t, b);
      }
    }
    assert PathOf(t', floor) == PathOf(t, floor);
  }

  // ----- Connecting and disconnecting the tip -----

  lemma DisconnectPreserves(t: Tree, t': Tree, ok: BlockId -> bool, floor: BlockId)
    requires Inv(t, ok, floor) && Tip(t) != t.genesis
    requires t' == t.(vChain := PathOf(t, Parent(t, Tip(t))))
    ensures Inv(t', ok, floor) && Tip(t') == Parent(t, Tip(t))
  {
    var p := Parent(t, Tip(t));
    assert t.vChain == PathOf(t, p) + [Tip(t)];
    assert Less(t, p, Tip(t));
    forall b | b in t'.headers ensures EntryOk(t', b) { assert EntryOk(t, b); }
    assert ActiveOk(t', ok) by {
      forall b | b in t'.vChain ensures ActiveBlockOk(t', ok, b) {
        assert b in t.vChain;
        assert ActiveBlockOk(t, ok, b);
      }
    }
    assert FlagsOk(t') by {
      forall b | b in t'.headers && t'.status[b].Failed() ensures OnFailedPath(t', b) { assert OnFailedPath(t, b); }
    }
    assert UnlinkedOk(t', {}) by {
      forall q | q in t'.unlinked
        ensures forall b {:trigger b in t'.unlinked[q]} :: b in t'.unlinked[q] ==> UnlinkedPairOk(t', {}, q, b)
      {
        forall b | b in t'.unlinked[q] ensures UnlinkedPairOk(t', {}, q, b) { assert UnlinkedPairOk(t, {}, q, b); }
      }
    }
    assert CandidatesOk(t', floor) by {
      ComparatorIsStrictTotalOrder(t, floor, Tip(t), p);
      forall c | c in t'.candidates ensures !Less(t', c, Tip(t')) {
        ComparatorIsStrictTotalOrder(t, c, Tip(t), p);
      }
      forall b | Usable(t', b) && !Less(t', b, floor) ensures b in t'.candidates { assert Usable(t, b); }
    }
  }

  /** The floor after the tip has moved up to b. */
  ghost function Raised(t: Tree, floor: BlockId, b: BlockId): BlockId
    requires Shape(t) && floor in t.headers && b in t.headers
  {
    if Less(t, floor, b) then b else floor
  }

  /** The block b just above the tip has been connected, and what sorts lower was pruned. */
  ghost predicate Connected(t: Tree, t': Tree, b: BlockId)
    requires Shape(t)
  {
    && b in t.headers && b != t.genesis && Parent(t, b) == Tip(t)
    && t' == t.(status := t.status[b := t.status[b].(validity := VALID_SCRIPTS, haveUndo := true)],
                vChain := PathOf(t, b), candidates := t'.candidates)
    && t'.candidates == set c | c in t.candidates && c in t.headers && !Less(t, c, b)
  }

  lemma ConnectKeepsEntries(t: Tree, t': Tree, ok: BlockId -> bool, b: BlockId)
    requires Shape(t) && EntriesOk(t) && UnlinkedOk(t, {}) && ActiveOk(t, ok)
    requires Connected(t, t', b) && t.status[b].nChainTx > 0 && !t.status[b].Failed()
    ensures Shape(t') && EntriesOk(t') && UnlinkedOk(t', {})
  {
    assert t'.vChain == t.vChain + [b];
    forall x | x in t'.headers ensures EntryOk(t', x) {
      assert EntryOk(t, x);
      if x != t.genesis {
        assert Parent(t', x) == Parent(t, x);
      }
      if x == b {
        assert Tip(t) in t.vChain;
        assert ActiveBlockOk(t, ok, Tip(t));
      }
    }
    forall q | q in t'.unlinked
      ensures forall x {:trigger x in t'.unlinked[q]} :: x in t'.unlinked[q] ==> UnlinkedPairOk(t', {}, q, x)
    {
      forall x | x in t'.unlinked[q] ensures UnlinkedPairOk(t', {}, q, x) { assert UnlinkedPairOk(t, {}, q, x); }
    }
  }

  lemma ConnectKeepsView(t: Tree, t': Tree, x: BlockId)
    requires Shape(t) && Shape(t') && x in t.headers && t'.headers == t.headers && t'.genesis == t.genesis
    requires t'.status.Keys == t.status.Keys
    requires forall y :: y in t.status ==> t'.status[y].failedValid == t.status[y].failedValid
    ensures PathOf(t', x) == PathOf(t, x) && (OnFailedPath(t', x) <==> OnFailedPath(t, x))
  {}

  lemma ConnectKeepsCandidates(t: Tree, t': Tree, ok: BlockId -> bool, floor: BlockId, b: BlockId)
    requires Shape(t) && Shape(t') && CandidatesOk(t, floor)
    requires Connected(t, t', b) && ActiveOk(t', ok)
    ensures CandidatesOk(t', Raised(t, floor, b))
  {
    var floor' := Raised(t, floor, b);
    assert Tip(t') == b && b in t'.vChain;
    ActiveIsUsable(t', ok, b);
    ConnectKeepsView(t, t', floor);
    assert Usable(t', floor');
    ComparatorIsStrictTotalOrder(t, floor, b, b);
    forall x | Usable(t', x) && !Less(t', x, floor') ensures x in t'.candidates {
      ConnectKeepsView(t, t', x);
      assert Usable(t, x);
      ComparatorIsStrictTotalOrder(t, x, floor', floor);
      ComparatorIsStrictTotalOrder(t, x, floor', b);
    }
  }

  /** Connecting an unflagged linked child of the tip and pruning what sorts lower. */
  lemma ConnectPreserves(t: Tree, t': Tree, ok: BlockId -> bool, floor: BlockId, b: BlockId)
    requires Inv(t, ok, floor) && Connected(t, t', b)
    requires ok(b) && t.status[b].nChainTx > 0 && !t.status[b].Failed()
    ensures Inv(t', ok, Raised(t, floor, b)) && Tip(t') == b
  {
    ConnectKeepsEntries(t, t', ok, b);
    assert t'.vChain == t.vChain + [b];
    ConnectedIsActive(t, t', ok, b);
    ConnectKeepsCandidates(t, t', ok, floor, b);
    assert FlagsOk(t') by {
      forall x | x in t'.headers && t'.status[x].Failed() ensures OnFailedPath(t', x) {
        assert OnFailedPath(t, x);
        ConnectKeepsView(t, t', x);
      }
    }
    assert AllOk(ok, PathOf(t', b)) by {
      forall x | x in PathOf(t', b) ensures ok(x) {
        assert x in t'.vChain;
        assert ActiveBlockOk(t', ok, x);
      }
    }
    ConnectKeepsView(t, t', floor);
  }

  lemma ConnectedIsActive(t: Tree, t': Tree, ok: BlockId -> bool, b: BlockId)
    requires Shape(t) && ActiveOk(t, ok) && b in t.headers && b != t.genesis
    requires t'.genesis == t.genesis && t'.vChain == t.vChain + [b]
    requires t'.status == t.status[b := t.status[b].(validity := VALID_SCRIPTS, haveUndo := true)]
    requires ok(b) && t.status[b].nChainTx > 0 && !t.status[b].Failed()
    ensures ActiveOk(t', ok)
  {
    forall x | x in t'.vChain ensures ActiveBlockOk(t', ok, x) {
      if x != b {
        assert x in t.vChain;
        assert ActiveBlockOk(t, ok, x);
      }
    }
  }

  // ----- Block data arrives -----

  /** Only counts, sequence ids, validity and data marks differ. */
  ghost predicate SameFlags(t: Tree, t': Tree)
  {
    && t'.genesis == t.genesis && t'.headers == t.headers && t'.vChain == t.vChain
    && t'.status.Keys == t.status.Keys
    && forall b {:trigger t'.status[b]} :: b in t.status ==>
        t'.status[b].failedValid == t.status[b].failedValid && t'.status[b].failedChild == t.status[b].failedChild
  }

  lemma SameFlagsView(t: Tree, t': Tree, x: BlockId)
    requires Shape(t) && Shape(t') && SameFlags(t, t') && x in t.headers
    ensures PathOf(t', x) == PathOf(t, x) && (OnFailedPath(t', x) <==> OnFailedPath(t, x))
  {
    assert forall y :: y in t.status ==> t'.status[y].failedValid == t.status[y].failedValid;
    ConnectKeepsView(t, t', x);
  }

  lemma SameFlagsKeepFlagsOk(t: Tree, t': Tree)
    requires Shape(t) && Shape(t') && SameFlags(t, t') && FlagsOk(t)
    ensures FlagsOk(t')
  {
    forall x | x in t'.headers && t'.status[x].Failed() ensures OnFailedPath(t', x) {
      assert OnFailedPath(t, x);
      SameFlagsView(t, t', x);
    }
  }

  lemma SameActive(t: Tree, t': Tree, ok: BlockId -> bool)
    requires ActiveOk(t, ok) && t'.vChain == t.vChain && t'.genesis == t.genesis
    requires forall b {:trigger b in t.vChain} :: b in t.vChain && b in t.status ==>
             b in t'.status && t'.status[b] == t.status[b]
    ensures ActiveOk(t', ok)
  {
    forall x | x in t'.vChain ensures ActiveBlockOk(t', ok, x) { assert ActiveBlockOk(t, ok, x); }
  }

  /** Only the statuses of unlinked blocks differ, and they stay unlinked. */
  lemma SameCandidates(t: Tree, t': Tree, ok: BlockId -> bool, floor: BlockId)
    requires Shape(t) && Shape(t') && SameFlags(t, t') && ActiveOk(t, ok) && CandidatesOk(t, floor)
    requires t'.candidates == t.candidates
    requires forall b {:trigger t'.status[b]} ::
               b in t.status && (t.status[b].nChainTx > 0 || t'.status[b].nChainTx > 0) ==>
               t'.status[b].nChainTx == t.status[b].nChainTx && t'.status[b].nSequenceId == t.status[b].nSequenceId
    ensures CandidatesOk(t', floor)
  {
    assert Tip(t) in t.vChain;
    assert ActiveBlockOk(t, ok, Tip(t));
    assert t'.status[Tip(t)].nSequenceId == t.status[Tip(t)].nSequenceId;
    SameFlagsView(t, t', floor);
    assert t'.status[floor].nSequenceId == t.status[floor].nSequenceId;
    forall c | c in t'.candidates ensures c in t'.headers && t'.status[c].nChainTx > 0 && !Less(t', c, Tip(t')) {
      assert c in t.candidates;
      assert t'.status[c].nSequenceId == t.status[c].nSequenceId;
    }
    forall x | Usable(t', x) && !Less(t', x, floor) ensures x in t'.candidates {
      SameFlagsView(t, t', x);
      assert t'.status[x].nSequenceId == t.status[x].nSequenceId;
      assert Usable(t, x);
    }
  }

  /** The entry b after its data arrived: nTx set, nChainTx still 0, validity raised. */
  ghost predicate DataReceived(t: Tree, t': Tree, b: BlockId, nTx: nat)
    requires Shape(t)
  {
    && b in t.headers && b != t.genesis && nTx > 0 && !t.status[b].haveData && !t.status[b].Failed()
    && t' == t.(status := t.status[b := t.status[b].(nTx := nTx, nChainTx := 0, haveData := true,
                                                     validity := VALID_TRANSACTIONS)],
                unlinked := t'.unlinked)
  }

  lemma DataKeepsRest(t: Tree, t': Tree, ok: BlockId -> bool, floor: BlockId, b: BlockId, nTx: nat)
    requires Inv(t, ok, floor) && DataReceived(t, t', b, nTx)
    ensures Shape(t') && FlagsOk(t') && ActiveOk(t', ok) && CandidatesOk(t', floor)
    ensures AllOk(ok, PathOf(t', floor))
  {
    assert EntryOk(t, b);
    SameFlagsKeepFlagsOk(t, t');
    assert b in t.vChain ==> ActiveBlockOk(t, ok, b);
    SameActive(t, t', ok);
    SameCandidates(t, t', ok, floor);
    SameFlagsView(t, t', floor);
  }

  lemma DataKeepsEntries(t: Tree, t': Tree, b: BlockId, nTx: nat)
    requires Shape(t) && EntriesOk(t) && DataReceived(t, t', b, nTx) && Shape(t')
    ensures EntriesOk(t')
  {
    assert EntryOk(t, b);
    forall x | x in t'.headers ensures EntryOk(t', x) {
      assert EntryOk(t, x);
      if x != t.genesis { assert Parent(t', x) == Parent(t, x); }
    }
  }

  /** Data below a linked parent: the block waits in the linking queue. */
  lemma DataQueued(t: Tree, t': Tree, ok: BlockId -> bool, floor: BlockId, b: BlockId, nTx: nat)
    requires Inv(t, ok, floor) && DataReceived(t, t', b, nTx) && t'.unlinked == t.unlinked
    requires t.status[Parent(t, b)].nChainTx > 0
    ensures PendingInv(t', ok, floor, {b})
  {
    DataKeepsRest(t, t', ok, floor, b, nTx);
    assert EntryOk(t, b);
    DataKeepsEntries(t, t', b, nTx);
    forall q | q in t'.unlinked
      ensures forall x {:trigger x in t'.unlinked[q]} :: x in t'.unlinked[q] ==> UnlinkedPairOk(t', {b}, q, x)
    {
      forall x | x in t'.unlinked[q] ensures UnlinkedPairOk(t', {b}, q, x) { assert UnlinkedPairOk(t, {}, q, x); }
    }
    assert Parent(t', b) == Parent(t, b);
  }

  lemma RegisterKeepsUnlinked(t: Tree, t': Tree, b: BlockId, nTx: nat)
    requires Shape(t) && UnlinkedOk(t, {}) && DataReceived(t, t', b, nTx) && t.status[b].nChainTx == 0
    requires var p := Parent(t, b);
             || t'.unlinked == t.unlinked
             || t'.unlinked == t.unlinked[p := (if p in t.unlinked then t.unlinked[p] else []) + [b]]
    ensures UnlinkedOk(t', {})
    ensures forall p, x :: InUnlinked(t, p, x) ==> InUnlinked(t', p, x)
    ensures t'.unlinked != t.unlinked ==> InUnlinked(t', Parent(t, b), b)
  {
    forall q, x | InUnlinked(t, q, x) ensures UnlinkedPairOk(t', {}, q, x) && x != b && InUnlinked(t', q, x) {
      assert x in t.unlinked[q];
      assert UnlinkedPairOk(t, {}, q, x);
    }
    forall q | q in t'.unlinked
      ensures NoDuplicates(t'.unlinked[q])
      ensures forall x {:trigger x in t'.unlinked[q]} :: x in t'.unlinked[q] ==> UnlinkedPairOk(t', {}, q, x)
    {
      forall x | x in t'.unlinked[q] ensures UnlinkedPairOk(t', {}, q, x) {
        assert x == b || InUnlinked(t, q, x);
      }
      if q in t.unlinked {
        assert NoDuplicates(t.unlinked[q]) && !InUnlinked(t, q, b);
      }
    }
  }

  /** Data below an unlinked parent: registered in mapBlocksUnlinked unless the parent is flagged. */
  lemma DataRegistered(t: Tree, t': Tree, ok: BlockId -> bool, floor: BlockId, b: BlockId, nTx: nat)
    requires Inv(t, ok, floor) && DataReceived(t, t', b, nTx)
    requires t.status[Parent(t, b)].nChainTx == 0
    requires var p := Parent(t, b);
             t'.unlinked == if t.status[p].Failed() then t.unlinked
                            else t.unlinked[p := (if p in t.unlinked then t.unlinked[p] else []) + [b]]
    ensures Inv(t', ok, floor)
  {
    DataKeepsRest(t, t', ok, floor, b, nTx);
    assert EntryOk(t, b);
    RegisterKeepsUnlinked(t, t', b, nTx);
    DataKeepsEntries(t, t', b, nTx);
  }

  /** Linking the queued block x: it gets its counts and its place among the candidates, and the
      blocks that waited for it move from mapBlocksUnlinked to the queue. */
  ghost predicate LinkedUp(t: Tree, t': Tree, x: BlockId, kids: seq<BlockId>)
    requires Shape(t)
  {
    && PendingOk(t, x)
    && kids == (if x in t.unlinked then t.unlinked[x] else [])
    && t' == t.(
        status := t.status[x := t.status[x].(
          nChainTx := t.status[Parent(t, x)].nChainTx + t.status[x].nTx, nSequenceId := t.nextSequenceId)],
        nextSequenceId := t.nextSequenceId + 1,
        candidates := t'.candidates,
        unlinked := t'.unlinked)
    && t'.unlinked == map q | q in t.unlinked && q != x :: t.unlinked[q]
  }

  ghost function Requeued(pending: set<BlockId>, x: BlockId, kids: seq<BlockId>): set<BlockId> {
    (pending - {x}) + set c | c in kids
  }

  lemma LinkKeepsEntries(t: Tree, t': Tree, x: BlockId, kids: seq<BlockId>)
    requires Shape(t) && EntriesOk(t) && LinkedUp(t, t', x, kids)
    ensures Shape(t') && EntriesOk(t')
  {
    assert EntryOk(t, x);
    forall b | b in t'.headers ensures EntryOk(t', b) {
      assert EntryOk(t, b);
      if b != t.genesis {
        assert Parent(t', b) == Parent(t, b);
        assert EntryOk(t, Parent(t, b));
      }
    }
  }

  lemma LinkKeepsUnlinked(t: Tree, t': Tree, pending: set<BlockId>, x: BlockId, kids: seq<BlockId>)
    requires Shape(t) && UnlinkedOk(t, pending) && LinkedUp(t, t', x, kids) && x in pending
    ensures UnlinkedOk(t', Requeued(pending, x, kids))
  {
    var pending' := Requeued(pending, x, kids);
    forall q | q in t'.unlinked
      ensures NoDuplicates(t'.unlinked[q])
      ensures forall b {:trigger b in t'.unlinked[q]} :: b in t'.unlinked[q] ==> UnlinkedPairOk(t', pending', q, b)
    {
      assert t'.unlinked[q] == t.unlinked[q];
      forall b | b in t'.unlinked[q] ensures UnlinkedPairOk(t', pending', q, b) {
        assert UnlinkedPairOk(t, pending, q, b);
        if b in kids { assert UnlinkedPairOk(t, pending, x, b); }
      }
    }
  }

  /** The new candidate changes nobody else's place in the order. */
  lemma LinkKeepsOrder(t: Tree, t': Tree, x: BlockId, kids: seq<BlockId>, a: BlockId, b: BlockId)
    requires Shape(t) && Shape(t') && LinkedUp(t, t', x, kids)
    requires a in t.headers && b in t.headers && t.status[a].nChainTx > 0 && t.status[b].nChainTx > 0
    ensures Less(t', a, b) == Less(t, a, b)
    ensures t'.status[a] == t.status[a]
  {}

  lemma LinkKeepsCandidates(t: Tree, t': Tree, ok: BlockId -> bool, floor: BlockId, x: BlockId, kids: seq<BlockId>)
    requires Shape(t) && Shape(t') && CandidatesOk(t, floor) && LinkedUp(t, t', x, kids) && ActiveOk(t, ok)
    requires t'.candidates == if Less(t', x, Tip(t)) then t.candidates else t.candidates + {x}
    requires t'.status[x].nChainTx > 0
    ensures CandidatesOk(t', floor)
  {
    hide SkipsBuilt, WellFormed;
    assert Tip(t) in t.vChain;
    assert ActiveBlockOk(t, ok, Tip(t));
    assert SameFlags(t, t');
    SameFlagsView(t, t', floor);
    LinkKeepsOrder(t, t', x, kids, floor, Tip(t));
    forall c | c in t'.candidates ensures c in t'.headers && t'.status[c].nChainTx > 0 && !Less(t', c, Tip(t')) {
      if c in t.candidates { LinkKeepsOrder(t, t', x, kids, c, Tip(t)); }
    }
    forall b | Usable(t', b) && !Less(t', b, floor) ensures b in t'.candidates {
      SameFlagsView(t, t', b);
      if b != x {
        assert Usable(t, b);
        LinkKeepsOrder(t, t', x, kids, b, floor);
      } else {
        ComparatorIsStrictTotalOrder(t', x, floor, Tip(t));
      }
    }
  }

  lemma LinkPreserves(t: Tree, t': Tree, ok: BlockId -> bool, floor: BlockId,
                      pending: set<BlockId>, x: BlockId, kids: seq<BlockId>)
    requires PendingInv(t, ok, floor, pending) && x in pending && LinkedUp(t, t', x, kids)
    requires t.status.Keys == t'.status.Keys && Shape(t')
    requires t'.candidates == if Less(t', x, Tip(t)) then t.candidates else t.candidates + {x}
    ensures PendingInv(t', ok, floor, Requeued(pending, x, kids))
  {
    var pending' := Requeued(pending, x, kids);
    assert SameFlags(t, t');
    assert EntryOk(t, x);
    assert x in t.vChain ==> ActiveBlockOk(t, ok, x);
    LinkKeepsEntries(t, t', x, kids);
    LinkKeepsUnlinked(t, t', pending, x, kids);
    LinkKeepsCandidates(t, t', ok, floor, x, kids);
    SameFlagsKeepFlagsOk(t, t');
    SameActive(t, t', ok);
    SameFlagsView(t, t', floor);
    forall q | q in pending' ensures PendingOk(t', q) {
      if q in kids {
        assert UnlinkedPairOk(t, pending, x, q);
      } else {
        assert PendingOk(t, q);
      }
      assert Parent(t', q) == Parent(t, q);
    }
  }
}
