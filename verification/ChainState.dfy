/** The best-chain state machine of src/main.cpp over the block tree, updated in place. */
module ChainState {
  import opened Options
  import opened BlockIndex
  import opened ActiveChain
  import opened BlockTree
  import opened BlockTreeSteps
  import opened BestChain
  import opened Tracking
  import opened Invalidation

  const MIN_BLOCKS_TO_KEEP := 720

  datatype HeaderResult = Known | Added | MarkedInvalid | BadHeader | PrevNotFound | PrevInvalid

  /** A call under cs_main; block proofs and transaction counts are positive, so they are given less one. */
  datatype Operation =
    | ReceiveHeader(id: BlockId, hashPrev: BlockId, proof: nat, headerOk: bool, contextOk: bool)
    | ReceiveBlock(id: BlockId, hashPrev: BlockId, proof: nat, headerOk: bool, contextOk: bool,
                   requested: bool, check: BlockCheck, nTx: nat)
    | ActivationTurn
    | Activate
    | Invalidate(b: BlockId)

  /** What CheckBlock and ContextualCheckBlock report about a block's contents. */
  datatype BlockCheck = Passed | Invalid | PossiblyCorrupt

  // ----- Acceptance -----

  /** The rules of AcceptBlockHeader, in order. */
  ghost function HeaderOutcome(t: Tree, id: BlockId, hashPrev: BlockId, headerOk: bool, contextOk: bool): HeaderResult
    requires t.status.Keys == t.headers.Keys
  {
    if id in t.headers then (if t.status[id].Failed() then MarkedInvalid else Known)
    else if !headerOk then BadHeader
    else if hashPrev !in t.headers then PrevNotFound
    else if t.status[hashPrev].Failed() then PrevInvalid
    else if !contextOk then BadHeader
    else Added
  }

  /** AddToBlockIndex: one entry more, with no data, one above its parent and with the added work. */
  ghost predicate HeaderAppended(t: Tree, t': Tree, id: BlockId, hashPrev: BlockId, proof: nat) {
    && id !in t.headers && id in t'.headers && hashPrev in t.headers
    && t' == t.(headers := t.headers[id := t'.headers[id]], status := t.status[id := FRESH_STATUS])
    && t'.headers[id].pprev == Some(hashPrev) && t'.headers[id].nHeight == t.headers[hashPrev].nHeight + 1
    && t'.headers[id].nChainWork == t.headers[hashPrev].nChainWork + proof
  }

  /** Refused with its header, known or unwanted, failed its checks for good, or taken. */
  datatype DataResult = Refused | Ignored | MarkedFailed | Stored

  /** What AcceptBlock does with the data of a block whose header had the outcome r. */
  ghost function DataOutcome(t: Tree, r: HeaderResult, id: BlockId, requested: bool, check: BlockCheck): DataResult
    requires t.status.Keys == t.headers.Keys && t.vChain != [] && Tip(t) in t.headers
    requires r == Known || r == Added ==> id in t.headers
  {
    if r != Known && r != Added then Refused
    else if t.status[id].haveData then Ignored
    else if !requested && (t.headers[id].nChainWork <= t.headers[Tip(t)].nChainWork ||
                           t.headers[id].nHeight > |t.vChain| - 1 + MIN_BLOCKS_TO_KEEP) then Ignored
    else if check == Invalid then MarkedFailed
    else if check == PossiblyCorrupt then Refused
    else Stored
  }

  /** A block's data is taken exactly if its header stands, it is not held yet, its contents pass, and it was
      asked for or has more work than the tip and is at most 720 blocks above it. */
  lemma TakenIff(t: Tree, id: BlockId, hashPrev: BlockId, headerOk: bool, contextOk: bool, requested: bool,
                 check: BlockCheck)
    requires t.status.Keys == t.headers.Keys && t.vChain != [] && Tip(t) in t.headers && id in t.headers
    ensures var r := HeaderOutcome(t, id, hashPrev, headerOk, contextOk);
            var wanted := requested || (t.headers[id].nChainWork > t.headers[Tip(t)].nChainWork &&
                                        t.headers[id].nHeight < |t.vChain| + 720);
            var failed := t.status[id].failedValid || t.status[id].failedChild;
            && (DataOutcome(t, r, id, requested, check) == Stored <==>
                  !failed && !t.status[id].haveData && wanted && check == Passed)
            && (DataOutcome(t, r, id, requested, check) == MarkedFailed <==>
                  !failed && !t.status[id].haveData && wanted && check == Invalid)
            && (DataOutcome(t, r, id, requested, check) == Refused <==>
                  failed || (!t.status[id].haveData && wanted && check == PossiblyCorrupt))
  {
  }

  /** A header is added exactly if it is not known, passes its checks, and hangs below a known block that is
      not marked failed. */
  lemma HeaderAddedIff(t: Tree, id: BlockId, hashPrev: BlockId, headerOk: bool, contextOk: bool)
    requires t.status.Keys == t.headers.Keys
    ensures HeaderOutcome(t, id, hashPrev, headerOk, contextOk) == Added <==>
            && id !in t.headers && headerOk && contextOk && hashPrev in t.headers
            && !t.status[hashPrev].failedValid && !t.status[hashPrev].failedChild
    ensures HeaderOutcome(t, id, hashPrev, headerOk, contextOk) == Known <==>
            id in t.headers && !t.status[id].failedValid && !t.status[id].failedChild
  {
  }

  lemma AcceptFacts(t: Tree, ok: BlockId -> bool, floor: BlockId, id: BlockId)
    requires Inv(t, ok, floor) && id in t.headers
    ensures Shape(t) && Tip(t) in t.headers
    ensures !t.status[id].haveData ==> id != t.genesis && t.status[id].nTx == 0
  {
    assert EntryOk(t, id);
  }

  // ----- Linking -----

  function WithData(s: Status, nTx: nat): Status {
    s.(nTx := nTx, nChainTx := 0, haveData := true, validity := VALID_TRANSACTIONS)
  }

  /** x stands in mapBlocksUnlinked. */
  ghost predicate IsWaiting(t: Tree, x: BlockId)
  {
    exists p :: InUnlinked(t, p, x)
  }

  /** What linking once b has its data may change: unlinked entries get their counts and a new sequence
      id, and join the candidates or not; linked entries stay exactly as they are.  Only b and blocks
      that were waiting get linked, and only b may be new among those that wait. */
  ghost predicate LinkProgress(t: Tree, t': Tree, b: BlockId)
  {
    && t'.genesis == t.genesis && t'.headers == t.headers && t'.vChain == t.vChain
    && t'.status.Keys == t.status.Keys && t'.nextSequenceId >= t.nextSequenceId
    && t.candidates <= t'.candidates
    && (forall x {:trigger t'.status[x]} :: x in t.status ==>
         EntryLinkProgress(t.status[x], t'.status[x], t.nextSequenceId, t'.nextSequenceId))
    && (forall c {:trigger c in t'.candidates} :: c in t'.candidates && c !in t.candidates ==>
         c in t.status && t.status[c].nChainTx == 0)
    && (forall x {:trigger t'.status[x]} :: x in t.status && t'.status[x] != t.status[x] ==> x == b || IsWaiting(t, x))
    && (forall x {:trigger IsWaiting(t', x)} :: IsWaiting(t', x) ==> x == b || IsWaiting(t, x))
  }

  /** b's data has been taken.  Below a linked parent b is linked, and whatever waited for it; else it is
      entered in mapBlocksUnlinked under its parent, unless that is marked failed. */
  ghost predicate Received(t: Tree, t': Tree, b: BlockId, nTx: nat)
  {
    && b in t.status && b in t.headers && t.headers[b].pprev.Some? && t.headers[b].pprev.value in t.status
    && LinkProgress(t.(status := t.status[b := WithData(t.status[b], nTx)]), t', b)
    && var p := t.headers[b].pprev.value;
       (t.status[p].nChainTx == 0 ==>
          t' == t.(status := t.status[b := WithData(t.status[b], nTx)],
                   unlinked := if t.status[p].Failed() then t.unlinked else t.unlinked[p := KidsOf(t, p) + [b]]))
  }

  ghost predicate EntryLinkProgress(s: Status, s': Status, from: nat, upTo: nat)
  {
    && s' == s.(nChainTx := s'.nChainTx, nSequenceId := s'.nSequenceId)
    && (s.nChainTx > 0 || s'.nChainTx == 0 ==> s' == s)
    && (s' == s || from <= s'.nSequenceId < upTo)
  }

  lemma LinkProgressTransitive(a: Tree, b: Tree, c: Tree, id: BlockId, x: BlockId)
    requires LinkProgress(a, b, id) && LinkProgress(b, c, x) && (x == id || IsWaiting(a, x))
    ensures LinkProgress(a, c, id)
  {
    forall x | x in a.status
      ensures EntryLinkProgress(a.status[x], c.status[x], a.nextSequenceId, c.nextSequenceId)
    {
      assert EntryLinkProgress(a.status[x], b.status[x], a.nextSequenceId, b.nextSequenceId);
    }
    forall x | x in c.candidates && x !in a.candidates ensures x in a.status && a.status[x].nChainTx == 0 {
      if x !in b.candidates {
        assert EntryLinkProgress(a.status[x], b.status[x], a.nextSequenceId, b.nextSequenceId);
      }
    }
    forall y | y in a.status && c.status[y] != a.status[y] ensures y == id || IsWaiting(a, y) {
      assert b.status[y] == a.status[y] || b.status[y] != a.status[y];
    }
  }

  ghost function KidsOf(t: Tree, x: BlockId): seq<BlockId> {
    if x in t.unlinked then t.unlinked[x] else []
  }

  /** The tree after the queued block x has been linked. */
  ghost function LinkStep(t: Tree, x: BlockId): Tree
    requires Shape(t) && PendingOk(t, x) && Tip(t) in t.headers
  {
    var status' := t.status[x := t.status[x].(
      nChainTx := t.status[Parent(t, x)].nChainTx + t.status[x].nTx, nSequenceId := t.nextSequenceId)];
    t.(status := status',
       nextSequenceId := t.nextSequenceId + 1,
       candidates := if SortsBefore(t.headers, status', x, Tip(t)) then t.candidates else t.candidates + {x},
       unlinked := if x in t.unlinked then t.unlinked - {x} else t.unlinked)
  }

  lemma LinkStepTracked(t: Tree, ok: BlockId -> bool, floor: BlockId, pending: set<BlockId>, x: BlockId)
    requires PendingInv(t, ok, floor, pending) && x in pending && Tracked(t, pending) && Guarded(t)
    ensures PendingOk(t, x) && Tip(t) in t.headers
    ensures Tracked(LinkStep(t, x), Requeued(pending, x, KidsOf(t, x))) && Guarded(LinkStep(t, x))
  {
    hide SkipsBuilt, WellFormed, IsPath, SortsBefore, EntryOk, UnlinkedPairOk;
    PendingFacts(t, ok, floor, pending, x);
    var t' := LinkStep(t, x);
    assert t'.unlinked == map q | q in t.unlinked && q != x :: t.unlinked[q];
    LinkKeepsTracked(t, t', pending, x, KidsOf(t, x));
    LinkKeepsGuarded(t, t', x, KidsOf(t, x));
  }

  lemma LinkStepPreserves(t: Tree, ok: BlockId -> bool, floor: BlockId, pending: set<BlockId>, x: BlockId)
    requires PendingInv(t, ok, floor, pending) && x in pending
    ensures PendingOk(t, x) && Tip(t) in t.headers
    ensures PendingInv(LinkStep(t, x), ok, floor, Requeued(pending, x, KidsOf(t, x)))
  {
    assert PendingOk(t, x);
    ChainStartsAtGenesis(t);
    var t' := LinkStep(t, x);
    assert t'.unlinked == map q | q in t.unlinked && q != x :: t.unlinked[q];
    LinkPreserves(t, t', ok, floor, pending, x, KidsOf(t, x));
  }

  lemma LinkStepProgress(t: Tree, x: BlockId)
    requires Shape(t) && PendingOk(t, x) && Tip(t) in t.headers
    ensures LinkProgress(t, LinkStep(t, x), x)
    ensures x in Unreceived(t) && Unreceived(LinkStep(t, x)) == Unreceived(t) - {x}
  {
    var t' := LinkStep(t, x);
    assert t'.status[x].nChainTx > 0;
    forall y | IsWaiting(t', y) ensures IsWaiting(t, y) {
      var p :| InUnlinked(t', p, y);
      assert InUnlinked(t, p, y);
    }
  }

  lemma PendingFacts(t: Tree, ok: BlockId -> bool, floor: BlockId, pending: set<BlockId>, x: BlockId)
    requires PendingInv(t, ok, floor, pending) && x in pending
    ensures Shape(t) && PendingOk(t, x) && Tip(t) in t.headers
  {
    ChainStartsAtGenesis(t);
  }

  lemma ReceiveFacts(t: Tree, ok: BlockId -> bool, floor: BlockId, b: BlockId)
    requires Inv(t, ok, floor) && b in t.headers && b != t.genesis
    ensures Shape(t) && Parent(t, b) in t.status && t.status[Parent(t, b)].validity >= VALID_TREE
    ensures !t.status[b].haveData ==> t.status[b].nChainTx == 0 && t.status[b].nSequenceId == 0
  {
    assert EntryOk(t, Parent(t, b));
    assert EntryOk(t, b);
  }

  ghost predicate QueueHolds(queue: seq<BlockId>, pending: set<BlockId>) {
    NoDuplicates(queue) && forall q :: q in queue <==> q in pending
  }

  lemma RequeueKeepsQueue(t: Tree, ok: BlockId -> bool, floor: BlockId, pending: set<BlockId>,
                          queue: seq<BlockId>, kids: seq<BlockId>)
    requires PendingInv(t, ok, floor, pending) && QueueHolds(queue, pending) && queue != []
    requires kids == KidsOf(t, queue[0])
    ensures QueueHolds(queue[1..] + kids, Requeued(pending, queue[0], kids))
  {
    var x := queue[0];
    var queue' := queue[1..] + kids;
    forall c | c in kids ensures c !in pending { assert UnlinkedPairOk(t, pending, x, c); }
    assert NoDuplicates(kids);
    assert queue == [x] + queue[1..];
    forall i, j | 0 <= i < j < |queue'| ensures queue'[i] != queue'[j] {
      if i < |queue| - 1 {
        assert queue'[i] == queue[i + 1] && queue[i + 1] in pending;
        if j < |queue| - 1 {
          assert queue'[j] == queue[j + 1];
        } else {
          assert queue'[j] in kids;
        }
      }
    }
    forall q ensures q in queue' <==> q in Requeued(pending, x, kids) {
      assert q in queue <==> q == x || q in queue[1..];
      if q in queue[1..] {
        var i :| 0 <= i < |queue| - 1 && queue[1..][i] == q;
        assert queue[i + 1] == q;
      }
    }
  }

  lemma KidsWaited(t0: Tree, t: Tree, b: BlockId, x: BlockId)
    requires LinkProgress(t0, t, b)
    ensures forall c :: c in KidsOf(t, x) ==> c == b || IsWaiting(t0, c)
  {
    hide EntryLinkProgress;
    forall c | c in KidsOf(t, x) ensures c == b || IsWaiting(t0, c) {
      assert InUnlinked(t, x, c);
      assert IsWaiting(t, c);
    }
  }

  lemma QueuedComplete(t: Tree, t': Tree, ok: BlockId -> bool, floor: BlockId, b: BlockId, nTx: nat)
    requires Inv(t, ok, floor) && DataReceived(t, t', b, nTx) && t'.unlinked == t.unlinked
    ensures Complete(t) ==> Tracked(t', {b}) && Guarded(t')
  {
    hide SkipsBuilt, WellFormed, IsPath, EntryOk, UnlinkedPairOk, Tracked, Guarded;
    if Complete(t) {
      DataQueuedTracked(t, t', b, nTx);
    }
  }

  lemma RegisteredComplete(t: Tree, t': Tree, ok: BlockId -> bool, floor: BlockId, b: BlockId, nTx: nat)
    requires Inv(t, ok, floor) && DataReceived(t, t', b, nTx)
    requires t.status[Parent(t, b)].nChainTx == 0
    requires var p := Parent(t, b);
             t'.unlinked == if t.status[p].Failed() then t.unlinked
                            else t.unlinked[p := (if p in t.unlinked then t.unlinked[p] else []) + [b]]
    ensures Complete(t) ==> Complete(t')
    ensures LinkProgress(t.(status := t'.status), t', b)
  {
    hide SkipsBuilt, WellFormed, IsPath, EntryOk, UnlinkedPairOk, Complete;
    if Complete(t) {
      DataRegisteredComplete(t, t', b, nTx);
    }
    forall x | IsWaiting(t', x) && x != b ensures IsWaiting(t.(status := t'.status), x) {
      var p :| InUnlinked(t', p, x);
      assert InUnlinked(t.(status := t'.status), p, x);
    }
  }

  lemma RejectKeepsComplete(t: Tree, t': Tree, ok: BlockId -> bool, floor: BlockId, b: BlockId)
    requires Inv(t, ok, floor) && b in t.headers && !t.status[b].haveData
    requires t' == t.(status := t.status[b := t.status[b].(failedValid := true)])
    ensures Complete(t) ==> Complete(t')
  {
    hide SkipsBuilt, WellFormed, IsPath, EntryOk, UnlinkedPairOk, Complete;
    assert OnlyFlagsAdded(t, t');
    if Complete(t) {
      FlagsKeepComplete(t, t');
    }
  }

  // ----- Facts the best-chain methods read off the invariant -----

  lemma CandidateFacts(t: Tree, ok: BlockId -> bool, floor: BlockId, m: BlockId)
    requires Inv(t, ok, floor) && m in t.candidates
    ensures Shape(t) && m in t.headers && t.status[m].nChainTx > 0
  {}

  lemma CandidatesFacts(t: Tree, ok: BlockId -> bool, floor: BlockId)
    requires Inv(t, ok, floor)
    ensures Shape(t) && floor in t.candidates && forall c :: c in t.candidates ==> c in t.headers && c in t.status
  {
    assert Usable(t, floor);
    ComparatorIsStrictTotalOrder(t, floor, floor, floor);
  }

  /** A block of a candidate's path outside the active chain is linked and holds data. */
  lemma WalkFacts(t: Tree, ok: BlockId -> bool, floor: BlockId, m: BlockId, k: nat)
    requires Inv(t, ok, floor) && m in t.headers && t.status[m].nChainTx > 0 && k <= t.headers[m].nHeight
    requires PathOf(t, m)[k] in t.headers && !InChain(t.headers, t.vChain, PathOf(t, m)[k])
    ensures var x := PathOf(t, m)[k];
            x !in t.vChain && x in t.status && t.status[x].nChainTx > 0 && t.status[x].haveData && k > 0
  {
    PathInTree(t, m, k);
    LinkedDownward(t, m, k);
    assert EntryOk(t, PathOf(t, m)[k]);
    ChainStartsAtGenesis(t);
    InChainIffMember(t.headers, t.genesis, t.vChain, PathOf(t, m)[k]);
  }

  lemma MostWorkFound(t: Tree, m: BlockId, c: BlockId)
    requires MostWork(t, c) && t.candidates <= t.headers.Keys == t.status.Keys
    requires IsLast(t.headers, t.status, t.candidates, m)
    ensures m == c && Shape(t) && m in t.headers && CleanPath(t, m)
  {
    MostWorkIsLast(t, c, m);
  }

  lemma FlaggedNotClean(t: Tree, m: BlockId, k: nat)
    requires Shape(t) && FlaggedAt(t, m, k)
    ensures !CleanPath(t, m)
  {}

  lemma WalkStart(t: Tree, m: BlockId)
    requires Shape(t) && m in t.headers
    ensures CleanAbove(t, m, t.headers[m].nHeight)
  {}

  lemma WalkStep(t: Tree, m: BlockId, k: nat)
    requires Shape(t) && m in t.candidates && m in t.headers && k <= t.headers[m].nHeight && CleanAbove(t, m, k)
    requires PathOf(t, m)[k] in t.status && PathOf(t, m)[k] !in t.vChain
    ensures t.status[PathOf(t, m)[k]].Failed() ==> FlaggedAt(t, m, k)
    ensures !t.status[PathOf(t, m)[k]].Failed() ==> CleanAbove(t, m, k - 1)
  {}

  lemma ReachedChain(t: Tree, ok: BlockId -> bool, floor: BlockId, m: BlockId, k: nat)
    requires Inv(t, ok, floor) && m in t.headers && k <= t.headers[m].nHeight && CleanAbove(t, m, k)
    requires PathOf(t, m)[k] in t.headers && InChain(t.headers, t.vChain, PathOf(t, m)[k])
    ensures CleanPath(t, m)
  {
    InChainIffMember(t.headers, t.genesis, t.vChain, PathOf(t, m)[k]);
    CleanDownToChain(t, ok, m, k);
  }

  /** b may be connected next: an unflagged linked child of the tip that no candidate filter removed. */
  ghost predicate Connectable(t: Tree, b: BlockId) {
    && Shape(t) && b in t.headers && b != t.genesis && Parent(t, b) == Tip(t)
    && t.status[b].nChainTx > 0 && !t.status[b].Failed()
    && exists c :: c in t.candidates && c in t.headers && !Less(t, c, b)
  }

  lemma InvShape(t: Tree, ok: BlockId -> bool, floor: BlockId)
    requires Inv(t, ok, floor)
    ensures Shape(t)
  {}

  lemma ConnectFacts(t: Tree, ok: BlockId -> bool, floor: BlockId, b: BlockId)
    requires Inv(t, ok, floor) && Connectable(t, b)
    ensures t.status[b].validity <= VALID_SCRIPTS && floor in t.headers
    ensures forall c :: c in t.candidates ==> c in t.headers && c in t.status
  {
    assert EntryOk(t, b);
  }

  /** Connecting b alone leaves the order as it was. */
  lemma ConnectKeepsOrder(t: Tree, t': Tree, floor: BlockId, b: BlockId)
    requires Shape(t) && Connectable(t, b)
    requires t' == t.(vChain := PathOf(t, b),
                      status := t.status[b := t.status[b].(validity := VALID_SCRIPTS, haveUndo := true)])
    ensures Tip(t') == b && Shape(t')
    ensures forall x, y :: x in t.headers && y in t.headers && x in t.status && y in t.status ==>
              SortsBefore(t'.headers, t'.status, x, y) == SortsBefore(t.headers, t.status, x, y)
  {}

  lemma PrunedIsConnected(t: Tree, t': Tree, b: BlockId)
    requires Shape(t) && Connectable(t, b) && t.candidates <= t.headers.Keys
    requires t' == t.(vChain := PathOf(t, b), candidates := t'.candidates,
                      status := t.status[b := t.status[b].(validity := VALID_SCRIPTS, haveUndo := true)])
    requires t'.candidates == set c | c in t.candidates && c in t'.headers && c in t'.status
             && !SortsBefore(t'.headers, t'.status, c, b)
    ensures Connected(t, t', b)
  {
    assert t'.candidates == set c | c in t.candidates && c in t.headers && !Less(t, c, b);
  }

  lemma DisconnectFacts(t: Tree, u: Tree, n: nat, f: nat)
    requires Shape(t) && Shape(u) && f < n <= |t.vChain| && u == t.(vChain := t.vChain[..n]) && Tip(u) != t.vChain[f]
    ensures Tip(u) in u.headers && Tip(u) != u.genesis && f < n - 1
    ensures PathOf(u, Parent(u, Tip(u))) == t.vChain[..n - 1]
  {
    hide SkipsBuilt;
    ChainStartsAtGenesis(u);
    assert f < n - 1;
    var tip := Tip(u);
    assert |PathOf(u, tip)| == n;
    assert PathOf(u, tip) == PathOf(u, Parent(u, tip)) + [tip];
    assert t.vChain[..n][..n - 1] == t.vChain[..n - 1];
  }

  lemma ForkReached(t: Tree, n: nat, f: nat)
    requires Shape(t) && f < n <= |t.vChain| && t.vChain[n - 1] == t.vChain[f]
    ensures n == f + 1
  {
    ChainStartsAtGenesis(t);
    PathInTree(t, Tip(t), n - 1);
    PathInTree(t, Tip(t), f);
  }

  /** The active chain is m's path up to height p, m is a candidate and its path is clean and linked. */
  ghost predicate Towards(t: Tree, m: BlockId, p: nat) {
    && Shape(t) && m in t.headers && m in t.candidates && t.status[m].nChainTx > 0 && p <= t.headers[m].nHeight
    && t.vChain == PathOf(t, m)[..p + 1] && CleanPath(t, m)
  }

  lemma TowardsNext(t: Tree, ok: BlockId -> bool, floor: BlockId, m: BlockId, p: nat)
    requires Inv(t, ok, floor) && Towards(t, m, p) && p < t.headers[m].nHeight
    ensures Connectable(t, PathOf(t, m)[p + 1])
  {
    hide UnlinkedPairOk, SkipsBuilt;
    var b := PathOf(t, m)[p + 1];
    PathStep(t.headers, t.genesis, m, p + 1);
    PathInTree(t, m, p + 1);
    LinkedDownward(t, m, p + 1);
    if p + 1 < t.headers[m].nHeight {
      PathWork(t.headers, t.genesis, m, p + 1);
    }
    assert !Less(t, m, b);
  }

  lemma TowardsConnected(t: Tree, t': Tree, m: BlockId, p: nat)
    requires Towards(t, m, p) && p < t.headers[m].nHeight && Connected(t, t', PathOf(t, m)[p + 1])
    ensures Towards(t', m, p + 1) && Tip(t') == PathOf(t, m)[p + 1]
  {
    hide SkipsBuilt, WellFormed;
    var b := PathOf(t, m)[p + 1];
    PathInTree(t, m, p + 1);
    if p + 1 < t.headers[m].nHeight {
      PathWork(t.headers, t.genesis, m, p + 1);
    }
    assert !Less(t, m, b);
    forall k | 0 <= k <= t.headers[m].nHeight
      ensures PathOf(t', m)[k] in t'.status && !t'.status[PathOf(t', m)[k]].Failed()
    {
      assert PathOf(t', m) == PathOf(t, m);
    }
  }

  /** Raising the floor never lowers it, and connecting and rejecting keep the order. */
  lemma RaisedNotLower(t: Tree, t': Tree, ok: BlockId -> bool, floor: BlockId, b: BlockId)
    requires Shape(t) && Shape(t') && floor in t.headers && b in t.headers && Progress(t, t', ok)
    ensures Raised(t, floor, b) in t'.headers && !Less(t', Raised(t, floor, b), floor)
  {
    ProgressKeepsOrder(t, t', ok, floor, b);
    ProgressKeepsOrder(t, t', ok, b, floor);
  }

  lemma NotLowerTransitive(t: Tree, t': Tree, ok: BlockId -> bool, a: BlockId, b: BlockId, c: BlockId)
    requires Shape(t) && Shape(t') && Progress(t, t', ok) && a in t.headers && b in t.headers && c in t.headers
    requires !Less(t, b, a) && !Less(t', c, b)
    ensures !Less(t', c, a)
  {
    ProgressKeepsOrder(t, t', ok, b, a);
    ComparatorIsStrictTotalOrder(t', c, b, a);
  }

  /** What the connecting part of a step has achieved so far; it puts no candidate below the floor. */
  ghost predicate Advanced(t0: Tree, t: Tree, ok: BlockId -> bool, floor0: BlockId, floor: BlockId)
  {
    && Shape(t0) && Shape(t) && Progress(t0, t, ok) && floor0 in t.headers && floor in t.headers
    && !Less(t, floor, floor0) && (NoneBelowFloor(t0, floor0) ==> NoneBelowFloor(t, floor))
  }

  /** Dropping candidates puts none below the floor. */
  lemma ProgressKeepsNoneBelow(t: Tree, t': Tree, ok: BlockId -> bool, floor: BlockId)
    requires Shape(t) && Shape(t') && Progress(t, t', ok) && floor in t.headers
    ensures NoneBelowFloor(t, floor) ==> NoneBelowFloor(t', floor)
  {
    hide SortsBefore, SkipsBuilt, WellFormed;
    if NoneBelowFloor(t, floor) {
      forall c | c in t'.candidates && c in t'.headers ensures !Less(t', c, floor) {
        ProgressKeepsOrder(t, t', ok, c, floor);
      }
    }
  }

  /** Nor does connecting a block and pruning what sorts below it. */
  lemma ConnectedNoneBelow(t: Tree, t': Tree, ok: BlockId -> bool, floor: BlockId, b: BlockId)
    requires Shape(t) && Shape(t') && Connected(t, t', b) && floor in t.headers && NoneBelowFloor(t, floor)
    ensures Raised(t, floor, b) in t'.headers && NoneBelowFloor(t', Raised(t, floor, b))
  {
    hide SortsBefore, SkipsBuilt, WellFormed;
    ConnectedProgress(t, t', ok, b);
    forall c | c in t'.candidates && c in t'.headers ensures !Less(t', c, Raised(t, floor, b)) {
      ProgressKeepsOrder(t, t', ok, c, floor);
      ProgressKeepsOrder(t, t', ok, c, b);
    }
  }

  /** At rest no candidate sorts below the tip. */
  lemma AtRestNoneBelow(t: Tree, ok: BlockId -> bool)
    requires AtRest(t, ok)
    ensures Tip(t) in t.headers && NoneBelowFloor(t, Tip(t))
  {
    ChainStartsAtGenesis(t);
  }

  lemma AdvancedByConnecting(t0: Tree, t: Tree, t': Tree, ok: BlockId -> bool, floor0: BlockId, floor: BlockId,
                             b: BlockId)
    requires Advanced(t0, t, ok, floor0, floor) && Shape(t') && Connected(t, t', b)
    ensures Advanced(t0, t', ok, floor0, Raised(t, floor, b))
  {
    hide SortsBefore, SkipsBuilt, WellFormed;
    ConnectedProgress(t, t', ok, b);
    ProgressTransitive(t0, t, t', ok);
    RaisedNotLower(t, t', ok, floor, b);
    NotLowerTransitive(t, t', ok, floor0, floor, Raised(t, floor, b));
    if NoneBelowFloor(t, floor) {
      ConnectedNoneBelow(t, t', ok, floor, b);
    }
  }

  lemma AdvancedByRejecting(t0: Tree, t: Tree, ok: BlockId -> bool, floor0: BlockId, floor: BlockId, b: BlockId)
    requires Advanced(t0, t, ok, floor0, floor) && b in t.headers && !ok(b) && !t.status[b].failedValid
    requires t.status[b].nChainTx > 0 && Shape(Rejected(t, b))
    ensures Advanced(t0, Rejected(t, b), ok, floor0, floor)
    ensures NotFailed(Rejected(t, b)) < NotFailed(t0)
  {
    RejectedProgress(t, ok, b);
    ProgressTransitive(t0, t, Rejected(t, b), ok);
    ProgressKeepsOrder(t, Rejected(t, b), ok, floor, floor0);
    ProgressKeepsNoneBelow(t, Rejected(t, b), ok, floor);
    ProgressShrinksNotFailed(t0, t, ok);
  }

  lemma AdvancedStart(t: Tree, ok: BlockId -> bool, floor: BlockId)
    requires Inv(t, ok, floor)
    ensures Advanced(t, t, ok, floor, floor)
  {}

  lemma TowardsPath(t0: Tree, t: Tree, m: BlockId, p0: nat, p: nat)
    requires Towards(t0, m, p0) && Towards(t, m, p) && t.headers == t0.headers && t.genesis == t0.genesis
    ensures m in t.headers && PathOf(t, m) == PathOf(t0, m)
  {}

  lemma TowardsTip(t: Tree, m: BlockId, p: nat)
    requires Towards(t, m, p)
    ensures Shape(t) && m in t.headers && Tip(t) in t.headers && m in t.candidates && p <= t.headers[m].nHeight
  {}

  lemma ConnectableFacts(t: Tree, b: BlockId)
    requires Connectable(t, b)
    ensures Shape(t) && b in t.headers && b in t.status && !t.status[b].failedValid && t.status[b].nChainTx > 0
  {}

  lemma RejectedShape(t: Tree, b: BlockId)
    requires Shape(t) && b in t.status
    ensures Shape(Rejected(t, b))
  {}

  lemma AdvancedTransitive(a: Tree, b: Tree, c: Tree, ok: BlockId -> bool, fa: BlockId, fb: BlockId, fc: BlockId)
    requires Advanced(a, b, ok, fa, fb) && Advanced(b, c, ok, fb, fc)
    ensures Advanced(a, c, ok, fa, fc)
  {
    hide SortsBefore, SkipsBuilt, WellFormed;
    ProgressTransitive(a, b, c, ok);
    NotLowerTransitive(b, c, ok, fa, fb, fc);
  }

  lemma AdvancedTip(a: Tree, b: Tree, ok: BlockId -> bool, fa: BlockId, fb: BlockId)
    requires Advanced(a, b, ok, fa, fb)
    ensures Shape(b) && Tip(b) in b.headers && b.headers == a.headers && b.genesis == a.genesis
  {}

  lemma AdvancedKeeps(a: Tree, b: Tree, ok: BlockId -> bool, fa: BlockId, fb: BlockId)
    requires Advanced(a, b, ok, fa, fb)
    ensures Shape(a) && Shape(b) && fa in a.headers && fb in b.headers
    ensures NoneBelowFloor(a, fa) ==> NoneBelowFloor(b, fb)
    ensures Complete(a) ==> Complete(b)
  {
    if Complete(a) {
      ProgressKeepsComplete(a, b, ok);
    }
  }

  lemma AdvancedShrinks(a: Tree, b: Tree, ok: BlockId -> bool, fa: BlockId, fb: BlockId)
    requires Advanced(a, b, ok, fa, fb)
    ensures NotFailed(b) <= NotFailed(a) && b.headers == a.headers
  {
    ProgressShrinksNotFailed(a, b, ok);
  }

  lemma TowardsArrived(t: Tree, m: BlockId, p: nat, oldWork: nat)
    requires Towards(t, m, p) && p == t.headers[m].nHeight
    ensures Arrived(t, m, oldWork)
  {}

  lemma GainedArrived(t: Tree, m: BlockId, oldWork: nat)
    requires Gained(t, m, oldWork)
    ensures Arrived(t, m, oldWork)
  {}

  /** After falling back to the fork, the chain is the beginning of m's path. */
  lemma AtFork(t: Tree, u: Tree, ok: BlockId -> bool, floor: BlockId, m: BlockId, f: nat)
    requires Inv(t, ok, floor) && Inv(u, ok, floor) && m in t.headers && m in t.candidates && CleanPath(t, m)
    requires f < |t.vChain| && u == t.(vChain := t.vChain[..f + 1])
             && IsForkHeight(t.headers, t.genesis, t.vChain, m, f)
    ensures Towards(u, m, f) && Advanced(t, u, ok, floor, floor)
  {
    hide EntryOk, UnlinkedPairOk, SortsBefore, SkipsBuilt;
    ChainStartsAtGenesis(t);
    SharedBlock(t.headers, t.genesis, Tip(t), m, f);
    assert PathOf(u, m) == PathOf(t, m);
    forall k | 0 <= k <= u.headers[m].nHeight
      ensures PathOf(u, m)[k] in u.status && !u.status[PathOf(u, m)[k]].Failed()
    {
      assert PathOf(t, m)[k] in t.status && !t.status[PathOf(t, m)[k]].Failed();
    }
    ComparatorIsStrictTotalOrder(u, floor, floor, floor);
  }

  lemma ProgressAdvances(t: Tree, u: Tree, ok: BlockId -> bool, floor: BlockId)
    requires Inv(t, ok, floor) && Inv(u, ok, floor) && Progress(t, u, ok)
    ensures Advanced(t, u, ok, floor, floor)
  {
    ProgressKeepsNoneBelow(t, u, ok, floor);
    ComparatorIsStrictTotalOrder(u, floor, floor, floor);
  }

  /** On the last candidate of an earlier moment of the same activation, the node is at rest. */
  lemma OnMostWork(u: Tree, t: Tree, ok: BlockId -> bool, floor0: BlockId, floor: BlockId, m: BlockId)
    requires Inv(u, ok, floor0) && m in u.headers && Inv(t, ok, floor) && Advanced(u, t, ok, floor0, floor)
             && Tip(t) == m
    requires forall c :: c in u.candidates && c in u.headers ==> !Less(u, m, c)
    ensures OnLast(t, ok, floor)
  {
    hide EntryOk, UnlinkedPairOk, SkipsBuilt, WellFormed, SortsBefore;
    forall c | c in t.candidates && c in t.headers ensures !Less(t, m, c) {
      ProgressKeepsOrder(u, t, ok, m, c);
    }
    CandidatesFacts(t, ok, floor);
    ComparatorIsStrictTotalOrder(t, floor, m, m);
  }

  lemma NotYetOnMostWork(t: Tree, u: Tree, t': Tree, ok: BlockId -> bool, floor: BlockId, floor': BlockId,
                         m: BlockId, fInvalidFound: bool)
    requires Shape(t) && Shape(u) && Advanced(t, u, ok, floor, floor) && Advanced(u, t', ok, floor, floor')
    requires u.vChain == t.vChain && Tip(t') != m && Tip(u) in u.headers
    requires if fInvalidFound then NotFailed(t') < NotFailed(u) else Arrived(t', m, u.headers[Tip(u)].nChainWork)
    ensures CloserToBest(t, t')
  {
    AdvancedShrinks(t, u, ok, floor, floor);
    AdvancedShrinks(u, t', ok, floor, floor');
  }

  /** At rest on the last candidate no usable block sorts above the tip. */
  lemma OnLastIsMaximal(t: Tree, ok: BlockId -> bool, floor: BlockId)
    requires OnLast(t, ok, floor)
    ensures Tip(t) in t.headers && Usable(t, Tip(t)) && forall c :: Usable(t, c) ==> !Less(t, Tip(t), c)
  {
    hide EntryOk, UnlinkedPairOk, SortsBefore, SkipsBuilt, WellFormed;
    ChainStartsAtGenesis(t);
    forall c | Usable(t, c) ensures !Less(t, Tip(t), c) {
      ComparatorIsStrictTotalOrder(t, Tip(t), c, c);
    }
  }

  /** The conclusion of ActivateBestChain. */
  lemma Rested(t0: Tree, t: Tree, ok: BlockId -> bool, floor0: BlockId, floor: BlockId)
    requires Inv(t0, ok, floor0) && OnLast(t, ok, floor) && Advanced(t0, t, ok, floor0, floor)
    ensures AtRest(t, ok) && floor == Tip(t)
    ensures Shape(t0) && IsBest(t0, ok, Tip(t)) && (Complete(t0) ==> Complete(t) && CheckBlockIndex(t))
    ensures Tip(t0) in t0.headers && !Less(t0, Tip(t), Tip(t0))
  {
    RestingOnBest(t0, t, ok);
    BestNotBelowTip(t0, ok, floor0, Tip(t));
    if Complete(t0) {
      ProgressKeepsComplete(t0, t, ok);
      CheckBlockIndexAtRest(t, ok);
    }
  }

  /** The tip has more work than the tip the step started from, and m is still a candidate. */
  ghost predicate Gained(t: Tree, m: BlockId, oldWork: nat) {
    Shape(t) && Tip(t) in t.headers && m in t.candidates && t.headers[Tip(t)].nChainWork > oldWork
  }

  ghost predicate Arrived(t: Tree, m: BlockId, oldWork: nat) {
    && Shape(t) && Tip(t) in t.headers && m in t.candidates
    && (Tip(t) == m || t.headers[Tip(t)].nChainWork > oldWork)
  }

  /** The chain fallen back to height f. */
  ghost function FallenBack(t: Tree, f: nat): Tree
    requires f < |t.vChain|
  {
    t.(vChain := t.vChain[..f + 1])
  }

  /** The block of m's path just above the fork with the active chain is refused. */
  ghost predicate RefusedAbove(t: Tree, ok: BlockId -> bool, m: BlockId, f: nat)
    requires Shape(t) && m in t.headers
  {
    && f < |t.vChain| && f < t.headers[m].nHeight && IsForkHeight(t.headers, t.genesis, t.vChain, m, f)
    && !ok(PathOf(t, m)[f + 1])
  }

  /** If so, all that happens is the fall back to the fork and the refusal. */
  ghost predicate EndsOnFork(t: Tree, t': Tree, ok: BlockId -> bool, m: BlockId)
  {
    Shape(t) && m in t.headers && forall f {:trigger RefusedAbove(t, ok, m, f)} :: RefusedAbove(t, ok, m, f) ==>
      PathOf(t, m)[f + 1] in t.status && t' == Rejected(FallenBack(t, f), PathOf(t, m)[f + 1])
  }

  /** The block of m's path above height p, which is next to be connected, is refused. */
  ghost predicate RefusesNext(t: Tree, ok: BlockId -> bool, m: BlockId, p: nat)
  {
    Shape(t) && m in t.headers && p < t.headers[m].nHeight && !ok(PathOf(t, m)[p + 1])
  }

  /** And its refusal is all that happened. */
  ghost predicate RejectedNext(t: Tree, t': Tree, m: BlockId, p: nat)
  {
    && Shape(t) && m in t.headers && p < t.headers[m].nHeight
    && PathOf(t, m)[p + 1] in t.status && t' == Rejected(t, PathOf(t, m)[p + 1])
  }

  lemma NothingAbove(t: Tree, ok: BlockId -> bool, m: BlockId, p: nat)
    requires Shape(t) && m in t.headers
    ensures p == t.headers[m].nHeight ==> !RefusesNext(t, ok, m, p)
  {}

  lemma RefusalEnds(t: Tree, u: Tree, t': Tree, ok: BlockId -> bool, m: BlockId, f: nat)
    requires Shape(t) && Shape(u) && m in t.headers && f < |t.vChain| && u == FallenBack(t, f)
    requires IsForkHeight(t.headers, t.genesis, t.vChain, m, f)
    requires RefusesNext(u, ok, m, f) ==> RejectedNext(u, t', m, f)
    ensures EndsOnFork(t, t', ok, m)
  {
    hide SkipsBuilt, WellFormed, IsPath;
    assert PathOf(u, m) == PathOf(t, m);
    forall g | RefusedAbove(t, ok, m, g)
      ensures PathOf(t, m)[g + 1] in t.status && t' == Rejected(FallenBack(t, g), PathOf(t, m)[g + 1])
    {
      ForkIsUnique(t.headers, t.genesis, t.vChain, m, f, g);
    }
  }

  /** At rest on the last candidate. */
  ghost predicate OnLast(t: Tree, ok: BlockId -> bool, floor: BlockId) {
    && AtRest(t, ok) && floor == Tip(t)
    && forall c {:trigger c in t.candidates} :: c in t.candidates && c in t.headers ==> !Less(t, Tip(t), c)
  }

  /** Another block has failed, or the tip has gained work: what makes ActivateBestChain terminate. */
  ghost predicate CloserToBest(t: Tree, t': Tree) {
    && t.vChain != [] && t'.vChain != [] && Tip(t) in t.headers && Tip(t') in t'.headers
    && (NotFailed(t') < NotFailed(t) ||
        (NotFailed(t') <= NotFailed(t) && t'.headers[Tip(t')].nChainWork > t.headers[Tip(t)].nChainWork))
  }

  lemma CloserFacts(t: Tree, t': Tree)
    requires CloserToBest(t, t')
    ensures t.vChain != [] && t'.vChain != [] && Tip(t) in t.headers && Tip(t') in t'.headers
    ensures NotFailed(t') < NotFailed(t) ||
            (NotFailed(t') <= NotFailed(t) && t'.headers[Tip(t')].nChainWork > t.headers[Tip(t)].nChainWork)
  {}

  /** Collect the blocks of m's path from height target down to just above nHeight. */
  method CollectToConnect(ghost t: Tree, h: Headers, m: BlockId, nHeight: nat, target: nat)
    returns (vpindexToConnect: seq<BlockId>)
    requires Shape(t) && h == t.headers && m in h && nHeight < target <= h[m].nHeight
    ensures |vpindexToConnect| == target - nHeight
    ensures forall i :: 0 <= i < target - nHeight ==> vpindexToConnect[i] == PathOf(t, m)[target - i]
  {
    hide SkipsBuilt, WellFormed;
    vpindexToConnect := [];
    var pindexIter := GetAncestor(h, t.genesis, m, target);
    ghost var k := target;
    PathInTree(t, m, target);
    while pindexIter.Some? && h[pindexIter.value].nHeight != nHeight
      invariant nHeight <= k <= target && pindexIter == Some(PathOf(t, m)[k])
      invariant pindexIter.value in h && h[pindexIter.value].nHeight == k
      invariant |vpindexToConnect| == target - k
      invariant forall i :: 0 <= i < target - k ==> vpindexToConnect[i] == PathOf(t, m)[target - i]
      decreases k
    {
      vpindexToConnect := vpindexToConnect + [pindexIter.value];
      var p := StepToParent(t, h, m, pindexIter.value, k);
      pindexIter := Some(p);
      k := k - 1;
    }
  }

  lemma AtRestIsInv(t: Tree, ok: BlockId -> bool)
    requires t.vChain != []
    ensures AtRest(t, ok) <==> Inv(t, ok, Tip(t))
  {}

  lemma FlaggedShape(t: Tree, t': Tree, x: BlockId)
    requires Shape(t) && x in t.status && x != t.genesis && Tip(t) == x
    requires t' == t.(status := t.status[x := t.status[x].(failedChild := true)], candidates := t'.candidates)
    ensures Shape(t') && Tip(t') == x && Parent(t', x) == Parent(t, x)
    ensures PathOf(t', Parent(t', x)) == PathOf(t, Parent(t, x))
  {}

  lemma SortsTransitive(h: Headers, st: map<BlockId, Status>, a: BlockId, b: BlockId, c: BlockId)
    requires a in h && a in st && b in h && b in st && c in h && c in st
    ensures !SortsBefore(h, st, a, b) && !SortsBefore(h, st, b, c) ==> !SortsBefore(h, st, a, c)
  {}

  /** The inner search of FindMostWorkChain: walk from the candidate down to the active chain,
      stopping at a flagged block.  Without pruning no linked block lacks its data. */
  method WalkToChain(ghost t: Tree, ghost ok: BlockId -> bool, ghost floor: BlockId,
                     h: Headers, st: map<BlockId, Status>, vChain: seq<BlockId>, m: BlockId)
    returns (bad: Option<BlockId>, ghost k: nat)
    requires Inv(t, ok, floor) && m in t.candidates && h == t.headers && st == t.status && vChain == t.vChain
    ensures m in h
    ensures bad.Some? ==> FlaggedAt(t, m, k) && bad.value == PathOf(t, m)[k]
    ensures bad.None? ==> CleanPath(t, m)
  {
    CandidateFacts(t, ok, floor, m);
    hide PendingInv, SkipsBuilt, WellFormed, CleanAbove, FlaggedAt, CleanPath;
    var pindexTest := m;
    k := h[m].nHeight;
    WalkStart(t, m);
    while !InChain(h, vChain, pindexTest)
      invariant 0 <= k <= h[m].nHeight && pindexTest == PathOf(t, m)[k]
      invariant pindexTest in h && h[pindexTest].nHeight == k
      invariant CleanAbove(t, m, k)
      decreases k
    {
      WalkFacts(t, ok, floor, m, k);
      assert st[pindexTest].nChainTx > 0;
      var fFailedChain := st[pindexTest].Failed();
      var fMissingData := !st[pindexTest].haveData;
      WalkStep(t, m, k);
      if fFailedChain || fMissingData {
        return Some(pindexTest), k;
      }
      pindexTest := StepToParent(t, h, m, pindexTest, k);
      k := k - 1;
    }
    ReachedChain(t, ok, floor, m, k);
    return None, k;
  }

  /** What InvalidateBlock leaves is the marked tree and the candidates put back. */
  lemma InvalidatedShape(t: Tree, b: BlockId)
    requires Shape(t) && b in t.headers && b != t.genesis
    ensures var u := MarkedDown(t, b, FallbackHeight(t, b));
            && Shape(u) && u.headers == t.headers
            && Invalidated(t, b) == u.(candidates := u.candidates + set x | x in u.headers && Readded(u, x))
            && Shape(Invalidated(t, b))
  {
    hide SkipsBuilt, WellFormed, SortsBefore;
    MarkedShape(t, b, FallbackHeight(t, b));
  }

  lemma InvalidatedFacts(t: Tree, ok: BlockId -> bool, floor: BlockId, b: BlockId)
    requires Inv(t, ok, floor) && b in t.headers && b != t.genesis && Complete(t)
    ensures CheckBlockIndex(Invalidated(t, b)) && (Complete(Invalidated(t, b)) <==> Harmless(t, b))
  {
    InvalidatedPassesCheck(t, ok, floor, b);
    InvalidateKeepsCompleteIff(t, ok, floor, b);
  }

  lemma ParentOnPath(t: Tree, m: BlockId, k: nat)
    requires Shape(t) && m in t.headers && 0 < k <= t.headers[m].nHeight
    ensures var x, p := PathOf(t, m)[k], PathOf(t, m)[k - 1];
            x in t.headers && t.headers[x].pprev == Some(p) && p in t.headers && t.headers[p].nHeight == k - 1
  {
    hide WellFormed, SkipsBuilt, IsPath;
    PathStep(t.headers, t.genesis, m, k);
    PathInTree(t, m, k - 1);
  }

  method StepToParent(ghost t: Tree, h: Headers, ghost m: BlockId, x: BlockId, ghost k: nat) returns (p: BlockId)
    requires Shape(t) && t.headers == h
    requires m in h && 0 < k <= h[m].nHeight && x == PathOf(t, m)[k]
    ensures x in h && p == PathOf(t, m)[k - 1] && p in h && h[p].nHeight == k - 1
  {
    hide Shape, PathOf;
    ParentOnPath(t, m, k);
    p := h[x].pprev.value;
  }

  class ChainState {
    const genesis: BlockId
    /** Whether ConnectBlock accepts the block on top of its parent. */
    const ok: BlockId -> bool
    const chainActive: Chain
    var headers: Headers
    var status: map<BlockId, Status>
    var mapBlocksUnlinked: map<BlockId, seq<BlockId>>
    var setBlockIndexCandidates: set<BlockId>
    var nBlockSequenceId: nat
    /** The highest tip the node has fallen back from in a reorganisation still under way. */
    ghost var floor: BlockId

    ghost function S(): (t: Tree)
      reads this, chainActive
    {
      Tree(genesis, headers, status, mapBlocksUnlinked, setBlockIndexCandidates, chainActive.vChain, nBlockSequenceId)
    }

    ghost predicate Valid()
      reads this, chainActive
    {
      Inv(S(), ok, floor)
    }

    /** The state InitBlockIndex leaves: genesis received, linked and connected. */
    constructor (genesisId: BlockId, proof: nat, nTx: nat, connects: BlockId -> bool)
      requires nTx > 0 && connects(genesisId)
      ensures Valid() && fresh(chainActive) && ok == connects && genesis == genesisId
      ensures AtRest(S(), ok) && Complete(S()) && chainActive.vChain == [genesisId]
    {
      genesis := genesisId;
      ok := connects;
      headers := map[genesisId := Header(None, None, 0, proof)];
      status := map[genesisId := Status(nTx, nTx, 1, VALID_TRANSACTIONS, true, false, false, false)];
      mapBlocksUnlinked := map[];
      setBlockIndexCandidates := {genesisId};
      nBlockSequenceId := 2;
      floor := genesisId;
      var chain := new Chain();
      chainActive := chain;
      new;
      chainActive.SetTip(headers, genesis, Some(genesis));
      ghost var t := S();
      assert Shape(t);
      assert PathOf(t, genesis) == [genesis];
      assert EntryOk(t, genesis);
      assert ActiveBlockOk(t, ok, genesis);
      assert !OnFailedPath(t, genesis);
    }

    // ----- Headers -----

    /** AddToBlockIndex for a header whose predecessor is known and not failed. */
    method AddToBlockIndex(id: BlockId, hashPrev: BlockId, proof: nat)
      requires Valid() && proof > 0 && id !in headers && hashPrev in headers
      modifies this`headers, this`status
      ensures Valid() && HeaderAppended(old(S()), S(), id, hashPrev, proof)
      ensures Complete(old(S())) && !old(status)[hashPrev].Failed() ==> Complete(S())
    {
      hide Inv, PendingInv, SkipsBuilt, WellFormed, HeaderAdded, Complete;
      ghost var t := S();
      InvShape(t, ok, floor);
      var header := NewHeader(headers, genesis, id, hashPrev, proof);
      headers := headers[id := header];
      status := status[id := FRESH_STATUS];
      HeaderShape(t, S(), id);
      HeaderPreserves(t, S(), ok, floor, id);
      if Complete(t) && !status[hashPrev].Failed() {
        HeaderKeepsComplete(t, S(), id, hashPrev);
      }
    }

    /** AcceptBlockHeader with AddToBlockIndex. */
    method AcceptBlockHeader(id: BlockId, hashPrev: BlockId, proof: nat, headerOk: bool, contextOk: bool)
      returns (r: HeaderResult)
      requires Valid() && proof > 0
      modifies this`headers, this`status
      ensures Valid()
      ensures r == HeaderOutcome(old(S()), id, hashPrev, headerOk, contextOk)
      ensures if r == Added then HeaderAppended(old(S()), S(), id, hashPrev, proof) else S() == old(S())
      ensures Complete(old(S())) ==> Complete(S())
    {
      hide PendingInv, Complete;
      InvShape(S(), ok, floor);
      if id in headers {
        return if status[id].Failed() then MarkedInvalid else Known;
      }
      if !headerOk {
        return BadHeader;
      }
      if hashPrev !in headers {
        return PrevNotFound;
      }
      if status[hashPrev].Failed() {
        return PrevInvalid;
      }
      if !contextOk {
        return BadHeader;
      }
      AddToBlockIndex(id, hashPrev, proof);
      return Added;
    }

    // ----- Block data -----

    /** ReceivedBlockTransactions: record the data; link the block if its parent is linked, and then,
        breadth first, everything that was only waiting for it. */
    method ReceivedBlockTransactions(b: BlockId, nTx: nat)
      requires Valid() && b in headers && b != genesis && nTx > 0 && !status[b].haveData && !status[b].Failed()
      modifies this`status, this`mapBlocksUnlinked, this`setBlockIndexCandidates, this`nBlockSequenceId
      ensures Valid()
      ensures Received(old(S()), S(), b, nTx)
      ensures Complete(old(S())) ==> Complete(S())
    {
      hide PendingInv, Complete, Tracked, Guarded, IsWaiting;
      ghost var t := S();
      ReceiveFacts(t, ok, floor, b);
      status := status[b := WithData(status[b], nTx)];
      var parent := headers[b].pprev.value;
      if status[parent].nChainTx > 0 {
        DataQueued(t, S(), ok, floor, b, nTx);
        QueuedComplete(t, S(), ok, floor, b, nTx);
        LinkQueue(b);
      } else {
        if !status[parent].Failed() && status[parent].validity >= VALID_TREE {
          var waiting := if parent in mapBlocksUnlinked then mapBlocksUnlinked[parent] else [];
          mapBlocksUnlinked := mapBlocksUnlinked[parent := waiting + [b]];
        }
        DataRegistered(t, S(), ok, floor, b, nTx);
        RegisteredComplete(t, S(), ok, floor, b, nTx);
      }
    }

    /** The queue loop of ReceivedBlockTransactions. */
    method LinkQueue(b: BlockId)
      requires PendingInv(S(), ok, floor, {b})
      modifies this`status, this`mapBlocksUnlinked, this`setBlockIndexCandidates, this`nBlockSequenceId
      ensures Valid()
      ensures LinkProgress(old(S()), S(), b)
      ensures Tracked(old(S()), {b}) && Guarded(old(S())) ==> Complete(S())
    {
      hide PendingInv, Tracked, Guarded, IsWaiting;
      ghost var t0 := S();
      var queue := [b];
      ghost var pending := {b};
      while queue != []
        invariant PendingInv(S(), ok, floor, pending)
        invariant QueueHolds(queue, pending)
        invariant LinkProgress(t0, S(), b) && forall q :: q in pending ==> q == b || IsWaiting(t0, q)
        invariant Tracked(t0, {b}) && Guarded(t0) ==> Tracked(S(), pending) && Guarded(S())
        decreases Unreceived(S())
      {
        var x := queue[0];
        ghost var t := S();
        PendingFacts(t, ok, floor, pending, x);
        var kids := LinkOne(x);
        LinkStepPreserves(t, ok, floor, pending, x);
        LinkStepProgress(t, x);
        LinkProgressTransitive(t0, t, S(), b, x);
        KidsWaited(t0, t, b, x);
        if Tracked(t, pending) && Guarded(t) {
          LinkStepTracked(t, ok, floor, pending, x);
        }
        RequeueKeepsQueue(t, ok, floor, pending, queue, kids);
        queue := queue[1..] + kids;
        pending := Requeued(pending, x, kids);
      }
      assert pending == {} by {
        assert forall q :: q in pending ==> q in queue;
      }
    }

    /** One turn of the queue loop. */
    method LinkOne(x: BlockId) returns (kids: seq<BlockId>)
      requires Shape(S()) && PendingOk(S(), x) && Tip(S()) in headers
      modifies this`status, this`mapBlocksUnlinked, this`setBlockIndexCandidates, this`nBlockSequenceId
      ensures kids == KidsOf(old(S()), x)
      ensures S() == LinkStep(old(S()), x)
    {
      hide WellFormed, SkipsBuilt, IsPath, SortsBefore;
      ghost var t := S();
      assert headers[x].pprev == Some(Parent(t, x));
      status := status[x := status[x].(
        nChainTx := status[headers[x].pprev.value].nChainTx + status[x].nTx, nSequenceId := nBlockSequenceId)];
      nBlockSequenceId := nBlockSequenceId + 1;
      var tip := chainActive.vChain[|chainActive.vChain| - 1];
      if !SortsBefore(headers, status, x, tip) {
        setBlockIndexCandidates := setBlockIndexCandidates + {x};
      }
      kids := [];
      if x in mapBlocksUnlinked {
        kids := mapBlocksUnlinked[x];
        mapBlocksUnlinked := mapBlocksUnlinked - {x};
      }
    }

    /** AcceptBlock: the acceptance rules for a block's data. */
    method AcceptBlock(id: BlockId, hashPrev: BlockId, proof: nat, headerOk: bool, contextOk: bool,
                       requested: bool, check: BlockCheck, nTx: nat) returns (accepted: bool, ghost t: Tree)
      requires Valid() && proof > 0 && nTx > 0
      modifies this`headers, this`status, this`mapBlocksUnlinked, this`setBlockIndexCandidates, this`nBlockSequenceId
      ensures Valid() && Inv(t, ok, floor) && (Complete(old(S())) ==> Complete(S()))
      ensures var r := HeaderOutcome(old(S()), id, hashPrev, headerOk, contextOk);
              if r == Added then HeaderAppended(old(S()), t, id, hashPrev, proof) else t == old(S())
      ensures match DataOutcome(t, HeaderOutcome(old(S()), id, hashPrev, headerOk, contextOk), id, requested, check)
              case Refused => !accepted && S() == t
              case Ignored => accepted && S() == t
              case MarkedFailed => (!accepted && id in t.status &&
                S() == t.(status := t.status[id := t.status[id].(failedValid := true)]))
              case Stored => accepted && Received(t, S(), id, nTx)
    {
      hide PendingInv, SortsBefore, SkipsBuilt, WellFormed, Shape, Complete, Received;
      var r := AcceptBlockHeader(id, hashPrev, proof, headerOk, contextOk);
      t := S();
      if r != Known && r != Added {
        return false, t;
      }
      AcceptFacts(t, ok, floor, id);
      var fAlreadyHave := status[id].haveData;
      var tip := chainActive.vChain[|chainActive.vChain| - 1];
      var fHasMoreWork := headers[id].nChainWork > headers[tip].nChainWork;
      var fTooFarAhead := headers[id].nHeight > |chainActive.vChain| - 1 + MIN_BLOCKS_TO_KEEP;
      if fAlreadyHave {
        return true, t;
      }
      if !requested {
        if status[id].nTx != 0 { return true, t; }
        if !fHasMoreWork { return true, t; }
        if fTooFarAhead { return true, t; }
      }
      if check != Passed {
        if check == Invalid {
          status := status[id := status[id].(failedValid := true)];
          RejectPreserves(t, S(), ok, floor, id);
          RejectKeepsComplete(t, S(), ok, floor, id);
        }
        return false, t;
      }
      ReceivedBlockTransactions(id, nTx);
      return true, t;
    }

    // ----- The best chain -----

    /** *setBlockIndexCandidates.rbegin() */
    method LastCandidate() returns (m: BlockId)
      requires setBlockIndexCandidates != {}
      requires forall c :: c in setBlockIndexCandidates ==> c in headers && c in status
      ensures IsLast(headers, status, setBlockIndexCandidates, m)
    {
      ghost var last, _ := EndsExist(headers, status, setBlockIndexCandidates);
      m :| IsLast(headers, status, setBlockIndexCandidates, m);
    }

    /** *setBlockIndexCandidates.begin() */
    method FirstCandidate() returns (m: BlockId)
      requires setBlockIndexCandidates != {}
      requires forall c :: c in setBlockIndexCandidates ==> c in headers && c in status
      ensures IsFirst(headers, status, setBlockIndexCandidates, m)
    {
      ghost var _, first := EndsExist(headers, status, setBlockIndexCandidates);
      m :| IsFirst(headers, status, setBlockIndexCandidates, m);
    }

    /** FindMostWorkChain marks everything from the candidate down to the flagged block. */
    method FailChain(m: BlockId, bad: BlockId, ghost k: nat)
      requires Shape(S()) && m in headers && k <= headers[m].nHeight && bad == PathOf(S(), m)[k]
      requires setBlockIndexCandidates <= headers.Keys
      modifies this`status, this`setBlockIndexCandidates
      ensures S() == FailedChain(old(S()), m, k)
    {
      hide SkipsBuilt, WellFormed;
      ghost var t := S();
      var pindexFailed := m;
      ghost var j := headers[m].nHeight;
      TailStartsEmpty(t, m);
      while pindexFailed != bad
        invariant k <= j <= headers[m].nHeight && pindexFailed == PathOf(t, m)[j] && pindexFailed in headers
        invariant S() == TailFailed(t, m, j)
        decreases j
      {
        TailGrows(t, m, j, k);
        status := status[pindexFailed := status[pindexFailed].(failedChild := true)];
        setBlockIndexCandidates := setBlockIndexCandidates - {pindexFailed};
        pindexFailed := StepToParent(t, headers, m, pindexFailed, j);
        j := j - 1;
      }
      PathInTree(t, m, j);
      PathInTree(t, m, k);
      setBlockIndexCandidates := setBlockIndexCandidates - {bad};
    }

    /** FindMostWorkChain: the last candidate whose path carries no failed flag; candidates above
        flagged blocks are marked and dropped on the way. */
    method FindMostWorkChain() returns (m: BlockId)
      requires Valid()
      modifies this`status, this`setBlockIndexCandidates
      ensures Valid() && Progress(old(S()), S(), ok)
      ensures m in setBlockIndexCandidates && m in headers && CleanPath(S(), m)
      ensures forall c :: c in setBlockIndexCandidates && c in headers ==> !Less(S(), m, c)
      ensures forall c :: MostWork(old(S()), c) ==> m == c && S() == old(S())
    {
      hide PendingInv, EntryOk, UnlinkedPairOk, SortsBefore, SkipsBuilt, MostWork;
      ghost var t0 := S();
      while true
        invariant Valid() && Progress(t0, S(), ok) && forall c :: MostWork(t0, c) ==> S() == t0
        decreases setBlockIndexCandidates
      {
        ghost var t := S();
        CandidatesFacts(t, ok, floor);
        m := LastCandidate();
        forall c | MostWork(t0, c) ensures m == c && CleanPath(t, m) {
          MostWorkFound(t0, m, c);
        }
        ghost var k;
        var bad;
        bad, k := WalkToChain(t, ok, floor, headers, status, chainActive.vChain, m);
        if bad.None? {
          return;
        }
        FlaggedNotClean(t, m, k);
        FailChain(m, bad.value, k);
        FailedChainPreserves(t, ok, floor, m, k);
        FailedChainShrinks(t, ok, floor, m, k);
        ProgressTransitive(t0, t, S(), ok);
      }
    }

    /** PruneBlockIndexCandidates: drop every candidate that sorts before the tip. */
    method PruneBlockIndexCandidates()
      requires chainActive.vChain != [] && Tip(S()) in headers && Tip(S()) in status
      requires forall c :: c in setBlockIndexCandidates ==> c in headers && c in status
      requires exists c :: c in setBlockIndexCandidates && !SortsBefore(headers, status, c, Tip(S()))
      modifies this`setBlockIndexCandidates
      ensures setBlockIndexCandidates == set c | c in old(setBlockIndexCandidates) && c in headers && c in status
                                          && !SortsBefore(headers, status, c, Tip(S()))
      ensures setBlockIndexCandidates != {}
    {
      hide SortsBefore;
      var tip := chainActive.vChain[|chainActive.vChain| - 1];
      ghost var kept := set c | c in setBlockIndexCandidates && !SortsBefore(headers, status, c, tip);
      ghost var c0 :| c0 in setBlockIndexCandidates && !SortsBefore(headers, status, c0, tip);
      assert c0 in kept;
      while setBlockIndexCandidates != {}
        invariant kept <= setBlockIndexCandidates <= old(setBlockIndexCandidates)
        decreases setBlockIndexCandidates
      {
        var first := FirstCandidate();
        if !SortsBefore(headers, status, first, tip) {
          forall c | c in setBlockIndexCandidates ensures c in kept {
            SortsTransitive(headers, status, c, first, tip);
          }
          break;
        }
        setBlockIndexCandidates := setBlockIndexCandidates - {first};
      }
    }

    /** DisconnectTip, for a tip other than genesis. */
    method DisconnectTip()
      requires Shape(S()) && Tip(S()) != genesis
      modifies chainActive
      ensures Tip(old(S())) in headers && S() == old(S()).(vChain := PathOf(old(S()), Parent(old(S()), Tip(old(S())))))
    {
      ghost var t := S();
      ChainStartsAtGenesis(t);
      assert headers[Tip(t)].pprev == Some(Parent(t, Tip(t)));
      chainActive.SetTip(headers, genesis, headers[chainActive.vChain[|chainActive.vChain| - 1]].pprev);
    }

    /** ConnectTip: ConnectBlock's verdict, then either the new tip or InvalidBlockFound. */
    method ConnectTip(b: BlockId) returns (connected: bool)
      requires Shape(S()) && b in headers && b != genesis && Parent(S(), b) == Tip(S()) && !status[b].Failed()
      requires status[b].validity <= VALID_SCRIPTS
      modifies this`status, this`setBlockIndexCandidates, chainActive
      ensures connected == ok(b)
      ensures connected ==> S() == old(S()).(vChain := PathOf(old(S()), b),
                status := old(status)[b := old(status)[b].(validity := VALID_SCRIPTS, haveUndo := true)])
      ensures !connected ==> S() == Rejected(old(S()), b)
    {
      hide SkipsBuilt, WellFormed, SortsBefore;
      connected := ok(b);
      if !connected {
        status := status[b := status[b].(failedValid := true)];
        setBlockIndexCandidates := setBlockIndexCandidates - {b};
        return;
      }
      status := status[b := status[b].(haveUndo := true)];
      if !status[b].Failed() && status[b].validity < VALID_SCRIPTS {
        status := status[b := status[b].(validity := VALID_SCRIPTS)];
      }
      chainActive.SetTip(headers, genesis, Some(b));
    }

    /** ConnectTip followed, on success, by PruneBlockIndexCandidates. */
    method ConnectAndPrune(b: BlockId) returns (connected: bool)
      requires Valid() && Connectable(S(), b)
      modifies this`status, this`setBlockIndexCandidates, this`floor, chainActive
      ensures Valid() && connected == ok(b)
      ensures connected ==> Connected(old(S()), S(), b) && floor == Raised(old(S()), old(floor), b)
      ensures !connected ==> S() == Rejected(old(S()), b) && floor == old(floor)
    {
      hide PendingInv, SortsBefore, WellFormed, SkipsBuilt;
      ghost var t := S();
      ConnectFacts(t, ok, floor, b);
      connected := ConnectTip(b);
      if connected {
        ConnectKeepsOrder(t, S(), floor, b);
        PruneBlockIndexCandidates();
        PrunedIsConnected(t, S(), b);
        ConnectPreserves(t, S(), ok, floor, b);
        floor := Raised(t, floor, b);
      } else {
        RejectedPreserves(t, ok, floor, b);
      }
    }

    /** The first loop of ActivateBestChainStep: back to the fork. */
    method DisconnectToFork(fork: BlockId, ghost f: nat)
      requires Valid() && f < |chainActive.vChain| && chainActive.vChain[f] == fork
      modifies chainActive
      ensures Valid() && S() == old(S()).(vChain := old(chainActive.vChain)[..f + 1])
    {
      hide PendingInv, WellFormed, SkipsBuilt;
      ghost var t := S();
      InvShape(t, ok, floor);
      ghost var n := |chainActive.vChain|;
      assert chainActive.vChain[..n] == chainActive.vChain;
      while chainActive.vChain[|chainActive.vChain| - 1] != fork
        invariant f < n <= |t.vChain| && S() == t.(vChain := t.vChain[..n])
        invariant Valid() && Shape(S())
        decreases n
      {
        ghost var u := S();
        DisconnectFacts(t, u, n, f);
        DisconnectTip();
        DisconnectPreserves(u, S(), ok, floor);
        InvShape(S(), ok, floor);
        n := n - 1;
      }
      ForkReached(t, n, f);
    }

    /** One batch of ActivateBestChainStep's connecting loop, lowest block first. */
    method ConnectBatch(m: BlockId, vpindexToConnect: seq<BlockId>, ghost p0: nat, oldWork: nat)
      returns (fContinue: bool, fInvalidFound: bool, ghost p: nat)
      requires Valid() && Towards(S(), m, p0) && p0 + |vpindexToConnect| <= headers[m].nHeight
      requires forall i :: 0 <= i < |vpindexToConnect| ==>
                 vpindexToConnect[i] == PathOf(S(), m)[p0 + |vpindexToConnect| - i]
      modifies this`status, this`setBlockIndexCandidates, this`floor, chainActive
      ensures Valid() && Advanced(old(S()), S(), ok, old(floor), floor) && m in headers
      ensures fInvalidFound ==> !fContinue && NotFailed(S()) < NotFailed(old(S()))
      ensures fContinue ==> p == p0 + |vpindexToConnect| && Towards(S(), m, p)
      ensures !fInvalidFound && !fContinue ==> Gained(S(), m, oldWork)
      ensures |vpindexToConnect| > 0 && RefusesNext(old(S()), ok, m, p0) ==>
                fInvalidFound && RejectedNext(old(S()), S(), m, p0)
    {
      hide PendingInv, Advanced, Towards, Connected, SortsBefore, WellFormed, SkipsBuilt, Connectable;
      ghost var t0, floor0 := S(), floor;
      p := p0;
      TowardsPath(t0, t0, m, p0, p0);
      AdvancedStart(t0, ok, floor);
      var i := |vpindexToConnect|;
      while i > 0
        invariant 0 <= i <= |vpindexToConnect| && p == p0 + |vpindexToConnect| - i
        invariant Valid() && Towards(S(), m, p) && Advanced(t0, S(), ok, floor0, floor)
        invariant headers == t0.headers && genesis == t0.genesis
        invariant if i == |vpindexToConnect| then S() == t0 else !RefusesNext(t0, ok, m, p0)
        decreases i
      {
        ghost var t, fl := S(), floor;
        i := i - 1;
        var b := vpindexToConnect[i];
        TowardsPath(t0, t, m, p0, p);
        TowardsNext(t, ok, floor, m, p);
        ConnectableFacts(t, b);
        var connected := ConnectAndPrune(b);
        if !connected {
          RejectedShape(t, b);
          AdvancedByRejecting(t0, t, ok, floor0, floor, b);
          return false, true, p;
        }
        TowardsConnected(t, S(), m, p);
        InvShape(S(), ok, floor);
        AdvancedByConnecting(t0, t, S(), ok, floor0, fl, b);
        p := p + 1;
        TowardsTip(S(), m, p);
        if headers[chainActive.vChain[|chainActive.vChain| - 1]].nChainWork > oldWork {
          return false, false, p;
        }
      }
      return true, false, p;
    }

    /** One turn of ActivateBestChainStep's connecting loop: at most 32 blocks. */
    method ConnectNextBatch(m: BlockId, nHeight: nat, oldWork: nat)
      returns (fContinue: bool, fInvalidFound: bool, nTargetHeight: nat)
      requires Valid() && Towards(S(), m, nHeight) && m in headers && nHeight < headers[m].nHeight
      modifies this`status, this`setBlockIndexCandidates, this`floor, chainActive
      ensures Valid() && Advanced(old(S()), S(), ok, old(floor), floor)
      ensures m in headers && nHeight < nTargetHeight <= headers[m].nHeight
      ensures fInvalidFound ==> !fContinue && NotFailed(S()) < NotFailed(old(S()))
      ensures fContinue ==> Towards(S(), m, nTargetHeight)
      ensures !fInvalidFound && !fContinue ==> Gained(S(), m, oldWork)
      ensures RefusesNext(old(S()), ok, m, nHeight) ==> fInvalidFound && RejectedNext(old(S()), S(), m, nHeight)
    {
      hide RefusesNext, RejectedNext, PendingInv, Advanced, SortsBefore, WellFormed, SkipsBuilt, Gained, NotFailed;
      nTargetHeight := if nHeight + 32 < headers[m].nHeight then nHeight + 32 else headers[m].nHeight;
      var vpindexToConnect := CollectToConnect(S(), headers, m, nHeight, nTargetHeight);
      ghost var p;
      fContinue, fInvalidFound, p := ConnectBatch(m, vpindexToConnect, nHeight, oldWork);
    }

    /** The connecting loops of ActivateBestChainStep, in batches of at most 32 blocks. */
    method ConnectTowards(m: BlockId, nForkHeight: nat, oldWork: nat) returns (fInvalidFound: bool)
      requires Valid() && Towards(S(), m, nForkHeight)
      modifies this`status, this`setBlockIndexCandidates, this`floor, chainActive
      ensures Valid() && Advanced(old(S()), S(), ok, old(floor), floor)
      ensures if fInvalidFound then NotFailed(S()) < NotFailed(old(S())) else Arrived(S(), m, oldWork)
      ensures RefusesNext(old(S()), ok, m, nForkHeight) ==> RejectedNext(old(S()), S(), m, nForkHeight)
    {
      ghost var t0, floor0 := S(), floor;
      AdvancedStart(t0, ok, floor);
      TowardsTip(t0, m, nForkHeight);
      NothingAbove(t0, ok, m, nForkHeight);
      hide RefusesNext, RejectedNext, PendingInv, Advanced, Towards, SortsBefore, WellFormed, SkipsBuilt, Gained,
        Arrived, Shape, NotFailed;
      var fContinue := true;
      var nHeight := nForkHeight;
      fInvalidFound := false;
      while fContinue && nHeight != headers[m].nHeight
        invariant Valid() && Advanced(t0, S(), ok, floor0, floor) && headers == t0.headers
        invariant fContinue ==> !fInvalidFound && nHeight <= headers[m].nHeight && Towards(S(), m, nHeight)
        invariant fInvalidFound ==> NotFailed(S()) < NotFailed(t0)
        invariant !fContinue && !fInvalidFound ==> Gained(S(), m, oldWork)
        invariant nHeight == nForkHeight && fContinue ==> S() == t0
        invariant nHeight > nForkHeight && RefusesNext(t0, ok, m, nForkHeight) ==>
                    !fContinue && RejectedNext(t0, S(), m, nForkHeight)
        invariant nForkHeight <= nHeight && (nHeight == nForkHeight ==> fContinue)
        decreases if fContinue then headers[m].nHeight - nHeight + 1 else 0
      {
        ghost var t, fl := S(), floor;
        fContinue, fInvalidFound, nHeight := ConnectNextBatch(m, nHeight, oldWork);
        AdvancedTransitive(t0, t, S(), ok, floor0, fl, floor);
        AdvancedShrinks(t0, t, ok, floor0, fl);
        AdvancedTip(t, S(), ok, fl, floor);
      }
      if fContinue {
        TowardsArrived(S(), m, nHeight, oldWork);
      } else if !fInvalidFound {
        GainedArrived(S(), m, oldWork);
      }
    }

    /** The fork with m's path, and the active chain back to it. */
    method FallBackToFork(m: BlockId) returns (nForkHeight: nat)
      requires Valid() && m in setBlockIndexCandidates && m in headers && CleanPath(S(), m)
      modifies chainActive
      ensures Valid() && nForkHeight < |old(chainActive.vChain)| && S() == FallenBack(old(S()), nForkHeight)
      ensures IsForkHeight(headers, genesis, old(chainActive.vChain), m, nForkHeight)
      ensures Towards(S(), m, nForkHeight) && Advanced(old(S()), S(), ok, floor, floor)
    {
      ghost var t := S();
      CandidateFacts(t, ok, floor, m);
      hide PendingInv, Advanced, Towards, SortsBefore, CleanPath, WellFormed, SkipsBuilt;
      var fork := chainActive.FindFork(headers, genesis, m);
      nForkHeight := headers[fork.value].nHeight;
      DisconnectToFork(fork.value, nForkHeight);
      AtFork(t, S(), ok, floor, m, nForkHeight);
    }

    /** ActivateBestChainStep. */
    method ActivateBestChainStep(m: BlockId) returns (fInvalidFound: bool)
      requires Valid() && m in setBlockIndexCandidates && m in headers && CleanPath(S(), m)
      modifies this`status, this`setBlockIndexCandidates, this`floor, chainActive
      ensures Valid() && Advanced(old(S()), S(), ok, old(floor), floor) && Tip(old(S())) in headers
      ensures if fInvalidFound then NotFailed(S()) < NotFailed(old(S()))
              else Arrived(S(), m, headers[Tip(old(S()))].nChainWork)
      ensures EndsOnFork(old(S()), S(), ok, m)
    {
      hide PendingInv, Advanced, Towards, SortsBefore, CleanPath, Arrived, NotFailed, RefusesNext, RejectedNext,
        EndsOnFork, WellFormed, SkipsBuilt, IsPath, IsForkHeight;
      ghost var t, floor0 := S(), floor;
      CandidateFacts(t, ok, floor, m);
      AdvancedStart(t, ok, floor);
      AdvancedTip(t, t, ok, floor, floor);
      var oldTip := chainActive.vChain[|chainActive.vChain| - 1];
      var nForkHeight := FallBackToFork(m);
      ghost var u := S();
      TowardsTip(u, m, nForkHeight);
      fInvalidFound := ConnectTowards(m, nForkHeight, headers[oldTip].nChainWork);
      AdvancedTransitive(t, u, S(), ok, floor0, floor0, floor);
      AdvancedShrinks(t, u, ok, floor0, floor0);
      AdvancedTip(t, S(), ok, floor0, floor);
      RefusalEnds(t, u, S(), ok, m, nForkHeight);
    }

    /** One turn of ActivateBestChain's loop, the part it runs under cs_main. */
    method ActivateBestChainIteration() returns (done: bool)
      requires Valid()
      modifies this`status, this`setBlockIndexCandidates, this`floor, chainActive
      ensures Valid() && Advanced(old(S()), S(), ok, old(floor), floor)
      ensures if done then OnLast(S(), ok, floor) else CloserToBest(old(S()), S())
      ensures Shape(old(S())) && old(floor) in old(headers) && floor in headers
      ensures NoneBelowFloor(old(S()), old(floor)) ==> NoneBelowFloor(S(), floor)
      ensures Complete(old(S())) ==> Complete(S())
      ensures forall m :: MostWork(old(S()), m) && m != Tip(old(S())) ==> EndsOnFork(old(S()), S(), ok, m)
    {
      hide PendingInv, Advanced, Arrived, OnLast, CloserToBest, SortsBefore, CleanPath, Progress, SkipsBuilt,
        WellFormed, NotFailed, NoneBelowFloor, Complete, MostWork, EndsOnFork;
      ghost var t, floor0 := S(), floor;
      AdvancedStart(t, ok, floor);
      var pindexMostWork := FindMostWorkChain();
      ghost var u := S();
      InvShape(u, ok, floor);
      ProgressAdvances(t, u, ok, floor);
      if pindexMostWork == chainActive.vChain[|chainActive.vChain| - 1] {
        AdvancedKeeps(t, u, ok, floor0, floor);
        AdvancedStart(u, ok, floor);
        OnMostWork(u, u, ok, floor, floor, pindexMostWork);
        return true;
      }
      var fInvalidFound := ActivateBestChainStep(pindexMostWork);
      AdvancedTip(u, S(), ok, floor0, floor);
      AdvancedTransitive(t, u, S(), ok, floor0, floor0, floor);
      AdvancedKeeps(t, S(), ok, floor0, floor);
      done := pindexMostWork == chainActive.vChain[|chainActive.vChain| - 1];
      if done {
        OnMostWork(u, S(), ok, floor0, floor, pindexMostWork);
      } else {
        NotYetOnMostWork(t, u, S(), ok, floor0, floor, pindexMostWork, fInvalidFound);
      }
    }

    /** ActivateBestChain: terminates, and the tip is then the best eligible block. */
    method ActivateBestChain()
      requires Valid()
      modifies this`status, this`setBlockIndexCandidates, this`floor, chainActive
      ensures Valid() && AtRest(S(), ok) && floor == Tip(S())
      ensures Usable(S(), Tip(S())) && forall c :: Usable(S(), c) ==> !Less(S(), Tip(S()), c)
      ensures IsBest(old(S()), ok, Tip(S())) && !Less(old(S()), Tip(S()), Tip(old(S())))
      ensures Complete(old(S())) ==> Complete(S()) && CheckBlockIndex(S())
    {
      hide PendingInv, Advanced, OnLast, CloserToBest, SortsBefore, SkipsBuilt, WellFormed, Progress, NotFailed,
        IsBest, Shape, Complete, CheckBlockIndex, NoneBelowFloor, MostWork, EndsOnFork, Usable;
      ghost var t0, floor0 := S(), floor;
      AdvancedStart(t0, ok, floor);
      AdvancedTip(t0, t0, ok, floor, floor);
      ghost var bound := WorkBound(headers, headers.Keys);
      var done := false;
      while !done
        invariant Valid() && Advanced(t0, S(), ok, floor0, floor) && headers == t0.headers
        invariant done ==> OnLast(S(), ok, floor)
        invariant chainActive.vChain != [] && Tip(S()) in headers
        decreases !done, NotFailed(S()), bound - headers[Tip(S())].nChainWork
      {
        ghost var t, fl := S(), floor;
        done := ActivateBestChainIteration();
        AdvancedTransitive(t0, t, S(), ok, floor0, fl, floor);
        AdvancedTip(t, S(), ok, fl, floor);
        if !done {
          CloserFacts(t, S());
        }
      }
      OnLastIsMaximal(S(), ok, floor);
      Rested(t0, S(), ok, floor0, floor);
    }

    /** InvalidateBlock, for a block other than genesis. */
    method InvalidateBlock(b: BlockId)
      requires Valid() && b in headers && b != genesis
      modifies this`status, this`setBlockIndexCandidates, this`floor, chainActive
      ensures b in old(headers) && Shape(old(S())) && S() == Invalidated(old(S()), b) && floor == Tip(S())
      ensures Valid() && AtRest(S(), ok)
      ensures Complete(old(S())) ==> CheckBlockIndex(S()) && (Complete(S()) <==> Harmless(old(S()), b))
    {
      hide PendingInv, SortsBefore, SkipsBuilt, WellFormed, IsPath, MarkedDown, FallbackHeight, AtRest, CheckBlockIndex,
        Readded, Invalidated, Complete, Harmless;
      ghost var t, floor0 := S(), floor;
      InvShape(t, ok, floor);
      FallBack(t, b);
      InvalidatedShape(t, b);
      ReaddCandidates();
      floor := chainActive.vChain[|chainActive.vChain| - 1];
      InvalidatedPreserves(t, ok, floor0, b);
      AtRestIsInv(S(), ok);
      if Complete(t) {
        InvalidatedFacts(t, ok, floor0, b);
      }
    }

    /** Flag the block and fall back to below it. */
    method FallBack(ghost t: Tree, b: BlockId)
      requires Shape(t) && t == S() && b in headers && b != genesis
      modifies this`status, this`setBlockIndexCandidates, chainActive
      ensures S() == MarkedDown(t, b, FallbackHeight(t, b))
    {
      hide SortsBefore, SkipsBuilt, WellFormed, IsPath, MarkedDown, FallbackHeight;
      MarkedStart(t, b);
      status := status[b := status[b].(failedValid := true)];
      setBlockIndexCandidates := setBlockIndexCandidates - {b};
      ghost var n := |chainActive.vChain|;
      MarkedShape(t, b, n);
      while InChain(headers, chainActive.vChain, b)
        invariant FallbackHeight(t, b) <= n <= |t.vChain|
        invariant S() == MarkedDown(t, b, n) && headers == t.headers && chainActive.vChain == t.vChain[..n]
        decreases n
      {
        FallbackReached(t, b, n);
        FallBackOnce(t, b, n);
        n := n - 1;
      }
      FallbackReached(t, b, n);
    }

    /** One turn of InvalidateBlock's fall-back loop: flag the tip and disconnect it. */
    method FallBackOnce(ghost t: Tree, b: BlockId, ghost n: nat)
      requires Shape(t) && b in t.headers && 1 < n <= |t.vChain| && S() == MarkedDown(t, b, n)
      modifies this`status, this`setBlockIndexCandidates, chainActive
      ensures S() == MarkedDown(t, b, n - 1) && chainActive.vChain == t.vChain[..n - 1]
    {
      hide SortsBefore, SkipsBuilt, WellFormed, MarkedDown;
      MarkedStepPath(t, b, n);
      MarkedStepMaps(t, b, n);
      ghost var u := S();
      var pindexWalk := chainActive.vChain[|chainActive.vChain| - 1];
      status := status[pindexWalk := status[pindexWalk].(failedChild := true)];
      setBlockIndexCandidates := setBlockIndexCandidates - {pindexWalk};
      FlaggedShape(u, S(), pindexWalk);
      DisconnectTip();
    }

    /** InvalidateBlock's loop over mapBlockIndex. */
    method ReaddCandidates()
      requires Shape(S())
      modifies this`setBlockIndexCandidates
      ensures setBlockIndexCandidates == old(setBlockIndexCandidates) + set x | x in headers && Readded(old(S()), x)
    {
      hide SkipsBuilt, WellFormed, SortsBefore;
      ghost var t := S();
      ChainStartsAtGenesis(t);
      var rest := headers.Keys;
      var tip := chainActive.vChain[|chainActive.vChain| - 1];
      while rest != {}
        invariant rest <= headers.Keys
        invariant setBlockIndexCandidates == t.candidates + set x | x in headers && x !in rest && Readded(t, x)
        decreases rest
      {
        var it :| it in rest;
        rest := rest - {it};
        if !status[it].Failed() && status[it].validity >= VALID_TRANSACTIONS && status[it].nChainTx > 0
           && !SortsBefore(headers, status, it, tip) {
          setBlockIndexCandidates := setBlockIndexCandidates + {it};
        }
      }
    }

    /** Any sequence of calls other threads may make under cs_main, with the turns of
        ActivateBestChain's loop interleaved at will.  In every state on the way the invariant holds;
        no call loses track of a block but an invalidation that is not harmless, and that always does;
        and as long as none has, CheckBlockIndex passes unless the tip is below the floor. */
    method Run(ops: seq<Operation>) returns (ghost states: seq<Tree>, ghost floors: seq<BlockId>)
      requires Valid()
      modifies this`headers, this`status, this`mapBlocksUnlinked, this`setBlockIndexCandidates,
               this`nBlockSequenceId, this`floor, chainActive
      ensures |states| == |floors| == |ops| + 1
      ensures states[0] == old(S()) && states[|ops|] == S() && floors[|ops|] == floor
      ensures forall i :: 0 <= i <= |ops| ==> StateOk(states[i], ok, floors[i])
      ensures forall i :: 0 <= i < |ops| ==> StepOk(states[i], ops[i], states[i + 1])
    {
      hide Inv, StateOk, StepOk;
      states, floors := [S()], [floor];
      ValidIsOk(S(), ok, floor);
      for i := 0 to |ops|
        invariant Valid() && |states| == |floors| == i + 1
        invariant states[0] == old(S()) && states[i] == S() && floors[i] == floor
        invariant forall k :: 0 <= k <= i ==> StateOk(states[k], ok, floors[k])
        invariant forall k :: 0 <= k < i ==> StepOk(states[k], ops[k], states[k + 1])
      {
        Perform(ops[i]);
        ValidIsOk(S(), ok, floor);
        states, floors := states + [S()], floors + [floor];
      }
    }

    method Perform(op: Operation)
      requires Valid()
      modifies this`headers, this`status, this`mapBlocksUnlinked, this`setBlockIndexCandidates,
               this`nBlockSequenceId, this`floor, chainActive
      ensures Valid() && StepOk(old(S()), op, S())
    {
      hide PendingInv, CheckBlockIndex, Complete, Harmless, Advanced, MostWork, EndsOnFork, NoneBelowFloor;
      InvShape(S(), ok, floor);
      match op {
        case ReceiveHeader(id, hashPrev, proof, headerOk, contextOk) =>
          var _ := AcceptBlockHeader(id, hashPrev, proof + 1, headerOk, contextOk);
        case ReceiveBlock(id, hashPrev, proof, headerOk, contextOk, requested, check, nTx) =>
          var _, _ := AcceptBlock(id, hashPrev, proof + 1, headerOk, contextOk, requested, check, nTx + 1);
        case ActivationTurn =>
          var _ := ActivateBestChainIteration();
        case Activate =>
          ActivateBestChain();
        case Invalidate(b) =>
          if b in headers && b != genesis {
            InvalidateBlock(b);
          }
      }
    }
  }

  /** The invariant, and CheckBlockIndex if no block has been lost track of and the tip is at least at
      the floor. */
  ghost predicate StateOk(t: Tree, ok: BlockId -> bool, floor: BlockId) {
    && Inv(t, ok, floor) && Tip(t) in t.headers
    && (Complete(t) ==> (CheckBlockIndex(t) <==> NoneMissing(t)))
    && (Complete(t) && !Less(t, Tip(t), floor) ==> CheckBlockIndex(t))
  }

  /** Track is lost by invalidations that are not harmless, and by nothing else. */
  ghost predicate StepOk(t: Tree, op: Operation, t': Tree) {
    Shape(t) && (Complete(t) ==>
      (Complete(t') <==> (op.Invalidate? && op.b in t.headers && op.b != t.genesis ==> Harmless(t, op.b))))
  }

  lemma ValidIsOk(t: Tree, ok: BlockId -> bool, floor: BlockId)
    requires Inv(t, ok, floor)
    ensures StateOk(t, ok, floor)
  {
    hide EntryOk, UnlinkedPairOk, SortsBefore, SkipsBuilt, WellFormed, CheckBlockIndex;
    ChainStartsAtGenesis(t);
    if Complete(t) {
      CheckBlockIndexIff(t, ok, floor);
      CheckPassesAboveFloor(t, ok, floor);
    }
  }

  lemma HeaderShape(t: Tree, t': Tree, id: BlockId)
    requires Shape(t) && id !in t.headers && id in t'.headers
    requires t'.headers == t.headers[id := t'.headers[id]] && t'.status == t.status[id := FRESH_STATUS]
    requires t' == t.(headers := t'.headers, status := t'.status)
    requires WellFormed(t'.headers, t.genesis) && SkipsBuilt(t'.headers, t.genesis)
    requires forall b :: b in t.headers ==> Path(t'.headers, t.genesis, b) == Path(t.headers, t.genesis, b)
    ensures Shape(t') && HeaderAdded(t, t', id)
  {
    hide SkipsBuilt, WellFormed;
    ChainStartsAtGenesis(t);
  }

  /** AcceptBlock marks a block whose contents fail the checks; it holds no data, so nothing else moves. */
  lemma RejectPreserves(t: Tree, t': Tree, ok: BlockId -> bool, floor: BlockId, b: BlockId)
    requires Inv(t, ok, floor) && b in t.headers && !t.status[b].haveData
    requires t' == t.(status := t.status[b := t.status[b].(failedValid := true)])
    ensures Inv(t', ok, floor)
  {
    assert EntryOk(t, b);
    assert OnlyFlagsAdded(t, t');
    assert b in t.vChain ==> ActiveBlockOk(t, ok, b);
    forall x | x in t'.headers && t'.status[x].Failed() ensures OnFailedPath(t', x) {
      FlagsKeepFailedPaths(t, t', x);
      if x == b {
        assert b in PathOf(t', b);
      } else {
        assert OnFailedPath(t, x);
      }
    }
    assert !OnFailedPath(t', floor) by {
      FlagsKeepFailedPaths(t, t', floor);
      LinkedHasData(t, floor);
    }
    FlaggingPreserves(t, t', ok, floor);
  }
}
