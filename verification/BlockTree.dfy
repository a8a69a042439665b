/** The state main.cpp keeps about the block tree, as one value, and the invariant of its
    best-chain state machine.  ChainState.dfy holds the class that updates it in place. */
module BlockTree {
  import opened Options
  import opened BlockIndex
  import opened ActiveChain

  const VALID_TREE := 2
  const VALID_TRANSACTIONS := 3
  const VALID_CHAIN := 4
  const VALID_SCRIPTS := 5

  /** The fields of CBlockIndex that change; validity and the four flags are the parts of nStatus. */
  datatype Status = Status(
    nTx: nat, nChainTx: nat, nSequenceId: nat,
    validity: nat, haveData: bool, haveUndo: bool, failedValid: bool, failedChild: bool)
  {
    predicate Failed() { failedValid || failedChild }
  }

  datatype Tree = Tree(
    genesis: BlockId,
    headers: Headers,
    status: map<BlockId, Status>,
    unlinked: map<BlockId, seq<BlockId>>,   // mapBlocksUnlinked: values of one key in insertion order
    candidates: set<BlockId>,               // setBlockIndexCandidates
    vChain: seq<BlockId>,                   // chainActive
    nextSequenceId: nat)                    // nBlockSequenceId

  // ----- Reading the tree -----

  ghost predicate Shape(t: Tree)
  {
    && WellFormed(t.headers, t.genesis) && SkipsBuilt(t.headers, t.genesis)
    && t.status.Keys == t.headers.Keys
    && t.vChain != [] && IsPath(t.headers, t.genesis, t.vChain)
  }

  ghost function PathOf(t: Tree, b: BlockId): (p: seq<BlockId>)
    requires Shape(t) && b in t.headers
    ensures |p| == t.headers[b].nHeight + 1 && p[0] == t.genesis && p[|p| - 1] == b
  {
    Path(t.headers, t.genesis, b)
  }

  /** Every block of a path is in the tree. */
  lemma PathInTree(t: Tree, b: BlockId, k: nat)
    requires Shape(t) && b in t.headers && k <= t.headers[b].nHeight
    ensures PathOf(t, b)[k] in t.headers && t.headers[PathOf(t, b)[k]].nHeight == k
    ensures PathOf(t, PathOf(t, b)[k]) == PathOf(t, b)[..k + 1]
  {
    PathPrefix(t.headers, t.genesis, b, k);
  }

  ghost predicate Linked(t: Tree, b: BlockId)
    requires b in t.status
  {
    t.status[b].nChainTx > 0
  }

  ghost function Parent(t: Tree, b: BlockId): (p: BlockId)
    requires Shape(t) && b in t.headers && b != t.genesis
    ensures p in t.headers && p in t.status && t.headers[b].pprev == Some(p)
    ensures t.headers[b].nHeight == t.headers[p].nHeight + 1
    ensures t.headers[b].nChainWork > t.headers[p].nChainWork
    ensures PathOf(t, b) == PathOf(t, p) + [b]
  {
    t.headers[b].pprev.value
  }

  function Tip(t: Tree): BlockId
    requires t.vChain != []
  {
    t.vChain[|t.vChain| - 1]
  }

  /** CBlockIndexWorkComparator: most work last, then earliest sequence id last, then lowest address last. */
  predicate SortsBefore(h: Headers, st: map<BlockId, Status>, a: BlockId, b: BlockId)
    requires a in h && b in h && a in st && b in st
  {
    if h[a].nChainWork > h[b].nChainWork then false
    else if h[a].nChainWork < h[b].nChainWork then true
    else if st[a].nSequenceId < st[b].nSequenceId then false
    else if st[a].nSequenceId > st[b].nSequenceId then true
    else if a < b then false
    else if a > b then true
    else false
  }

  ghost predicate Less(t: Tree, a: BlockId, b: BlockId)
    requires Shape(t) && a in t.headers && b in t.headers
  {
    SortsBefore(t.headers, t.status, a, b)
  }

  /** The comparator is a strict total order, so std::set never merges two different blocks. */
  lemma ComparatorIsStrictTotalOrder(t: Tree, a: BlockId, b: BlockId, c: BlockId)
    requires Shape(t) && a in t.headers && b in t.headers && c in t.headers
    ensures !Less(t, a, a)
    ensures Less(t, a, b) && Less(t, b, c) ==> Less(t, a, c)
    ensures a != b ==> (Less(t, a, b) <==> !Less(t, b, a))
    ensures !Less(t, a, b) && !Less(t, b, c) ==> !Less(t, a, c)
  {}

  /** A FAILED_VALID block lies on the path from genesis to b (b included). */
  ghost predicate OnFailedPath(t: Tree, b: BlockId)
    requires Shape(t) && b in t.headers
  {
    exists x :: x in PathOf(t, b) && x in t.status && t.status[x].failedValid
  }

  lemma FailedPathDescends(t: Tree, a: BlockId, b: BlockId, k: nat)
    requires Shape(t) && b in t.headers && k <= t.headers[b].nHeight && a == PathOf(t, b)[k]
    requires a in t.headers && OnFailedPath(t, a)
    ensures OnFailedPath(t, b)
  {
    PathInTree(t, b, k);
    var x :| x in PathOf(t, a) && x in t.status && t.status[x].failedValid;
    assert x in PathOf(t, b)[..k + 1];
  }

  ghost predicate InUnlinked(t: Tree, p: BlockId, b: BlockId)
  {
    p in t.unlinked && b in t.unlinked[p]
  }

  // ----- The invariant -----

  /** What holds of one entry and its parent's. */
  ghost predicate EntryOk(t: Tree, b: BlockId)
    requires Shape(t) && b in t.headers
  {
    var s := t.status[b];
    && (s.haveData <==> s.nTx > 0)
    && (s.validity == VALID_TREE || s.validity == VALID_TRANSACTIONS || s.validity == VALID_SCRIPTS)
    && (s.validity >= VALID_TRANSACTIONS <==> s.nTx > 0)
    && (s.haveUndo ==> s.haveData)
    && (s.nChainTx == 0 <==> s.nSequenceId == 0)
    && s.nSequenceId < t.nextSequenceId
    && (s.nChainTx > 0 ==> s.haveData)
    && if b == t.genesis then
         s.nChainTx == s.nTx && s.haveData
       else
         var p := t.status[Parent(t, b)];
         && (s.nChainTx > 0 ==> p.nChainTx > 0 && s.nChainTx == p.nChainTx + s.nTx)
         && (s.validity == VALID_SCRIPTS ==> Parent(t, b) == t.genesis || p.validity == VALID_SCRIPTS)
  }

  ghost predicate EntriesOk(t: Tree)
    requires Shape(t)
  {
    forall b {:trigger EntryOk(t, b)} :: b in t.headers ==> EntryOk(t, b)
  }

  /** b may stand under key p in mapBlocksUnlinked: it holds data and is not linked. */
  ghost predicate UnlinkedPairOk(t: Tree, pending: set<BlockId>, p: BlockId, b: BlockId)
  {
    && b in t.headers && b in t.status && b !in pending
    && t.headers[b].pprev == Some(p) && t.status[b].haveData && t.status[b].nChainTx == 0
  }

  ghost predicate NoDuplicates(s: seq<BlockId>)
  {
    forall i, j :: 0 <= i < j < |s| ==> s[i] != s[j]
  }

  ghost predicate UnlinkedOk(t: Tree, pending: set<BlockId>)
  {
    forall p {:trigger t.unlinked[p]} :: p in t.unlinked ==>
      && NoDuplicates(t.unlinked[p])
      && forall b {:trigger b in t.unlinked[p]} :: b in t.unlinked[p] ==> UnlinkedPairOk(t, pending, p, b)
  }

  /** A failed flag is only ever set at or below a FAILED_VALID block. */
  ghost predicate FlagsOk(t: Tree)
    requires Shape(t)
  {
    forall b {:trigger OnFailedPath(t, b)} :: b in t.headers && t.status[b].Failed() ==> OnFailedPath(t, b)
  }

  /** A block of the active chain is linked, carries no failed flag and has been connected. */
  ghost predicate ActiveBlockOk(t: Tree, ok: BlockId -> bool, b: BlockId)
  {
    && b in t.status && t.status[b].nChainTx > 0 && !t.status[b].Failed() && ok(b)
    && (b != t.genesis ==> t.status[b].validity == VALID_SCRIPTS)
  }

  ghost predicate ActiveOk(t: Tree, ok: BlockId -> bool)
  {
    forall b {:trigger b in t.vChain} :: b in t.vChain ==> ActiveBlockOk(t, ok, b)
  }

  /** Fully received, and no FAILED_VALID block on the path. */
  ghost predicate Usable(t: Tree, b: BlockId)
    requires Shape(t)
  {
    b in t.headers && t.status[b].nChainTx > 0 && !OnFailedPath(t, b)
  }

  /** The candidate set, relative to `floor`: it holds every usable block that sorts no lower than
      the floor, and nothing that sorts lower than the tip.  The floor itself never sorts lower than
      the tip: while a reorganisation is under way it is the tip the node fell back from, and at
      rest it is the tip. */
  ghost predicate CandidatesOk(t: Tree, floor: BlockId)
    requires Shape(t)
  {
    && Usable(t, floor) && !Less(t, floor, Tip(t))
    && (forall c {:trigger c in t.candidates} :: c in t.candidates ==>
          c in t.headers && t.status[c].nChainTx > 0 && !Less(t, c, Tip(t)))
    && (forall b {:trigger Usable(t, b)} :: Usable(t, b) && !Less(t, b, floor) ==> b in t.candidates)
  }

  ghost predicate AllOk(ok: BlockId -> bool, p: seq<BlockId>)
  {
    forall x {:trigger x in p} :: x in p ==> ok(x)
  }

  /** A queued block: received below a linked parent. */
  ghost predicate PendingOk(t: Tree, b: BlockId)
    requires Shape(t)
  {
    && b in t.headers && b != t.genesis && t.status[b].haveData && t.status[b].nChainTx == 0
    && t.status[Parent(t, b)].nChainTx > 0
  }

  ghost predicate PendingInv(t: Tree, ok: BlockId -> bool, floor: BlockId, pending: set<BlockId>)
  {
    && Shape(t) && EntriesOk(t) && UnlinkedOk(t, pending) && FlagsOk(t) && ActiveOk(t, ok)
    && CandidatesOk(t, floor) && AllOk(ok, PathOf(t, floor))
    && forall q {:trigger q in pending} :: q in pending ==> PendingOk(t, q)
  }

  ghost predicate Inv(t: Tree, ok: BlockId -> bool, floor: BlockId)
  {
    PendingInv(t, ok, floor, {})
  }

  /** The invariant when no reorganisation is under way. */
  ghost predicate AtRest(t: Tree, ok: BlockId -> bool)
  {
    t.vChain != [] && Inv(t, ok, Tip(t))
  }

  /** No candidate was added below the floor since it was set. */
  ghost predicate NoneBelowFloor(t: Tree, floor: BlockId)
    requires Shape(t) && floor in t.headers
  {
    forall c {:trigger c in t.candidates} :: c in t.candidates && c in t.headers ==> !Less(t, c, floor)
  }

  // ----- Keeping track of blocks that wait for an ancestor -----

  /** A block on the path was marked failed before its data came; its data is refused from then on, so
      nothing above it will ever be linked. */
  ghost predicate Dead(t: Tree, b: BlockId)
    requires Shape(t) && b in t.headers
  {
    exists x :: x in PathOf(t, b) && x in t.status && t.status[x].Failed() && !t.status[x].haveData
  }

  /** Every child of b has its data or is marked failed: no data will arrive on top of b. */
  ghost predicate Settled(t: Tree, b: BlockId)
    requires Shape(t)
  {
    forall c {:trigger t.headers[c]} :: c in t.headers && t.headers[c].pprev == Some(b) ==>
      t.status[c].haveData || t.status[c].Failed()
  }

  /** A block that holds data is linked if its parent is, and else registered in mapBlocksUnlinked,
      unless it was refused there because it can never be linked.  Blocks in `pending` are those
      ReceivedBlockTransactions has queued for linking but not linked yet. */
  ghost predicate TrackedEntry(t: Tree, pending: set<BlockId>, b: BlockId)
    requires Shape(t) && b in t.headers
  {
    b != t.genesis && t.status[b].haveData && t.status[b].nChainTx == 0 && b !in pending ==>
      var p := Parent(t, b);
      t.status[p].nChainTx == 0 && (InUnlinked(t, p, b) || (t.status[p].Failed() && Dead(t, p)))
  }

  ghost predicate Tracked(t: Tree, pending: set<BlockId>)
  {
    Shape(t) && forall b {:trigger TrackedEntry(t, pending, b)} :: b in t.headers ==> TrackedEntry(t, pending, b)
  }

  /** A failed block that holds data and waits to be linked, as InvalidateBlock can leave one: it will
      never be linked, or no data will arrive on top of it. */
  ghost predicate GuardedEntry(t: Tree, b: BlockId)
    requires Shape(t) && b in t.headers
  {
    t.status[b].Failed() && t.status[b].haveData && t.status[b].nChainTx == 0 ==> Dead(t, b) || Settled(t, b)
  }

  ghost predicate Guarded(t: Tree)
  {
    Shape(t) && forall b {:trigger GuardedEntry(t, b)} :: b in t.headers ==> GuardedEntry(t, b)
  }

  /** No block that has been received is lost track of, now or later. */
  ghost predicate Complete(t: Tree)
  {
    Tracked(t, {}) && Guarded(t)
  }

  // ----- What the entry-local invariant means along a path -----

  ghost function SumTx(t: Tree, p: seq<BlockId>): nat
    requires forall x :: x in p ==> x in t.status
  {
    if p == [] then 0 else SumTx(t, p[..|p| - 1]) + t.status[p[|p| - 1]].nTx
  }

  ghost predicate AllHaveData(t: Tree, b: BlockId)
    requires Shape(t) && b in t.headers
  {
    forall x {:trigger x in PathOf(t, b)} :: x in PathOf(t, b) ==> x in t.status && t.status[x].haveData
  }

  lemma PathKeys(t: Tree, b: BlockId)
    requires Shape(t) && b in t.headers
    ensures forall x :: x in PathOf(t, b) ==> x in t.headers && x in t.status
  {
    forall x | x in PathOf(t, b) ensures x in t.headers {
      var k :| 0 <= k < |PathOf(t, b)| && PathOf(t, b)[k] == x;
      PathInTree(t, b, k);
    }
  }

  /** Every ancestor of a linked block has its data. */
  lemma {:induction false} LinkedHasData(t: Tree, b: BlockId)
    requires Shape(t) && EntriesOk(t) && b in t.headers && Linked(t, b)
    ensures AllHaveData(t, b)
    decreases t.headers[b].nHeight
  {
    assert EntryOk(t, b);
    if b != t.genesis {
      LinkedHasData(t, Parent(t, b));
    }
  }

  /** nChainTx is nonzero exactly when every ancestor has its data. */
  lemma {:induction false} LinkedIffAllData(t: Tree, b: BlockId)
    requires Shape(t) && EntriesOk(t) && Tracked(t, {}) && b in t.headers
    ensures Linked(t, b) <==> AllHaveData(t, b)
    decreases t.headers[b].nHeight
  {
    assert EntryOk(t, b);
    assert TrackedEntry(t, {}, b);
    if b != t.genesis {
      var p := Parent(t, b);
      LinkedIffAllData(t, p);
      assert forall x :: x in PathOf(t, p) ==> x in PathOf(t, b);
      assert b in PathOf(t, b);
    } else {
      assert t.genesis in PathOf(t, b);
    }
  }

  /** nChainTx of a linked block is the number of transactions on its path. */
  lemma {:induction false} ChainTxIsSum(t: Tree, b: BlockId)
    requires Shape(t) && EntriesOk(t) && b in t.headers && Linked(t, b)
    ensures (forall x :: x in PathOf(t, b) ==> x in t.status) && t.status[b].nChainTx == SumTx(t, PathOf(t, b))
    decreases t.headers[b].nHeight
  {
    assert EntryOk(t, b);
    PathKeys(t, b);
    if b != t.genesis {
      var p := Parent(t, b);
      ChainTxIsSum(t, p);
      assert PathOf(t, b)[..|PathOf(t, b)| - 1] == PathOf(t, p);
    } else {
      assert PathOf(t, b) == [b];
      assert [b][..0] == [];
      assert SumTx(t, []) == 0;
    }
  }

  /** Every ancestor of a linked block is linked. */
  lemma {:induction false} LinkedDownward(t: Tree, b: BlockId, k: nat)
    requires Shape(t) && EntriesOk(t) && b in t.headers && Linked(t, b) && k <= t.headers[b].nHeight
    ensures PathOf(t, b)[k] in t.status && Linked(t, PathOf(t, b)[k])
    decreases t.headers[b].nHeight
  {
    assert EntryOk(t, b);
    if k < t.headers[b].nHeight {
      LinkedDownward(t, Parent(t, b), k);
    }
  }

  // ----- CheckBlockIndex -----

  /** Some block on b's path has the property, genesis exempt when `skipGenesis`. */
  ghost predicate SomeOnPath(t: Tree, b: BlockId, skipGenesis: bool, bad: Status -> bool)
    requires Shape(t) && b in t.headers
  {
    exists x {:trigger x in PathOf(t, b)} ::
      x in PathOf(t, b) && x in t.status && !(skipGenesis && x == t.genesis) && bad(t.status[x])
  }

  /** The assertions CheckBlockIndex makes about one entry, in its order, for a node that never pruned.
      IndexWalk.dfy has the walk that makes them. */
  ghost predicate CheckEntry(t: Tree, b: BlockId)
    requires Shape(t) && b in t.headers
  {
    var s := t.status[b];
    var firstInvalid := SomeOnPath(t, b, false, (x: Status) => x.failedValid);
    var firstMissing := SomeOnPath(t, b, false, (x: Status) => !x.haveData);
    var firstNeverProcessed := SomeOnPath(t, b, false, (x: Status) => x.nTx == 0);
    var firstNotTreeValid := SomeOnPath(t, b, true, (x: Status) => x.validity < VALID_TREE);
    var firstNotTransactionsValid := SomeOnPath(t, b, true, (x: Status) => x.validity < VALID_TRANSACTIONS);
    var firstNotChainValid := SomeOnPath(t, b, true, (x: Status) => x.validity < VALID_CHAIN);
    var firstNotScriptsValid := SomeOnPath(t, b, true, (x: Status) => x.validity < VALID_SCRIPTS);
    var foundInUnlinked := t.headers[b].pprev.Some? && InUnlinked(t, t.headers[b].pprev.value, b);
    && (t.headers[b].pprev == None ==> b == t.genesis && b == t.vChain[0])
    && (s.nChainTx == 0 ==> s.nSequenceId == 0)
    && (!s.haveData <==> s.nTx == 0)
    && (firstMissing <==> firstNeverProcessed)
    && (s.haveUndo ==> s.haveData)
    && (s.validity >= VALID_TRANSACTIONS <==> s.nTx > 0)
    && (firstNeverProcessed <==> s.nChainTx == 0)
    && (firstNotTransactionsValid <==> s.nChainTx == 0)
    && (t.headers[b].pprev.Some? ==>
          t.headers[b].pprev.value in t.headers
            && t.headers[b].nChainWork >= t.headers[t.headers[b].pprev.value].nChainWork)
    && (t.headers[b].nHeight < 2 ||
          (t.headers[b].pskip.Some? && t.headers[b].pskip.value in t.headers &&
           t.headers[t.headers[b].pskip.value].nHeight < t.headers[b].nHeight))
    && !firstNotTreeValid
    && (s.validity >= VALID_CHAIN ==> !firstNotChainValid)
    && (s.validity >= VALID_SCRIPTS ==> !firstNotScriptsValid)
    && (!firstInvalid ==> !s.Failed())
    && (if !Less(t, b, Tip(t)) && !firstNeverProcessed then
          (!firstInvalid && (!firstMissing || b == Tip(t)) ==> b in t.candidates)
        else
          b !in t.candidates)
    && (t.headers[b].pprev.Some? && s.haveData && firstNeverProcessed && !firstInvalid ==> foundInUnlinked)
    && (!s.haveData ==> !foundInUnlinked)
    && (!firstMissing ==> !foundInUnlinked)
    && !(t.headers[b].pprev.Some? && s.haveData && !firstNeverProcessed && firstMissing)
  }

  ghost predicate CheckBlockIndex(t: Tree)
  {
    Shape(t) && forall b {:trigger CheckEntry(t, b)} :: b in t.headers ==> CheckEntry(t, b)
  }

  /** The genesis block starts the active chain. */
  lemma ChainStartsAtGenesis(t: Tree)
    requires Shape(t)
    ensures t.vChain[0] == t.genesis && Tip(t) in t.headers && t.vChain == PathOf(t, Tip(t))
  {}

  /** SCRIPTS validity reaches down to genesis. */
  lemma {:induction false} ScriptsValidDownward(t: Tree, b: BlockId, x: BlockId)
    requires Shape(t) && EntriesOk(t) && b in t.headers
    requires t.status[b].validity >= VALID_CHAIN && x in PathOf(t, b) && x != t.genesis
    ensures x in t.status && t.status[x].validity == VALID_SCRIPTS
    decreases t.headers[b].nHeight
  {
    assert EntryOk(t, b);
    if b != t.genesis && x != b {
      var p := Parent(t, b);
      assert x in PathOf(t, p);
      if p != t.genesis {
        ScriptsValidDownward(t, p, x);
      }
    }
  }

  lemma TransactionsValidIffLinked(t: Tree, b: BlockId)
    requires Shape(t) && EntriesOk(t) && Tracked(t, {}) && b in t.headers
    ensures SomeOnPath(t, b, false, (x: Status) => !x.haveData) <==> !Linked(t, b)
    ensures SomeOnPath(t, b, false, (x: Status) => x.nTx == 0) <==> !Linked(t, b)
    ensures SomeOnPath(t, b, true, (x: Status) => x.validity < VALID_TRANSACTIONS) <==> !Linked(t, b)
    ensures !SomeOnPath(t, b, true, (x: Status) => x.validity < VALID_TREE)
  {
    LinkedIffAllData(t, b);
    PathKeys(t, b);
    assert EntryOk(t, t.genesis);
    forall x | x in PathOf(t, b)
      ensures x in t.status && (t.status[x].haveData <==> t.status[x].nTx > 0)
      ensures t.status[x].haveData <==> t.status[x].validity >= VALID_TRANSACTIONS
      ensures t.status[x].validity >= VALID_TREE
    {
      assert EntryOk(t, x);
    }
  }

  /** An unlinked block with data and no invalid ancestor is registered in mapBlocksUnlinked. */
  lemma UnlinkedRegistered(t: Tree, b: BlockId)
    requires Shape(t) && UnlinkedOk(t, {}) && Tracked(t, {}) && FlagsOk(t) && b in t.headers && b != t.genesis
    ensures t.status[b].haveData && !Linked(t, b) && !OnFailedPath(t, b) ==> InUnlinked(t, Parent(t, b), b)
    ensures InUnlinked(t, Parent(t, b), b) ==> t.status[b].haveData && !Linked(t, b)
  {
    assert TrackedEntry(t, {}, b);
    var p := Parent(t, b);
    if t.status[p].Failed() {
      assert OnFailedPath(t, p);
      FailedPathDescends(t, p, b, t.headers[p].nHeight);
    }
  }

  /** The blocks of the active chain are usable. */
  lemma ActiveIsUsable(t: Tree, ok: BlockId -> bool, b: BlockId)
    requires Shape(t) && ActiveOk(t, ok) && b in t.headers && b in t.vChain
    ensures Usable(t, b)
  {
    assert ActiveBlockOk(t, ok, b);
    InChainIffMember(t.headers, t.genesis, t.vChain, b);
    forall k | 0 <= k < |PathOf(t, b)|
      ensures PathOf(t, b)[k] in t.status && !t.status[PathOf(t, b)[k]].failedValid
    {
      InChainDownward(t.headers, t.genesis, t.vChain, b, k);
      assert t.vChain[k] in t.vChain;
      assert ActiveBlockOk(t, ok, t.vChain[k]);
    }
  }

  /** No usable block from the tip up is missing among the candidates. */
  ghost predicate NoneMissing(t: Tree)
    requires Shape(t) && Tip(t) in t.headers
  {
    forall b {:trigger Usable(t, b)} :: Usable(t, b) && !Less(t, b, Tip(t)) ==> b in t.candidates
  }

  lemma CandidateAssertions(t: Tree, ok: BlockId -> bool, floor: BlockId, b: BlockId)
    requires Inv(t, ok, floor) && Tip(t) in t.headers && NoneMissing(t) && b in t.headers
    ensures if !Less(t, b, Tip(t)) && Linked(t, b) then (!OnFailedPath(t, b) ==> b in t.candidates)
            else b !in t.candidates
  {
    assert Usable(t, b) <==> Linked(t, b) && !OnFailedPath(t, b);
  }

  lemma EntryPassesCheck(t: Tree, ok: BlockId -> bool, floor: BlockId, b: BlockId)
    requires Inv(t, ok, floor) && Tracked(t, {}) && Tip(t) in t.headers && NoneMissing(t) && b in t.headers
    ensures CheckEntry(t, b)
  {
    ChainStartsAtGenesis(t);
    assert EntryOk(t, b);
    TransactionsValidIffLinked(t, b);
    CandidateAssertions(t, ok, floor, b);
    assert SomeOnPath(t, b, false, (x: Status) => x.failedValid) <==> OnFailedPath(t, b);
    if t.status[b].validity >= VALID_CHAIN {
      forall x | x in PathOf(t, b) && x != t.genesis ensures x in t.status && t.status[x].validity == VALID_SCRIPTS {
        ScriptsValidDownward(t, b, x);
      }
    }
    if b != t.genesis {
      assert t.headers[b].pprev.Some?;
      UnlinkedRegistered(t, b);
      GetSkipHeightGoesBack(t.headers[b].nHeight);
      assert SkipBuilt(t.headers, t.genesis, b) by { assert t.headers[b].pskip == t.headers[b].pskip; }
      PathInTree(t, b, GetSkipHeight(t.headers[b].nHeight));
    }
  }

  /** CheckBlockIndex passes exactly when no usable block from the tip up is missing among the
      candidates: only those below the floor can be. */
  lemma CheckBlockIndexIff(t: Tree, ok: BlockId -> bool, floor: BlockId)
    requires Inv(t, ok, floor) && Tracked(t, {})
    ensures Tip(t) in t.headers && (CheckBlockIndex(t) <==> NoneMissing(t))
  {
    ChainStartsAtGenesis(t);
    if NoneMissing(t) {
      forall b | b in t.headers ensures CheckEntry(t, b) {
        EntryPassesCheck(t, ok, floor, b);
      }
    } else {
      var b :| Usable(t, b) && !Less(t, b, Tip(t)) && b !in t.candidates;
      MissingFailsCheck(t, b);
    }
  }

  lemma MissingFailsCheck(t: Tree, b: BlockId)
    requires Shape(t) && EntriesOk(t) && Tracked(t, {}) && Tip(t) in t.headers
    requires Usable(t, b) && !Less(t, b, Tip(t)) && b !in t.candidates
    ensures !CheckBlockIndex(t)
  {
    TransactionsValidIffLinked(t, b);
    assert SomeOnPath(t, b, false, (x: Status) => x.failedValid) <==> OnFailedPath(t, b);
    assert !CheckEntry(t, b);
  }

  /** In particular it passes when the tip sorts no lower than the floor. */
  lemma CheckPassesAboveFloor(t: Tree, ok: BlockId -> bool, floor: BlockId)
    requires Inv(t, ok, floor) && Tracked(t, {})
    ensures Tip(t) in t.headers && floor in t.headers
    ensures !Less(t, Tip(t), floor) ==> CheckBlockIndex(t)
  {
    CheckBlockIndexIff(t, ok, floor);
    if !Less(t, Tip(t), floor) {
      forall b | Usable(t, b) && !Less(t, b, Tip(t)) ensures b in t.candidates {
        ComparatorIsStrictTotalOrder(t, b, Tip(t), floor);
      }
    }
  }

  /** And whenever no reorganisation is under way. */
  lemma CheckBlockIndexAtRest(t: Tree, ok: BlockId -> bool)
    requires AtRest(t, ok) && Tracked(t, {})
    ensures CheckBlockIndex(t)
  {
    ComparatorIsStrictTotalOrder(t, Tip(t), Tip(t), Tip(t));
    CheckPassesAboveFloor(t, ok, Tip(t));
  }

  /** Between the turns of a reorganisation, as long as no candidate was added below the floor, it
      passes exactly when the tip sorts no lower than the floor. */
  lemma CheckBlockIndexIffTipAtFloor(t: Tree, ok: BlockId -> bool, floor: BlockId)
    requires Inv(t, ok, floor) && Tracked(t, {}) && NoneBelowFloor(t, floor)
    ensures Tip(t) in t.headers && (CheckBlockIndex(t) <==> !Less(t, Tip(t), floor))
  {
    CheckBlockIndexIff(t, ok, floor);
    if !Less(t, Tip(t), floor) {
      CheckPassesAboveFloor(t, ok, floor);
    } else {
      ActiveIsUsable(t, ok, Tip(t));
      ComparatorIsStrictTotalOrder(t, Tip(t), Tip(t), Tip(t));
    }
  }
}
