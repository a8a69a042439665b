/** No received block is lost track of: each change main.cpp makes to the block tree keeps every block
    with data linked, registered in mapBlocksUnlinked, or beyond linking. */
module Tracking {
  import opened Options
  import opened BlockIndex
  import opened ActiveChain
  import opened BlockTree
  import opened BlockTreeSteps
  import opened BestChain

  // ----- Dead and settled blocks stay so -----

  /** Flags and data marks only grow; data comes only to blocks that are not failed. */
  ghost predicate StatusGrows(s: Status, s': Status)
  {
    (s.Failed() ==> s'.Failed() && s'.haveData == s.haveData) && (s.haveData ==> s'.haveData)
  }

  ghost predicate Grows(t: Tree, t': Tree)
  {
    && t'.genesis == t.genesis && t'.headers == t.headers && t'.status.Keys == t.status.Keys
    && forall b {:trigger t'.status[b]} :: b in t.status ==> StatusGrows(t.status[b], t'.status[b])
  }

  lemma GrowsKeepsDead(t: Tree, t': Tree, b: BlockId)
    requires Shape(t) && Shape(t') && Grows(t, t') && b in t.headers
    ensures Dead(t, b) ==> Dead(t', b)
  {
    if Dead(t, b) {
      var x :| x in PathOf(t, b) && x in t.status && t.status[x].Failed() && !t.status[x].haveData;
      assert PathOf(t', b) == PathOf(t, b);
      assert t'.status[x].Failed() && !t'.status[x].haveData;
    }
  }

  lemma GrowsKeepsSettled(t: Tree, t': Tree, b: BlockId)
    requires Shape(t) && Shape(t') && Grows(t, t')
    ensures Settled(t, b) ==> Settled(t', b)
  {
    if Settled(t, b) {
      forall c | c in t'.headers && t'.headers[c].pprev == Some(b)
        ensures t'.status[c].haveData || t'.status[c].Failed()
      {
        assert t.headers[c] == t.headers[c];
        assert StatusGrows(t.status[c], t'.status[c]);
      }
    }
  }

  // ----- Flags -----

  lemma FlagsGrow(t: Tree, t': Tree)
    requires OnlyFlagsAdded(t, t')
    ensures Grows(t, t')
  {}

  lemma FlagsKeepTracked(t: Tree, t': Tree, pending: set<BlockId>)
    requires Shape(t) && Shape(t') && OnlyFlagsAdded(t, t') && Tracked(t, pending)
    ensures Tracked(t', pending)
  {
    hide SkipsBuilt, WellFormed, IsPath, Dead;
    FlagsGrow(t, t');
    forall b | b in t'.headers ensures TrackedEntry(t', pending, b) {
      assert TrackedEntry(t, pending, b);
      assert t'.status[b] == t'.status[b];
      if b != t.genesis {
        assert Parent(t', b) == Parent(t, b);
        assert t'.status[Parent(t, b)] == t'.status[Parent(t, b)];
        GrowsKeepsDead(t, t', Parent(t, b));
      }
    }
  }

  /** Flagging must spare blocks that wait with data and may still get data on top of them. */
  lemma FlagsKeepComplete(t: Tree, t': Tree)
    requires Shape(t) && Shape(t') && OnlyFlagsAdded(t, t') && Complete(t)
    requires forall b :: b in t.headers && t'.status[b].Failed() && !t.status[b].Failed() ==>
               t.status[b].nChainTx > 0 || !t.status[b].haveData || Dead(t, b) || Settled(t, b)
    ensures Complete(t')
  {
    hide SkipsBuilt, WellFormed, IsPath, Dead, Settled;
    FlagsKeepTracked(t, t', {});
    FlagsGrow(t, t');
    forall b | b in t'.headers ensures GuardedEntry(t', b) {
      assert GuardedEntry(t, b);
      assert t'.status[b] == t'.status[b];
      GrowsKeepsDead(t, t', b);
      GrowsKeepsSettled(t, t', b);
    }
  }

  // ----- Headers -----

  lemma HeaderKeepsDead(t: Tree, t': Tree, id: BlockId, b: BlockId)
    requires Shape(t) && Shape(t') && HeaderAdded(t, t', id) && b in t.headers
    ensures Dead(t, b) ==> Dead(t', b)
  {
    if Dead(t, b) {
      var x :| x in PathOf(t, b) && x in t.status && t.status[x].Failed() && !t.status[x].haveData;
      assert PathOf(t', b) == PathOf(t, b);
      assert t'.status[x] == t.status[x];
    }
  }

  /** A header is only taken on a parent that is not failed. */
  lemma HeaderKeepsComplete(t: Tree, t': Tree, id: BlockId, p: BlockId)
    requires Shape(t) && Shape(t') && HeaderAdded(t, t', id) && Complete(t)
    requires t'.headers[id].pprev == Some(p) && p in t.headers && !t.status[p].Failed()
    ensures Complete(t')
  {
    hide SkipsBuilt, WellFormed, IsPath, Dead;
    forall b | b in t'.headers ensures TrackedEntry(t', {}, b) && GuardedEntry(t', b) {
      if b != id {
        assert TrackedEntry(t, {}, b) && GuardedEntry(t, b);
        HeaderKeepsDead(t, t', id, b);
        if b != t.genesis {
          assert Parent(t', b) == Parent(t, b);
          HeaderKeepsDead(t, t', id, Parent(t, b));
        }
        if b != p && Settled(t, b) {
          HeaderKeepsSettled(t, t', id, p, b);
        }
      }
    }
  }

  lemma HeaderKeepsSettled(t: Tree, t': Tree, id: BlockId, p: BlockId, b: BlockId)
    requires Shape(t) && Shape(t') && HeaderAdded(t, t', id) && Settled(t, b)
    requires t'.headers[id].pprev == Some(p) && b != p
    ensures Settled(t', b)
  {
    forall c | c in t'.headers && t'.headers[c].pprev == Some(b)
      ensures t'.status[c].haveData || t'.status[c].Failed()
    {
      assert c != id && t.headers[c] == t'.headers[c];
    }
  }

  // ----- Data -----

  lemma DataGrows(t: Tree, t': Tree, b: BlockId, nTx: nat)
    requires Shape(t) && DataReceived(t, t', b, nTx)
    ensures Shape(t') && Grows(t, t')
  {}

  lemma DataKeepsGuarded(t: Tree, t': Tree, b: BlockId, nTx: nat)
    requires Shape(t) && DataReceived(t, t', b, nTx) && Guarded(t)
    ensures Guarded(t')
  {
    hide SkipsBuilt, WellFormed, IsPath, Dead, Settled;
    DataGrows(t, t', b, nTx);
    forall x | x in t'.headers ensures GuardedEntry(t', x) {
      assert GuardedEntry(t, x);
      GrowsKeepsDead(t, t', x);
      GrowsKeepsSettled(t, t', x);
    }
  }

  /** The blocks that were tracked are, when b's data comes. */
  lemma DataKeepsOthers(t: Tree, t': Tree, pending: set<BlockId>, b: BlockId, nTx: nat, x: BlockId)
    requires Shape(t) && EntriesOk(t) && DataReceived(t, t', b, nTx) && Tracked(t, {}) && x in t.headers && x != b
    requires forall p, y :: InUnlinked(t, p, y) ==> InUnlinked(t', p, y)
    ensures Shape(t') && TrackedEntry(t', pending, x)
  {
    hide SkipsBuilt, WellFormed, IsPath, Dead;
    DataGrows(t, t', b, nTx);
    assert TrackedEntry(t, {}, x);
    assert EntryOk(t, b);
    if x != t.genesis {
      assert Parent(t', x) == Parent(t, x);
      GrowsKeepsDead(t, t', Parent(t, x));
    }
  }

  lemma DataQueuedTracked(t: Tree, t': Tree, b: BlockId, nTx: nat)
    requires Shape(t) && EntriesOk(t) && DataReceived(t, t', b, nTx) && t'.unlinked == t.unlinked && Complete(t)
    ensures Tracked(t', {b}) && Guarded(t')
  {
    DataKeepsGuarded(t, t', b, nTx);
    forall x | x in t'.headers ensures TrackedEntry(t', {b}, x) {
      if x != b {
        DataKeepsOthers(t, t', {b}, b, nTx, x);
      }
    }
  }

  /** A block is refused registration below a failed parent, which then can never be linked. */
  lemma FailedParentIsDead(t: Tree, b: BlockId)
    requires Shape(t) && Guarded(t) && b in t.headers && b != t.genesis && !t.status[b].haveData
             && !t.status[b].Failed()
    requires t.status[Parent(t, b)].Failed() && t.status[Parent(t, b)].nChainTx == 0
    ensures Dead(t, Parent(t, b))
  {
    var p := Parent(t, b);
    assert GuardedEntry(t, p);
    assert t.headers[b].pprev == Some(p);
    if !t.status[p].haveData {
      assert p in PathOf(t, p);
    }
  }

  lemma DataRegisteredComplete(t: Tree, t': Tree, b: BlockId, nTx: nat)
    requires Shape(t) && EntriesOk(t) && UnlinkedOk(t, {}) && DataReceived(t, t', b, nTx) && Complete(t)
    requires t.status[Parent(t, b)].nChainTx == 0
    requires var p := Parent(t, b);
             t'.unlinked == if t.status[p].Failed() then t.unlinked
                            else t.unlinked[p := (if p in t.unlinked then t.unlinked[p] else []) + [b]]
    ensures Complete(t')
  {
    hide SkipsBuilt, WellFormed, IsPath, Dead, Guarded;
    var p := Parent(t, b);
    assert EntryOk(t, b);
    RegisterKeepsUnlinked(t, t', b, nTx);
    DataKeepsGuarded(t, t', b, nTx);
    DataGrows(t, t', b, nTx);
    forall x | x in t'.headers ensures TrackedEntry(t', {}, x) {
      if x != b {
        DataKeepsOthers(t, t', {}, b, nTx, x);
      } else {
        assert Parent(t', b) == p;
        if t.status[p].Failed() {
          FailedParentIsDead(t, b);
          GrowsKeepsDead(t, t', p);
        }
      }
    }
  }

  // ----- Linking -----

  /** A queued block is not dead, so all its waiting children are registered and move to the queue. */
  lemma LinkKeepsTracked(t: Tree, t': Tree, pending: set<BlockId>, x: BlockId, kids: seq<BlockId>)
    requires Shape(t) && EntriesOk(t) && Tracked(t, pending) && LinkedUp(t, t', x, kids) && x in pending
    requires forall q :: q in pending ==> PendingOk(t, q)
    ensures Tracked(t', Requeued(pending, x, kids))
  {
    hide SkipsBuilt, WellFormed, IsPath, Dead;
    var pending' := Requeued(pending, x, kids);
    QueuedNotDead(t, x);
    assert Shape(t') && Grows(t, t');
    forall b | b in t'.headers ensures TrackedEntry(t', pending', b) {
      assert TrackedEntry(t, pending, b);
      assert EntryOk(t, b);
      if b != t.genesis {
        assert Parent(t', b) == Parent(t, b);
        GrowsKeepsDead(t, t', Parent(t, b));
        assert b in pending ==> PendingOk(t, b);
      }
    }
  }

  lemma QueuedNotDead(t: Tree, x: BlockId)
    requires Shape(t) && EntriesOk(t) && PendingOk(t, x)
    ensures !Dead(t, x)
  {
    LinkedHasData(t, Parent(t, x));
  }

  lemma LinkKeepsGuarded(t: Tree, t': Tree, x: BlockId, kids: seq<BlockId>)
    requires Shape(t) && Guarded(t) && LinkedUp(t, t', x, kids)
    ensures Guarded(t')
  {
    hide SkipsBuilt, WellFormed, IsPath, Dead, Settled;
    assert Shape(t') && Grows(t, t');
    forall b | b in t'.headers ensures GuardedEntry(t', b) {
      assert GuardedEntry(t, b);
      GrowsKeepsDead(t, t', b);
      GrowsKeepsSettled(t, t', b);
    }
  }

  // ----- Activation -----

  lemma ProgressGrows(t: Tree, t': Tree, ok: BlockId -> bool)
    requires Progress(t, t', ok)
    ensures Grows(t, t')
  {
    forall b | b in t.status ensures StatusGrows(t.status[b], t'.status[b]) {
      assert EntryProgress(t.status[b], t'.status[b], ok(b));
    }
  }

  /** Activating a better chain only flags linked blocks. */
  lemma ProgressKeepsComplete(t: Tree, t': Tree, ok: BlockId -> bool)
    requires Shape(t') && Progress(t, t', ok) && Complete(t)
    ensures Complete(t')
  {
    hide SkipsBuilt, WellFormed, IsPath, Dead, Settled;
    ProgressGrows(t, t', ok);
    forall b | b in t'.headers ensures TrackedEntry(t', {}, b) && GuardedEntry(t', b) {
      assert TrackedEntry(t, {}, b) && GuardedEntry(t, b);
      assert EntryProgress(t.status[b], t'.status[b], ok(b));
      GrowsKeepsDead(t, t', b);
      GrowsKeepsSettled(t, t', b);
      if b != t.genesis {
        assert Parent(t', b) == Parent(t, b);
        assert EntryProgress(t.status[Parent(t, b)], t'.status[Parent(t, b)], ok(Parent(t, b)));
        GrowsKeepsDead(t, t', Parent(t, b));
      }
    }
  }
}
