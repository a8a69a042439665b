/** What it means that CheckBlockIndex passes, block by block: its assertions about whole paths come down
    to conditions on a block and its parent (src/main.cpp: CheckBlockIndex). */
module IndexMeaning {
  import opened Options
  import opened BlockIndex
  import opened BlockTree

  /** Data, transaction counts, undo data and validity of a block agree. */
  ghost predicate FieldsAgree(s: Status) {
    && (s.haveData <==> s.nTx > 0) && (s.validity >= 3 <==> s.nTx > 0)
    && (s.haveUndo ==> s.haveData) && (s.nSequenceId != 0 ==> s.nChainTx > 0)
  }

  /** A block is linked exactly if it has transactions and its parent is linked, and it is valid as a
      chain, or to its scripts, only if its parent is; genesis is linked. */
  ghost predicate FitsParent(t: Tree, b: BlockId)
    requires Shape(t) && b in t.headers
  {
    var s := t.status[b];
    if b == t.genesis then s.nTx > 0 && s.nChainTx > 0
    else
      var p := t.headers[b].pprev.value;
      && (s.nChainTx > 0 <==> s.nTx > 0 && t.status[p].nChainTx > 0)
      && s.validity >= 2
      && (s.validity >= 4 && p != t.genesis ==> t.status[p].validity >= 4)
      && (s.validity >= 5 && p != t.genesis ==> t.status[p].validity >= 5)
  }

  /** Failed flags, candidates and the blocks that wait for an ancestor. */
  ghost predicate Filed(t: Tree, b: BlockId)
    requires Shape(t) && b in t.headers && Tip(t) in t.headers
  {
    var s := t.status[b];
    && (s.failedChild ==> OnFailedPath(t, b))
    && (b in t.candidates ==> s.nChainTx > 0 && !Less(t, b, Tip(t)))
    && (s.nChainTx > 0 && !OnFailedPath(t, b) && !Less(t, b, Tip(t)) ==> b in t.candidates)
    && (b != t.genesis ==>
          var waits := InUnlinked(t, t.headers[b].pprev.value, b);
          && (waits ==> s.haveData && s.nChainTx == 0)
          && (s.haveData && s.nChainTx == 0 && !OnFailedPath(t, b) ==> waits))
  }

  ghost predicate EntryFits(t: Tree, b: BlockId)
    requires Shape(t) && b in t.headers && Tip(t) in t.headers
  {
    FieldsAgree(t.status[b]) && FitsParent(t, b) && Filed(t, b)
  }

  /** The blocks of a path are those of the parent's and the block itself. */
  lemma SomeNext(t: Tree, b: BlockId, skipGenesis: bool, bad: Status -> bool)
    requires Shape(t) && b in t.headers
    ensures b == t.genesis ==> (SomeOnPath(t, b, skipGenesis, bad) <==> !skipGenesis && bad(t.status[b]))
    ensures b != t.genesis ==>
              (SomeOnPath(t, b, skipGenesis, bad) <==>
               SomeOnPath(t, Parent(t, b), skipGenesis, bad) || bad(t.status[b]))
  {
    hide SkipsBuilt;
    if b == t.genesis {
      assert PathOf(t, b) == [b];
      assert b in PathOf(t, b);
    } else {
      var p := Parent(t, b);
      assert PathOf(t, b) == PathOf(t, p) + [b];
      assert b in PathOf(t, b);
      forall x | x in PathOf(t, p) ensures x in PathOf(t, b) {}
    }
  }

  /** What CheckEntry takes from the path. */
  ghost predicate PathSays(t: Tree, b: BlockId)
    requires Shape(t) && b in t.headers
  {
    var s := t.status[b];
    && (SomeOnPath(t, b, false, (x: Status) => !x.haveData) <==> s.nChainTx == 0)
    && (SomeOnPath(t, b, false, (x: Status) => x.nTx == 0) <==> s.nChainTx == 0)
    && (SomeOnPath(t, b, true, (x: Status) => x.validity < VALID_TRANSACTIONS) <==> s.nChainTx == 0)
    && !SomeOnPath(t, b, true, (x: Status) => x.validity < VALID_TREE)
    && (s.validity >= VALID_CHAIN ==> !SomeOnPath(t, b, true, (x: Status) => x.validity < VALID_CHAIN))
    && (s.validity >= VALID_SCRIPTS ==> !SomeOnPath(t, b, true, (x: Status) => x.validity < VALID_SCRIPTS))
  }

  lemma GenesisSays(t: Tree)
    requires Shape(t) && FieldsAgree(t.status[t.genesis])
    ensures PathSays(t, t.genesis) <==> FitsParent(t, t.genesis)
  {
    hide SkipsBuilt, SomeOnPath;
    SomeNext(t, t.genesis, false, (x: Status) => !x.haveData);
    SomeNext(t, t.genesis, false, (x: Status) => x.nTx == 0);
    SomeNext(t, t.genesis, true, (x: Status) => x.validity < VALID_TRANSACTIONS);
    SomeNext(t, t.genesis, true, (x: Status) => x.validity < VALID_TREE);
    SomeNext(t, t.genesis, true, (x: Status) => x.validity < VALID_CHAIN);
    SomeNext(t, t.genesis, true, (x: Status) => x.validity < VALID_SCRIPTS);
  }

  lemma NextSays(t: Tree, b: BlockId)
    requires Shape(t) && b in t.headers && b != t.genesis && FieldsAgree(t.status[b]) && PathSays(t, Parent(t, b))
    ensures PathSays(t, b) <==> FitsParent(t, b)
  {
    hide SkipsBuilt, SomeOnPath;
    var p := Parent(t, b);
    SomeNext(t, b, false, (x: Status) => !x.haveData);
    SomeNext(t, b, false, (x: Status) => x.nTx == 0);
    SomeNext(t, b, true, (x: Status) => x.validity < VALID_TRANSACTIONS);
    SomeNext(t, b, true, (x: Status) => x.validity < VALID_TREE);
    SomeNext(t, b, true, (x: Status) => x.validity < VALID_CHAIN);
    SomeNext(t, b, true, (x: Status) => x.validity < VALID_SCRIPTS);
    SomeNext(t, p, true, (x: Status) => x.validity < VALID_CHAIN);
    SomeNext(t, p, true, (x: Status) => x.validity < VALID_SCRIPTS);
  }

  ghost predicate AllFit(t: Tree)
    requires Shape(t)
  {
    forall x {:trigger FitsParent(t, x)} :: x in t.headers ==> FieldsAgree(t.status[x]) && FitsParent(t, x)
  }

  /** Down a path on which every block fits its parent. */
  lemma {:induction false} FitsDown(t: Tree, b: BlockId)
    requires Shape(t) && b in t.headers
    requires AllFit(t)
    ensures PathSays(t, b)
    decreases t.headers[b].nHeight
  {
    hide SkipsBuilt, PathSays, FitsParent;
    assert FitsParent(t, b) by { assert b in t.headers; }
    if b == t.genesis {
      GenesisSays(t);
    } else {
      FitsDown(t, Parent(t, b));
      NextSays(t, b);
    }
  }

  /** What one block's assertions say, beside its path. */
  lemma EntryIs(t: Tree, b: BlockId)
    requires Shape(t) && b in t.headers && Tip(t) in t.headers
    ensures CheckEntry(t, b) <==> FieldsAgree(t.status[b]) && PathSays(t, b) && Filed(t, b)
  {
    hide SkipsBuilt, SomeOnPath, SortsBefore;
    ChainStartsAtGenesis(t);
    assert SomeOnPath(t, b, false, (x: Status) => x.failedValid) <==> OnFailedPath(t, b) by { FailedIs(t, b); }
    SkipIs(t, b);
  }

  lemma FailedIs(t: Tree, b: BlockId)
    requires Shape(t) && b in t.headers
    ensures SomeOnPath(t, b, false, (x: Status) => x.failedValid) <==> OnFailedPath(t, b)
    ensures t.status[b].failedValid ==> OnFailedPath(t, b)
  {
    assert b in PathOf(t, b);
  }

  lemma SkipIs(t: Tree, b: BlockId)
    requires Shape(t) && b in t.headers
    ensures t.headers[b].pprev == None <==> b == t.genesis
    ensures t.headers[b].nHeight >= 2 ==>
              t.headers[b].pskip.Some? && t.headers[b].pskip.value in t.headers
              && t.headers[t.headers[b].pskip.value].nHeight < t.headers[b].nHeight
  {
    if t.headers[b].nHeight >= 2 {
      assert b != t.genesis;
      GetSkipHeightGoesBack(t.headers[b].nHeight);
      assert SkipBuilt(t.headers, t.genesis, b) by { assert t.headers[b].pskip == t.headers[b].pskip; }
      PathInTree(t, b, GetSkipHeight(t.headers[b].nHeight));
    }
  }

  /** CheckBlockIndex passes if and only if every block fits its parent and is filed where it belongs. */
  lemma CheckMeans(t: Tree)
    requires Shape(t)
    ensures Tip(t) in t.headers
    ensures CheckBlockIndex(t) <==>
            forall b {:trigger EntryFits(t, b)} :: b in t.headers ==> EntryFits(t, b)
  {
    hide SkipsBuilt, WellFormed, PathSays, FitsParent, Filed, CheckEntry, FieldsAgree;
    ChainStartsAtGenesis(t);
    forall b | b in t.headers
      ensures CheckEntry(t, b) <==> FieldsAgree(t.status[b]) && PathSays(t, b) && Filed(t, b)
    {
      EntryIs(t, b);
    }
    if CheckBlockIndex(t) {
      forall b | b in t.headers ensures EntryFits(t, b) {
        assert CheckEntry(t, b);
        if b == t.genesis {
          GenesisSays(t);
        } else {
          assert CheckEntry(t, Parent(t, b));
          NextSays(t, b);
        }
      }
    }
    if forall b {:trigger EntryFits(t, b)} :: b in t.headers ==> EntryFits(t, b) {
      forall b | b in t.headers ensures CheckEntry(t, b) {
        assert EntryFits(t, b);
        forall x | x in t.headers ensures FieldsAgree(t.status[x]) && FitsParent(t, x) { assert EntryFits(t, x); }
        assert AllFit(t);
        FitsDown(t, b);
      }
    }
  }
}
