/** CChain (src/chain.h, src/chain.cpp): the active chain as a vector indexed by height. */
module ActiveChain {
  import opened Options
  import opened BlockIndex

  /** vChain is empty or exactly the path from genesis to its last element. */
  ghost predicate IsPath(h: Headers, genesis: BlockId, vChain: seq<BlockId>)
    requires WellFormed(h, genesis)
  {
    vChain == [] || (vChain[|vChain| - 1] in h && vChain == Path(h, genesis, vChain[|vChain| - 1]))
  }

  predicate InChain(h: Headers, vChain: seq<BlockId>, b: BlockId)
    requires b in h
  {
    h[b].nHeight < |vChain| && vChain[h[b].nHeight] == b
  }

  /** Membership by height is membership: a block is in the chain iff the chain passes through it. */
  lemma InChainIffMember(h: Headers, genesis: BlockId, vChain: seq<BlockId>, b: BlockId)
    requires WellFormed(h, genesis) && IsPath(h, genesis, vChain) && b in h
    ensures InChain(h, vChain, b) <==> b in vChain
  {
    if b in vChain {
      var k :| 0 <= k < |vChain| && vChain[k] == b;
      PathPrefix(h, genesis, vChain[|vChain| - 1], k);
    }
  }

  /** Below a block of the chain everything is in the chain. */
  lemma InChainDownward(h: Headers, genesis: BlockId, vChain: seq<BlockId>, b: BlockId, k: nat)
    requires WellFormed(h, genesis) && IsPath(h, genesis, vChain) && b in h && k <= h[b].nHeight
    requires InChain(h, vChain, b)
    ensures vChain[..h[b].nHeight + 1] == Path(h, genesis, b)
    ensures k < |vChain| && vChain[k] == Path(h, genesis, b)[k]
  {
    SharedBlock(h, genesis, vChain[|vChain| - 1], b, h[b].nHeight);
    var p := Path(h, genesis, b);
    assert p[..h[b].nHeight + 1] == p;
    assert vChain[..h[b].nHeight + 1] == p;
    assert vChain[k] == vChain[..h[b].nHeight + 1][k];
  }

  /** Above index f the two sequences differ everywhere. */
  ghost predicate DisjointAbove(s: seq<BlockId>, t: seq<BlockId>, f: int)
    requires f >= -1
  {
    forall k :: f < k < |s| && k < |t| ==> s[k] != t[k]
  }

  lemma DisjointStep(s: seq<BlockId>, t: seq<BlockId>, f: nat)
    requires DisjointAbove(s, t, f) && f < |s| && f < |t| && s[f] != t[f]
    ensures DisjointAbove(s, t, f - 1)
  {}

  /** The height of the last common block of the chain and b's path. */
  ghost predicate IsForkHeight(h: Headers, genesis: BlockId, vChain: seq<BlockId>, b: BlockId, f: nat)
    requires WellFormed(h, genesis) && b in h
  {
    && f <= h[b].nHeight && f < |vChain| && vChain[f] == Ancestor(h, genesis, b, f)
    && DisjointAbove(vChain, Path(h, genesis, b), f)
  }

  /** There is one fork height. */
  lemma ForkIsUnique(h: Headers, genesis: BlockId, vChain: seq<BlockId>, b: BlockId, f: nat, g: nat)
    requires WellFormed(h, genesis) && b in h
    requires IsForkHeight(h, genesis, vChain, b, f) && IsForkHeight(h, genesis, vChain, b, g)
    ensures f == g
  {
    assert vChain[f] == Path(h, genesis, b)[f] && vChain[g] == Path(h, genesis, b)[g];
  }

  /** One pprev step of a walk down the path of b. */
  method StepDown(h: Headers, ghost genesis: BlockId, ghost b: BlockId, x: BlockId, ghost k: nat)
    returns (parent: Option<BlockId>)
    requires WellFormed(h, genesis) && b in h && k <= h[b].nHeight && x == Path(h, genesis, b)[k]
    ensures parent == if k > 0 then Some(Path(h, genesis, b)[k - 1]) else None
    ensures parent.Some? ==> parent.value in h && h[parent.value].nHeight == k - 1
  {
    if k > 0 {
      PathStep(h, genesis, b, k);
      PathPrefix(h, genesis, b, k - 1);
    }
    parent := h[x].pprev;
  }

  class Chain {
    var vChain: seq<BlockId>

    constructor ()
      ensures vChain == []
    {
      vChain := [];
    }

    /** CChain::SetTip: the loop that stops at the first block already in place leaves
        exactly the new tip's ancestor path. */
    method SetTip(h: Headers, ghost genesis: BlockId, pindexNew: Option<BlockId>)
      requires WellFormed(h, genesis) && IsPath(h, genesis, vChain)
      requires pindexNew.Some? ==> pindexNew.value in h
      modifies this
      ensures vChain == if pindexNew.None? then [] else Path(h, genesis, pindexNew.value)
    {
      if pindexNew.None? {
        vChain := [];
        return;
      }
      ghost var path := Path(h, genesis, pindexNew.value);
      ghost var was := vChain;
      // Resizing keeps the common prefix and fills up with null pointers.
      var resized := seq(h[pindexNew.value].nHeight + 1, i requires 0 <= i reads this =>
        if i < |vChain| then Some(vChain[i]) else None);
      var pindex := pindexNew;
      ghost var k := |path| - 1;
      while pindex.Some? && resized[h[pindex.value].nHeight] != pindex
        invariant -1 <= k < |path| && |resized| == |path|
        invariant pindex == if k >= 0 then Some(path[k]) else None
        invariant pindex.Some? ==> pindex.value in h && h[pindex.value].nHeight == k
        invariant forall j :: k < j < |path| ==> resized[j] == Some(path[j])
        invariant forall j :: 0 <= j <= k ==> resized[j] == if j < |was| then Some(was[j]) else None
        decreases k
      {
        resized := resized[h[pindex.value].nHeight := pindex];
        pindex := StepDown(h, genesis, pindexNew.value, pindex.value, k);
        k := k - 1;
      }
      if k >= 0 {
        SharedBlock(h, genesis, was[|was| - 1], pindexNew.value, k);
        assert forall j :: 0 <= j <= k ==> was[j] == was[..k + 1][j] == path[..k + 1][j] == path[j];
      }
      assert forall j :: 0 <= j < |path| ==> resized[j] == Some(path[j]);
      vChain := seq(|resized|, i requires 0 <= i < |resized| && resized[i].Some? => resized[i].value);
      assert vChain == path;
    }

    /** CChain::FindFork: the highest block of b's path that is in the chain. */
    method FindFork(h: Headers, ghost genesis: BlockId, b: BlockId) returns (fork: Option<BlockId>)
      requires WellFormed(h, genesis) && SkipsBuilt(h, genesis) && IsPath(h, genesis, vChain) && b in h
      ensures vChain != [] ==> fork.Some? && fork.value in h && InChain(h, vChain, fork.value)
      ensures vChain != [] ==> IsForkHeight(h, genesis, vChain, b, h[fork.value].nHeight)
      ensures vChain == [] ==> fork == None
    {
      hide WellFormed, SkipsBuilt;
      fork := Some(b);
      if h[b].nHeight > |vChain| - 1 {
        fork := GetAncestor(h, genesis, b, |vChain| - 1);
      }
      ghost var k := if h[b].nHeight > |vChain| - 1 then |vChain| - 1 else h[b].nHeight;
      if k >= 0 {
        PathPrefix(h, genesis, b, k);
      }
      while fork.Some? && !InChain(h, vChain, fork.value)
        invariant -1 <= k <= h[b].nHeight && k < |vChain|
        invariant fork == if k >= 0 then Some(Path(h, genesis, b)[k]) else None
        invariant fork.Some? ==> fork.value in h && h[fork.value].nHeight == k
        invariant DisjointAbove(vChain, Path(h, genesis, b), k)
        decreases k
      {
        DisjointStep(vChain, Path(h, genesis, b), k);
        fork := StepDown(h, genesis, b, fork.value, k);
        k := k - 1;
      }
    }
  }
}
