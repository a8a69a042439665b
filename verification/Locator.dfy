/** Block locators: CChain::GetLocator (src/chain.cpp) and FindForkInGlobalIndex (src/main.cpp). */
module Locator {
  import opened Options
  import opened BlockIndex
  import opened ActiveChain

  function Pow2(n: nat): (r: nat)
    ensures r > n
  {
    if n == 0 then 1 else 2 * Pow2(n - 1)
  }

  function Max(a: int, b: int): int { if a < b then b else a }

  /** How far behind its first entry the i-th entry of a locator lies, genesis permitting:
      steps of one up to the twelfth entry, doubling after that. */
  function Offset(i: nat): nat {
    if i <= 11 then i else 9 + Pow2(i - 10)
  }

  lemma {:induction false} OffsetGrows(i: nat, j: nat)
    requires i < j
    ensures Offset(i) < Offset(j)
    decreases j - i
  {
    assert i >= 11 ==> Pow2(i - 9) == 2 * Pow2(i - 10);
    if i + 1 < j {
      OffsetGrows(i + 1, j);
    }
  }

  /** Entry i of the locator of b. */
  ghost function Entry(h: Headers, genesis: BlockId, b: BlockId, i: nat): BlockId
    requires WellFormed(h, genesis) && b in h
  {
    Ancestor(h, genesis, b, Max(h[b].nHeight - Offset(i), 0))
  }

  /** The locator of b: its entries up to the first one that reaches genesis. */
  ghost predicate IsLocator(h: Headers, genesis: BlockId, b: BlockId, vHave: seq<BlockId>)
    requires WellFormed(h, genesis) && b in h
  {
    && vHave != []
    && (forall i :: 0 <= i < |vHave| ==> vHave[i] == Entry(h, genesis, b, i))
    && (forall i :: 0 <= i < |vHave| - 1 ==> Offset(i) < h[b].nHeight)
    && Offset(|vHave| - 1) >= h[b].nHeight
  }

  /** CChain::GetLocator; the jump goes through the chain's vector where it can. */
  method GetLocator(h: Headers, ghost genesis: BlockId, chain: Chain, start: Option<BlockId>)
    returns (vHave: seq<BlockId>)
    requires WellFormed(h, genesis) && SkipsBuilt(h, genesis) && IsPath(h, genesis, chain.vChain)
    requires start.Some? ==> start.value in h
    ensures start == None && chain.vChain == [] ==> vHave == []
    ensures start == None && chain.vChain != [] ==> IsLocator(h, genesis, chain.vChain[|chain.vChain| - 1], vHave)
    ensures start.Some? ==> IsLocator(h, genesis, start.value, vHave)
  {
    vHave := [];
    if start == None && chain.vChain == [] {
      return;
    }
    var b := if start.Some? then start.value else chain.vChain[|chain.vChain| - 1];
    vHave := GetLocatorFrom(h, genesis, chain.vChain, b);
  }

  method GetLocatorFrom(h: Headers, ghost genesis: BlockId, vChain: seq<BlockId>, b: BlockId)
    returns (vHave: seq<BlockId>)
    requires WellFormed(h, genesis) && SkipsBuilt(h, genesis) && IsPath(h, genesis, vChain) && b in h
    ensures IsLocator(h, genesis, b, vHave)
  {
    hide SkipsBuilt, WellFormed, IsPath;
    var nStep := 1;
    vHave := [];
    var pindex := b;
    PathPrefix(h, genesis, b, h[b].nHeight);
    while true
      invariant pindex in h && h[pindex].nHeight == Max(h[b].nHeight - Offset(|vHave|), 0)
      invariant pindex == Entry(h, genesis, b, |vHave|)
      invariant nStep == if |vHave| < 11 then 1 else Pow2(|vHave| - 10)
      invariant forall j :: 0 <= j < |vHave| ==> vHave[j] == Entry(h, genesis, b, j) && Offset(j) < h[b].nHeight
      decreases h[b].nHeight - Offset(|vHave|)
    {
      ghost var i := |vHave|;
      vHave := vHave + [pindex];
      if h[pindex].nHeight == 0 {
        break;
      }
      OffsetStep(i);
      pindex := NextEntry(h, genesis, vChain, b, pindex, i, nStep);
      if |vHave| > 10 {
        nStep := nStep * 2;
      }
    }
  }

  /** One move of GetLocator's walk. */
  method NextEntry(h: Headers, ghost genesis: BlockId, vChain: seq<BlockId>, ghost b: BlockId,
                   pindex: BlockId, ghost i: nat, nStep: nat) returns (next: BlockId)
    requires WellFormed(h, genesis) && SkipsBuilt(h, genesis) && IsPath(h, genesis, vChain) && b in h
    requires pindex in h && pindex == Entry(h, genesis, b, i) && h[pindex].nHeight == Max(h[b].nHeight - Offset(i), 0)
    requires Offset(i + 1) == Offset(i) + nStep
    ensures next in h && next == Entry(h, genesis, b, i + 1) && h[next].nHeight == Max(h[b].nHeight - Offset(i + 1), 0)
  {
    var nHeight := Max(h[pindex].nHeight - nStep, 0);
    AncestorOfEntry(h, genesis, b, i, nHeight);
    PathPrefix(h, genesis, b, nHeight);
    if InChain(h, vChain, pindex) {
      InChainDownward(h, genesis, vChain, pindex, nHeight);
      next := vChain[nHeight];
    } else {
      var ancestor := GetAncestor(h, genesis, pindex, nHeight);
      next := ancestor.value;
    }
  }

  lemma OffsetStep(i: nat)
    ensures Offset(i + 1) == Offset(i) + (if i < 11 then 1 else Pow2(i - 10)) && Offset(i + 1) > Offset(i)
  {}

  lemma AncestorOfEntry(h: Headers, genesis: BlockId, b: BlockId, i: nat, k: nat)
    requires WellFormed(h, genesis) && b in h && k <= Max(h[b].nHeight - Offset(i), 0)
    ensures var e := Entry(h, genesis, b, i);
            e in h && k <= h[e].nHeight && Path(h, genesis, e)[k] == Path(h, genesis, b)[k]
  {
    PathPrefix(h, genesis, b, Max(h[b].nHeight - Offset(i), 0));
  }

  // ----- What a locator looks like -----

  /** The least k with 2^k >= n. */
  function CeilLog2(n: nat): nat {
    if n <= 1 then 0 else 1 + CeilLog2((n + 1) / 2)
  }

  lemma {:induction false} CeilLog2Is(n: nat)
    ensures Pow2(CeilLog2(n)) >= n && (CeilLog2(n) > 0 ==> Pow2(CeilLog2(n) - 1) < n)
  {
    if n > 1 {
      CeilLog2Is((n + 1) / 2);
    }
  }

  lemma {:induction false} BelowCeilLog2(n: nat, k: nat)
    requires Pow2(k) < n
    ensures k < CeilLog2(n)
    decreases k
  {
    if k > 0 {
      BelowCeilLog2((n + 1) / 2, k - 1);
    }
  }

  /** A locator starts at its block, strictly descends, ends at genesis and has at most
      12 + ceil(log2 height) entries. */
  lemma LocatorShape(h: Headers, genesis: BlockId, b: BlockId, vHave: seq<BlockId>)
    requires WellFormed(h, genesis) && b in h && IsLocator(h, genesis, b, vHave)
    ensures vHave[0] == b && vHave[|vHave| - 1] == genesis
    ensures forall i, j :: 0 <= i < j < |vHave| ==>
              vHave[i] in h && vHave[j] in h && h[vHave[j]].nHeight < h[vHave[i]].nHeight
    ensures |vHave| <= 12 + CeilLog2(h[b].nHeight)
  {
    hide Offset, CeilLog2;
    assert Offset(0) == 0 by { FirstOffset(); }
    assert vHave[0] == Entry(h, genesis, b, 0);
    assert vHave[|vHave| - 1] == Entry(h, genesis, b, |vHave| - 1);
    forall i, j | 0 <= i < j < |vHave|
      ensures vHave[i] in h && vHave[j] in h && h[vHave[j]].nHeight < h[vHave[i]].nHeight
    {
      LocatorDescends(h, genesis, b, vHave, i, j);
    }
    LocatorLength(h, genesis, b, vHave);
  }

  lemma FirstOffset()
    ensures Offset(0) == 0
  {}

  lemma LocatorDescends(h: Headers, genesis: BlockId, b: BlockId, vHave: seq<BlockId>, i: nat, j: nat)
    requires WellFormed(h, genesis) && b in h && IsLocator(h, genesis, b, vHave) && i < j < |vHave|
    ensures vHave[i] in h && vHave[j] in h && h[vHave[j]].nHeight < h[vHave[i]].nHeight
  {
    hide Offset;
    PathPrefix(h, genesis, b, Max(h[b].nHeight - Offset(i), 0));
    PathPrefix(h, genesis, b, Max(h[b].nHeight - Offset(j), 0));
    OffsetGrows(i, j);
    assert Offset(i) < h[b].nHeight;
  }

  lemma LocatorLength(h: Headers, genesis: BlockId, b: BlockId, vHave: seq<BlockId>)
    requires WellFormed(h, genesis) && b in h && IsLocator(h, genesis, b, vHave)
    ensures |vHave| <= 12 + CeilLog2(h[b].nHeight)
  {
    if |vHave| == 13 {
      assert Offset(11) < h[b].nHeight;
    } else if |vHave| > 13 {
      assert Offset(|vHave| - 2) < h[b].nHeight;
      BelowCeilLog2(h[b].nHeight, |vHave| - 12);
    }
  }

  // ----- Finding the fork from a locator -----

  /** The receiver knows the block and has it in its active chain. */
  predicate Shared(h: Headers, vChain: seq<BlockId>, b: BlockId) {
    b in h && InChain(h, vChain, b)
  }

  /** FindForkInGlobalIndex: the first listed block in the receiver's chain, else its genesis. */
  method FindForkInGlobalIndex(h: Headers, vChain: seq<BlockId>, vHave: seq<BlockId>) returns (fork: Option<BlockId>)
    ensures (exists i :: 0 <= i < |vHave| && Shared(h, vChain, vHave[i])) ==>
              exists i :: 0 <= i < |vHave| && fork == Some(vHave[i]) && Shared(h, vChain, vHave[i])
                          && forall j :: 0 <= j < i ==> !Shared(h, vChain, vHave[j])
    ensures (forall i :: 0 <= i < |vHave| ==> !Shared(h, vChain, vHave[i])) ==>
              fork == if vChain == [] then None else Some(vChain[0])
  {
    for i := 0 to |vHave|
      invariant forall j :: 0 <= j < i ==> !Shared(h, vChain, vHave[j])
    {
      if vHave[i] in h {
        if InChain(h, vChain, vHave[i]) {
          return Some(vHave[i]);
        }
      }
    }
    return if vChain == [] then None else Some(vChain[0]);
  }

  /** Two nodes agree on the blocks both know: the hash of a block fixes its parent and height. */
  ghost predicate Agree(h: Headers, h': Headers) {
    forall b {:trigger h[b], h'[b]} :: b in h && b in h' ==> h[b].pprev == h'[b].pprev && h[b].nHeight == h'[b].nHeight
  }

  /** The true fork height f between b's path at the sender and the receiver's active chain. */
  ghost predicate TrueFork(h: Headers, genesis: BlockId, b: BlockId, vChain: seq<BlockId>, f: nat)
    requires WellFormed(h, genesis) && b in h
  {
    IsForkHeight(h, genesis, vChain, b, f) && forall k :: 0 <= k <= f ==> vChain[k] == Ancestor(h, genesis, b, k)
  }

  /** Below the fork the chains share every block; the fork is at most where one of them ends. */
  lemma ForkIsPrefix(h: Headers, h': Headers, genesis: BlockId, b: BlockId, vChain: seq<BlockId>, f: nat)
    requires WellFormed(h, genesis) && WellFormed(h', genesis) && Agree(h, h') && b in h
    requires IsPath(h', genesis, vChain) && IsForkHeight(h, genesis, vChain, b, f)
    ensures TrueFork(h, genesis, b, vChain, f)
  {
    var tip := vChain[|vChain| - 1];
    var k := f;
    while k > 0
      invariant 0 <= k <= f && forall j :: k <= j <= f ==> vChain[j] == Ancestor(h, genesis, b, j)
    {
      PathStep(h, genesis, b, k);
      PathStep(h', genesis, tip, k);
      assert h[vChain[k]].pprev == h'[vChain[k]].pprev;
      k := k - 1;
    }
  }

  /** Entry i of the locator is shared exactly when it lies at or below the fork. */
  lemma EntrySharedIff(h: Headers, h': Headers, genesis: BlockId, b: BlockId, vChain: seq<BlockId>, f: nat, i: nat)
    requires WellFormed(h, genesis) && WellFormed(h', genesis) && Agree(h, h') && b in h
    requires IsPath(h', genesis, vChain) && TrueFork(h, genesis, b, vChain, f)
    ensures Shared(h', vChain, Entry(h, genesis, b, i)) <==> Max(h[b].nHeight - Offset(i), 0) <= f
  {
    var k := Max(h[b].nHeight - Offset(i), 0);
    PathPrefix(h, genesis, b, k);
    var e := Entry(h, genesis, b, i);
    if k <= f {
      PathPrefix(h', genesis, vChain[|vChain| - 1], k);
      assert vChain[k] == e;
    } else if e in h' {
      assert h[e].nHeight == h'[e].nHeight;
      if k < |vChain| {
        assert vChain[k] != Ancestor(h, genesis, b, k);
      }
    }
  }

  /** Answering a locator: the block found is on both chains, and its distance behind the locator's
      start is the true fork distance d when d <= 11, and less than 2d otherwise. */
  lemma LocatorFindsFork(h: Headers, h': Headers, genesis: BlockId, b: BlockId, vChain: seq<BlockId>, f: nat,
                         vHave: seq<BlockId>, i: nat)
    requires WellFormed(h, genesis) && WellFormed(h', genesis) && Agree(h, h') && b in h
    requires IsPath(h', genesis, vChain) && IsForkHeight(h, genesis, vChain, b, f)
    requires IsLocator(h, genesis, b, vHave)
    requires i < |vHave| && Shared(h', vChain, vHave[i]) && forall j :: 0 <= j < i ==> !Shared(h', vChain, vHave[j])
    ensures vHave[i] in h && h[vHave[i]].nHeight <= f
    ensures var d := h[b].nHeight - f;
            var found := h[b].nHeight - h[vHave[i]].nHeight;
            if d <= 11 then found == d else d <= found < 2 * d
  {
    ForkIsPrefix(h, h', genesis, b, vChain, f);
    EntrySharedIff(h, h', genesis, b, vChain, f, i);
    PathPrefix(h, genesis, b, Max(h[b].nHeight - Offset(i), 0));
    var d := h[b].nHeight - f;
    if i > 0 {
      EntrySharedIff(h, h', genesis, b, vChain, f, i - 1);
      assert vHave[i - 1] == Entry(h, genesis, b, i - 1);
      assert Offset(i - 1) < d;
      if i > 11 { assert Pow2(i - 10) == 2 * Pow2(i - 11); }
    }
  }

  /** And some entry is always shared: the last one is the common genesis. */
  lemma LocatorMeets(h: Headers, h': Headers, genesis: BlockId, b: BlockId, vChain: seq<BlockId>, vHave: seq<BlockId>)
    requires WellFormed(h, genesis) && WellFormed(h', genesis) && b in h
    requires vChain != [] && IsPath(h', genesis, vChain) && IsLocator(h, genesis, b, vHave)
    ensures Shared(h', vChain, vHave[|vHave| - 1])
  {
    LocatorShape(h, genesis, b, vHave);
  }
}
