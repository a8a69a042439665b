/** The header part of the block index (src/chain.h, src/chain.cpp): a tree of blocks with
    parent and skip pointers.  A block is named by its id (its hash, or equivalently the address
    of its index entry); a pointer is an `Option` of an id. */
module BlockIndex {
  import opened Limbs
  import opened Options

  type BlockId = nat

  /** The fields of CBlockIndex that are fixed once AddToBlockIndex has built the entry. */
  datatype Header = Header(pprev: Option<BlockId>, pskip: Option<BlockId>, nHeight: nat, nChainWork: nat)

  type Headers = map<BlockId, Header>

  /** Every entry but genesis hangs below a known parent, one higher and with strictly more work. */
  ghost predicate WellFormed(h: Headers, genesis: BlockId)
  {
    && genesis in h && h[genesis].pprev == None && h[genesis].nHeight == 0
    && forall b {:trigger h[b].pprev} :: b in h && b != genesis ==>
        && h[b].pprev.Some? && h[b].pprev.value in h
        && h[b].nHeight == h[h[b].pprev.value].nHeight + 1
        && h[b].nChainWork > h[h[b].pprev.value].nChainWork
  }

  /** The blocks from genesis up to and including b: following pprev, reversed. */
  ghost function Path(h: Headers, genesis: BlockId, b: BlockId): (p: seq<BlockId>)
    requires WellFormed(h, genesis) && b in h
    ensures |p| == h[b].nHeight + 1 && p[0] == genesis && p[|p| - 1] == b
    decreases h[b].nHeight
  {
    if b == genesis then [b] else Path(h, genesis, h[b].pprev.value) + [b]
  }

  /** The ancestor of b at a given height, by following pprev. */
  ghost function Ancestor(h: Headers, genesis: BlockId, b: BlockId, height: nat): BlockId
    requires WellFormed(h, genesis) && b in h && height <= h[b].nHeight
  {
    Path(h, genesis, b)[height]
  }

  /** A block on the path of b has the corresponding prefix as its own path. */
  lemma {:induction false} PathPrefix(h: Headers, genesis: BlockId, b: BlockId, k: nat)
    requires WellFormed(h, genesis) && b in h && k <= h[b].nHeight
    ensures var a := Path(h, genesis, b)[k];
            a in h && h[a].nHeight == k && Path(h, genesis, a) == Path(h, genesis, b)[..k + 1]
    decreases h[b].nHeight
  {
    if k == h[b].nHeight {
      assert Path(h, genesis, b)[..k + 1] == Path(h, genesis, b);
    } else {
      var p := h[b].pprev.value;
      PathPrefix(h, genesis, p, k);
      assert Path(h, genesis, b)[..k + 1] == Path(h, genesis, p)[..k + 1];
    }
  }

  /** Two paths that share a block agree up to it. */
  lemma SharedBlock(h: Headers, genesis: BlockId, a: BlockId, b: BlockId, k: nat)
    requires WellFormed(h, genesis) && a in h && b in h
    requires k <= h[a].nHeight && k <= h[b].nHeight
    requires Path(h, genesis, a)[k] == Path(h, genesis, b)[k]
    ensures Path(h, genesis, a)[..k + 1] == Path(h, genesis, b)[..k + 1]
  {
    PathPrefix(h, genesis, a, k);
    PathPrefix(h, genesis, b, k);
  }

  /** The parent of the block at height k on a path is the block below it on the same path. */
  lemma PathStep(h: Headers, genesis: BlockId, b: BlockId, k: nat)
    requires WellFormed(h, genesis) && b in h && 0 < k <= h[b].nHeight
    ensures var a := Path(h, genesis, b)[k];
            a in h && a != genesis && h[a].pprev == Some(Path(h, genesis, b)[k - 1])
  {
    PathPrefix(h, genesis, b, k);
    var a := Path(h, genesis, b)[k];
    var p := h[a].pprev.value;
    assert Path(h, genesis, a) == Path(h, genesis, p) + [a];
    assert Path(h, genesis, a)[k - 1] == p;
  }

  /** Work strictly grows along a path. */
  lemma {:induction false} PathWork(h: Headers, genesis: BlockId, b: BlockId, k: nat)
    requires WellFormed(h, genesis) && b in h && k < h[b].nHeight
    ensures Path(h, genesis, b)[k] in h
    ensures h[Path(h, genesis, b)[k]].nChainWork < h[b].nChainWork
    decreases h[b].nHeight
  {
    var p := h[b].pprev.value;
    if k < h[p].nHeight {
      PathWork(h, genesis, p, k);
    }
  }

  /** New entries leave the paths of the old ones alone. */
  lemma {:induction false} PathExtend(h: Headers, h': Headers, genesis: BlockId, b: BlockId)
    requires WellFormed(h, genesis) && WellFormed(h', genesis) && b in h
    requires forall x :: x in h ==> x in h' && h'[x] == h[x]
    ensures Path(h', genesis, b) == Path(h, genesis, b)
    decreases h[b].nHeight
  {
    if b != genesis {
      PathExtend(h, h', genesis, h[b].pprev.value);
    }
  }

  // ----- Skip pointers -----

  /** Bitwise conjunction of two naturals. */
  function And(x: nat, y: nat): (r: nat)
    ensures r <= x && r <= y
  {
    if x == 0 || y == 0 then 0 else 2 * And(x / 2, y / 2) + (if x % 2 == 1 && y % 2 == 1 then 1 else 0)
  }

  /** Turn the lowest '1' bit of a number into a '0'; zero has none to turn. */
  function InvertLowestOne(n: nat): nat {
    if n == 0 then 0 else And(n, n - 1)
  }

  lemma {:induction false} AndSet(x: nat, y: nat, k: nat)
    ensures BitSet(And(x, y), k) <==> BitSet(x, k) && BitSet(y, k)
    decreases k, x
  {
    hide BitSet;
    if x == 0 || y == 0 {
      ZeroHasNone(k);
    } else {
      var z := And(x, y);
      assert z / 2 == And(x / 2, y / 2) && z % 2 == if x % 2 == 1 && y % 2 == 1 then 1 else 0;
      if k == 0 {
        BitZero(x);
        BitZero(y);
        BitZero(z);
      } else {
        BitSetNext(x, k);
        BitSetNext(y, k);
        BitSetNext(z, k);
        AndSet(x / 2, y / 2, k - 1);
      }
    }
  }

  /** The lowest bit that is set is cleared: of an odd multiple of 2^j, the 2^j is taken off. */
  lemma {:induction false} InvertLowestOneIs(m: nat, e: nat, p: nat, j: nat)
    requires p == Pow(2, j) && e == 2 * m * p
    ensures InvertLowestOne(e + p) == e
    decreases j
  {
    PowFacts(j);
    hide And, Pow;
    if j == 0 {
      OddAnd(m);
    } else {
      var q := Pow(2, j - 1);
      MulAssoc(2 * m, 2, q);
      var h := 2 * m * q;
      HalfProduct(m, q, e);
      InvertLowestOneIs(m, h, q, j - 1);
      EvenAnd(h + q);
    }
  }

  lemma PowFacts(j: nat)
    ensures if j == 0 then Pow(2, j) == 1 else Pow(2, j) == 2 * Pow(2, j - 1) && Pow(2, j - 1) > 0
  {
  }

  lemma AndStep(x: nat, y: nat)
    ensures And(x, y) == 2 * And(x / 2, y / 2) + if x % 2 == 1 && y % 2 == 1 then 1 else 0
  {
    assert x == 0 ==> x / 2 == 0;
    assert y == 0 ==> y / 2 == 0;
  }

  lemma OddAnd(m: nat)
    ensures And(2 * m + 1, 2 * m) == 2 * m
  {
    hide And;
    AndStep(2 * m + 1, 2 * m);
    AndSelf(m);
  }

  lemma HalfProduct(m: nat, q: nat, e: nat)
    requires e == 2 * m * (2 * q)
    ensures e == 2 * (2 * m * q)
  {
  }

  lemma {:induction false} AndSelf(m: nat)
    ensures And(m, m) == m
  {
    if m > 0 {
      AndSelf(m / 2);
    }
  }

  lemma EvenAnd(h: nat)
    requires h > 0
    ensures And(2 * h, 2 * h - 1) == 2 * And(h, h - 1)
  {
    assert (2 * h) / 2 == h && (2 * h - 1) / 2 == h - 1 && (2 * h) % 2 == 0;
  }

  /** Where skip links go: from an even height, an odd multiple of 2^j, 2^j down; from the odd height above
      it, if that is not the first, also over the bit above. */
  lemma SkipHeightIs(m: nat, e: nat, j: nat)
    requires j > 0 && e == 2 * m * Pow(2, j)
    ensures GetSkipHeight(e + Pow(2, j)) == e
    ensures GetSkipHeight(e + Pow(2, j) + 1) == InvertLowestOne(e) + 1
  {
    var q := Pow(2, j - 1);
    HalfProduct(m, q, e);
    InvertLowestOneIs(m, e, Pow(2, j), j);
    assert Pow(2, j) == 2 * q && q > 0;
    EvenFacts(e + Pow(2, j), 2 * m * q + q);
  }

  lemma EvenFacts(n: nat, h: nat)
    requires n == 2 * h && h > 0
    ensures n >= 2 && n % 2 == 0 && (n + 1) % 2 == 1
  {
  }

  function GetSkipHeight(height: int): int {
    if height < 2 then 0
    else if height % 2 == 1 then InvertLowestOne(InvertLowestOne(height - 1)) + 1
    else InvertLowestOne(height)
  }

  /** Skip pointers always go strictly back, which is what makes the skip-list walk terminate. */
  lemma GetSkipHeightGoesBack(height: int)
    requires height >= 1
    ensures 0 <= GetSkipHeight(height) < height
  {
    if height >= 2 && height % 2 == 1 {
      var n := InvertLowestOne(height - 1);
      assert n <= height - 2;
      assert InvertLowestOne(n) <= n;
    }
  }

  /** Every entry but genesis has the skip pointer BuildSkip computes for it. */
  ghost predicate SkipsBuilt(h: Headers, genesis: BlockId)
    requires WellFormed(h, genesis)
  {
    forall b {:trigger h[b].pskip} :: b in h && b != genesis ==> SkipBuilt(h, genesis, b)
  }

  ghost predicate SkipBuilt(h: Headers, genesis: BlockId, b: BlockId)
    requires WellFormed(h, genesis) && b in h
  {
    var s := GetSkipHeight(h[b].nHeight);
    0 <= s <= h[b].nHeight && h[b].pskip == Some(Ancestor(h, genesis, b, s))
  }

  /** Where parent and skip link lead from a block of the path. */
  lemma WalkLinks(h: Headers, genesis: BlockId, b: BlockId, k: nat)
    requires WellFormed(h, genesis) && SkipsBuilt(h, genesis) && b in h && 0 < k <= h[b].nHeight
    ensures 0 <= GetSkipHeight(k) < k
    ensures var a, p := Path(h, genesis, b)[k], Path(h, genesis, b);
            a in h && h[a].pprev == Some(p[k - 1]) && h[a].pskip == Some(p[GetSkipHeight(k)])
  {
    hide GetSkipHeight, InvertLowestOne, And;
    PathPrefix(h, genesis, b, k);
    PathStep(h, genesis, b, k);
    GetSkipHeightGoesBack(k);
    assert SkipBuilt(h, genesis, Path(h, genesis, b)[k]) by { assert h[Path(h, genesis, b)[k]].pskip.Some?; }
  }

  /** CBlockIndex::GetAncestor: the skip-list walk finds exactly the pprev ancestor. */
  method GetAncestor(h: Headers, ghost genesis: BlockId, b: BlockId, height: int) returns (r: Option<BlockId>)
    requires WellFormed(h, genesis) && SkipsBuilt(h, genesis) && b in h
    ensures r == if 0 <= height <= h[b].nHeight then Some(Ancestor(h, genesis, b, height)) else None
  {
    hide GetSkipHeight, InvertLowestOne, And, WellFormed;
    if height > h[b].nHeight || height < 0 {
      return None;
    }
    var pindexWalk := b;
    var heightWalk := h[b].nHeight;
    while heightWalk > height
      invariant height <= heightWalk <= h[b].nHeight
      invariant pindexWalk == Path(h, genesis, b)[heightWalk]
    {
      WalkLinks(h, genesis, b, heightWalk);
      var heightSkip := GetSkipHeight(heightWalk);
      var heightSkipPrev := GetSkipHeight(heightWalk - 1);
      if heightSkip == height
        || (heightSkip > height && !(heightSkipPrev < heightSkip - 2 && heightSkipPrev >= height)) {
        pindexWalk := h[pindexWalk].pskip.value;
        heightWalk := heightSkip;
      } else {
        pindexWalk := h[pindexWalk].pprev.value;
        heightWalk := heightWalk - 1;
      }
    }
    return Some(pindexWalk);
  }

  lemma SkipsExtend(h: Headers, h': Headers, genesis: BlockId, id: BlockId)
    requires WellFormed(h, genesis) && SkipsBuilt(h, genesis) && WellFormed(h', genesis)
    requires id !in h && id in h' && h' == h[id := h'[id]] && h'[id].pprev.value in h
    requires var s := GetSkipHeight(h'[id].nHeight);
             0 <= s < h'[id].nHeight && h'[id].pskip == Some(Ancestor(h, genesis, h'[id].pprev.value, s))
    ensures SkipsBuilt(h', genesis)
    ensures forall b :: b in h ==> Path(h', genesis, b) == Path(h, genesis, b)
  {
    forall b | b in h ensures Path(h', genesis, b) == Path(h, genesis, b) {
      PathExtend(h, h', genesis, b);
    }
    forall b | b in h' && b != genesis ensures SkipBuilt(h', genesis, b) {
      if b != id {
        assert h'[b].pskip == h[b].pskip;
        assert SkipBuilt(h, genesis, b);
      } else {
        assert Path(h', genesis, id) == Path(h', genesis, h'[id].pprev.value) + [id];
      }
    }
  }

  /** The header AddToBlockIndex builds below a known parent; BuildSkip fills in pskip. */
  method NewHeader(h: Headers, ghost genesis: BlockId, id: BlockId, parent: BlockId, proof: nat)
    returns (header: Header)
    requires WellFormed(h, genesis) && SkipsBuilt(h, genesis)
    requires id !in h && parent in h && proof > 0
    ensures header.pprev == Some(parent) && header.nHeight == h[parent].nHeight + 1
    ensures header.nChainWork == h[parent].nChainWork + proof
    ensures WellFormed(h[id := header], genesis) && SkipsBuilt(h[id := header], genesis)
    ensures forall b :: b in h ==> Path(h[id := header], genesis, b) == Path(h, genesis, b)
  {
    var nHeight := h[parent].nHeight + 1;
    GetSkipHeightGoesBack(nHeight);
    var pskip := GetAncestor(h, genesis, parent, GetSkipHeight(nHeight));
    header := Header(Some(parent), pskip, nHeight, h[parent].nChainWork + proof);
    ghost var h' := h[id := header];
    assert WellFormed(h', genesis);
    SkipsExtend(h, h', genesis, id);
  }
}
