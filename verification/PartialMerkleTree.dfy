/** CPartialMerkleTree (src/merkleblock.h, src/merkleblock.cpp): the object, its form on the wire, and
    what a proof that was extracted is worth. */
module PartialMerkleTree {
  import opened MerkleProof

  const MAX_BLOCK_SIZE := 1000000

  // ----- The object -----

  class CPartialMerkleTree {
    var nTransactions: nat
    var vBits: seq<bool>
    var vHash: seq<Hash>
    var fBad: bool

    /** From a nonempty list of txids and the mask that selects some. */
    constructor Build(vTxid: seq<Hash>, vMatch: seq<bool>)
      requires |vTxid| > 0 && |vMatch| == |vTxid|
      ensures nTransactions == |vTxid| && !fBad
      ensures exists h :: IsBuilt(vTxid, vMatch, h, vBits, vHash)
    {
      nTransactions, fBad := |vTxid|, false;
      vBits, vHash := [], [];
      new;
      var nHeight := CalcHeight();
      assert Start(nHeight, 0) == 0;
      TraverseAndBuild(nHeight, 0, vTxid, vMatch);
      ghost var t := Built(nHeight, 0, vTxid, vMatch);
      assert [] + t.0 == t.0 && [] + t.1 == t.1;
      assert IsBuilt(vTxid, vMatch, nHeight, vBits, vHash);
    }

    /** From its parts, as they were received. */
    constructor Receive(nTransactions: nat, vHash: seq<Hash>, vBytes: seq<bv8>)
      ensures this.nTransactions == nTransactions && this.vHash == vHash && !fBad
      ensures IsUnpacked(vBits, vBytes)
    {
      this.nTransactions, this.vHash, fBad := nTransactions, vHash, false;
      vBits := [];
      new;
      vBits := UnpackBits(vBytes);
    }

    method CalcHeight() returns (nHeight: nat)
      ensures IsHeight(nTransactions, nHeight)
    {
      nHeight := 0;
      while CalcTreeWidth(nTransactions, nHeight) > 1
        invariant forall h :: 0 <= h < nHeight ==> CalcTreeWidth(nTransactions, h) > 1
        decreases nTransactions - Pow2(nHeight)
      {
        InWidth(nTransactions, nHeight, 1);
        assert Start(nHeight, 1) == Pow2(nHeight);
        nHeight := nHeight + 1;
      }
    }

    method TraverseAndBuild(height: nat, pos: nat, vTxid: seq<Hash>, vMatch: seq<bool>)
      requires |vMatch| == |vTxid| == nTransactions && Start(height, pos) < |vTxid|
      modifies this`vBits, this`vHash
      ensures vBits == old(vBits) + Built(height, pos, vTxid, vMatch).0
      ensures vHash == old(vHash) + Built(height, pos, vTxid, vMatch).1
      decreases height
    {
      hide Start, Pow2, End, CalcTreeWidth, AnyMatch, CalcHash, Built;
      BuiltIs(height, pos, vTxid, vMatch);
      var fParentOfMatch := ParentOfMatch(height, pos, vMatch);
      vBits := vBits + [fParentOfMatch];
      if height == 0 || !fParentOfMatch {
        vHash := vHash + [CalcHash(height, pos, vTxid)];
      } else {
        Halves(|vTxid|, height, pos);
        TraverseAndBuild(height - 1, pos * 2, vTxid, vMatch);
        InWidth(nTransactions, height - 1, pos * 2 + 1);
        if pos * 2 + 1 < CalcTreeWidth(nTransactions, height - 1) {
          TraverseAndBuild(height - 1, pos * 2 + 1, vTxid, vMatch);
        }
      }
    }

    /** Whether a node is the parent of at least one matched txid. */
    method ParentOfMatch(height: nat, pos: nat, vMatch: seq<bool>) returns (r: bool)
      requires |vMatch| == nTransactions && Start(height, pos) < nTransactions
      ensures r <==> AnyMatch(vMatch, Start(height, pos), End(nTransactions, height, pos))
    {
      EndAfterStart(nTransactions, height, pos);
      r := false;
      var p := Start(height, pos);
      while p < Start(height, pos + 1) && p < nTransactions
        invariant Start(height, pos) <= p <= End(nTransactions, height, pos)
        invariant r <==> AnyMatch(vMatch, Start(height, pos), p)
        decreases nTransactions - p
      {
        AnyMatchNext(vMatch, Start(height, pos), p);
        r := r || vMatch[p];
        p := p + 1;
      }
    }

    method TraverseAndExtract(height: nat, pos: nat, nBitsUsedIn: nat, nHashUsedIn: nat, vMatchIn: seq<Hash>)
      returns (hash: Hash, nBitsUsed: nat, nHashUsed: nat, vMatch: seq<Hash>)
      modifies this`fBad
      ensures var e := Extract(nTransactions, vBits, vHash, height, pos, nBitsUsedIn, nHashUsedIn);
              && hash == e.hash && nBitsUsed == e.nBitsUsed && nHashUsed == e.nHashUsed
              && vMatch == vMatchIn + e.matches && fBad == (old(fBad) || e.bad)
      decreases height
    {
      hide Start, Pow2, CalcTreeWidth, Extract;
      OutOfData(nTransactions, vBits, vHash, height, pos, nBitsUsedIn, nHashUsedIn);
      nBitsUsed, nHashUsed, vMatch := nBitsUsedIn, nHashUsedIn, vMatchIn;
      if nBitsUsed >= |vBits| {
        fBad := true;
        return Zero, nBitsUsed, nHashUsed, vMatch;
      }
      var fParentOfMatch := vBits[nBitsUsed];
      nBitsUsed := nBitsUsed + 1;
      if height == 0 || !fParentOfMatch {
        if nHashUsed >= |vHash| {
          fBad := true;
          return Zero, nBitsUsed, nHashUsed, vMatch;
        }
        StoredNode(nTransactions, vBits, vHash, height, pos, nBitsUsedIn, nHashUsedIn);
        hash := vHash[nHashUsed];
        nHashUsed := nHashUsed + 1;
        if height == 0 && fParentOfMatch {
          vMatch := vMatch + [hash];
        }
      } else {
        InnerNode(nTransactions, vBits, vHash, height, pos, nBitsUsedIn, nHashUsedIn);
        var left, right;
        left, nBitsUsed, nHashUsed, vMatch := TraverseAndExtract(height - 1, pos * 2, nBitsUsed, nHashUsed, vMatch);
        InWidth(nTransactions, height - 1, pos * 2 + 1);
        if pos * 2 + 1 < CalcTreeWidth(nTransactions, height - 1) {
          right, nBitsUsed, nHashUsed, vMatch :=
            TraverseAndExtract(height - 1, pos * 2 + 1, nBitsUsed, nHashUsed, vMatch);
          if right == left {
            fBad := true;
          }
        } else {
          right := left;
        }
        hash := Pair(left, right);
      }
    }

    /** The root, or Zero on failure, and the matched txids. */
    method ExtractMatches() returns (root: Hash, vMatch: seq<Hash>, ghost nHeight: nat)
      modifies this`fBad
      ensures IsHeight(nTransactions, nHeight)
      ensures IsExtraction(nTransactions, vBits, vHash, old(fBad), nHeight, root, vMatch)
    {
      vMatch := [];
      var height := CalcHeight();
      nHeight := height;
      if nTransactions == 0 {
        return Zero, vMatch, nHeight;
      }
      if nTransactions > MAX_BLOCK_SIZE / 60 {
        return Zero, vMatch, nHeight;
      }
      if |vHash| > nTransactions {
        return Zero, vMatch, nHeight;
      }
      if |vBits| < |vHash| {
        return Zero, vMatch, nHeight;
      }
      var nBitsUsed, nHashUsed;
      root, nBitsUsed, nHashUsed, vMatch := TraverseAndExtract(height, 0, 0, 0, vMatch);
      if fBad {
        return Zero, vMatch, nHeight;
      }
      if (nBitsUsed + 7) / 8 != (|vBits| + 7) / 8 {
        return Zero, vMatch, nHeight;
      }
      if nHashUsed != |vHash| {
        return Zero, vMatch, nHeight;
      }
    }
  }

  lemma BuiltIs(height: nat, pos: nat, vTxid: seq<Hash>, vMatch: seq<bool>)
    requires |vMatch| == |vTxid| && Start(height, pos) < |vTxid|
    ensures height > 0 ==> Start(height - 1, pos * 2) < |vTxid|
    ensures Built(height, pos, vTxid, vMatch) ==
            if height == 0 || !AnyMatch(vMatch, Start(height, pos), End(|vTxid|, height, pos)) then
              ([AnyMatch(vMatch, Start(height, pos), End(|vTxid|, height, pos))], [CalcHash(height, pos, vTxid)])
            else if Start(height - 1, pos * 2 + 1) < |vTxid| then
              ([true] + Built(height - 1, pos * 2, vTxid, vMatch).0 + Built(height - 1, pos * 2 + 1, vTxid, vMatch).0,
               Built(height - 1, pos * 2, vTxid, vMatch).1 + Built(height - 1, pos * 2 + 1, vTxid, vMatch).1)
            else
              ([true] + Built(height - 1, pos * 2, vTxid, vMatch).0, Built(height - 1, pos * 2, vTxid, vMatch).1)
  {
    if height > 0 {
      Children(height, pos);
    }
  }

  ghost predicate IsBuilt(vTxid: seq<Hash>, vMatch: seq<bool>, height: nat, vBits: seq<bool>, vHash: seq<Hash>) {
    && |vMatch| == |vTxid| && IsHeight(|vTxid|, height) && Start(height, 0) < |vTxid|
    && (vBits, vHash) == Built(height, 0, vTxid, vMatch)
  }

  lemma OutOfData(n: nat, vBits: seq<bool>, vHash: seq<Hash>, height: nat, pos: nat, b: nat, k: nat)
    ensures b >= |vBits| ==> Extract(n, vBits, vHash, height, pos, b, k) == Extracted(Zero, b, k, [], true)
    ensures b < |vBits| && (height == 0 || !vBits[b]) && k >= |vHash| ==>
              Extract(n, vBits, vHash, height, pos, b, k) == Extracted(Zero, b + 1, k, [], true)
  {
  }

  lemma AnyMatchNext(vMatch: seq<bool>, lo: nat, p: nat)
    requires lo <= p < |vMatch|
    ensures AnyMatch(vMatch, lo, p + 1) <==> AnyMatch(vMatch, lo, p) || vMatch[p]
  {
    if AnyMatch(vMatch, lo, p) {
      var q :| lo <= q < p && q < |vMatch| && vMatch[q];
      assert lo <= q < p + 1;
    }
  }

  /** The outcome of ExtractMatches. */
  ghost predicate IsExtraction(n: nat, vBits: seq<bool>, vHash: seq<Hash>, fBad: bool, height: nat, root: Hash,
                               vMatch: seq<Hash>) {
    var e := Extract(n, vBits, vHash, height, 0, 0, 0);
    if n == 0 || n > MAX_BLOCK_SIZE / 60 || |vHash| > n || |vBits| < |vHash| then root == Zero && vMatch == []
    else
      && vMatch == e.matches
      && root ==
         if fBad || e.bad || (e.nBitsUsed + 7) / 8 != (|vBits| + 7) / 8 || e.nHashUsed != |vHash| then Zero
         else e.hash
  }

  // ----- What is proved by a proof -----

  /** If extraction succeeds with the Merkle root of a list of txids, the matches are among them, in
      order: whatever was sent, as long as the claimed number of transactions is the right one, or gives
      a tree of the same height and the txids are distinct. */
  lemma ExtractionIsSound(n: nat, vBits: seq<bool>, vHash: seq<Hash>, fBad: bool, height: nat,
                          root: Hash, vMatch: seq<Hash>, vTxid: seq<Hash>)
    requires IsExtraction(n, vBits, vHash, fBad, height, root, vMatch) && root != Zero
    requires |vTxid| > 0 && IsHeight(|vTxid|, height) && (n == |vTxid| || Distinct(vTxid))
    requires Start(height, 0) < |vTxid| && root == CalcHash(height, 0, vTxid)
    ensures IsSubsequence(vMatch, vTxid)
  {
    ExtractSound(n, vBits, vHash, vTxid, height, 0, 0, 0);
    WholeTree(|vTxid|, height);
    assert vTxid[0..|vTxid|] == vTxid;
  }

  lemma WholeTree(n: nat, height: nat)
    requires n > 0 && CalcTreeWidth(n, height) <= 1
    ensures Start(height, 0) == 0 && End(n, height, 0) == n
  {
    InWidth(n, height, 1);
  }

  /** Extraction undoes building, also when the bits were padded to whole bytes: it gives the root and
      exactly the masked txids, in order. */
  lemma ExtractionIsComplete(vTxid: seq<Hash>, vMatch: seq<bool>, height: nat, padding: seq<bool>,
                             root: Hash, matches: seq<Hash>)
    requires 0 < |vTxid| <= MAX_BLOCK_SIZE / 60 && |vMatch| == |vTxid| && Distinct(vTxid)
    requires CalcTreeWidth(|vTxid|, height) <= 1 && Start(height, 0) < |vTxid|
    requires var t := Built(height, 0, vTxid, vMatch);
             && (|t.0 + padding| + 7) / 8 == (|t.0| + 7) / 8
             && IsExtraction(|vTxid|, t.0 + padding, t.1, false, height, root, matches)
    ensures root == CalcHash(height, 0, vTxid) && matches == Matched(vTxid, vMatch, 0, |vTxid|)
  {
    var t := Built(height, 0, vTxid, vMatch);
    WholeTree(|vTxid|, height);
    assert (t.0 + padding)[0..|t.0|] == t.0;
    assert t.1[0..|t.1|] == t.1;
    ExtractBuilt(vTxid, vMatch, t.0 + padding, t.1, height, 0, 0, 0);
    HashBounds(vTxid, vMatch, height, 0);
  }

  // ----- Bits in bytes -----

  function Mask(i: nat): bv8
    requires i < 8
  {
    1 << i
  }

  predicate TestBit(vBytes: seq<bv8>, p: nat)
    requires p < 8 * |vBytes|
  {
    vBytes[p / 8] & Mask(p % 8) != 0
  }

  lemma SetBit(x: bv8, i: nat, j: nat)
    requires i < 8 && j < 8
    ensures (x | Mask(i)) & Mask(j) != 0 <==> i == j || x & Mask(j) != 0
  {
    MaskIs(i);
    MaskIs(j);
  }

  lemma MaskIs(i: nat)
    requires i < 8
    ensures Mask(i) == [1, 2, 4, 8, 16, 32, 64, 128][i]
  {
    assert Mask(0) == 1 && Mask(1) == 2 && Mask(2) == 4 && Mask(3) == 8;
    assert Mask(4) == 16 && Mask(5) == 32 && Mask(6) == 64 && Mask(7) == 128;
  }

  ghost predicate IsPacked(vBytes: seq<bv8>, vBits: seq<bool>) {
    && |vBytes| == (|vBits| + 7) / 8
    && forall p :: 0 <= p < 8 * |vBytes| ==> (TestBit(vBytes, p) <==> p < |vBits| && vBits[p])
  }

  ghost predicate IsUnpacked(vBits: seq<bool>, vBytes: seq<bv8>) {
    && |vBits| == 8 * |vBytes|
    && forall p :: 0 <= p < |vBits| ==> (vBits[p] <==> TestBit(vBytes, p))
  }

  method PackBits(vBits: seq<bool>) returns (vBytes: seq<bv8>)
    ensures IsPacked(vBytes, vBits)
  {
    vBytes := seq((|vBits| + 7) / 8, i => 0);
    for p := 0 to |vBits|
      invariant |vBytes| == (|vBits| + 7) / 8
      invariant forall q :: 0 <= q < 8 * |vBytes| ==> (TestBit(vBytes, q) <==> q < p && vBits[q])
    {
      ghost var was := vBytes;
      if vBits[p] {
        vBytes := vBytes[p / 8 := vBytes[p / 8] | Mask(p % 8)];
      }
      hide Mask, TestBit;
      forall q | 0 <= q < 8 * |vBytes|
        ensures TestBit(vBytes, q) <==> q < p + 1 && vBits[q]
      {
        OneMoreBit(was, vBits, p, q, vBytes);
      }
    }
  }

  lemma OneMoreBit(was: seq<bv8>, vBits: seq<bool>, p: nat, q: nat, now: seq<bv8>)
    requires p < |vBits| && |was| == (|vBits| + 7) / 8 && q < 8 * |was|
    requires now == if vBits[p] then was[p / 8 := was[p / 8] | Mask(p % 8)] else was
    requires TestBit(was, q) <==> q < p && vBits[q]
    ensures TestBit(now, q) <==> q < p + 1 && vBits[q]
  {
    SetBit(was[p / 8], p % 8, q % 8);
    hide Mask;
  }

  method UnpackBits(vBytes: seq<bv8>) returns (vBits: seq<bool>)
    ensures IsUnpacked(vBits, vBytes)
  {
    vBits := [];
    for p := 0 to 8 * |vBytes|
      invariant |vBits| == p
      invariant forall q :: 0 <= q < p ==> (vBits[q] <==> TestBit(vBytes, q))
    {
      vBits := vBits + [vBytes[p / 8] & Mask(p % 8) != 0];
    }
  }

  /** Packing and unpacking adds at most seven bits. */
  lemma PackedAndUnpacked(vBits: seq<bool>, vBytes: seq<bv8>, vBits': seq<bool>)
    requires IsPacked(vBytes, vBits) && IsUnpacked(vBits', vBytes)
    ensures |vBits| <= |vBits'| < |vBits| + 8 && vBits' == vBits + seq(|vBits'| - |vBits|, i => false)
    ensures (|vBits'| + 7) / 8 == (|vBits| + 7) / 8
  {
    forall p | 0 <= p < |vBits'|
      ensures vBits'[p] == (vBits + seq(|vBits'| - |vBits|, i => false))[p]
    {
      assert TestBit(vBytes, p) <==> p < |vBits| && vBits[p];
    }
  }

  /** Build, send and extract: the receiver gets the root and exactly the masked txids, in order. */
  method SendAndExtract(vTxid: seq<Hash>, vMatch: seq<bool>)
    returns (root: Hash, matches: seq<Hash>, ghost nHeight: nat)
    requires 0 < |vTxid| <= MAX_BLOCK_SIZE / 60 && |vMatch| == |vTxid| && Distinct(vTxid)
    ensures IsHeight(|vTxid|, nHeight) && Start(nHeight, 0) < |vTxid|
    ensures root == CalcHash(nHeight, 0, vTxid) && matches == Matched(vTxid, vMatch, 0, |vTxid|)
  {
    hide Distinct, Matched, IsPacked, IsUnpacked, TestBit, CalcHash, IsExtraction;
    var sent := new CPartialMerkleTree.Build(vTxid, vMatch);
    var vBytes := PackBits(sent.vBits);
    ghost var vBits := sent.vBits;
    ghost var h :| IsBuilt(vTxid, vMatch, h, sent.vBits, sent.vHash);
    var received := new CPartialMerkleTree.Receive(sent.nTransactions, sent.vHash, vBytes);
    PackedAndUnpacked(vBits, vBytes, received.vBits);
    root, matches, nHeight := received.ExtractMatches();
    HeightUnique(|vTxid|, h, nHeight);
    ExtractionIsComplete(vTxid, vMatch, h, seq(|received.vBits| - |vBits|, i => false), root, matches);
  }

  lemma HeightUnique(n: nat, h: nat, k: nat)
    requires IsHeight(n, h) && IsHeight(n, k)
    ensures h == k
  {
  }
}
