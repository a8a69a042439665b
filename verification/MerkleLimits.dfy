/** How far the promises of src/merkleblock.h reach: the exact number of flag bits, when the stated size is
    kept, and for which claimed numbers of transactions a partial tree is a proof. */
module MerkleLimits {
  import opened MerkleProof
  import opened PartialMerkleTree

  // ----- The number of flag bits -----

  /** The nodes a tree stores as parents of a match that have a single child. */
  ghost function SingleChildren(n: nat, vMatch: seq<bool>, height: nat, pos: nat): nat
    decreases height
  {
    if height == 0 || !AnyMatch(vMatch, Start(height, pos), End(n, height, pos)) then 0
    else if Start(height - 1, pos * 2 + 1) < n then
      SingleChildren(n, vMatch, height - 1, pos * 2) + SingleChildren(n, vMatch, height - 1, pos * 2 + 1)
    else 1 + SingleChildren(n, vMatch, height - 1, pos * 2)
  }

  /** One bit for each stored hash, one for each node that joins two subtrees, and one for each single
      child. */
  lemma {:induction false} BitsAre(vTxid: seq<Hash>, vMatch: seq<bool>, height: nat, pos: nat)
    requires |vMatch| == |vTxid| && Start(height, pos) < |vTxid|
    ensures var t := Built(height, pos, vTxid, vMatch);
            |t.0| == 2 * |t.1| - 1 + SingleChildren(|vTxid|, vMatch, height, pos)
    decreases height
  {
    hide Start, Pow2, End, AnyMatch, CalcHash;
    if height > 0 && AnyMatch(vMatch, Start(height, pos), End(|vTxid|, height, pos)) {
      Children(height, pos);
      BitsAre(vTxid, vMatch, height - 1, pos * 2);
      if Start(height - 1, pos * 2 + 1) < |vTxid| {
        BitsAre(vTxid, vMatch, height - 1, pos * 2 + 1);
      }
    }
  }

  /** The last node of a level. */
  ghost function LastPos(n: nat, height: nat): (p: nat)
    requires n > 0
    ensures Start(height, p) < n <= Start(height, p + 1) && CalcTreeWidth(n, height) == p + 1
  {
    InWidth(n, height, 0);
    var p := CalcTreeWidth(n, height) - 1;
    InWidth(n, height, p);
    InWidth(n, height, p + 1);
    p
  }

  /** The level below has an odd number of nodes, and there is a match below the last node of this one. */
  ghost predicate SingleAt(n: nat, vMatch: seq<bool>, height: nat)
    requires n > 0 && height > 0
  {
    CalcTreeWidth(n, height - 1) % 2 == 1 && AnyMatch(vMatch, Start(height, LastPos(n, height)), n)
  }

  ghost function SingleLevels(n: nat, vMatch: seq<bool>, height: nat): nat
    requires n > 0
  {
    if height == 0 then 0 else SingleLevels(n, vMatch, height - 1) + if SingleAt(n, vMatch, height) then 1 else 0
  }

  lemma LastChild(n: nat, height: nat)
    requires n > 0 && height > 0
    ensures var p := LastPos(n, height);
            && LastPos(n, height - 1) == (if Start(height - 1, p * 2 + 1) < n then p * 2 + 1 else p * 2)
            && (CalcTreeWidth(n, height - 1) % 2 == 1 <==> Start(height - 1, p * 2 + 1) >= n)
            && Start(height, p) <= Start(height - 1, LastPos(n, height - 1)) && End(n, height, p) == n
  {
    hide Start, Pow2, CalcTreeWidth, LastPos;
    var p := LastPos(n, height);
    Children(height, p);
    InWidth(n, height - 1, p * 2);
    InWidth(n, height - 1, p * 2 + 1);
    InWidth(n, height - 1, p * 2 + 2);
    var q := LastPos(n, height - 1);
    assert p * 2 <= q <= p * 2 + 1;
  }

  /** A node with all its leaves has no single child below it. */
  lemma {:induction false} FullHasNoSingle(n: nat, vMatch: seq<bool>, height: nat, pos: nat)
    requires Start(height, pos + 1) <= n
    ensures SingleChildren(n, vMatch, height, pos) == 0
    decreases height
  {
    if height > 0 {
      Children(height, pos);
      FullHasNoSingle(n, vMatch, height - 1, pos * 2);
      FullHasNoSingle(n, vMatch, height - 1, pos * 2 + 1);
    }
  }

  lemma {:induction false} NoMatchNoSingle(n: nat, vMatch: seq<bool>, height: nat, lo: nat)
    requires n > 0 && lo <= Start(height, LastPos(n, height)) && !AnyMatch(vMatch, lo, n)
    ensures SingleLevels(n, vMatch, height) == 0
    decreases height
  {
    hide Start, Pow2, CalcTreeWidth;
    if height > 0 {
      LastChild(n, height);
      assert !AnyMatch(vMatch, Start(height, LastPos(n, height)), n);
      NoMatchNoSingle(n, vMatch, height - 1, lo);
    }
  }

  /** So the single children can be counted level by level, on the right edge. */
  lemma {:induction false} SinglesOnTheEdge(n: nat, vMatch: seq<bool>, height: nat)
    requires n > 0
    ensures SingleChildren(n, vMatch, height, LastPos(n, height)) == SingleLevels(n, vMatch, height)
    decreases height
  {
    hide Start, Pow2, CalcTreeWidth, AnyMatch;
    if height > 0 {
      var p := LastPos(n, height);
      LastChild(n, height);
      if AnyMatch(vMatch, Start(height, p), n) {
        SinglesOnTheEdge(n, vMatch, height - 1);
        if Start(height - 1, p * 2 + 1) < n {
          Children(height, p);
          FullLeft(n, height, p);
          FullHasNoSingle(n, vMatch, height - 1, p * 2);
        }
      } else {
        NoMatchNoSingle(n, vMatch, height, Start(height, p));
      }
    }
  }

  lemma FullLeft(n: nat, height: nat, p: nat)
    requires height > 0 && Start(height - 1, p * 2 + 1) < n
    ensures Start(height - 1, p * 2 + 1) <= n
  {
  }

  lemma {:induction false} NoSingleLevels(n: nat, vMatch: seq<bool>, height: nat)
    requires n > 0
    ensures SingleLevels(n, vMatch, height) == 0 <==> forall g :: 0 < g <= height ==> !SingleAt(n, vMatch, g)
    ensures SingleLevels(n, vMatch, height) <= height
  {
    if height > 0 {
      NoSingleLevels(n, vMatch, height - 1);
    }
  }

  /** The promise of at most 2*N - 1 flag bits for N hashes is kept exactly when no level of odd width has
      a match below the last node of the level above it. */
  lemma BitPromiseIff(vTxid: seq<Hash>, vMatch: seq<bool>, height: nat)
    requires 0 < |vTxid| == |vMatch| && IsHeight(|vTxid|, height) && Start(height, 0) < |vTxid|
    ensures var t := Built(height, 0, vTxid, vMatch);
            && |t.0| == 2 * |t.1| - 1 + SingleLevels(|vTxid|, vMatch, height)
            && (|t.0| <= 2 * |t.1| - 1 <==> forall g :: 0 < g <= height ==> !SingleAt(|vTxid|, vMatch, g))
  {
    hide Built, SingleAt;
    BitsAre(vTxid, vMatch, height, 0);
    InWidth(|vTxid|, height, 0);
    assert LastPos(|vTxid|, height) == 0;
    SinglesOnTheEdge(|vTxid|, vMatch, height);
    NoSingleLevels(|vTxid|, vMatch, height);
  }

  // ----- Size -----

  /** The size of a length prefix. */
  function CompactSize(n: nat): nat {
    if n < 253 then 1 else if n <= 0xffff then 3 else if n <= 0xffff_ffff then 5 else 9
  }

  /** The serialized size of a tree with that many hashes and bits. */
  function SerializedSize(nHashes: nat, nBits: nat): nat {
    4 + CompactSize(nHashes) + 32 * nHashes + CompactSize((nBits + 7) / 8) + (nBits + 7) / 8
  }

  /** The bound stated in the header: 10 + ceil(32.25 * N). */
  function StatedSize(nHashes: nat): nat {
    10 + 32 * nHashes + (nHashes + 3) / 4
  }

  lemma Pow2Values()
    ensures Pow2(4) == 16 && Pow2(8) == 256 && Pow2(12) == 4096 && Pow2(13) == 8192
    ensures Pow2(14) == 16384 && Pow2(15) == 32768
  {
    assert Pow2(2) == 4;
    assert Pow2(4) == 16;
    assert Pow2(6) == 64;
    assert Pow2(8) == 256;
    assert Pow2(10) == 1024;
    assert Pow2(12) == 4096;
    assert Pow2(13) == 8192;
    assert Pow2(14) == 16384;
  }

  lemma {:induction false} Pow2Grows(h: nat, k: nat)
    requires h <= k
    ensures Pow2(h) <= Pow2(k)
    decreases k - h
  {
    if h < k {
      Pow2Grows(h, k - 1);
    }
  }

  /** Within the size limit a tree is at most 15 high. */
  lemma HeightBound(n: nat, height: nat)
    requires IsHeight(n, height) && n <= MAX_BLOCK_SIZE / 60
    ensures height <= 15
  {
    if height > 15 {
      assert CalcTreeWidth(n, 15) > 1;
      InWidth(n, 15, 1);
      Pow2Values();
    }
  }

  /** The number of hashes is at most the number of transactions and at most one and the height for each
      match; the serialized size is within two bytes of the stated bound. */
  lemma SizeBounds(vTxid: seq<Hash>, vMatch: seq<bool>, height: nat)
    requires 0 < |vTxid| <= MAX_BLOCK_SIZE / 60 && |vMatch| == |vTxid|
    requires IsHeight(|vTxid|, height) && Start(height, 0) < |vTxid|
    ensures var t := Built(height, 0, vTxid, vMatch);
            && |t.1| <= |vTxid| && |t.1| <= 1 + CountMatches(vMatch, 0, |vTxid|) * height
            && SerializedSize(|t.1|, |t.0|) <= StatedSize(|t.1|) + (if |t.1| < 253 then 0 else 2)
  {
    WholeTree(|vTxid|, height);
    HashBounds(vTxid, vMatch, height, 0);
    BitsBound(vTxid, vMatch, height, 0);
    HeightBound(|vTxid|, height);
  }

  /** The flag bytes need no longer length prefix, or they are as few as a quarter of the hashes. */
  predicate SizeKept(nHashes: nat, nBits: nat) {
    (nBits + 7) / 8 < 253 || (nBits + 7) / 8 <= (nHashes + 3) / 4
  }

  /** The stated size is kept exactly then, for the number of bits a tree with that many hashes and
      levels of a single child has. */
  lemma StatedSizeIff(vTxid: seq<Hash>, vMatch: seq<bool>, height: nat)
    requires 0 < |vTxid| <= MAX_BLOCK_SIZE / 60 && |vMatch| == |vTxid|
    requires IsHeight(|vTxid|, height) && Start(height, 0) < |vTxid|
    ensures var t := Built(height, 0, vTxid, vMatch);
            var nBits := 2 * |t.1| - 1 + SingleLevels(|vTxid|, vMatch, height);
            nBits == |t.0| && (SerializedSize(|t.1|, |t.0|) <= StatedSize(|t.1|) <==> SizeKept(|t.1|, nBits))
  {
    hide Built, SingleAt;
    BitPromiseIff(vTxid, vMatch, height);
    NoSingleLevels(|vTxid|, vMatch, height);
    WholeTree(|vTxid|, height);
    HashBounds(vTxid, vMatch, height, 0);
    HeightBound(|vTxid|, height);
    SizeNumbers(|Built(height, 0, vTxid, vMatch).1|, SingleLevels(|vTxid|, vMatch, height));
  }

  lemma SizeNumbers(nHashes: nat, s: nat)
    requires 1 <= nHashes <= MAX_BLOCK_SIZE / 60 && s <= 15
    ensures var nBits := 2 * nHashes - 1 + s;
            SerializedSize(nHashes, nBits) <= StatedSize(nHashes) <==> SizeKept(nHashes, nBits)
  {
  }

  lemma {:induction false} FullSubtree(vTxid: seq<Hash>, vMatch: seq<bool>, height: nat, pos: nat)
    requires |vMatch| == |vTxid| && Start(height, pos + 1) <= |vTxid| && forall i :: 0 <= i < |vMatch| ==> vMatch[i]
    ensures Start(height, pos) < |vTxid|
    ensures var t := Built(height, pos, vTxid, vMatch); |t.0| == 2 * Pow2(height) - 1 && |t.1| == Pow2(height)
    decreases height
  {
    assert (pos + 1) * Pow2(height) == pos * Pow2(height) + Pow2(height);
    EndAfterStart(|vTxid|, height, pos);
    assert vMatch[Start(height, pos)];
    if height > 0 {
      Children(height, pos);
      FullSubtree(vTxid, vMatch, height - 1, pos * 2);
      FullSubtree(vTxid, vMatch, height - 1, pos * 2 + 1);
    }
  }

  lemma {:induction false} LastLeafOnly(vTxid: seq<Hash>, vMatch: seq<bool>, height: nat, pos: nat)
    requires |vMatch| == |vTxid| && Start(height, pos) + 1 == |vTxid| && forall i :: 0 <= i < |vMatch| ==> vMatch[i]
    ensures var t := Built(height, pos, vTxid, vMatch); |t.0| == height + 1 && |t.1| == 1
    decreases height
  {
    EndAfterStart(|vTxid|, height, pos);
    assert vMatch[Start(height, pos)];
    if height > 0 {
      Children(height, pos);
      LastLeafOnly(vTxid, vMatch, height - 1, pos * 2);
    }
  }

  function Leaves(n: nat): seq<Hash> { seq(n, i requires 0 <= i < n => Leaf(i)) }

  function All(n: nat): seq<bool> { seq(n, i => true) }

  lemma FewestBytes()
    ensures IsHeight(16385, 15)
  {
    Pow2Values();
    forall h | 0 <= h < 15
      ensures CalcTreeWidth(16385, h) > 1
    {
      Pow2Grows(h, 14);
      InWidth(16385, h, 1);
    }
    InWidth(16385, 15, 1);
  }

  /** A tree over 2^h + 1 transactions, all matched: its left half is full, its right edge bare. */
  lemma FullAndOne(vTxid: seq<Hash>, vMatch: seq<bool>, height: nat)
    requires height > 0 && |vMatch| == |vTxid| == Pow2(height - 1) + 1 && forall i :: 0 <= i < |vMatch| ==> vMatch[i]
    ensures Start(height, 0) < |vTxid|
    ensures var t := Built(height, 0, vTxid, vMatch); |t.1| == |vTxid| && |t.0| == 2 * |vTxid| - 2 + height
  {
    Children(height, 0);
    EndAfterStart(|vTxid|, height, 0);
    assert vMatch[Start(height, 0)];
    FullSubtree(vTxid, vMatch, height - 1, 0);
    LastLeafOnly(vTxid, vMatch, height - 1, 1);
  }

  /** The stated size is not kept by every tree: 16385 transactions, all matched, take one byte more (and
      more than the 2*N-1 flag bits also stated). */
  lemma StatedSizeExceeded()
    ensures Distinct(Leaves(16385)) && 16385 <= MAX_BLOCK_SIZE / 60
    ensures IsHeight(16385, 15) && Start(15, 0) < 16385
    ensures var t := Built(15, 0, Leaves(16385), All(16385));
            && |t.1| == 16385 && |t.0| == 2 * |t.1| + 13
            && SerializedSize(|t.1|, |t.0|) == StatedSize(|t.1|) + 1
  {
    hide Built;
    Pow2Values();
    FewestBytes();
    FullAndOne(Leaves(16385), All(16385), 15);
  }

  // ----- Another number of transactions -----

  /** A hash that is a full tree of pairs of that height over txids. */
  ghost predicate IsTreeOver(x: Hash, height: nat)
    decreases height
  {
    if height == 0 then x.Leaf? else x.Pair? && IsTreeOver(x.left, height - 1) && IsTreeOver(x.right, height - 1)
  }

  predicate AllLeaves(vTxid: seq<Hash>) {
    forall i :: 0 <= i < |vTxid| ==> vTxid[i].Leaf?
  }

  lemma {:induction false} NodesAreTrees(vTxid: seq<Hash>, height: nat, pos: nat)
    requires AllLeaves(vTxid) && Start(height, pos) < |vTxid|
    ensures IsTreeOver(CalcHash(height, pos, vTxid), height)
    decreases height
  {
    if height > 0 {
      Children(height, pos);
      NodesAreTrees(vTxid, height - 1, pos * 2);
      if Start(height - 1, pos * 2 + 1) < |vTxid| {
        NodesAreTrees(vTxid, height - 1, pos * 2 + 1);
      }
    }
  }

  /** In a tree claimed to be higher than it is no leaf is ever reached, so nothing is matched. */
  lemma {:induction false} HigherMatchesNothing(n: nat, vBits: seq<bool>, vHash: seq<Hash>, height: nat, pos: nat,
                                                b: nat, k: nat, trueHeight: nat)
    requires trueHeight < height
    requires var r := Extract(n, vBits, vHash, height, pos, b, k); !r.bad && IsTreeOver(r.hash, trueHeight)
    ensures Extract(n, vBits, vHash, height, pos, b, k).matches == []
    decreases height
  {
    hide Start, Pow2, Extract;
    OutOfData(n, vBits, vHash, height, pos, b, k);
    if b < |vBits| && vBits[b] {
      InnerNode(n, vBits, vHash, height, pos, b, k);
      var l := Extract(n, vBits, vHash, height - 1, pos * 2, b + 1, k);
      HigherMatchesNothing(n, vBits, vHash, height - 1, pos * 2, b + 1, k, trueHeight - 1);
      if Start(height - 1, pos * 2 + 1) < n {
        HigherMatchesNothing(n, vBits, vHash, height - 1, pos * 2 + 1, l.nBitsUsed, l.nHashUsed, trueHeight - 1);
      }
    } else if b < |vBits| && k < |vHash| {
      StoredNode(n, vBits, vHash, height, pos, b, k);
    }
  }

  /** The bits and hashes of the leftmost path of a tree claimed to have that height, each sibling on the way
      stored: `below` is how much higher the real tree is. */
  ghost function PathBits(height: nat): (s: seq<bool>)
    ensures |s| == 2 * height + 1
  {
    if height == 0 then [true] else [true] + (PathBits(height - 1) + [false])
  }

  ghost function PathHashes(vTxid: seq<Hash>, below: nat, height: nat): (s: seq<Hash>)
    requires Start(below + height, 0) < |vTxid| && (height > 0 ==> Start(below + height - 1, 1) < |vTxid|)
    ensures |s| == height + 1
  {
    if height == 0 then [CalcHash(below, 0, vTxid)]
    else
      Children(below + height, 0);
      SiblingBelow(below + height, |vTxid|);
      PathHashes(vTxid, below, height - 1) + [CalcHash(below + height - 1, 1, vTxid)]
  }

  lemma SiblingBelow(height: nat, n: nat)
    requires height > 0 && Start(height - 1, 1) < n
    ensures Start(height - 1, 0) < n && (height > 1 ==> Start(height - 2, 1) < n)
  {
    if height > 1 {
      assert Pow2(height - 1) == 2 * Pow2(height - 2);
    }
  }

  lemma LeftPair(height: nat, vTxid: seq<Hash>)
    requires height > 0 && Start(height, 0) < |vTxid| && Start(height - 1, 1) < |vTxid|
             && Start(height - 1, 0) < |vTxid|
    ensures CalcHash(height, 0, vTxid) == Pair(CalcHash(height - 1, 0, vTxid), CalcHash(height - 1, 1, vTxid))
  {
  }

  lemma InParts<T>(s: seq<T>, i: nat, p: seq<T>)
    requires PartAt(s, i, p)
    ensures i + |p| <= |s|
  {
  }

  lemma PathParts(vBits: seq<bool>, b: nat, bits: seq<bool>, vHash: seq<Hash>, k: nat, hashes: seq<Hash>, last: Hash)
    requires PartAt(vBits, b, [true] + (bits + [false])) && PartAt(vHash, k, hashes + [last])
    ensures PartAt(vBits, b + 1, bits) && PartAt(vHash, k, hashes)
    ensures b + 1 + |bits| < |vBits| && !vBits[b + 1 + |bits|] && k + |hashes| < |vHash| && vHash[k + |hashes|] == last
  {
    PartsAt(vBits, b, [true], bits + [false]);
    PartsAt(vBits, b + 1, bits, [false]);
    PartsAt(vHash, k, hashes, [last]);
    FirstAt(vBits, b + 1 + |bits|, [false]);
    FirstAt(vHash, k + |hashes|, [last]);
  }

  /** It passes, and reports an inner node of the real tree. */
  lemma {:induction false} PathExtracted(n: nat, vTxid: seq<Hash>, below: nat, vBits: seq<bool>, vHash: seq<Hash>,
                                         height: nat, b: nat, k: nat)
    requires Distinct(vTxid) && Start(below + height, 0) < |vTxid|
    requires height > 0 ==> Start(below + height - 1, 1) < |vTxid| && Start(height - 1, 1) < n
    requires PartAt(vBits, b, PathBits(height)) && PartAt(vHash, k, PathHashes(vTxid, below, height))
    ensures Start(below, 0) < |vTxid|
    ensures Extract(n, vBits, vHash, height, 0, b, k) ==
            Extracted(CalcHash(below + height, 0, vTxid), b + 2 * height + 1, k + height + 1,
                      [CalcHash(below, 0, vTxid)], false)
    decreases height
  {
    hide Start, Pow2, Extract, Distinct, CalcHash, PartAt;
    FirstAt(vBits, b, PathBits(height));
    InParts(vBits, b, PathBits(height));
    if height == 0 {
      FirstAt(vHash, k, PathHashes(vTxid, below, 0));
      InParts(vHash, k, PathHashes(vTxid, below, 0));
      StoredNode(n, vBits, vHash, 0, 0, b, k);
    } else {
      var h := height - 1;
      SiblingBelow(below + height, |vTxid|);
      SiblingBelow(height, n);
      var sibling := CalcHash(below + h, 1, vTxid);
      PathParts(vBits, b, PathBits(h), vHash, k, PathHashes(vTxid, below, h), sibling);
      PathExtracted(n, vTxid, below, vBits, vHash, h, b + 1, k);
      StoredNode(n, vBits, vHash, h, 1, b + 1 + 2 * h + 1, k + h + 1);
      InnerNode(n, vBits, vHash, height, 0, b, k);
      ChildrenDiffer(below + height, 0, vTxid);
      LeftPair(below + height, vTxid);
    }
  }

  lemma {:induction false} InSubsequence(x: Hash, s: seq<Hash>)
    requires IsSubsequence([x], s)
    ensures x in s
  {
    if s[0] != x || !IsSubsequence([x][1..], s[1..]) {
      InSubsequence(x, s[1..]);
    }
  }

  /** Every partial tree that claims n transactions and gives the Merkle root of the list matches only
      txids of the list, in order. */
  ghost predicate AlwaysSound(n: nat, height: nat, vTxid: seq<Hash>, trueHeight: nat)
    requires Start(trueHeight, 0) < |vTxid|
  {
    forall vBits, vHash, matches ::
      IsExtraction(n, vBits, vHash, false, height, CalcHash(trueHeight, 0, vTxid), matches) ==>
        IsSubsequence(matches, vTxid)
  }

  lemma NotLowerIsSound(n: nat, height: nat, vTxid: seq<Hash>, trueHeight: nat)
    requires IsHeight(n, height) && IsHeight(|vTxid|, trueHeight) && Start(trueHeight, 0) < |vTxid| && Distinct(vTxid)
             && AllLeaves(vTxid)
    requires n == 0 || n > MAX_BLOCK_SIZE / 60 || height >= trueHeight
    ensures AlwaysSound(n, height, vTxid, trueHeight)
  {
    hide IsHeight, Start, CalcHash, IsSubsequence, Distinct, Extract;
    var root := CalcHash(trueHeight, 0, vTxid);
    NodesAreTrees(vTxid, trueHeight, 0);
    forall vBits, vHash, matches | IsExtraction(n, vBits, vHash, false, height, root, matches)
      ensures IsSubsequence(matches, vTxid)
    {
      if height == trueHeight {
        ExtractionIsSound(n, vBits, vHash, false, height, root, matches, vTxid);
      } else {
        assert height > trueHeight;
        HigherMatchesNothing(n, vBits, vHash, height, 0, 0, 0, trueHeight);
        NothingIsSubsequence(vTxid);
      }
    }
  }

  lemma NothingIsSubsequence(s: seq<Hash>)
    ensures IsSubsequence([], s)
  {
  }

  lemma EnoughClaimed(n: nat, height: nat)
    requires n > 0 && IsHeight(n, height)
    ensures n >= height + 1 && (height > 0 ==> Start(height - 1, 1) < n)
  {
    if height > 0 {
      assert CalcTreeWidth(n, height - 1) > 1;
      InWidth(n, height - 1, 1);
      Pow2Exceeds(height - 1);
    }
  }

  lemma {:induction false} Pow2Exceeds(h: nat)
    ensures Pow2(h) >= h + 1
  {
    if h > 0 {
      Pow2Exceeds(h - 1);
    }
  }

  /** A claim of any lower height can be used to pass off an inner node as a transaction. */
  lemma LowerIsUnsound(n: nat, height: nat, vTxid: seq<Hash>, trueHeight: nat)
    requires IsHeight(n, height) && IsHeight(|vTxid|, trueHeight) && Start(trueHeight, 0) < |vTxid| && Distinct(vTxid)
             && AllLeaves(vTxid)
    requires 0 < n <= MAX_BLOCK_SIZE / 60 && height < trueHeight
    ensures Start(trueHeight - 1, 1) < |vTxid| && Start(trueHeight - height, 0) < |vTxid|
    ensures var inner := CalcHash(trueHeight - height, 0, vTxid);
            && IsExtraction(n, PathBits(height), PathHashes(vTxid, trueHeight - height, height), false, height,
                            CalcHash(trueHeight, 0, vTxid), [inner])
            && inner !in vTxid && !IsSubsequence([inner], vTxid)
  {
    hide Start, Pow2, CalcHash, IsSubsequence, Distinct, Extract, IsHeight, PathBits, PathHashes;
    EnoughClaimed(n, height);
    EnoughClaimed(|vTxid|, trueHeight);
    var below := trueHeight - height;
    var vBits, vHash := PathBits(height), PathHashes(vTxid, below, height);
    assert vBits[0..|vBits|] == vBits && vHash[0..|vHash|] == vHash;
    PathExtracted(n, vTxid, below, vBits, vHash, height, 0, 0);
    var inner := CalcHash(below, 0, vTxid);
    NodesAreTrees(vTxid, below, 0);
    assert inner.Pair?;
    if IsSubsequence([inner], vTxid) {
      InSubsequence(inner, vTxid);
    }
  }

  /** Soundness, exactly: the number is refused outright, or the height it gives is not below the real one. */
  lemma SoundIffNotLower(n: nat, height: nat, vTxid: seq<Hash>, trueHeight: nat)
    requires IsHeight(n, height) && IsHeight(|vTxid|, trueHeight) && Start(trueHeight, 0) < |vTxid| && Distinct(vTxid)
             && AllLeaves(vTxid)
    ensures AlwaysSound(n, height, vTxid, trueHeight) <==> n == 0 || n > MAX_BLOCK_SIZE / 60 || height >= trueHeight
  {
    hide IsHeight, Start, CalcHash, IsSubsequence, Distinct, IsExtraction;
    if n == 0 || n > MAX_BLOCK_SIZE / 60 || height >= trueHeight {
      NotLowerIsSound(n, height, vTxid, trueHeight);
    } else {
      LowerIsUnsound(n, height, vTxid, trueHeight);
    }
  }

  lemma SmallHeights()
    ensures IsHeight(3, 2) && IsHeight(2, 1)
  {
    hide CalcTreeWidth;
    assert Pow2(1) == 2 && Pow2(2) == 4;
    InWidth(3, 0, 1);
    InWidth(3, 1, 1);
    InWidth(3, 2, 1);
    InWidth(2, 0, 1);
    InWidth(2, 1, 1);
  }

  lemma HashOfThree(a: Hash, b: Hash, c: Hash)
    ensures Start(2, 0) < 3 && CalcHash(2, 0, [a, b, c]) == Pair(Pair(a, b), Pair(c, c))
  {
    assert Pow2(1) == 2;
    assert CalcHash(1, 0, [a, b, c]) == Pair(a, b);
    assert CalcHash(1, 1, [a, b, c]) == Pair(c, c);
  }

  /** Two hashes presented as the leaves of a tree over two, the first of them matched. */
  lemma ExtractFirstOfTwo(a: Hash, b: Hash)
    requires a != b
    ensures Extract(2, [true, true, false], [a, b], 1, 0, 0, 0) == Extracted(Pair(a, b), 3, 2, [a], false)
  {
    hide Extract;
    InnerNode(2, [true, true, false], [a, b], 1, 0, 0, 0);
    StoredNode(2, [true, true, false], [a, b], 0, 0, 1, 0);
    StoredNode(2, [true, true, false], [a, b], 0, 1, 2, 1);
  }

  lemma NotAmong(x: Hash, a: Hash, b: Hash, c: Hash)
    requires x != a && x != b && x != c
    ensures !IsSubsequence([x], [a, b, c])
  {
    assert [a, b, c][1..] == [b, c] && [b, c][1..] == [c] && [c][1..] == [];
    assert !IsSubsequence([x], [c]);
    assert !IsSubsequence([x], [b, c]);
  }

  /** The height matters: a proof that claims two transactions where there are three passes off an inner
      node as a matched txid. */
  lemma OtherHeightIsUnsound()
    ensures var vTxid, inner := [Leaf(0), Leaf(1), Leaf(2)], Pair(Leaf(0), Leaf(1));
            && Distinct(vTxid) && IsHeight(3, 2) && IsHeight(2, 1) && Start(2, 0) < 3
            && IsExtraction(2, [true, true, false], [inner, Pair(Leaf(2), Leaf(2))], false, 1, CalcHash(2, 0, vTxid),
                            [inner])
            && !IsSubsequence([inner], vTxid)
  {
    hide Extract, IsHeight, CalcHash, IsSubsequence, Start;
    SmallHeights();
    HashOfThree(Leaf(0), Leaf(1), Leaf(2));
    ExtractFirstOfTwo(Pair(Leaf(0), Leaf(1)), Pair(Leaf(2), Leaf(2)));
    NotAmong(Pair(Leaf(0), Leaf(1)), Leaf(0), Leaf(1), Leaf(2));
  }
}
