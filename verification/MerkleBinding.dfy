/** An accepted partial tree holds nothing beyond what it proves: nothing can be appended to it, and its
    bits and the root leave no choice of hashes (src/merkleblock.cpp: ExtractMatches). */
module MerkleBinding {
  import opened MerkleProof
  import opened PartialMerkleTree

  /** What follows the data of a subtree makes no difference to it. */
  lemma {:induction false} MoreData(n: nat, vBits: seq<bool>, vHash: seq<Hash>, height: nat, pos: nat, b: nat, k: nat,
                                    moreBits: seq<bool>, moreHashes: seq<Hash>)
    requires !Extract(n, vBits, vHash, height, pos, b, k).bad
    ensures Extract(n, vBits + moreBits, vHash + moreHashes, height, pos, b, k) ==
            Extract(n, vBits, vHash, height, pos, b, k)
    decreases height
  {
    if height > 0 && b < |vBits| && vBits[b] {
      MoreData(n, vBits, vHash, height - 1, pos * 2, b + 1, k, moreBits, moreHashes);
      var l := Extract(n, vBits, vHash, height - 1, pos * 2, b + 1, k);
      if Start(height - 1, pos * 2 + 1) < n {
        MoreData(n, vBits, vHash, height - 1, pos * 2 + 1, l.nBitsUsed, l.nHashUsed, moreBits, moreHashes);
      }
    }
  }

  /** A tree that is accepted is so with more data exactly if that is nothing but bits up to the end of the
      last byte. */
  lemma NothingCanBeAppended(n: nat, vBits: seq<bool>, vHash: seq<Hash>, height: nat, root: Hash, vMatch: seq<Hash>,
                             moreBits: seq<bool>, moreHashes: seq<Hash>, root': Hash, vMatch': seq<Hash>)
    requires IsExtraction(n, vBits, vHash, false, height, root, vMatch) && root != Zero
    requires IsExtraction(n, vBits + moreBits, vHash + moreHashes, false, height, root', vMatch')
    ensures moreHashes != [] || (|vBits + moreBits| + 7) / 8 != (|vBits| + 7) / 8 ==> root' == Zero
    ensures moreHashes == [] && (|vBits + moreBits| + 7) / 8 == (|vBits| + 7) / 8 ==> root' == root && vMatch' == vMatch
  {
    hide Extract;
    MoreData(n, vBits, vHash, height, 0, 0, 0, moreBits, moreHashes);
  }

  /** Two extractions by the same bits that arrive at the same hash used up the same hashes. */
  lemma {:induction false} SameShape(n: nat, vBits: seq<bool>, vHash: seq<Hash>, vHash': seq<Hash>,
                                     height: nat, pos: nat, b: nat, k: nat)
    requires !Extract(n, vBits, vHash, height, pos, b, k).bad && !Extract(n, vBits, vHash', height, pos, b, k).bad
    requires Extract(n, vBits, vHash, height, pos, b, k).hash == Extract(n, vBits, vHash', height, pos, b, k).hash
    requires k <= |vHash| && k <= |vHash'|
    ensures Extract(n, vBits, vHash, height, pos, b, k) == Extract(n, vBits, vHash', height, pos, b, k)
    ensures var e := Extract(n, vBits, vHash, height, pos, b, k); vHash[k..e.nHashUsed] == vHash'[k..e.nHashUsed]
    decreases height
  {
    if height > 0 && b < |vBits| && vBits[b] {
      SameShape(n, vBits, vHash, vHash', height - 1, pos * 2, b + 1, k);
      var l := Extract(n, vBits, vHash, height - 1, pos * 2, b + 1, k);
      if Start(height - 1, pos * 2 + 1) < n {
        SameShape(n, vBits, vHash, vHash', height - 1, pos * 2 + 1, l.nBitsUsed, l.nHashUsed);
        var r := Extract(n, vBits, vHash, height - 1, pos * 2 + 1, l.nBitsUsed, l.nHashUsed);
        Joined(vHash, k, l.nHashUsed, r.nHashUsed);
        Joined(vHash', k, l.nHashUsed, r.nHashUsed);
      }
    }
  }

  lemma Joined<T>(s: seq<T>, a: nat, b: nat, c: nat)
    requires a <= b <= c <= |s|
    ensures s[a..c] == s[a..b] + s[b..c]
  {
  }

  /** The number of transactions, the bits and the root determine the hashes and the matches. */
  lemma HashesAreBound(n: nat, vBits: seq<bool>, vHash: seq<Hash>, vHash': seq<Hash>, height: nat, root: Hash,
                       vMatch: seq<Hash>, vMatch': seq<Hash>)
    requires IsExtraction(n, vBits, vHash, false, height, root, vMatch) && root != Zero
    requires IsExtraction(n, vBits, vHash', false, height, root, vMatch')
    ensures vHash == vHash' && vMatch == vMatch'
  {
    hide Extract;
    SameShape(n, vBits, vHash, vHash', height, 0, 0, 0);
    assert vHash[0..|vHash|] == vHash && vHash'[0..|vHash'|] == vHash';
  }
}
