/** Partial Merkle trees as sequences of flag bits and hashes (src/merkleblock.cpp, BIP 37 section
    "Partial Merkle branch format"): building, extracting, completeness, soundness and size. */
module MerkleProof {

  /** Hash values: pairs are hashed injectively; Zero is uint256(). */
  datatype Hash = Zero | Leaf(id: nat) | Pair(left: Hash, right: Hash)

  function Pow2(h: nat): (p: nat)
    ensures p >= 1
  {
    if h == 0 then 1 else 2 * Pow2(h - 1)
  }

  /** The number of nodes at a height of the tree over n leaves. */
  function CalcTreeWidth(n: nat, height: nat): nat {
    (n + Pow2(height) - 1) / Pow2(height)
  }

  /** The first leaf under a node. */
  function Start(height: nat, pos: nat): nat { pos * Pow2(height) }

  /** The leaves under a node, from Start(height, pos) up to this. */
  function End(n: nat, height: nat, pos: nat): nat {
    if Start(height, pos + 1) < n then Start(height, pos + 1) else n
  }

  /** A node is there exactly if it is below the width, that is, if its first leaf is there. */
  lemma InWidth(n: nat, height: nat, pos: nat)
    ensures pos < CalcTreeWidth(n, height) <==> Start(height, pos) < n
  {
    var p := Pow2(height);
    CeilDivides(n, p, pos);
  }

  lemma CeilDivides(n: nat, p: nat, pos: nat)
    requires p >= 1
    ensures pos < (n + p - 1) / p <==> pos * p < n
  {
    var q := (n + p - 1) / p;
    assert q * p <= n + p - 1 < (q + 1) * p;
    if pos < q {
      assert (pos + 1) * p <= q * p;
      assert (pos + 1) * p == pos * p + p;
    } else {
      assert pos * p >= q * p;
      assert (q + 1) * p == q * p + p;
    }
  }

  lemma Children(height: nat, pos: nat)
    requires height > 0
    ensures Start(height - 1, pos * 2) == Start(height, pos)
    ensures Start(height - 1, pos * 2 + 1) == Start(height, pos) + Pow2(height - 1)
    ensures Start(height - 1, pos * 2 + 2) == Start(height, pos + 1) == Start(height, pos) + Pow2(height)
  {
    var p := Pow2(height - 1);
    assert (pos * 2) * p == pos * (2 * p);
    assert (pos * 2 + 1) * p == pos * (2 * p) + p;
    assert (pos * 2 + 2) * p == pos * (2 * p) + 2 * p == (pos + 1) * (2 * p);
  }

  lemma EndAfterStart(n: nat, height: nat, pos: nat)
    requires Start(height, pos) < n
    ensures Start(height, pos) < End(n, height, pos) <= n
    ensures height == 0 ==> Start(height, pos) == pos && End(n, height, pos) == pos + 1
  {
    assert (pos + 1) * Pow2(height) == pos * Pow2(height) + Pow2(height);
  }

  /** The leaves under a node are those under its children. */
  lemma Halves(n: nat, height: nat, pos: nat)
    requires height > 0 && Start(height, pos) < n
    ensures Start(height - 1, pos * 2) == Start(height, pos) < Start(height - 1, pos * 2 + 1)
    ensures Start(height, pos) < End(n, height, pos) <= n
    ensures if Start(height - 1, pos * 2 + 1) < n then
              && End(n, height - 1, pos * 2) == Start(height - 1, pos * 2 + 1) < End(n, height, pos)
              && End(n, height - 1, pos * 2 + 1) == End(n, height, pos)
            else
              End(n, height - 1, pos * 2) == End(n, height, pos) == n
  {
    Children(height, pos);
  }

  /** The tree has height Height(n): at lower heights there is more than one node. */
  ghost predicate IsHeight(n: nat, height: nat) {
    CalcTreeWidth(n, height) <= 1 && forall h :: 0 <= h < height ==> CalcTreeWidth(n, h) > 1
  }

  // ----- The tree -----

  function CalcHash(height: nat, pos: nat, vTxid: seq<Hash>): Hash
    requires Start(height, pos) < |vTxid|
    decreases height
  {
    if height == 0 then vTxid[pos] else
      Children(height, pos);
      var left := CalcHash(height - 1, pos * 2, vTxid);
      var right := if Start(height - 1, pos * 2 + 1) < |vTxid| then CalcHash(height - 1, pos * 2 + 1, vTxid) else left;
      Pair(left, right)
  }

  predicate Distinct(vTxid: seq<Hash>) {
    forall i, j :: 0 <= i < j < |vTxid| ==> vTxid[i] != vTxid[j]
  }

  /** Nodes of one height with equal hashes have the same first leaf. */
  lemma {:induction false} SameHashSameLeaf(height: nat, p: nat, q: nat, vTxid: seq<Hash>)
    requires Start(height, p) < |vTxid| && Start(height, q) < |vTxid|
    requires CalcHash(height, p, vTxid) == CalcHash(height, q, vTxid)
    ensures vTxid[Start(height, p)] == vTxid[Start(height, q)]
    decreases height
  {
    if height > 0 {
      Children(height, p);
      Children(height, q);
      SameHashSameLeaf(height - 1, p * 2, q * 2, vTxid);
    }
  }

  /** So with distinct txids the two children of a node never have the same hash. */
  lemma ChildrenDiffer(height: nat, pos: nat, vTxid: seq<Hash>)
    requires height > 0 && Distinct(vTxid) && Start(height - 1, pos * 2 + 1) < |vTxid|
    ensures Start(height - 1, pos * 2) < |vTxid|
    ensures CalcHash(height - 1, pos * 2, vTxid) != CalcHash(height - 1, pos * 2 + 1, vTxid)
  {
    Children(height, pos);
    if CalcHash(height - 1, pos * 2, vTxid) == CalcHash(height - 1, pos * 2 + 1, vTxid) {
      SameHashSameLeaf(height - 1, pos * 2, pos * 2 + 1, vTxid);
    }
  }

  // ----- Building -----

  predicate AnyMatch(vMatch: seq<bool>, lo: nat, hi: nat) {
    exists p :: lo <= p < hi && p < |vMatch| && vMatch[p]
  }

  /** The bits and hashes TraverseAndBuild stores for a node. */
  function Built(height: nat, pos: nat, vTxid: seq<Hash>, vMatch: seq<bool>): (seq<bool>, seq<Hash>)
    requires |vMatch| == |vTxid| && Start(height, pos) < |vTxid|
    decreases height
  {
    var fParentOfMatch := AnyMatch(vMatch, Start(height, pos), End(|vTxid|, height, pos));
    if height == 0 || !fParentOfMatch then ([fParentOfMatch], [CalcHash(height, pos, vTxid)]) else
      Children(height, pos);
      var left := Built(height - 1, pos * 2, vTxid, vMatch);
      if Start(height - 1, pos * 2 + 1) < |vTxid| then
        var right := Built(height - 1, pos * 2 + 1, vTxid, vMatch);
        ([true] + left.0 + right.0, left.1 + right.1)
      else
        ([true] + left.0, left.1)
  }

  /** The matched txids from lo up to hi, in order. */
  function Matched(vTxid: seq<Hash>, vMatch: seq<bool>, lo: nat, hi: nat): seq<Hash>
    requires lo <= hi <= |vTxid| == |vMatch|
    decreases hi - lo
  {
    if lo == hi then [] else (if vMatch[lo] then [vTxid[lo]] else []) + Matched(vTxid, vMatch, lo + 1, hi)
  }

  lemma {:induction false} MatchedSplit(vTxid: seq<Hash>, vMatch: seq<bool>, lo: nat, mid: nat, hi: nat)
    requires lo <= mid <= hi <= |vTxid| == |vMatch|
    ensures Matched(vTxid, vMatch, lo, hi) == Matched(vTxid, vMatch, lo, mid) + Matched(vTxid, vMatch, mid, hi)
    decreases mid - lo
  {
    if lo < mid {
      MatchedSplit(vTxid, vMatch, lo + 1, mid, hi);
    }
  }

  lemma {:induction false} MatchedNone(vTxid: seq<Hash>, vMatch: seq<bool>, lo: nat, hi: nat)
    requires lo <= hi <= |vTxid| == |vMatch|
    ensures Matched(vTxid, vMatch, lo, hi) == [] <==> !AnyMatch(vMatch, lo, hi)
    decreases hi - lo
  {
    if lo < hi {
      MatchedNone(vTxid, vMatch, lo + 1, hi);
      if AnyMatch(vMatch, lo, hi) && !vMatch[lo] {
        var p :| lo <= p < hi && p < |vMatch| && vMatch[p];
        assert lo + 1 <= p;
      }
    }
  }

  // ----- Extracting -----

  /** What TraverseAndExtract returns: the node's hash, the bits and hashes used so far, the txids
      matched, and whether something was wrong. */
  datatype Extracted = Extracted(hash: Hash, nBitsUsed: nat, nHashUsed: nat, matches: seq<Hash>, bad: bool)

  function Extract(n: nat, vBits: seq<bool>, vHash: seq<Hash>, height: nat, pos: nat, nBitsUsed: nat, nHashUsed: nat)
    : (r: Extracted)
    ensures nBitsUsed <= r.nBitsUsed && nHashUsed <= r.nHashUsed
    ensures nBitsUsed <= |vBits| ==> r.nBitsUsed <= |vBits|
    ensures nHashUsed <= |vHash| ==> r.nHashUsed <= |vHash|
    decreases height
  {
    if nBitsUsed >= |vBits| then Extracted(Zero, nBitsUsed, nHashUsed, [], true)
    else
      var fParentOfMatch := vBits[nBitsUsed];
      if height == 0 || !fParentOfMatch then
        if nHashUsed >= |vHash| then Extracted(Zero, nBitsUsed + 1, nHashUsed, [], true)
        else
          var hash := vHash[nHashUsed];
          Extracted(hash, nBitsUsed + 1, nHashUsed + 1, if height == 0 && fParentOfMatch then [hash] else [], false)
      else
        var l := Extract(n, vBits, vHash, height - 1, pos * 2, nBitsUsed + 1, nHashUsed);
        if Start(height - 1, pos * 2 + 1) < n then
          var r := Extract(n, vBits, vHash, height - 1, pos * 2 + 1, l.nBitsUsed, l.nHashUsed);
          Extracted(Pair(l.hash, r.hash), r.nBitsUsed, r.nHashUsed, l.matches + r.matches,
                    l.bad || r.bad || r.hash == l.hash)
        else
          Extracted(Pair(l.hash, l.hash), l.nBitsUsed, l.nHashUsed, l.matches, l.bad)
  }

  // ----- Completeness -----

  /** The part of a sequence from i on starts with p. */
  predicate PartAt<T(==)>(s: seq<T>, i: nat, p: seq<T>) {
    i + |p| <= |s| && s[i..i + |p|] == p
  }

  lemma PartsAt<T>(s: seq<T>, i: nat, p: seq<T>, q: seq<T>)
    requires PartAt(s, i, p + q)
    ensures PartAt(s, i, p) && PartAt(s, i + |p|, q)
  {
    assert s[i..i + |p|] == s[i..i + |p + q|][..|p|] == p;
    assert s[i + |p|..i + |p| + |q|] == s[i..i + |p + q|][|p|..] == q;
  }

  /** Extracting gives the hash of the node and the matched txids under it, uses up just what was built
      for it, and finds nothing wrong. */
  ghost predicate Recovers(vTxid: seq<Hash>, vMatch: seq<bool>, vBits: seq<bool>, vHash: seq<Hash>,
                           height: nat, pos: nat, b: nat, k: nat)
    requires |vMatch| == |vTxid| && Start(height, pos) < |vTxid|
  {
    EndAfterStart(|vTxid|, height, pos);
    var t := Built(height, pos, vTxid, vMatch);
    Extract(|vTxid|, vBits, vHash, height, pos, b, k) ==
    Extracted(CalcHash(height, pos, vTxid), b + |t.0|, k + |t.1|,
              Matched(vTxid, vMatch, Start(height, pos), End(|vTxid|, height, pos)), false)
  }

  ghost predicate BuiltAt(vTxid: seq<Hash>, vMatch: seq<bool>, vBits: seq<bool>, vHash: seq<Hash>,
                          height: nat, pos: nat, b: nat, k: nat) {
    && |vMatch| == |vTxid| && Start(height, pos) < |vTxid|
    && PartAt(vBits, b, Built(height, pos, vTxid, vMatch).0) && PartAt(vHash, k, Built(height, pos, vTxid, vMatch).1)
  }

  /** What was built, wherever it stands among the bits and hashes, is recovered. */
  lemma {:induction false} ExtractBuilt(vTxid: seq<Hash>, vMatch: seq<bool>, vBits: seq<bool>, vHash: seq<Hash>,
                                        height: nat, pos: nat, b: nat, k: nat)
    requires BuiltAt(vTxid, vMatch, vBits, vHash, height, pos, b, k) && Distinct(vTxid)
    ensures Recovers(vTxid, vMatch, vBits, vHash, height, pos, b, k)
    decreases height
  {
    hide Start, Pow2, End, Distinct, Extract, Recovers;
    var n := |vTxid|;
    var t := Built(height, pos, vTxid, vMatch);
    if height == 0 || !AnyMatch(vMatch, Start(height, pos), End(n, height, pos)) {
      RecoverStored(vTxid, vMatch, vBits, vHash, height, pos, b, k);
    } else {
      Halves(n, height, pos);
      var left := Built(height - 1, pos * 2, vTxid, vMatch);
      if Start(height - 1, pos * 2 + 1) < n {
        var right := Built(height - 1, pos * 2 + 1, vTxid, vMatch);
        assert t.0 == [true] + (left.0 + right.0);
        PartsAt(vBits, b, [true], left.0 + right.0);
        PartsAt(vBits, b + 1, left.0, right.0);
        PartsAt(vHash, k, left.1, right.1);
        ExtractBuilt(vTxid, vMatch, vBits, vHash, height - 1, pos * 2, b + 1, k);
        ExtractBuilt(vTxid, vMatch, vBits, vHash, height - 1, pos * 2 + 1, b + 1 + |left.0|, k + |left.1|);
        RecoverTwo(vTxid, vMatch, vBits, vHash, height, pos, b, k);
      } else {
        PartsAt(vBits, b, [true], left.0);
        ExtractBuilt(vTxid, vMatch, vBits, vHash, height - 1, pos * 2, b + 1, k);
        RecoverOne(vTxid, vMatch, vBits, vHash, height, pos, b, k);
      }
    }
  }

  lemma RecoverStored(vTxid: seq<Hash>, vMatch: seq<bool>, vBits: seq<bool>, vHash: seq<Hash>,
                      height: nat, pos: nat, b: nat, k: nat)
    requires BuiltAt(vTxid, vMatch, vBits, vHash, height, pos, b, k)
    requires height == 0 || !AnyMatch(vMatch, Start(height, pos), End(|vTxid|, height, pos))
    ensures Recovers(vTxid, vMatch, vBits, vHash, height, pos, b, k)
  {
    hide Start, Pow2, End, Extract;
    var t := Built(height, pos, vTxid, vMatch);
    EndAfterStart(|vTxid|, height, pos);
    FirstAt(vBits, b, t.0);
    FirstAt(vHash, k, t.1);
    StoredNode(|vTxid|, vBits, vHash, height, pos, b, k);
    MatchedHere(vTxid, vMatch, height, Start(height, pos), End(|vTxid|, height, pos));
  }

  lemma RecoverTwo(vTxid: seq<Hash>, vMatch: seq<bool>, vBits: seq<bool>, vHash: seq<Hash>,
                   height: nat, pos: nat, b: nat, k: nat)
    requires BuiltAt(vTxid, vMatch, vBits, vHash, height, pos, b, k) && Distinct(vTxid) && height > 0
    requires AnyMatch(vMatch, Start(height, pos), End(|vTxid|, height, pos))
    requires Start(height - 1, pos * 2) < |vTxid| && Start(height - 1, pos * 2 + 1) < |vTxid|
    requires Recovers(vTxid, vMatch, vBits, vHash, height - 1, pos * 2, b + 1, k)
    requires var left := Built(height - 1, pos * 2, vTxid, vMatch);
             Recovers(vTxid, vMatch, vBits, vHash, height - 1, pos * 2 + 1, b + 1 + |left.0|, k + |left.1|)
    ensures Recovers(vTxid, vMatch, vBits, vHash, height, pos, b, k)
  {
    hide Start, Pow2, End, Distinct, Extract;
    Halves(|vTxid|, height, pos);
    FirstAt(vBits, b, Built(height, pos, vTxid, vMatch).0);
    ChildrenDiffer(height, pos, vTxid);
    MatchedSplit(vTxid, vMatch, Start(height, pos), Start(height - 1, pos * 2 + 1), End(|vTxid|, height, pos));
    InnerNode(|vTxid|, vBits, vHash, height, pos, b, k);
  }

  lemma RecoverOne(vTxid: seq<Hash>, vMatch: seq<bool>, vBits: seq<bool>, vHash: seq<Hash>,
                   height: nat, pos: nat, b: nat, k: nat)
    requires BuiltAt(vTxid, vMatch, vBits, vHash, height, pos, b, k) && height > 0
    requires AnyMatch(vMatch, Start(height, pos), End(|vTxid|, height, pos))
    requires Start(height - 1, pos * 2) < |vTxid| <= Start(height - 1, pos * 2 + 1)
    requires Recovers(vTxid, vMatch, vBits, vHash, height - 1, pos * 2, b + 1, k)
    ensures Recovers(vTxid, vMatch, vBits, vHash, height, pos, b, k)
  {
    hide Start, Pow2, End, Extract;
    Halves(|vTxid|, height, pos);
    FirstAt(vBits, b, Built(height, pos, vTxid, vMatch).0);
    InnerNode(|vTxid|, vBits, vHash, height, pos, b, k);
  }

  lemma StoredNode(n: nat, vBits: seq<bool>, vHash: seq<Hash>, height: nat, pos: nat, b: nat, k: nat)
    requires b < |vBits| && k < |vHash| && (height == 0 || !vBits[b])
    ensures Extract(n, vBits, vHash, height, pos, b, k) ==
            Extracted(vHash[k], b + 1, k + 1, if height == 0 && vBits[b] then [vHash[k]] else [], false)
  {
  }

  lemma InnerNode(n: nat, vBits: seq<bool>, vHash: seq<Hash>, height: nat, pos: nat, b: nat, k: nat)
    requires b < |vBits| && height > 0 && vBits[b]
    ensures var l := Extract(n, vBits, vHash, height - 1, pos * 2, b + 1, k);
            var r := Extract(n, vBits, vHash, height - 1, pos * 2 + 1, l.nBitsUsed, l.nHashUsed);
            Extract(n, vBits, vHash, height, pos, b, k) ==
            if Start(height - 1, pos * 2 + 1) < n then
              Extracted(Pair(l.hash, r.hash), r.nBitsUsed, r.nHashUsed, l.matches + r.matches,
                        l.bad || r.bad || r.hash == l.hash)
            else
              Extracted(Pair(l.hash, l.hash), l.nBitsUsed, l.nHashUsed, l.matches, l.bad)
  {
  }

  lemma MatchedHere(vTxid: seq<Hash>, vMatch: seq<bool>, height: nat, lo: nat, hi: nat)
    requires lo < hi <= |vTxid| == |vMatch| && (height == 0 ==> hi == lo + 1)
    requires height == 0 || !AnyMatch(vMatch, lo, hi)
    ensures Matched(vTxid, vMatch, lo, hi) == if height == 0 && AnyMatch(vMatch, lo, hi) then [vTxid[lo]] else []
  {
    MatchedNone(vTxid, vMatch, lo, hi);
    if height == 0 {
      assert Matched(vTxid, vMatch, lo + 1, hi) == [];
    }
  }

  lemma FirstAt<T>(s: seq<T>, i: nat, p: seq<T>)
    requires PartAt(s, i, p) && p != []
    ensures s[i] == p[0]
  {
    assert s[i..i + |p|][0] == s[i];
  }

  // ----- Soundness -----

  predicate IsSubsequence(a: seq<Hash>, b: seq<Hash>) {
    if a == [] then true
    else if b == [] then false
    else if a[0] == b[0] && IsSubsequence(a[1..], b[1..]) then true
    else IsSubsequence(a, b[1..])
  }

  lemma {:induction false} SubsequenceOfMore(a: seq<Hash>, b: seq<Hash>, c: seq<Hash>)
    requires IsSubsequence(a, c)
    ensures IsSubsequence(a, b + c)
    decreases |b|
  {
    if b == [] {
      assert b + c == c;
    } else {
      SubsequenceOfMore(a, b[1..], c);
      assert (b + c)[1..] == b[1..] + c;
    }
  }

  lemma {:induction false} SubsequencesJoin(a: seq<Hash>, b: seq<Hash>, c: seq<Hash>, d: seq<Hash>)
    requires IsSubsequence(a, b) && IsSubsequence(c, d)
    ensures IsSubsequence(a + c, b + d)
    decreases |b|
  {
    if a == [] {
      assert a + c == c;
      SubsequenceOfMore(c, b, d);
    } else {
      assert (b + d)[1..] == b[1..] + d;
      if a[0] == b[0] && IsSubsequence(a[1..], b[1..]) {
        SubsequencesJoin(a[1..], b[1..], c, d);
        assert (a + c)[1..] == a[1..] + c;
      } else {
        SubsequencesJoin(a, b[1..], c, d);
      }
    }
  }

  /** Whatever bits and hashes claim to be a tree over n leaves: if the traversal finds nothing wrong
      and the hash of a node is that of the same node of the tree over vTxid, then the matches under it
      are a subsequence of the txids under it.  The claimed n need not be |vTxid|, if the txids are
      distinct: a second child that is not there is noticed as equal to the first. */
  lemma {:induction false} ExtractSound(n: nat, vBits: seq<bool>, vHash: seq<Hash>, vTxid: seq<Hash>,
                                        height: nat, pos: nat, b: nat, k: nat)
    requires Start(height, pos) < |vTxid| && (n == |vTxid| || Distinct(vTxid))
    requires var r := Extract(n, vBits, vHash, height, pos, b, k);
             !r.bad && r.hash == CalcHash(height, pos, vTxid)
    ensures Start(height, pos) <= End(|vTxid|, height, pos) <= |vTxid|
    ensures IsSubsequence(Extract(n, vBits, vHash, height, pos, b, k).matches,
                          vTxid[Start(height, pos)..End(|vTxid|, height, pos)])
    decreases height
  {
    hide Start, Pow2, End;
    EndAfterStart(|vTxid|, height, pos);
    if height == 0 {
      assert vTxid[pos..pos + 1] == [vTxid[pos]];
      assert vTxid[pos..pos + 1][1..] == [];
    } else if vBits[b] {
      Halves(|vTxid|, height, pos);
      var lo, hi := Start(height, pos), End(|vTxid|, height, pos);
      var mid := Start(height - 1, pos * 2 + 1);
      var l := Extract(n, vBits, vHash, height - 1, pos * 2, b + 1, k);
      ExtractSound(n, vBits, vHash, vTxid, height - 1, pos * 2, b + 1, k);
      if mid < |vTxid| && mid < n {
        ExtractSound(n, vBits, vHash, vTxid, height - 1, pos * 2 + 1, l.nBitsUsed, l.nHashUsed);
        var r := Extract(n, vBits, vHash, height - 1, pos * 2 + 1, l.nBitsUsed, l.nHashUsed);
        SubsequencesJoin(l.matches, vTxid[lo..mid], r.matches, vTxid[mid..hi]);
        assert vTxid[lo..mid] + vTxid[mid..hi] == vTxid[lo..hi];
      } else if mid < |vTxid| {
        ChildrenDiffer(height, pos, vTxid);
      }
    }
  }

  // ----- Size -----

  function CountMatches(vMatch: seq<bool>, lo: nat, hi: nat): nat
    requires lo <= hi <= |vMatch|
    decreases hi - lo
  {
    if lo == hi then 0 else (if vMatch[lo] then 1 else 0) + CountMatches(vMatch, lo + 1, hi)
  }

  lemma {:induction false} CountSplit(vMatch: seq<bool>, lo: nat, mid: nat, hi: nat)
    requires lo <= mid <= hi <= |vMatch|
    ensures CountMatches(vMatch, lo, hi) == CountMatches(vMatch, lo, mid) + CountMatches(vMatch, mid, hi)
    decreases mid - lo
  {
    if lo < mid {
      CountSplit(vMatch, lo + 1, mid, hi);
    }
  }

  lemma {:induction false} CountPositive(vMatch: seq<bool>, lo: nat, hi: nat)
    requires lo <= hi <= |vMatch| && AnyMatch(vMatch, lo, hi)
    ensures CountMatches(vMatch, lo, hi) >= 1
    decreases hi - lo
  {
    var p :| lo <= p < hi && p < |vMatch| && vMatch[p];
    if p > lo {
      assert AnyMatch(vMatch, lo + 1, hi);
      CountPositive(vMatch, lo + 1, hi);
    }
  }

  /** One hash at most per leaf, and at most one and the height for each match; no fewer bits than
      hashes. */
  lemma {:induction false} HashBounds(vTxid: seq<Hash>, vMatch: seq<bool>, height: nat, pos: nat)
    requires |vMatch| == |vTxid| && Start(height, pos) < |vTxid|
    ensures Start(height, pos) <= End(|vTxid|, height, pos) <= |vTxid|
    ensures var t := Built(height, pos, vTxid, vMatch);
            var lo, hi := Start(height, pos), End(|vTxid|, height, pos);
            1 <= |t.1| <= hi - lo && |t.1| <= 1 + CountMatches(vMatch, lo, hi) * height && |t.1| <= |t.0|
    decreases height
  {
    hide Start, Pow2, End;
    EndAfterStart(|vTxid|, height, pos);
    var lo, hi := Start(height, pos), End(|vTxid|, height, pos);
    if height > 0 && AnyMatch(vMatch, lo, hi) {
      CountPositive(vMatch, lo, hi);
      Halves(|vTxid|, height, pos);
      HashBounds(vTxid, vMatch, height - 1, pos * 2);
      var mid := Start(height - 1, pos * 2 + 1);
      if mid < |vTxid| {
        HashBounds(vTxid, vMatch, height - 1, pos * 2 + 1);
        CountSplit(vMatch, lo, mid, hi);
        SumBound(CountMatches(vMatch, lo, mid), CountMatches(vMatch, mid, hi), height);
      } else {
        SumBound(CountMatches(vMatch, lo, hi), 0, height);
      }
    }
  }

  lemma SumBound(a: nat, b: nat, h: nat)
    requires a + b >= 1 && h >= 1
    ensures (1 + a * (h - 1)) + (1 + b * (h - 1)) <= 1 + (a + b) * h
    ensures 1 + a * (h - 1) <= 1 + a * h
  {
    assert a * (h - 1) + b * (h - 1) == (a + b) * h - (a + b);
    assert a * (h - 1) == a * h - a;
  }

  /** Every node with two children separates two hashes, and only nodes on the right edge, at most one
      per height, have a single child. */
  lemma {:induction false} BitsBound(vTxid: seq<Hash>, vMatch: seq<bool>, height: nat, pos: nat)
    requires |vMatch| == |vTxid| && Start(height, pos) < |vTxid|
    ensures var t := Built(height, pos, vTxid, vMatch);
            |t.0| <= 2 * |t.1| - 1 + if Start(height, pos + 1) <= |vTxid| then 0 else height
    decreases height
  {
    EndAfterStart(|vTxid|, height, pos);
    if height > 0 && AnyMatch(vMatch, Start(height, pos), End(|vTxid|, height, pos)) {
      Children(height, pos);
      BitsBound(vTxid, vMatch, height - 1, pos * 2);
      if Start(height - 1, pos * 2 + 1) < |vTxid| {
        BitsBound(vTxid, vMatch, height - 1, pos * 2 + 1);
      }
    }
  }
}
