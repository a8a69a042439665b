/** How the slices are divided among the threads of a search (src/patternsearch.cpp: aesSearch,
    aesSearchAESNI). */
module SearchRanges {
  import opened Limbs
  import opened PatternSearch
  import opened PatternWalk

  // ----- The plain search -----

  function StartLoc(t: nat, n: nat): nat
    requires n > 0
  {
    t * (SLICES / n)
  }

  /** The last thread also does a remainder, which is taken from the number of chunks. */
  function EndLoc(t: nat, n: nat): nat
    requires n > 0
  {
    StartLoc(t, n) + SLICES / n + if t + 1 == n then CHUNKS % n else 0
  }

  ghost predicate Visits(t: nat, n: nat, a: nat)
    requires n > 0
  {
    t < n && StartLoc(t, n) <= a < EndLoc(t, n)
  }

  /** Some thread visits the slice. */
  ghost predicate IsVisited(n: nat, a: nat)
    requires n > 0
  {
    exists t: nat {:trigger Visits(t, n, a)} :: Visits(t, n, a)
  }

  lemma StartsGrow(t: nat, u: nat, q: nat)
    requires t <= u
    ensures t * q <= u * q
  {
    assert (u - t) * q >= 0;
  }

  lemma NextStart(t: nat, q: nat)
    ensures (t + 1) * q == t * q + q
  {
  }

  /** No slice is visited by two threads. */
  lemma VisitedOnce(n: nat, a: nat, t: nat, u: nat)
    requires n > 0 && Visits(t, n, a) && Visits(u, n, a)
    ensures t == u
  {
    var q := SLICES / n;
    NextStart(t, q);
    NextStart(u, q);
    if t < u {
      StartsGrow(t + 1, u, q);
    } else if u < t {
      StartsGrow(u + 1, t, q);
    }
  }

  lemma PartBelow(t: nat, n: nat, q: nat, r: nat, a: nat)
    requires t < n && a < t * q + q + if t + 1 == n then r else 0
    ensures a < n * q + r
  {
    NextStart(t, q);
    StartsGrow(t + 1, n, q);
  }

  lemma ThreadOf(a: nat, q: nat, n: nat)
    requires n > 0 && a < (n - 1) * q
    ensures q > 0 && a / q < n - 1 && (a / q) * q <= a < (a / q) * q + q
  {
    assert q == 0 ==> (n - 1) * q == 0;
    QuotientBelow(a, q, a / q, a % q, n - 1);
  }

  lemma QuotientBelow(a: nat, q: nat, k: nat, r: nat, m: nat)
    requires a == q * k + r && r < q && a < m * q
    ensures k < m && k * q <= a < k * q + q
  {
    assert k >= m ==> (k - m) * q >= 0;
  }

  lemma PartOf(n: nat, q: nat, r: nat, a: nat) returns (t: nat)
    requires n > 0 && a < n * q + r
    ensures t < n && t * q <= a < t * q + q + if t + 1 == n then r else 0
  {
    NextStart(n - 1, q);
    t := n - 1;
    if a < (n - 1) * q {
      ThreadOf(a, q, n);
      t := a / q;
    }
  }

  /** Those that are visited are the first n * (SLICES / n) and the remainder. */
  lemma VisitedUpTo(n: nat, a: nat)
    requires n > 0
    ensures IsVisited(n, a) <==> a < n * (SLICES / n) + CHUNKS % n
  {
    var q, r := SLICES / n, CHUNKS % n;
    if IsVisited(n, a) {
      var t: nat :| Visits(t, n, a);
      PartBelow(t, n, q, r, a);
    }
    if a < n * q + r {
      var t := PartOf(n, q, r, a);
      assert Visits(t, n, a);
    }
  }

  /** The threads visit exactly the slices of the scratchpad if and only if their number leaves the same
      remainder of the slices as of the chunks. */
  lemma DividedIff(n: nat)
    requires n > 0
    ensures (forall a: nat {:trigger IsVisited(n, a)} :: IsVisited(n, a) <==> a < SLICES) <==>
            CHUNKS % n == SLICES % n
  {
    hide IsVisited;
    var whole, r := n * (SLICES / n), CHUNKS % n;
    assert SLICES == whole + SLICES % n;
    forall a: nat ensures IsVisited(n, a) <==> a < whole + r {
      VisitedUpTo(n, a);
    }
    assert whole + r < SLICES ==> !IsVisited(n, whole + r);
    assert whole + r > SLICES ==> IsVisited(n, SLICES);
  }

  /** Five threads leave out three slices, ten go two beyond the end. */
  lemma DividedWrongly()
    ensures CHUNKS % 5 == 1 && SLICES % 5 == 4 && CHUNKS % 10 == 6 && SLICES % 10 == 4
    ensures !IsVisited(5, SLICES - 3)
    ensures Visits(9, 10, SLICES + 1)
  {
    VisitedUpTo(5, SLICES - 3);
  }

  // ----- In groups of eight -----

  /** The search by lanes starts its last group of eight whatever is left, and has no remainder. */
  function EndGroups(t: nat, n: nat): nat
    requires n > 0
  {
    StartLoc(t, n) + (SLICES / n + 7) / 8 * 8
  }

  ghost predicate VisitsByLanes(t: nat, n: nat, a: nat)
    requires n > 0
  {
    t < n && StartLoc(t, n) <= a < EndGroups(t, n)
  }

  ghost predicate OnlyThread(t: nat, n: nat, a: nat)
    requires n > 0
  {
    VisitsByLanes(t, n, a) && forall u: nat {:trigger VisitsByLanes(u, n, a)} :: VisitsByLanes(u, n, a) ==> u == t
  }

  /** Each slice of the scratchpad is visited exactly once, and nothing beyond it. */
  ghost predicate EachOnce(n: nat)
    requires n > 0
  {
    && (forall a: nat {:trigger SliceIndex(a)} :: SliceIndex(a) ==>
          exists t: nat {:trigger OnlyThread(t, n, a)} :: OnlyThread(t, n, a))
    && (forall t: nat, a: nat {:trigger VisitsByLanes(t, n, a)} :: VisitsByLanes(t, n, a) ==> SliceIndex(a))
  }

  predicate SliceIndex(a: nat) { a < SLICES }

  /** That is so if and only if the number of threads divides the slices into whole groups. */
  lemma GroupsIff(n: nat)
    requires n > 0
    ensures EachOnce(n) <==> SLICES % n == 0 && SLICES / n % 8 == 0
  {
    hide VisitsByLanes;
    var q := SLICES / n;
    assert SLICES == n * q + SLICES % n;
    if SLICES % n == 0 && q % 8 == 0 {
      forall a: nat | SliceIndex(a) ensures OnlyThread(a / q, n, a) {
        WholeGroups(n, a);
      }
      forall t: nat, a: nat | VisitsByLanes(t, n, a) ensures SliceIndex(a) {
        WithinGroups(n, t, a);
      }
    } else if EachOnce(n) {
      NotWhole(n);
    }
  }

  lemma WholeGroups(n: nat, a: nat)
    requires n > 0 && a < SLICES && SLICES % n == 0 && SLICES / n % 8 == 0
    ensures SLICES / n > 0 && OnlyThread(a / (SLICES / n), n, a)
  {
    var q := SLICES / n;
    assert SLICES == n * q;
    assert q == 0 ==> n * q == 0;
    QuotientBelow(a, q, a / q, a % q, n);
    forall u: nat | VisitsByLanes(u, n, a) ensures u == a / q {
      NextStart(u, q);
      NextStart(a / q, q);
      if u < a / q {
        StartsGrow(u + 1, a / q, q);
      } else if u > a / q {
        StartsGrow(a / q + 1, u, q);
      }
    }
  }

  lemma WithinGroups(n: nat, t: nat, a: nat)
    requires n > 0 && SLICES % n == 0 && SLICES / n % 8 == 0 && VisitsByLanes(t, n, a)
    ensures a < SLICES
  {
    var q := SLICES / n;
    assert SLICES == n * q;
    NextStart(t, q);
    StartsGrow(t + 1, n, q);
  }

  lemma NotWhole(n: nat)
    requires n > 0 && EachOnce(n)
    ensures SLICES % n == 0 && SLICES / n % 8 == 0
  {
    var q := SLICES / n;
    assert SLICES == n * q + SLICES % n;
    assert n > 1 ==> 2 * q <= n * q by { if n > 1 { StartsGrow(2, n, q); } }
    assert q % 8 != 0 ==> SliceIndex(q) && VisitsByLanes(0, n, q) && VisitsByLanes(1, n, q);
    if SLICES % n != 0 && q % 8 == 0 {
      var a := n * q;
      assert SliceIndex(a);
      var t: nat :| OnlyThread(t, n, a);
      NextStart(t, q);
      StartsGrow(t + 1, n, q);
    }
  }

  // ----- What a search finds -----

  /** The pairs the first k threads of a plain search report, one thread after the other. */
  ghost function Found(p: Primitives, midHash: seq<Word>, n: nat, k: nat): seq<(nat, Word)>
    requires PrimitivesOk(p) && |midHash| == 8 && k <= n && 0 < n && CHUNKS % n == SLICES % n
  {
    if k == 0 then []
    else
      EndsWithin(k - 1, n);
      Found(p, midHash, n, k - 1) + Hits(p, midHash, StartLoc(k - 1, n), EndLoc(k - 1, n))
  }

  lemma EndsWithin(t: nat, n: nat)
    requires t < n && CHUNKS % n == SLICES % n
    ensures EndLoc(t, n) <= SLICES && (t + 1 < n ==> EndLoc(t, n) == StartLoc(t + 1, n))
    ensures t + 1 == n ==> EndLoc(t, n) == SLICES
  {
    var q := SLICES / n;
    assert SLICES == n * q + SLICES % n;
    NextStart(t, q);
    StartsGrow(t + 1, n, q);
  }

  lemma {:induction false} HitsJoin(p: Primitives, midHash: seq<Word>, a: nat, b: nat, c: nat)
    requires PrimitivesOk(p) && |midHash| == 8 && a <= b <= c <= SLICES
    ensures Hits(p, midHash, a, b) + Hits(p, midHash, b, c) == Hits(p, midHash, a, c)
    decreases c
  {
    hide Walk;
    if b < c {
      HitsJoin(p, midHash, a, b, c - 1);
    }
  }

  /** For such a number of threads they find together exactly the hits of the whole scratchpad. */
  lemma {:induction false} FoundTogether(p: Primitives, midHash: seq<Word>, n: nat, k: nat)
    requires PrimitivesOk(p) && |midHash| == 8 && 0 < k <= n && CHUNKS % n == SLICES % n
    ensures EndLoc(k - 1, n) <= SLICES && Found(p, midHash, n, k) == Hits(p, midHash, 0, EndLoc(k - 1, n))
    ensures k == n ==> Found(p, midHash, n, k) == Hits(p, midHash, 0, SLICES)
  {
    hide Walk, Hits;
    EndsWithin(k - 1, n);
    if k > 1 {
      EndsWithin(k - 2, n);
      FoundTogether(p, midHash, n, k - 1);
      HitsJoin(p, midHash, 0, StartLoc(k - 1, n), EndLoc(k - 1, n));
    } else {
      assert StartLoc(0, n) == 0;
    }
  }
}
