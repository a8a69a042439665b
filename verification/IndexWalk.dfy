/** CheckBlockIndex as it runs: an explicit depth-first walk over the block index that carries, for each
    of seven properties, the first block on the way from genesis that has it (src/main.cpp). */
module IndexWalk {
  import opened Options
  import opened BlockIndex
  import opened BlockTree

  // ----- The map from parents to children -----

  /** A std::multimap: the values of one key in insertion order. */
  type Forward = map<Option<BlockId>, seq<BlockId>>

  function Range(forward: Forward, p: Option<BlockId>): seq<BlockId> {
    if p in forward then forward[p] else []
  }

  /** Each of the blocks stands under its parent, once, and nothing else does. */
  ghost predicate Lists(h: Headers, forward: Forward, blocks: set<BlockId>) {
    && (forall b {:trigger b in blocks} :: b in blocks ==> b in h && b in Range(forward, h[b].pprev))
    && (forall p {:trigger Range(forward, p)} :: NoDuplicates(Range(forward, p)))
    && (forall p, b {:trigger b in Range(forward, p)} :: b in Range(forward, p) ==>
          b in blocks && b in h && h[b].pprev == p)
  }

  method BuildForward(h: Headers) returns (forward: Forward, size: nat)
    ensures Lists(h, forward, h.Keys) && size == |h|
  {
    forward, size := map[], 0;
    var rest := h.Keys;
    while rest != {}
      invariant rest <= h.Keys && Lists(h, forward, h.Keys - rest) && size + |rest| == |h|
      decreases rest
    {
      var b :| b in rest;
      InsertLists(h, forward, h.Keys - rest, b);
      assert h.Keys - (rest - {b}) == h.Keys - rest + {b};
      forward := Insert(forward, h[b].pprev, b);
      rest, size := rest - {b}, size + 1;
    }
    assert h.Keys - {} == h.Keys;
  }

  function Insert(forward: Forward, p: Option<BlockId>, b: BlockId): Forward {
    forward[p := Range(forward, p) + [b]]
  }

  lemma InsertLists(h: Headers, forward: Forward, blocks: set<BlockId>, b: BlockId)
    requires Lists(h, forward, blocks) && b in h && b !in blocks
    ensures Lists(h, Insert(forward, h[b].pprev, b), blocks + {b})
  {
    var forward' := Insert(forward, h[b].pprev, b);
    forall p, x | x in Range(forward', p) ensures x in blocks + {b} && x in h && h[x].pprev == p {
      assert p == h[b].pprev || Range(forward', p) == Range(forward, p);
      assert x == b || x in Range(forward, p);
    }
    forall x | x in blocks + {b} ensures x in h && x in Range(forward', h[x].pprev) {
      assert x == b || x in blocks;
    }
    forall p ensures NoDuplicates(Range(forward', p)) {
      assert NoDuplicates(Range(forward, p));
      assert b !in Range(forward, p);
    }
  }

  lemma RootIsGenesis(h: Headers, genesis: BlockId, forward: Forward)
    requires WellFormed(h, genesis) && Lists(h, forward, h.Keys)
    ensures Range(forward, None) == [genesis]
  {
    var roots := Range(forward, None);
    assert h[genesis].pprev == None;
    assert forall b :: b in roots ==> b == genesis by {
      forall b | b in roots ensures b == genesis {
        assert b in h && h[b].pprev == None;
      }
    }
    assert forall i :: 0 <= i < |roots| ==> roots[i] in roots;
    assert NoDuplicates(roots);
    assert genesis in roots;
    assert roots[|roots| - 1] == roots[0] == genesis;
  }

  // ----- The first block on the way with a property -----

  datatype Property =
    Invalid | Missing | NeverProcessed | NotTreeValid | NotTransactionsValid | NotChainValid | NotScriptsValid

  predicate Has(t: Tree, property: Property, b: BlockId)
    requires b in t.headers && b in t.status
  {
    var s := t.status[b];
    match property
    case Invalid => s.failedValid
    case Missing => !s.haveData
    case NeverProcessed => s.nTx == 0
    case NotTreeValid => t.headers[b].pprev != None && s.validity < VALID_TREE
    case NotTransactionsValid => t.headers[b].pprev != None && s.validity < VALID_TRANSACTIONS
    case NotChainValid => t.headers[b].pprev != None && s.validity < VALID_CHAIN
    case NotScriptsValid => t.headers[b].pprev != None && s.validity < VALID_SCRIPTS
  }

  /** The seven variables pindexFirst... of the walk. */
  datatype Firsts = Firsts(
    invalid: Option<BlockId>, missing: Option<BlockId>, neverProcessed: Option<BlockId>,
    notTreeValid: Option<BlockId>, notTransactionsValid: Option<BlockId>,
    notChainValid: Option<BlockId>, notScriptsValid: Option<BlockId>)

  const NONE_YET := Firsts(None, None, None, None, None, None, None)

  function NotedFirst(t: Tree, first: Option<BlockId>, property: Property, b: BlockId): Option<BlockId>
    requires b in t.headers && b in t.status
  {
    if first == None && Has(t, property, b) then Some(b) else first
  }

  function Noted(t: Tree, f: Firsts, b: BlockId): Firsts
    requires b in t.headers && b in t.status
  {
    Firsts(NotedFirst(t, f.invalid, Invalid, b), NotedFirst(t, f.missing, Missing, b),
           NotedFirst(t, f.neverProcessed, NeverProcessed, b), NotedFirst(t, f.notTreeValid, NotTreeValid, b),
           NotedFirst(t, f.notTransactionsValid, NotTransactionsValid, b),
           NotedFirst(t, f.notChainValid, NotChainValid, b), NotedFirst(t, f.notScriptsValid, NotScriptsValid, b))
  }

  function UnsetFirst(first: Option<BlockId>, b: BlockId): Option<BlockId> {
    if first == Some(b) then None else first
  }

  function Unset(f: Firsts, b: BlockId): Firsts {
    Firsts(UnsetFirst(f.invalid, b), UnsetFirst(f.missing, b), UnsetFirst(f.neverProcessed, b),
           UnsetFirst(f.notTreeValid, b), UnsetFirst(f.notTransactionsValid, b),
           UnsetFirst(f.notChainValid, b), UnsetFirst(f.notScriptsValid, b))
  }

  /** The lowest block with the property on the path of b. */
  ghost function First(t: Tree, property: Property, b: BlockId): Option<BlockId>
    requires Shape(t) && b in t.headers
    decreases t.headers[b].nHeight
  {
    NotedFirst(t, if b == t.genesis then None else First(t, property, Parent(t, b)), property, b)
  }

  ghost function FirstUpTo(t: Tree, property: Property, b: Option<BlockId>): Option<BlockId>
    requires Shape(t) && (b == None || b.value in t.headers)
  {
    if b == None then None else First(t, property, b.value)
  }

  ghost function FirstsUpTo(t: Tree, b: Option<BlockId>): Firsts
    requires Shape(t) && (b == None || b.value in t.headers)
  {
    Firsts(FirstUpTo(t, Invalid, b), FirstUpTo(t, Missing, b), FirstUpTo(t, NeverProcessed, b),
           FirstUpTo(t, NotTreeValid, b), FirstUpTo(t, NotTransactionsValid, b),
           FirstUpTo(t, NotChainValid, b), FirstUpTo(t, NotScriptsValid, b))
  }

  /** It is the lowest: it lies on the path and has the property, and none below it does; and there is
      one if any block of the path has the property. */
  lemma {:induction false} FirstIsLowest(t: Tree, property: Property, b: BlockId)
    requires Shape(t) && b in t.headers
    ensures forall x :: x in PathOf(t, b) ==> x in t.headers
    ensures First(t, property, b) == None ==> forall x :: x in PathOf(t, b) ==> !Has(t, property, x)
    ensures First(t, property, b).Some? ==>
              var f := First(t, property, b).value;
              f in t.headers && f in PathOf(t, b) && Has(t, property, f)
              && forall x :: x in PathOf(t, b) && t.headers[x].nHeight < t.headers[f].nHeight ==> !Has(t, property, x)
    ensures First(t, property, b).Some? ==> t.headers[First(t, property, b).value].nHeight <= t.headers[b].nHeight
    decreases t.headers[b].nHeight
  {
    hide SkipsBuilt, Has;
    if b == t.genesis {
      assert PathOf(t, b) == [b];
    } else {
      FirstIsLowest(t, property, Parent(t, b));
      assert PathOf(t, b) == PathOf(t, Parent(t, b)) + [b];
      HeightsOnPath(t, Parent(t, b));
    }
  }

  lemma HeightsOnPath(t: Tree, b: BlockId)
    requires Shape(t) && b in t.headers
    ensures forall x :: x in PathOf(t, b) ==> x in t.headers && t.headers[x].nHeight <= t.headers[b].nHeight
  {
    forall x | x in PathOf(t, b) ensures x in t.headers && t.headers[x].nHeight <= t.headers[b].nHeight {
      var k :| 0 <= k < |PathOf(t, b)| && PathOf(t, b)[k] == x;
      PathInTree(t, b, k);
    }
  }

  /** Going down, a block may become the first of its path; going up, the variable is unset that it set. */
  lemma GoDown(t: Tree, b: BlockId)
    requires Shape(t) && b in t.headers
    ensures Noted(t, FirstsUpTo(t, t.headers[b].pprev), b) == FirstsUpTo(t, Some(b))
  {
    hide SkipsBuilt, Has, NotedFirst;
    assert t.headers[b].pprev == if b == t.genesis then None else Some(Parent(t, b));
  }

  lemma UnsetIsUpper(t: Tree, property: Property, b: BlockId)
    requires Shape(t) && b in t.headers
    ensures UnsetFirst(First(t, property, b), b) == FirstUpTo(t, property, t.headers[b].pprev)
  {
    hide SkipsBuilt, Has;
    if b != t.genesis {
      FirstIsLowest(t, property, Parent(t, b));
    }
  }

  lemma GoUp(t: Tree, b: BlockId)
    requires Shape(t) && b in t.headers
    ensures Unset(FirstsUpTo(t, Some(b)), b) == FirstsUpTo(t, t.headers[b].pprev)
  {
    hide SkipsBuilt, Has, UnsetFirst, First;
    UnsetIsUpper(t, Invalid, b);
    UnsetIsUpper(t, Missing, b);
    UnsetIsUpper(t, NeverProcessed, b);
    UnsetIsUpper(t, NotTreeValid, b);
    UnsetIsUpper(t, NotTransactionsValid, b);
    UnsetIsUpper(t, NotChainValid, b);
    UnsetIsUpper(t, NotScriptsValid, b);
  }

  // ----- The assertions about one block -----

  /** The walk's assertions about a block, in its order, for a node that never pruned. */
  predicate Assertions(t: Tree, b: BlockId, nHeight: int, f: Firsts, foundInUnlinked: bool)
    requires b in t.headers && b in t.status && t.vChain != [] && Tip(t) in t.headers && Tip(t) in t.status
  {
    var s, pprev := t.status[b], t.headers[b].pprev;
    && (pprev == None ==> b == t.genesis && b == t.vChain[0])
    && (s.nChainTx == 0 ==> s.nSequenceId == 0)
    && (!s.haveData <==> s.nTx == 0)
    && f.missing == f.neverProcessed
    && (s.haveUndo ==> s.haveData)
    && (s.validity >= VALID_TRANSACTIONS <==> s.nTx > 0)
    && (f.neverProcessed != None <==> s.nChainTx == 0)
    && (f.notTransactionsValid != None <==> s.nChainTx == 0)
    && t.headers[b].nHeight == nHeight
    && (pprev == None ||
        (pprev.value in t.headers && t.headers[b].nChainWork >= t.headers[pprev.value].nChainWork))
    && (nHeight < 2 ||
        (t.headers[b].pskip.Some? && t.headers[b].pskip.value in t.headers &&
         t.headers[t.headers[b].pskip.value].nHeight < nHeight))
    && f.notTreeValid == None
    && (s.validity >= VALID_CHAIN ==> f.notChainValid == None)
    && (s.validity >= VALID_SCRIPTS ==> f.notScriptsValid == None)
    && (f.invalid == None ==> !s.Failed())
    && (if !SortsBefore(t.headers, t.status, b, Tip(t)) && f.neverProcessed == None then
          (f.invalid == None && (f.missing == None || b == Tip(t)) ==> b in t.candidates)
        else
          b !in t.candidates)
    && (pprev != None && s.haveData && f.neverProcessed != None && f.invalid == None ==> foundInUnlinked)
    && (!s.haveData ==> !foundInUnlinked)
    && (f.missing == None ==> !foundInUnlinked)
    && !(pprev != None && s.haveData && f.neverProcessed == None && f.missing != None)
  }

  ghost predicate EntryPasses(t: Tree, b: BlockId)
    requires Shape(t) && b in t.headers
  {
    var pprev := t.headers[b].pprev;
    Tip(t) in t.headers &&
    Assertions(t, b, t.headers[b].nHeight, FirstsUpTo(t, Some(b)), pprev.Some? && InUnlinked(t, pprev.value, b))
  }

  lemma FirstIff(t: Tree, b: BlockId)
    requires Shape(t) && b in t.headers
    ensures First(t, Invalid, b) != None <==> SomeOnPath(t, b, false, (x: Status) => x.failedValid)
    ensures First(t, Missing, b) != None <==> SomeOnPath(t, b, false, (x: Status) => !x.haveData)
    ensures First(t, NeverProcessed, b) != None <==> SomeOnPath(t, b, false, (x: Status) => x.nTx == 0)
    ensures First(t, NotTreeValid, b) != None <==> SomeOnPath(t, b, true, (x: Status) => x.validity < VALID_TREE)
    ensures First(t, NotTransactionsValid, b) != None <==>
            SomeOnPath(t, b, true, (x: Status) => x.validity < VALID_TRANSACTIONS)
    ensures First(t, NotChainValid, b) != None <==> SomeOnPath(t, b, true, (x: Status) => x.validity < VALID_CHAIN)
    ensures First(t, NotScriptsValid, b) != None <==>
            SomeOnPath(t, b, true, (x: Status) => x.validity < VALID_SCRIPTS)
  {
    hide SkipsBuilt, First, SomeOnPath, Has, WellFormed;
    forall x | x in t.status ensures Unfolded(t, x) {
      HasUnfolded(t, x);
    }
    SomeIff(t, Invalid, b, false, (x: Status) => x.failedValid);
    SomeIff(t, Missing, b, false, (x: Status) => !x.haveData);
    SomeIff(t, NeverProcessed, b, false, (x: Status) => x.nTx == 0);
    SomeIff(t, NotTreeValid, b, true, (x: Status) => x.validity < VALID_TREE);
    SomeIff(t, NotTransactionsValid, b, true, (x: Status) => x.validity < VALID_TRANSACTIONS);
    SomeIff(t, NotChainValid, b, true, (x: Status) => x.validity < VALID_CHAIN);
    SomeIff(t, NotScriptsValid, b, true, (x: Status) => x.validity < VALID_SCRIPTS);
  }

  ghost predicate Unfolded(t: Tree, x: BlockId)
    requires x in t.headers && x in t.status
  {
    var s, root := t.status[x], x == t.genesis;
    && (Has(t, Invalid, x) <==> s.failedValid) && (Has(t, Missing, x) <==> !s.haveData)
    && (Has(t, NeverProcessed, x) <==> s.nTx == 0)
    && (Has(t, NotTreeValid, x) <==> !root && s.validity < VALID_TREE)
    && (Has(t, NotTransactionsValid, x) <==> !root && s.validity < VALID_TRANSACTIONS)
    && (Has(t, NotChainValid, x) <==> !root && s.validity < VALID_CHAIN)
    && (Has(t, NotScriptsValid, x) <==> !root && s.validity < VALID_SCRIPTS)
  }

  lemma OnlyRoot(t: Tree, b: BlockId)
    requires Shape(t) && b in t.headers
    ensures t.headers[b].pprev == None <==> b == t.genesis
  {}

  lemma HasUnfolded(t: Tree, x: BlockId)
    requires Shape(t) && x in t.headers
    ensures Unfolded(t, x)
  {
    hide SkipsBuilt;
    OnlyRoot(t, x);
  }

  lemma SomeIff(t: Tree, property: Property, b: BlockId, skipGenesis: bool, bad: Status -> bool)
    requires Shape(t) && b in t.headers
    requires forall x {:trigger t.status[x]} :: x in t.status ==>
               (Has(t, property, x) <==> !(skipGenesis && x == t.genesis) && bad(t.status[x]))
    ensures First(t, property, b) != None <==> SomeOnPath(t, b, skipGenesis, bad)
  {
    hide SkipsBuilt, First, Has;
    FirstIsLowest(t, property, b);
    forall x | x in PathOf(t, b)
      ensures x in t.status && (Has(t, property, x) <==> !(skipGenesis && x == t.genesis) && bad(t.status[x]))
    {
      assert t.status[x] == t.status[x];
    }
  }

  /** About one block the walk asserts what CheckEntry states, and that the two lowest blocks are the same. */
  lemma EntryPassesIff(t: Tree, b: BlockId)
    requires Shape(t) && b in t.headers
    ensures EntryPasses(t, b) <==>
            CheckEntry(t, b) && First(t, Missing, b) == First(t, NeverProcessed, b)
  {
    hide SkipsBuilt, First, SomeOnPath, SortsBefore;
    ChainStartsAtGenesis(t);
    FirstIff(t, b);
  }

  lemma {:induction false} SameFirst(t: Tree, b: BlockId)
    requires Shape(t) && b in t.headers
    requires forall x {:trigger t.status[x]} :: x in t.status ==> (t.status[x].haveData <==> t.status[x].nTx > 0)
    ensures First(t, Missing, b) == First(t, NeverProcessed, b)
    decreases t.headers[b].nHeight
  {
    if b != t.genesis {
      SameFirst(t, Parent(t, b));
    }
  }

  /** So the walk's assertions hold of every block if and only if CheckBlockIndex does. */
  lemma AllPassIff(t: Tree)
    requires Shape(t)
    ensures (forall b {:trigger EntryPasses(t, b)} :: b in t.headers ==> EntryPasses(t, b)) <==>
            BlockTree.CheckBlockIndex(t)
  {
    hide SkipsBuilt, First, EntryPasses, CheckEntry;
    forall b | b in t.headers
      ensures EntryPasses(t, b) ==> CheckEntry(t, b)
      ensures CheckEntry(t, b) && First(t, Missing, b) == First(t, NeverProcessed, b) ==> EntryPasses(t, b)
    {
      EntryPassesIff(t, b);
    }
    if BlockTree.CheckBlockIndex(t) {
      forall x | x in t.status ensures t.status[x].haveData <==> t.status[x].nTx > 0 {
        DataChecked(t, x);
      }
      forall b | b in t.headers ensures First(t, Missing, b) == First(t, NeverProcessed, b) {
        SameFirst(t, b);
      }
    }
  }

  lemma DataChecked(t: Tree, b: BlockId)
    requires Shape(t) && b in t.headers && CheckEntry(t, b)
    ensures t.status[b].haveData <==> t.status[b].nTx > 0
  {}

  // ----- Where the walk is -----

  ghost function IndexOf(s: seq<BlockId>, b: BlockId): (j: nat)
    requires b in s
    ensures j < |s| && s[j] == b
  {
    if s[0] == b then 0 else 1 + IndexOf(s[1..], b)
  }

  /** The index is a tree, and the map lists all its children. */
  ghost predicate Built(t: Tree, forward: Forward) {
    Shape(t) && Lists(t.headers, forward, t.headers.Keys)
  }

  ghost function Siblings(t: Tree, forward: Forward, b: BlockId): (s: seq<BlockId>)
    requires Built(t, forward) && b in t.headers
    ensures b in s && NoDuplicates(s)
  {
    assert b in t.headers.Keys;
    Range(forward, t.headers[b].pprev)
  }

  /** Of s, exactly the blocks before b have been visited, and b if it is done. */
  ghost predicate Reached(s: seq<BlockId>, visited: set<BlockId>, b: BlockId, done: bool)
    requires b in s
  {
    forall i :: 0 <= i < |s| ==> (s[i] in visited <==> i < IndexOf(s, b) + if done then 1 else 0)
  }

  ghost predicate KidsVisited(forward: Forward, visited: set<BlockId>, b: BlockId) {
    forall c {:trigger c in visited} :: c in Range(forward, Some(b)) ==> c in visited
  }

  ghost predicate Parents(t: Tree, visited: set<BlockId>) {
    Shape(t) && forall v {:trigger v in visited} :: v in visited ==>
      v in t.headers && (v != t.genesis ==> Parent(t, v) in visited)
  }

  ghost predicate OnWay(t: Tree, forward: Forward, visited: set<BlockId>, a: BlockId, done: bool)
    requires Built(t, forward)
  {
    a in t.headers && Reached(Siblings(t, forward, a), visited, a, done)
  }

  ghost predicate Way(t: Tree, forward: Forward, visited: set<BlockId>, b: BlockId, done: bool)
    requires Built(t, forward) && b in t.headers
  {
    forall a {:trigger a in PathOf(t, b)} :: a in PathOf(t, b) ==> OnWay(t, forward, visited, a, a != b || done)
  }

  ghost predicate Rest(t: Tree, forward: Forward, visited: set<BlockId>, b: BlockId)
    requires Built(t, forward) && b in t.headers
  {
    forall v {:trigger v in visited} :: v in visited && !(v in PathOf(t, b) && v != b) ==>
      KidsVisited(forward, visited, v)
  }

  /** The walk stands at b: about to visit it, or done with all that is below it.  On the way from genesis
      exactly the earlier siblings have been visited; all of the rest that has been visited is complete. */
  ghost predicate Walked(t: Tree, forward: Forward, visited: set<BlockId>, b: BlockId, done: bool) {
    && Built(t, forward) && b in t.headers && (b in visited <==> done)
    && (b != t.genesis ==> Parent(t, b) in visited)
    && Parents(t, visited) && Way(t, forward, visited, b, done) && Rest(t, forward, visited, b)
  }

  lemma IndexUnique(s: seq<BlockId>, i: nat)
    requires NoDuplicates(s) && i < |s|
    ensures s[i] in s && IndexOf(s, s[i]) == i
  {}

  lemma WalkStarts(t: Tree, forward: Forward)
    requires Built(t, forward)
    ensures Range(forward, None) == [t.genesis] && Walked(t, forward, {}, t.genesis, false)
  {
    RootIsGenesis(t.headers, t.genesis, forward);
    assert PathOf(t, t.genesis) == [t.genesis];
  }

  /** A child is one higher, on the longer path, and its siblings are the children. */
  lemma Kid(t: Tree, forward: Forward, p: BlockId, i: nat)
    requires Built(t, forward) && p in t.headers && i < |Range(forward, Some(p))|
    ensures var c := Range(forward, Some(p))[i];
            && c in t.headers && c != t.genesis && Parent(t, c) == p && PathOf(t, c) == PathOf(t, p) + [c]
            && t.headers[c].pprev == Some(p) && t.headers[c].nHeight == t.headers[p].nHeight + 1
            && Siblings(t, forward, c) == Range(forward, Some(p))
            && IndexOf(Siblings(t, forward, c), c) == i && c !in PathOf(t, p) && p in PathOf(t, p)
  {
    var c := Range(forward, Some(p))[i];
    assert c in Range(forward, Some(p));
    assert t.headers[c].pprev == Some(p);
    assert Parent(t, c) == p;
    IndexUnique(Siblings(t, forward, c), i);
    HeightsOnPath(t, p);
  }

  lemma KidOf(t: Tree, forward: Forward, b: BlockId)
    requires Built(t, forward) && b in t.headers && b != t.genesis
    ensures Siblings(t, forward, b) == Range(forward, Some(Parent(t, b)))
  {}

  lemma OutsideSiblings(t: Tree, forward: Forward, b: BlockId, a: BlockId)
    requires Built(t, forward) && b in t.headers && a in PathOf(t, b) && a in t.headers && a != b
    ensures b !in Siblings(t, forward, a)
  {
    var k :| 0 <= k < |PathOf(t, b)| && PathOf(t, b)[k] == a;
    PathInTree(t, b, k);
    if b in Siblings(t, forward, a) {
      assert b in Range(forward, t.headers[a].pprev);
      assert t.headers[b].pprev == t.headers[a].pprev;
      OnlyRoot(t, a);
      OnlyRoot(t, b);
    }
  }

  lemma ReachSelf(s: seq<BlockId>, visited: set<BlockId>, b: BlockId)
    requires NoDuplicates(s) && b in s && Reached(s, visited, b, false)
    ensures Reached(s, visited + {b}, b, true)
  {
    forall i | 0 <= i < |s| ensures s[i] in visited + {b} <==> i < IndexOf(s, b) + 1 {
      IndexUnique(s, i);
    }
  }

  /** Visiting b finishes it among its siblings, and changes nothing for those of its ancestors. */
  lemma VisitWay(t: Tree, forward: Forward, visited: set<BlockId>, b: BlockId)
    requires Built(t, forward) && b in t.headers && Way(t, forward, visited, b, false)
    ensures Way(t, forward, visited + {b}, b, true)
  {
    hide Lists, Shape, Siblings;
    forall a | a in PathOf(t, b) ensures OnWay(t, forward, visited + {b}, a, true) {
      assert OnWay(t, forward, visited, a, a != b);
      if a == b {
        ReachSelf(Siblings(t, forward, b), visited, b);
      } else {
        OutsideSiblings(t, forward, b, a);
      }
    }
  }

  lemma NoKidVisited(t: Tree, forward: Forward, visited: set<BlockId>, b: BlockId)
    requires Walked(t, forward, visited, b, false)
    ensures forall c {:trigger c in visited} :: c in Range(forward, Some(b)) ==> c !in visited && c != b
  {
    hide Built, Shape, Way, Rest, Siblings, Range;
    forall c | c in Range(forward, Some(b)) ensures c !in visited && c != b {
      var i :| 0 <= i < |Range(forward, Some(b))| && Range(forward, Some(b))[i] == c;
      Kid(t, forward, b, i);
    }
  }

  lemma LongerWay(t: Tree, forward: Forward, visited: set<BlockId>, b: BlockId, c: BlockId)
    requires Built(t, forward) && b in t.headers && c in t.headers && PathOf(t, c) == PathOf(t, b) + [c]
    requires c !in PathOf(t, b)
    ensures Way(t, forward, visited, b, true) && OnWay(t, forward, visited, c, false) ==>
            Way(t, forward, visited, c, false)
    ensures Way(t, forward, visited, c, true) ==> Way(t, forward, visited, b, true)
  {
    hide Lists, Shape, OnWay;
    assert c in PathOf(t, c);
    forall a | a in PathOf(t, c) ensures a in PathOf(t, b) || a == c {}
    forall a | a in PathOf(t, b) ensures a in PathOf(t, c) && a != c {
      assert (PathOf(t, b) + [c])[..|PathOf(t, b)|] == PathOf(t, b);
    }
  }

  /** Down to the first child. */
  lemma WalkDown(t: Tree, forward: Forward, visited: set<BlockId>, b: BlockId)
    requires Walked(t, forward, visited, b, false) && Range(forward, Some(b)) != []
    ensures Walked(t, forward, visited + {b}, Range(forward, Some(b))[0], false)
  {
    hide Built, Shape, Way, OnWay, Siblings, Range;
    var c := Range(forward, Some(b))[0];
    VisitWay(t, forward, visited, b);
    NoKidVisited(t, forward, visited, b);
    Kid(t, forward, b, 0);
    assert c in Range(forward, Some(b));
    FirstReached(t, forward, visited + {b}, c);
    LongerWay(t, forward, visited + {b}, b, c);
    RestGrows(t, forward, visited, b, c);
  }

  lemma FirstReached(t: Tree, forward: Forward, visited: set<BlockId>, c: BlockId)
    requires Built(t, forward) && c in t.headers && IndexOf(Siblings(t, forward, c), c) == 0
    requires forall x {:trigger x in visited} :: x in Siblings(t, forward, c) ==> x !in visited
    ensures OnWay(t, forward, visited, c, false)
  {
    hide Built, Shape, Siblings;
  }

  lemma RestGrows(t: Tree, forward: Forward, visited: set<BlockId>, b: BlockId, c: BlockId)
    requires Built(t, forward) && b in t.headers && c in t.headers && Rest(t, forward, visited, b)
    requires b in PathOf(t, b) && (c == b || PathOf(t, c) == PathOf(t, b) + [c]) && c !in visited
    requires c == b ==> KidsVisited(forward, visited + {b}, b)
    ensures Rest(t, forward, visited + {b}, c)
  {
    hide Built, Shape, Range;
  }

  /** At a leaf. */
  lemma WalkLeaf(t: Tree, forward: Forward, visited: set<BlockId>, b: BlockId)
    requires Walked(t, forward, visited, b, false) && Range(forward, Some(b)) == []
    ensures Walked(t, forward, visited + {b}, b, true)
  {
    hide Built, Shape, Way, OnWay, Siblings;
    VisitWay(t, forward, visited, b);
    assert b in PathOf(t, b);
    RestGrows(t, forward, visited, b, b);
  }

  /** On to the next sibling. */
  lemma WalkOn(t: Tree, forward: Forward, visited: set<BlockId>, b: BlockId, i: nat)
    requires Walked(t, forward, visited, b, true) && b != t.genesis
    requires i + 1 < |Siblings(t, forward, b)| && Siblings(t, forward, b)[i] == b
    ensures Walked(t, forward, visited, Siblings(t, forward, b)[i + 1], false)
    ensures t.headers[Siblings(t, forward, b)[i + 1]].pprev == t.headers[b].pprev
    ensures t.headers[Siblings(t, forward, b)[i + 1]].nHeight == t.headers[b].nHeight
  {
    hide Built, Shape, Way, Siblings, Range;
    var p, c := Parent(t, b), Siblings(t, forward, b)[i + 1];
    KidOf(t, forward, b);
    Kid(t, forward, p, i);
    Kid(t, forward, p, i + 1);
    EndOfWay(t, forward, visited, b);
    LongerWay(t, forward, visited, p, b);
    LongerWay(t, forward, visited, p, c);
    RestAlong(t, forward, visited, p, b, c);
  }

  lemma EndOfWay(t: Tree, forward: Forward, visited: set<BlockId>, b: BlockId)
    requires Built(t, forward) && b in t.headers && Way(t, forward, visited, b, true)
    ensures OnWay(t, forward, visited, b, true)
  {
    hide Lists, Shape, OnWay;
    assert b in PathOf(t, b);
  }

  lemma RestAlong(t: Tree, forward: Forward, visited: set<BlockId>, p: BlockId, b: BlockId, c: BlockId)
    requires Built(t, forward) && p in t.headers && b in t.headers && c in t.headers
    requires Rest(t, forward, visited, b) && PathOf(t, b) == PathOf(t, p) + [b]
    requires PathOf(t, c) == PathOf(t, p) + [c] && b !in PathOf(t, p) && c !in PathOf(t, p)
    ensures Rest(t, forward, visited, c)
    ensures KidsVisited(forward, visited, p) ==> Rest(t, forward, visited, p)
  {
    hide Built, Shape, KidsVisited;
  }

  /** After the last sibling, up to the parent. */
  lemma WalkUp(t: Tree, forward: Forward, visited: set<BlockId>, b: BlockId, i: nat)
    requires Walked(t, forward, visited, b, true) && b != t.genesis
    requires i + 1 == |Siblings(t, forward, b)| && Siblings(t, forward, b)[i] == b
    ensures Walked(t, forward, visited, Parent(t, b), true)
  {
    hide Built, Shape, Way, Siblings, Range;
    var p := Parent(t, b);
    KidOf(t, forward, b);
    Kid(t, forward, p, i);
    EndOfWay(t, forward, visited, b);
    LongerWay(t, forward, visited, p, b);
    RestAlong(t, forward, visited, p, b, b);
  }

  /** Back at genesis, every block has been visited. */
  lemma WalkEnds(t: Tree, forward: Forward, visited: set<BlockId>)
    requires Walked(t, forward, visited, t.genesis, true)
    ensures visited == t.headers.Keys
  {
    hide SkipsBuilt, Way, Lists, KidsVisited;
    assert PathOf(t, t.genesis) == [t.genesis];
    forall b | b in t.headers ensures b in visited {
      AllReached(t, forward, visited, b);
    }
  }

  lemma {:induction false} AllReached(t: Tree, forward: Forward, visited: set<BlockId>, b: BlockId)
    requires Built(t, forward) && b in t.headers && t.genesis in visited
    requires forall v {:trigger v in visited} :: v in visited ==> KidsVisited(forward, visited, v)
    ensures b in visited
    decreases t.headers[b].nHeight
  {
    if b != t.genesis {
      AllReached(t, forward, visited, Parent(t, b));
      assert b in t.headers.Keys;
      assert b in Range(forward, Some(Parent(t, b)));
    }
  }

  // ----- The walk -----

  /** The search of the range of mapBlocksUnlinked under the block's parent; nothing stands under none. */
  method FindUnlinked(t: Tree, b: BlockId) returns (foundInUnlinked: bool)
    requires b in t.headers
    ensures foundInUnlinked <==> t.headers[b].pprev.Some? && InUnlinked(t, t.headers[b].pprev.value, b)
  {
    var pprev := t.headers[b].pprev;
    if pprev == None || pprev.value !in t.unlinked {
      return false;
    }
    var range := t.unlinked[pprev.value];
    for i := 0 to |range|
      invariant b !in range[..i]
    {
      if range[i] == b {
        return true;
      }
    }
    assert range[..|range|] == range;
    return false;
  }

  /** Which of its parent's children the block just left is. */
  method FindAmong(range: seq<BlockId>, b: BlockId) returns (i: nat)
    requires b in range
    ensures i < |range| && range[i] == b
  {
    i := 0;
    while range[i] != b
      invariant i < |range| && b in range[i..]
      decreases |range| - i
    {
      i := i + 1;
    }
  }

  /** The loop that moves up until there is a sibling to go on to. */
  method MoveUp(t: Tree, forward: Forward, b: BlockId, nHeightIn: int, firsts: Firsts, ghost visited: set<BlockId>)
    returns (pindex: Option<BlockId>, nHeight: int, f: Firsts)
    requires Walked(t, forward, visited, b, true) && nHeightIn == t.headers[b].nHeight
    requires firsts == FirstsUpTo(t, Some(b))
    ensures pindex == None ==> visited == t.headers.Keys
    ensures pindex.Some? ==> AtBlock(t, forward, visited, pindex.value, nHeight, f)
  {
    hide Walked, FirstsUpTo, Unset, Built, Shape, Siblings;
    WalkedFacts(t, forward, visited, b);
    pindex, nHeight, f := Some(b), nHeightIn, firsts;
    while pindex != None
      invariant pindex == None ==> visited == t.headers.Keys
      invariant pindex.Some? ==> Walked(t, forward, visited, pindex.value, true)
      invariant pindex.Some? ==> Shape(t) && pindex.value in t.headers && nHeight == t.headers[pindex.value].nHeight
      invariant pindex.Some? ==> f == FirstsUpTo(t, pindex)
      decreases if pindex == None then 0 else t.headers[pindex.value].nHeight + 1
    {
      ghost var was := pindex.value;
      WalkedFacts(t, forward, visited, was);
      f := Unset(f, pindex.value);
      GoUp(t, was);
      var pindexPar := t.headers[pindex.value].pprev;
      var range := Range(forward, pindexPar);
      var i := FindAmong(range, pindex.value);
      if i + 1 < |range| {
        pindex := Some(range[i + 1]);
        WalkOn(t, forward, visited, was, i);
        return;
      }
      if was == t.genesis {
        WalkEnds(t, forward, visited);
      } else {
        WalkUp(t, forward, visited, was, i);
      }
      pindex, nHeight := pindexPar, nHeight - 1;
    }
  }

  lemma WalkedFacts(t: Tree, forward: Forward, visited: set<BlockId>, b: BlockId)
    requires Walked(t, forward, visited, b, true)
    ensures Built(t, forward) && Shape(t) && b in t.headers && visited <= t.headers.Keys
    ensures Range(forward, t.headers[b].pprev) == Siblings(t, forward, b)
    ensures t.headers[b].pprev == None <==> b == t.genesis
    ensures b == t.genesis ==> |Siblings(t, forward, b)| == 1
  {
    RootIsGenesis(t.headers, t.genesis, forward);
    OnlyRoot(t, b);
  }

  /** About to visit b. */
  ghost predicate AtBlock(t: Tree, forward: Forward, visited: set<BlockId>, b: BlockId, nHeight: int, f: Firsts) {
    && Walked(t, forward, visited, b, false) && nHeight == t.headers[b].nHeight
    && f == FirstsUpTo(t, t.headers[b].pprev)
  }

  lemma AtBlockFacts(t: Tree, forward: Forward, visited: set<BlockId>, b: BlockId, nHeight: int, f: Firsts)
    requires AtBlock(t, forward, visited, b, nHeight, f)
    ensures Built(t, forward) && Shape(t) && b in t.headers && b in t.status
    ensures Walked(t, forward, visited, b, false) && b !in visited && nHeight == t.headers[b].nHeight
    ensures Noted(t, f, b) == FirstsUpTo(t, Some(b))
  {
    hide SkipsBuilt, WellFormed, FirstsUpTo, Noted;
    GoDown(t, b);
  }

  lemma AtGenesis(t: Tree, forward: Forward)
    requires Shape(t) && Lists(t.headers, forward, t.headers.Keys)
    ensures Range(forward, None) == [t.genesis] && AtBlock(t, forward, {}, t.genesis, 0, NONE_YET)
  {
    hide Lists, SkipsBuilt, Walked;
    WalkStarts(t, forward);
    OnlyRoot(t, t.genesis);
  }

  /** The end of a turn: down to the first child, or up until there is a sibling to go on to. */
  method Advance(t: Tree, forward: Forward, b: BlockId, nHeightIn: int, firsts: Firsts, ghost visited: set<BlockId>)
    returns (pindex: Option<BlockId>, nHeight: int, f: Firsts)
    requires Walked(t, forward, visited, b, false) && nHeightIn == t.headers[b].nHeight
    requires firsts == FirstsUpTo(t, Some(b))
    ensures pindex == None ==> visited + {b} == t.headers.Keys
    ensures pindex.Some? ==> AtBlock(t, forward, visited + {b}, pindex.value, nHeight, f)
  {
    hide Walked, FirstsUpTo, Lists, Shape, Parents, Way, Rest;
    assert Built(t, forward) && b in t.headers by { StandsInTree(t, forward, visited, b, false); }
    var range := Range(forward, Some(b));
    if range != [] {
      WalkDown(t, forward, visited, b);
      Kid(t, forward, b, 0);
      pindex, nHeight, f := Some(range[0]), nHeightIn + 1, firsts;
    } else {
      WalkLeaf(t, forward, visited, b);
      pindex, nHeight, f := MoveUp(t, forward, b, nHeightIn, firsts, visited + {b});
    }
  }

  lemma StandsInTree(t: Tree, forward: Forward, visited: set<BlockId>, b: BlockId, done: bool)
    requires Walked(t, forward, visited, b, done)
    ensures Built(t, forward) && b in t.headers
  {}

  lemma PassesHere(t: Tree, b: BlockId, foundInUnlinked: bool)
    requires Shape(t) && b in t.headers && Tip(t) in t.headers
    requires foundInUnlinked <==> t.headers[b].pprev.Some? && InUnlinked(t, t.headers[b].pprev.value, b)
    ensures Assertions(t, b, t.headers[b].nHeight, FirstsUpTo(t, Some(b)), foundInUnlinked) <==> EntryPasses(t, b)
  {
    hide Assertions, FirstsUpTo, SkipsBuilt;
  }

  lemma FailsCheck(t: Tree, b: BlockId)
    requires Shape(t) && b in t.headers && !EntryPasses(t, b)
    ensures !BlockTree.CheckBlockIndex(t)
  {
    AllPassIff(t);
  }

  /** CheckBlockIndex: the answer is whether all its assertions about blocks hold.  Those about the walk
      itself always do. */
  method CheckBlockIndex(t: Tree) returns (ok: bool, nNodes: nat)
    requires Shape(t)
    ensures ok <==> BlockTree.CheckBlockIndex(t)
    ensures ok ==> nNodes == |t.headers|
  {
    hide AtBlock, Walked, FirstsUpTo, Noted, Assertions, EntryPasses, BlockTree.CheckBlockIndex, Built, SkipsBuilt,
      WellFormed, InUnlinked;
    var forward, size := BuildForward(t.headers);
    assert size == |t.headers|;
    AtGenesis(t, forward);
    ChainStartsAtGenesis(t);
    var pindex, nHeight, f := Some(Range(forward, None)[0]), 0, NONE_YET;
    assert |Range(forward, None)| == 1;
    nNodes := 0;
    ghost var visited := {};
    while pindex != None
      invariant |visited| == nNodes && visited <= t.headers.Keys
      invariant forall x {:trigger EntryPasses(t, x)} :: x in visited && x in t.headers ==> EntryPasses(t, x)
      invariant pindex.Some? ==> AtBlock(t, forward, visited, pindex.value, nHeight, f)
      invariant pindex == None ==> visited == t.headers.Keys
      decreases t.headers.Keys - visited, pindex.Some?
    {
      var b := pindex.value;
      AtBlockFacts(t, forward, visited, b, nHeight, f);
      nNodes := nNodes + 1;
      f := Noted(t, f, b);
      var foundInUnlinked := FindUnlinked(t, b);
      PassesHere(t, b, foundInUnlinked);
      if !Assertions(t, b, nHeight, f, foundInUnlinked) {
        FailsCheck(t, b);
        return false, nNodes;
      }
      pindex, nHeight, f := Advance(t, forward, b, nHeight, f, visited);
      visited := visited + {b};
    }
    assert nNodes == size;
    AllPassIff(t);
    ok := true;
  }
}
