/** Three ways to walk from a slice (src/patternsearch.cpp:94-193, 253-344, src/aes.cpp:125-147): in the
    filled scratchpad, eight lanes at a time with the mixing fused into the chaining, and hashing each
    slice again when it is needed. */
module PatternWalk {
  import opened Limbs
  import opened PatternSearch

  // ----- Blocks -----

  method StoreBlock(buf: array<Word>, i: nat, block: seq<Word>)
    requires 4 * i + 4 <= buf.Length && |block| == 4
    modifies buf
    ensures buf[..] == old(buf[..])[..4 * i] + block + old(buf[..])[4 * i + 4..]
  {
    buf[4 * i], buf[4 * i + 1], buf[4 * i + 2], buf[4 * i + 3] := block[0], block[1], block[2], block[3];
  }

  /** i blocks are enciphered; prev is the last of them, or the initialization vector. */
  ghost predicate Chained(p: Primitives, key: seq<Word>, iv: seq<Word>, data: seq<Word>, out: seq<Word>, i: nat,
                          prev: seq<Word>) {
    && |data| == |out| == SLICE && 4 * i <= SLICE && |iv| == 4 && |prev| == 4
    && out[..4 * i] + Cbc(p, key, prev, data[4 * i..]) == Cbc(p, key, iv, data)
  }

  lemma ChainedStart(p: Primitives, key: seq<Word>, iv: seq<Word>, data: seq<Word>, out: seq<Word>)
    requires |data| == |out| == SLICE && |iv| == 4
    ensures Chained(p, key, iv, data, out, 0, iv)
  {
    assert data[0..] == data && out[..0] == [];
    var c := Cbc(p, key, iv, data);
    assert [] + c == c;
  }

  lemma ChainedNext(p: Primitives, key: seq<Word>, iv: seq<Word>, data: seq<Word>, out: seq<Word>, i: nat,
                    prev: seq<Word>, out': seq<Word>, block: seq<Word>)
    requires PrimitivesOk(p) && Chained(p, key, iv, data, out, i, prev) && 4 * i < SLICE
    requires block == p.aes(key, Xor(data[4 * i..4 * i + 4], prev))
    requires |block| == 4 && |out'| == SLICE && out'[..4 * i + 4] == out[..4 * i] + block
    ensures Chained(p, key, iv, data, out', i + 1, block)
  {
    var rest := data[4 * i..];
    assert rest[..4] == data[4 * i..4 * i + 4] && rest[4..] == data[4 * (i + 1)..];
    assert Cbc(p, key, prev, rest) == block + Cbc(p, key, block, rest[4..]);
    assert out'[..4 * (i + 1)] + Cbc(p, key, block, rest[4..])
      == out[..4 * i] + (block + Cbc(p, key, block, rest[4..]));
  }

  lemma ChainedEnd(p: Primitives, key: seq<Word>, iv: seq<Word>, data: seq<Word>, out: seq<Word>, i: nat,
                   prev: seq<Word>)
    requires Chained(p, key, iv, data, out, i, prev) && 4 * i == SLICE
    ensures out == Cbc(p, key, iv, data)
  {
    assert data[4 * i..] == [] && out[..4 * i] == out;
    assert out + [] == out;
  }

  /** The library's cipher, in place or from one buffer into another. */
  method EncryptUpdate(p: Primitives, key: seq<Word>, iv: seq<Word>, out: array<Word>, inp: array<Word>)
    requires PrimitivesOk(p) && |iv| == 4 && out.Length == inp.Length == SLICE
    modifies out
    ensures out[..] == Cbc(p, key, iv, old(inp[..]))
  {
    hide Chained, Xor;
    ghost var data := inp[..];
    var prev := iv;
    ChainedStart(p, key, iv, data, out[..]);
    for i := 0 to SLICE / 4
      invariant Chained(p, key, iv, data, out[..], i, prev) && |prev| == 4
      invariant inp[4 * i..] == data[4 * i..]
    {
      assert inp[4 * i..4 * i + 4] == inp[4 * i..][..4] == data[4 * i..][..4] == data[4 * i..4 * i + 4];
      var block := p.aes(key, Xor(inp[4 * i..4 * i + 4], prev));
      ghost var was := out[..];
      ghost var later := inp[4 * i..][4..];
      StoreBlock(out, i, block);
      assert inp[4 * (i + 1)..] == later;
      ChainedNext(p, key, iv, data, was, i, prev, out[..], block);
      prev := block;
    }
    ChainedEnd(p, key, iv, data, out[..], SLICE / 4, prev);
  }

  // ----- In the scratchpad -----

  ghost predicate Ready(p: Primitives, midHash: seq<Word>, mem: seq<Word>) {
    PrimitivesOk(p) && Filled(p, midHash, mem)
  }

  method CopySlice(mem: array<Word>, a: nat, cache: array<Word>)
    requires (a + 1) * SLICE <= mem.Length && cache.Length == SLICE && cache != mem
    modifies cache
    ensures cache[..] == mem[a * SLICE..(a + 1) * SLICE]
  {
    for i := 0 to SLICE
      invariant cache[..i] == mem[a * SLICE..a * SLICE + i]
    {
      cache[i] := mem[a * SLICE + i];
    }
    assert cache[..SLICE] == cache[..];
  }

  method MixSlice(mem: array<Word>, a: nat, cache: array<Word>)
    requires (a + 1) * SLICE <= mem.Length && cache.Length == SLICE && cache != mem
    modifies cache
    ensures cache[..] == Xor(old(cache[..]), mem[a * SLICE..(a + 1) * SLICE])
  {
    for i := 0 to SLICE
      invariant forall k :: 0 <= k < i ==> cache[k] == XorWord(old(cache[k]), mem[a * SLICE + k])
      invariant forall k :: i <= k < SLICE ==> cache[k] == old(cache[k])
    {
      cache[i] := XorWord(cache[i], mem[a * SLICE + i]);
    }
  }

  /** One iteration of the plain search. */
  method RoundInPlace(p: Primitives, mem: array<Word>, cache: array<Word>, ghost midHash: seq<Word>)
    requires Ready(p, midHash, mem[..]) && cache.Length == SLICE && cache != mem
    modifies cache
    ensures cache[..] == Round(p, old(cache[..]), SliceAt(p, midHash, Location(old(cache[SLICE - 1]))))
  {
    hide Filled, Cbc, Xor;
    FilledLength(p, midHash, mem[..]);
    var nextLocation := Location(cache[SLICE - 1]);
    SliceOfFilled(p, midHash, mem[..], nextLocation);
    assert mem[nextLocation * SLICE..(nextLocation + 1) * SLICE]
      == mem[..][nextLocation * SLICE..(nextLocation + 1) * SLICE];
    MixSlice(mem, nextLocation, cache);
    EncryptUpdate(p, cache[SLICE - 8..], cache[SLICE - 4..], cache, cache);
  }

  lemma FilledLength(p: Primitives, midHash: seq<Word>, mem: seq<Word>)
    requires Filled(p, midHash, mem)
    ensures |midHash| == 8 && |mem| == CHUNKS * CHUNK == SLICES * SLICE
  {
  }

  /** The pairs found in slices from lo up to hi. */
  ghost function Hits(p: Primitives, midHash: seq<Word>, lo: nat, hi: nat): seq<(nat, Word)>
    requires PrimitivesOk(p) && |midHash| == 8 && lo <= hi <= SLICES
    decreases hi - lo
  {
    if lo == hi then []
    else
      var c := Walk(p, midHash, hi - 1, ITERATIONS);
      Hits(p, midHash, lo, hi - 1) + if Location(c[SLICE - 1]) < 1000 then [(hi - 1, c[SLICE - 2])] else []
  }

  /** What is reported is what verifies: exactly the hits, in order, each once. */
  lemma {:induction false} HitsAreHits(p: Primitives, midHash: seq<Word>, lo: nat, hi: nat, a: nat, b: Word)
    requires PrimitivesOk(p) && |midHash| == 8 && lo <= hi <= SLICES
    ensures (a, b) in Hits(p, midHash, lo, hi) <==> lo <= a < hi && IsHit(p, midHash, a, b)
    decreases hi
  {
    hide Walk;
    if lo < hi {
      HitsAreHits(p, midHash, lo, hi - 1, a, b);
      var c := Walk(p, midHash, hi - 1, ITERATIONS);
      var last := if Location(c[SLICE - 1]) < 1000 then [(hi - 1, c[SLICE - 2])] else [];
      assert (a, b) in Hits(p, midHash, lo, hi) <==> (a, b) in Hits(p, midHash, lo, hi - 1) || (a, b) in last;
    }
  }

  method WalkInPlace(p: Primitives, mem: array<Word>, k: nat, cache: array<Word>, ghost midHash: seq<Word>)
    requires Ready(p, midHash, mem[..]) && k < SLICES && cache.Length == SLICE && cache != mem
    modifies cache
    ensures |midHash| == 8 && cache[..] == Walk(p, midHash, k, ITERATIONS)
  {
    hide Filled, Round;
    FilledLength(p, midHash, mem[..]);
    SliceOfFilled(p, midHash, mem[..], k);
    assert mem[k * SLICE..(k + 1) * SLICE] == mem[..][k * SLICE..(k + 1) * SLICE];
    CopySlice(mem, k, cache);
    for j := 0 to ITERATIONS
      invariant cache[..] == Walk(p, midHash, k, j)
    {
      assert cache[SLICE - 1] == cache[..][SLICE - 1];
      RoundInPlace(p, mem, cache, midHash);
    }
  }

  /** The search of one thread, over slices that are all in the scratchpad. */
  method AesSearch(p: Primitives, mem: array<Word>, startLoc: nat, endLoc: nat, resultsIn: seq<(nat, Word)>,
                   ghost midHash: seq<Word>)
    returns (results: seq<(nat, Word)>)
    requires Ready(p, midHash, mem[..]) && startLoc <= endLoc <= SLICES
    ensures |midHash| == 8 && results == resultsIn + Hits(p, midHash, startLoc, endLoc)
  {
    hide Filled, Walk;
    FilledLength(p, midHash, mem[..]);
    results := resultsIn;
    var cache := new Word[SLICE];
    for k := startLoc to endLoc
      invariant fresh(cache) && cache.Length == SLICE
      invariant results == resultsIn + Hits(p, midHash, startLoc, k)
    {
      WalkInPlace(p, mem, k, cache, midHash);
      assert cache[SLICE - 1] == cache[..][SLICE - 1] && cache[SLICE - 2] == cache[..][SLICE - 2];
      if Location(cache[SLICE - 1]) < 1000 {
        results := results + [(k, cache[SLICE - 2])];
      }
    }
  }

  // ----- Eight lanes at a time -----

  /** Eight buffers of one slice, none of them shared. */
  ghost predicate LanesOk(data: seq<array<Word>>) {
    && |data| == LANES
    && (forall j :: 0 <= j < LANES ==> data[j].Length == SLICE)
    && (forall j, k :: 0 <= j < k < LANES ==> data[j] != data[k])
  }

  ghost predicate WordsEach(s: seq<seq<Word>>, n: nat) {
    |s| == LANES && forall j :: 0 <= j < LANES ==> |s[j]| == n
  }

  function Block(s: seq<Word>, i: nat): (b: seq<Word>)
    requires 4 * i + 4 <= |s|
    ensures |b| == 4
  {
    s[4 * i..4 * i + 4]
  }

  function Previous(iv: seq<Word>, now: seq<Word>, i: nat): (b: seq<Word>)
    requires 4 * i <= |now| && |iv| == 4
    ensures |b| == 4
  {
    if i == 0 then iv else Block(now, i - 1)
  }

  /** The first i blocks of a lane are done, the others as they were. */
  ghost predicate LaneAt(p: Primitives, key: seq<Word>, iv: seq<Word>, was: seq<Word>, next: seq<Word>,
                         now: seq<Word>, i: nat) {
    && |was| == |next| == |now| == SLICE && 4 * i <= SLICE && |iv| == 4
    && now[4 * i..] == was[4 * i..]
    && Chained(p, key, iv, Xor(was, next), now, i, Previous(iv, now, i))
  }

  lemma LaneStart(p: Primitives, key: seq<Word>, iv: seq<Word>, was: seq<Word>, next: seq<Word>)
    requires |was| == |next| == SLICE && |iv| == 4
    ensures LaneAt(p, key, iv, was, next, was, 0)
  {
    ChainedStart(p, key, iv, Xor(was, next), was);
  }

  ghost function Stored(now: seq<Word>, i: nat, block: seq<Word>): (s: seq<Word>)
    requires 4 * i + 4 <= |now| && |block| == 4
    ensures |s| == |now|
  {
    now[..4 * i] + block + now[4 * i + 4..]
  }

  lemma LaneNext(p: Primitives, key: seq<Word>, iv: seq<Word>, was: seq<Word>, next: seq<Word>, now: seq<Word>,
                 i: nat, block: seq<Word>)
    requires PrimitivesOk(p) && LaneAt(p, key, iv, was, next, now, i) && 4 * i < SLICE
    requires block == p.aes(key, Xor(Xor(Block(now, i), Block(next, i)), Previous(iv, now, i)))
    ensures |block| == 4 && LaneAt(p, key, iv, was, next, Stored(now, i, block), i + 1)
  {
    hide Chained;
    var mixed := Xor(was, next);
    assert Block(now, i) == Block(was, i) by {
      assert now[4 * i..][..4] == was[4 * i..][..4];
    }
    assert mixed[4 * i..4 * i + 4] == Xor(Block(now, i), Block(next, i));
    var now' := Stored(now, i, block);
    assert now'[..4 * i + 4] == now[..4 * i] + block;
    ChainedNext(p, key, iv, mixed, now, i, Previous(iv, now, i), now', block);
    assert now'[4 * (i + 1)..] == now[4 * i..][4..] == was[4 * i..][4..] == was[4 * (i + 1)..];
    assert Previous(iv, now', i + 1) == block;
  }

  /** Read from the lanes before anything is written. */
  method MixBlock(data: seq<array<Word>>, next: seq<seq<Word>>, ivs: seq<seq<Word>>, i: nat)
    returns (state: seq<seq<Word>>)
    requires LanesOk(data) && WordsEach(next, SLICE) && WordsEach(ivs, 4) && 4 * i < SLICE
    ensures |state| == LANES
    ensures forall j :: 0 <= j < LANES ==>
              state[j] == Xor(Xor(Block(data[j][..], i), Block(next[j], i)), Previous(ivs[j], data[j][..], i))
  {
    hide Block, Previous, Xor;
    state := [];
    for j := 0 to LANES
      invariant |state| == j
      invariant forall k :: 0 <= k < j ==>
                  state[k] == Xor(Xor(Block(data[k][..], i), Block(next[k], i)), Previous(ivs[k], data[k][..], i))
    {
      state := state + [Xor(Xor(Block(data[j][..], i), Block(next[j], i)), Previous(ivs[j], data[j][..], i))];
    }
  }

  method AES256Core(p: Primitives, stateIn: seq<seq<Word>>, keys: seq<seq<Word>>) returns (state: seq<seq<Word>>)
    requires |stateIn| == |keys| == LANES
    ensures |state| == LANES && forall j :: 0 <= j < LANES ==> state[j] == p.aes(keys[j], stateIn[j])
  {
    state := stateIn;
    for j := 0 to LANES
      invariant |state| == LANES
      invariant forall k :: 0 <= k < LANES ==> state[k] == if k < j then p.aes(keys[k], stateIn[k]) else stateIn[k]
    {
      state := state[j := p.aes(keys[j], state[j])];
    }
  }

  method StoreLanes(data: seq<array<Word>>, i: nat, state: seq<seq<Word>>)
    requires LanesOk(data) && WordsEach(state, 4) && 4 * i < SLICE
    modifies data
    ensures forall j :: 0 <= j < LANES ==> data[j][..] == Stored(old(data[j][..]), i, state[j])
  {
    hide Stored;
    for j := 0 to LANES
      invariant forall k :: 0 <= k < j ==> data[k][..] == Stored(old(data[k][..]), i, state[k])
      invariant forall k :: j <= k < LANES ==> data[k][..] == old(data[k][..])
    {
      StoreBlockIs(data[j][..], i, state[j]);
      StoreBlock(data[j], i, state[j]);
    }
  }

  lemma StoreBlockIs(now: seq<Word>, i: nat, block: seq<Word>)
    requires 4 * i + 4 <= |now| && |block| == 4
    ensures Stored(now, i, block) == now[..4 * i] + block + now[4 * i + 4..]
  {
  }

  ghost function Contents(data: seq<array<Word>>): (s: seq<seq<Word>>)
    reads data
    ensures |s| == |data| && forall j :: 0 <= j < |s| ==> s[j] == data[j][..]
  {
    if data == [] then [] else [data[0][..]] + Contents(data[1..])
  }

  /** Every lane has i blocks done. */
  ghost predicate LanesAt(p: Primitives, keys: seq<seq<Word>>, ivs: seq<seq<Word>>, was: seq<seq<Word>>,
                          next: seq<seq<Word>>, now: seq<seq<Word>>, i: nat) {
    && |keys| == |was| == |now| == LANES && WordsEach(next, SLICE) && WordsEach(ivs, 4)
    && forall j :: 0 <= j < LANES ==> LaneAt(p, keys[j], ivs[j], was[j], next[j], now[j], i)
  }

  lemma LanesStart(p: Primitives, keys: seq<seq<Word>>, ivs: seq<seq<Word>>, was: seq<seq<Word>>, next: seq<seq<Word>>)
    requires |keys| == LANES && WordsEach(was, SLICE) && WordsEach(next, SLICE) && WordsEach(ivs, 4)
    ensures LanesAt(p, keys, ivs, was, next, was, 0)
  {
    forall j | 0 <= j < LANES ensures LaneAt(p, keys[j], ivs[j], was[j], next[j], was[j], 0) {
      LaneStart(p, keys[j], ivs[j], was[j], next[j]);
    }
  }

  lemma LanesNext(p: Primitives, keys: seq<seq<Word>>, ivs: seq<seq<Word>>, was: seq<seq<Word>>, next: seq<seq<Word>>,
                  now: seq<seq<Word>>, i: nat, state: seq<seq<Word>>, now': seq<seq<Word>>)
    requires PrimitivesOk(p) && LanesAt(p, keys, ivs, was, next, now, i) && 4 * i < SLICE
    requires WordsEach(now, SLICE) && WordsEach(state, 4) && |now'| == LANES
    requires forall j :: 0 <= j < LANES ==>
               state[j] == p.aes(keys[j], Xor(Xor(Block(now[j], i), Block(next[j], i)), Previous(ivs[j], now[j], i)))
    requires forall j :: 0 <= j < LANES ==> now'[j] == Stored(now[j], i, state[j])
    ensures LanesAt(p, keys, ivs, was, next, now', i + 1)
  {
    hide LaneAt, Block, Previous, Stored, Xor;
    forall j | 0 <= j < LANES ensures LaneAt(p, keys[j], ivs[j], was[j], next[j], now'[j], i + 1) {
      LaneNext(p, keys[j], ivs[j], was[j], next[j], now[j], i, state[j]);
    }
  }

  lemma LanesEnd(p: Primitives, keys: seq<seq<Word>>, ivs: seq<seq<Word>>, was: seq<seq<Word>>, next: seq<seq<Word>>,
                 now: seq<seq<Word>>)
    requires LanesAt(p, keys, ivs, was, next, now, SLICE / 4) && WordsEach(was, SLICE)
    ensures forall j :: 0 <= j < LANES ==> now[j] == Cbc(p, keys[j], ivs[j], Xor(was[j], next[j]))
  {
    hide Chained, Xor, Cbc;
    forall j | 0 <= j < LANES ensures now[j] == Cbc(p, keys[j], ivs[j], Xor(was[j], next[j])) {
      assert LaneAt(p, keys[j], ivs[j], was[j], next[j], now[j], SLICE / 4);
      ChainedEnd(p, keys[j], ivs[j], Xor(was[j], next[j]), now[j], SLICE / 4, Previous(ivs[j], now[j], SLICE / 4));
    }
  }

  method NextBlock(p: Primitives, data: seq<array<Word>>, next: seq<seq<Word>>, keys: seq<seq<Word>>,
                   ivs: seq<seq<Word>>, i: nat, ghost was: seq<seq<Word>>)
    requires PrimitivesOk(p) && LanesOk(data) && 4 * i < SLICE && LanesAt(p, keys, ivs, was, next, Contents(data), i)
    modifies data
    ensures LanesAt(p, keys, ivs, was, next, Contents(data), i + 1)
  {
    hide LaneAt, Block, Previous, Stored, Xor;
    ghost var now := Contents(data);
    assert forall j :: 0 <= j < LANES ==> now[j] == data[j][..];
    var mixed := MixBlock(data, next, ivs, i);
    var state := AES256Core(p, mixed, keys);
    StoreLanes(data, i, state);
    LanesNext(p, keys, ivs, was, next, now, i, state, Contents(data));
  }

  /** All lanes of a block before the next block, each lane's mixing done on the way: the same as mixing
      first and chaining each lane by itself. */
  method AES256CBC(p: Primitives, data: seq<array<Word>>, next: seq<seq<Word>>, keys: seq<seq<Word>>,
                   ivs: seq<seq<Word>>)
    requires PrimitivesOk(p) && LanesOk(data) && WordsEach(next, SLICE) && WordsEach(ivs, 4) && |keys| == LANES
    modifies data
    ensures forall j :: 0 <= j < LANES ==> data[j][..] == Cbc(p, keys[j], ivs[j], Xor(old(data[j][..]), next[j]))
  {
    hide LanesAt, Xor, Cbc;
    ghost var was := Contents(data);
    assert forall j :: 0 <= j < LANES ==> was[j] == data[j][..];
    LanesStart(p, keys, ivs, was, next);
    for i := 0 to SLICE / 4
      invariant LanesAt(p, keys, ivs, was, next, Contents(data), i)
    {
      NextBlock(p, data, next, keys, ivs, i, was);
    }
    LanesEnd(p, keys, ivs, was, next, Contents(data));
  }

  // ----- The search with lanes -----

  /** Bitwise and of the low k bits. */
  function AndBits(x: nat, y: nat, k: nat): nat {
    if k == 0 then 0 else 2 * AndBits(x / 2, y / 2, k - 1) + (if x % 2 == 1 && y % 2 == 1 then 1 else 0)
  }

  /** A mask of j ones takes the remainder. */
  lemma {:induction false} MaskIsRemainder(x: nat, j: nat, k: nat)
    requires j <= k
    ensures AndBits(x, Pow(2, j) - 1, k) == x % Pow(2, j)
    decreases k
  {
    if j == 0 {
      NoBits(x, k);
    } else {
      MaskIsRemainder(x / 2, j - 1, k - 1);
      var q := Pow(2, j - 1);
      assert (Pow(2, j) - 1) / 2 == q - 1 && (Pow(2, j) - 1) % 2 == 1;
      HalfRemainder(x, q);
    }
  }

  lemma {:induction false} NoBits(x: nat, k: nat)
    ensures AndBits(x, 0, k) == 0
  {
    if k > 0 {
      NoBits(x / 2, k - 1);
    }
  }

  lemma HalfRemainder(x: nat, q: nat)
    requires q > 0
    ensures x % (2 * q) == 2 * (x / 2 % q) + x % 2
  {
    var d, r := x / 2 / q, x / 2 % q;
    assert x / 2 == q * d + r;
    assert x == (2 * q) * d + (2 * r + x % 2);
    DivUnique(x, 2 * q, d, 2 * r + x % 2);
  }

  lemma MaskOfSlices(x: Word)
    ensures AndBits(x, SLICES - 1, 32) == Location(x)
  {
    assert Pow(2, 9) == 512;
    PowAdd(2, 9, 9);
    MaskIsRemainder(x, 18, 32);
  }

  /** The key and the vector of a lane: the end of what will be mixed, computed before mixing. */
  method LaneKey(cache: array<Word>, next: seq<Word>) returns (last: seq<Word>)
    requires cache.Length == |next| == SLICE
    ensures last == Xor(cache[..], next)[SLICE - 8..]
  {
    last := [];
    for i := 0 to 8
      invariant last == Xor(cache[..], next)[SLICE - 8..SLICE - 8 + i]
    {
      last := last + [XorWord(cache[SLICE - 8 + i], next[SLICE - 8 + i])];
    }
  }

  /** Where each lane goes next, and its key and vector. */
  method LaneInputs(p: Primitives, mem: array<Word>, data: seq<array<Word>>, ghost midHash: seq<Word>)
    returns (next: seq<seq<Word>>, keys: seq<seq<Word>>, ivs: seq<seq<Word>>)
    requires Ready(p, midHash, mem[..]) && LanesOk(data)
    ensures |midHash| == 8 && WordsEach(next, SLICE) && WordsEach(ivs, 4) && |keys| == LANES
    ensures forall j :: 0 <= j < LANES ==> next[j] == SliceAt(p, midHash, Location(data[j][..][SLICE - 1]))
    ensures forall j :: 0 <= j < LANES ==>
              keys[j] == Xor(data[j][..], next[j])[SLICE - 8..] && ivs[j] == Xor(data[j][..], next[j])[SLICE - 4..]
  {
    hide Filled, Cbc, Xor, SliceAt;
    FilledLength(p, midHash, mem[..]);
    next, keys, ivs := [], [], [];
    for n := 0 to LANES
      invariant |next| == |keys| == |ivs| == n
      invariant forall j :: 0 <= j < n ==> next[j] == SliceAt(p, midHash, Location(data[j][..][SLICE - 1]))
      invariant forall j :: 0 <= j < n ==>
                  keys[j] == Xor(data[j][..], next[j])[SLICE - 8..] && ivs[j] == Xor(data[j][..], next[j])[SLICE - 4..]
    {
      MaskOfSlices(data[n][SLICE - 1]);
      var nextLocation := AndBits(data[n][SLICE - 1], SLICES - 1, 32);
      SliceOfFilled(p, midHash, mem[..], nextLocation);
      var slice := mem[nextLocation * SLICE..(nextLocation + 1) * SLICE];
      var last := LaneKey(data[n], slice);
      assert last[4..] == Xor(data[n][..], slice)[SLICE - 8..][4..] == Xor(data[n][..], slice)[SLICE - 4..];
      next, keys, ivs := next + [slice], keys + [last], ivs + [last[4..]];
    }
  }

  /** Chaining what is mixed on the way is the round. */
  lemma RoundIs(p: Primitives, cache: seq<Word>, next: seq<Word>, key: seq<Word>, iv: seq<Word>)
    requires PrimitivesOk(p) && |cache| == |next| == SLICE
    requires key == Xor(cache, next)[SLICE - 8..] && iv == Xor(cache, next)[SLICE - 4..]
    ensures Cbc(p, key, iv, Xor(cache, next)) == Round(p, cache, next)
  {
  }

  /** One iteration of all lanes. */
  method RoundOfLanes(p: Primitives, mem: array<Word>, data: seq<array<Word>>, ghost midHash: seq<Word>)
    requires Ready(p, midHash, mem[..]) && LanesOk(data) && mem !in data
    modifies data
    ensures |midHash| == 8
    ensures forall j :: 0 <= j < LANES ==>
              data[j][..] == Round(p, old(data[j][..]), SliceAt(p, midHash, Location(old(data[j][..])[SLICE - 1])))
  {
    hide Filled, Cbc, Xor, SliceAt, Round;
    var next, keys, ivs := LaneInputs(p, mem, data, midHash);
    forall j | 0 <= j < LANES
      ensures Cbc(p, keys[j], ivs[j], Xor(data[j][..], next[j])) == Round(p, data[j][..], next[j])
    {
      RoundIs(p, data[j][..], next[j], keys[j], ivs[j]);
    }
    AES256CBC(p, data, next, keys, ivs);
  }

  method MakeLanes(mem: array<Word>, k: nat) returns (data: seq<array<Word>>)
    requires (k + LANES) * SLICE <= mem.Length
    ensures LanesOk(data) && fresh(data)
    ensures forall n :: 0 <= n < LANES ==> data[n][..] == mem[(k + n) * SLICE..(k + n + 1) * SLICE]
  {
    data := [];
    for n := 0 to LANES
      invariant |data| == n && fresh(data)
      invariant forall j :: 0 <= j < n ==> data[j].Length == SLICE
      invariant forall j, i :: 0 <= j < i < n ==> data[j] != data[i]
      invariant forall j :: 0 <= j < n ==> data[j][..] == mem[(k + j) * SLICE..(k + j + 1) * SLICE]
    {
      var cache := new Word[SLICE];
      CopySlice(mem, k + n, cache);
      data := data + [cache];
    }
  }

  method WalkLanes(p: Primitives, mem: array<Word>, k: nat, ghost midHash: seq<Word>) returns (data: seq<array<Word>>)
    requires Ready(p, midHash, mem[..]) && k + LANES <= SLICES
    ensures |midHash| == 8 && LanesOk(data) && fresh(data)
    ensures forall n :: 0 <= n < LANES ==> data[n][..] == Walk(p, midHash, k + n, ITERATIONS)
  {
    hide Filled, Round;
    FilledLength(p, midHash, mem[..]);
    data := MakeLanes(mem, k);
    forall n | 0 <= n < LANES ensures data[n][..] == Walk(p, midHash, k + n, 0) {
      SliceOfFilled(p, midHash, mem[..], k + n);
      assert mem[(k + n) * SLICE..(k + n + 1) * SLICE] == mem[..][(k + n) * SLICE..(k + n + 1) * SLICE];
    }
    for j := 0 to ITERATIONS
      invariant LanesOk(data) && fresh(data)
      invariant forall n :: 0 <= n < LANES ==> data[n][..] == Walk(p, midHash, k + n, j)
    {
      RoundOfLanes(p, mem, data, midHash);
    }
  }

  /** The search of one thread with lanes; it stops after whole groups of eight slices, all of them in
      the scratchpad. */
  method AesSearchAESNI(p: Primitives, mem: array<Word>, startLoc: nat, searchNumber: nat, resultsIn: seq<(nat, Word)>,
                        ghost midHash: seq<Word>)
    returns (results: seq<(nat, Word)>)
    requires Ready(p, midHash, mem[..]) && startLoc + (searchNumber + 7) / 8 * 8 <= SLICES
    ensures |midHash| == 8
    ensures results == resultsIn + Hits(p, midHash, startLoc, startLoc + (searchNumber + 7) / 8 * 8)
  {
    hide Filled, Walk;
    FilledLength(p, midHash, mem[..]);
    results := resultsIn;
    var k := startLoc;
    ghost var groups := 0;
    while k < startLoc + searchNumber
      invariant k == startLoc + groups * 8 <= startLoc + (searchNumber + 7) / 8 * 8
      invariant results == resultsIn + Hits(p, midHash, startLoc, k)
    {
      var data := WalkLanes(p, mem, k, midHash);
      for n := 0 to LANES
        invariant forall j :: 0 <= j < LANES ==> data[j][..] == Walk(p, midHash, k + j, ITERATIONS)
        invariant results == resultsIn + Hits(p, midHash, startLoc, k + n)
      {
        MaskOfSlices(data[n][SLICE - 1]);
        assert data[n][SLICE - 1] == data[n][..][SLICE - 1] && data[n][SLICE - 2] == data[n][..][SLICE - 2];
        if AndBits(data[n][SLICE - 1], SLICES - 1, 32) < 1000 {
          results := results + [(k + n, data[n][SLICE - 2])];
        }
      }
      k := k + LANES;
      groups := groups + 1;
    }
  }

  // ----- Verifying -----

  /** Hash the chunks of a slice into a buffer. */
  method HashSlice(p: Primitives, midHash: seq<Word>, a: nat, cache: array<Word>)
    requires PrimitivesOk(p) && |midHash| == 8 && a < SLICES && cache.Length == SLICE
    modifies cache
    ensures cache[..] == SliceAt(p, midHash, a)
  {
    hide Chunk;
    var startLocation := a * 64;
    var index := midHash;
    for i := startLocation to startLocation + 64
      invariant |index| == 8 && index[1..] == midHash[1..]
      invariant forall w :: 0 <= w < (i - startLocation) * CHUNK ==> cache[w] == SliceAt(p, midHash, a)[w]
    {
      index := index[0 := i as Word];
      assert index == midHash[0 := i as Word];
      ChunkIs(p, midHash, i);
      ghost var was := cache[..];
      WriteChunk(cache, i - startLocation, p.sha(index));
      ChunkPlaced(p, midHash, a, i - startLocation, was, cache[..]);
      assert forall w :: 0 <= w < SLICE ==> cache[w] == cache[..][w];
    }
  }

  lemma ChunkIs(p: Primitives, midHash: seq<Word>, i: nat)
    requires |midHash| == 8 && i < CHUNKS
    ensures Chunk(p, midHash, i) == p.sha(midHash[0 := i as Word])
  {
  }

  lemma ChunkPlaced(p: Primitives, midHash: seq<Word>, a: nat, c: nat, was: seq<Word>, now: seq<Word>)
    requires PrimitivesOk(p) && |midHash| == 8 && a < SLICES && c < 64 && |was| == SLICE
    requires forall w :: 0 <= w < c * CHUNK ==> was[w] == SliceAt(p, midHash, a)[w]
    requires now == was[..c * CHUNK] + Chunk(p, midHash, a * 64 + c) + was[(c + 1) * CHUNK..]
    ensures |now| == SLICE && forall w :: 0 <= w < (c + 1) * CHUNK ==> now[w] == SliceAt(p, midHash, a)[w]
  {
    hide Chunk;
    ChunkLength(p, midHash, a * 64 + c);
  }

  method MixInto(cache: array<Word>, other: array<Word>)
    requires cache.Length == other.Length == SLICE && cache != other
    modifies other
    ensures other[..] == Xor(cache[..], old(other[..]))
  {
    for i := 0 to SLICE
      invariant forall k :: 0 <= k < i ==> other[k] == XorWord(cache[k], old(other[k]))
      invariant forall k :: i <= k < SLICE ==> other[k] == old(other[k])
    {
      other[i] := XorWord(cache[i], other[i]);
    }
  }

  /** One iteration without the scratchpad. */
  method RoundOnDemand(p: Primitives, midHash: seq<Word>, cache: array<Word>, other: array<Word>)
    requires PrimitivesOk(p) && |midHash| == 8 && cache.Length == other.Length == SLICE && cache != other
    modifies cache, other
    ensures cache[..] == Round(p, old(cache[..]), SliceAt(p, midHash, Location(old(cache[..])[SLICE - 1])))
  {
    hide Cbc, Xor, SliceAt;
    HashSlice(p, midHash, Location(cache[SLICE - 1]), other);
    MixInto(cache, other);
    EncryptUpdate(p, other[SLICE - 8..], other[SLICE - 4..], cache, other);
  }

  /** A pair verifies exactly if it is a hit, whether or not any search visited the slice. */
  method PatternVerify(p: Primitives, midHash: seq<Word>, a: nat, b: Word) returns (r: bool)
    requires PrimitivesOk(p) && |midHash| == 8
    ensures r == IsHit(p, midHash, a, b)
  {
    hide Round;
    if a >= SLICES {
      return false;
    }
    var cache := new Word[SLICE];
    var other := new Word[SLICE];
    HashSlice(p, midHash, a, cache);
    for j := 0 to ITERATIONS
      invariant cache[..] == Walk(p, midHash, a, j)
    {
      RoundOnDemand(p, midHash, cache, other);
    }
    assert cache[SLICE - 1] == cache[..][SLICE - 1] && cache[SLICE - 2] == cache[..][SLICE - 2];
    r := Location(cache[SLICE - 1]) < 1000 && cache[SLICE - 2] == b;
  }
}
