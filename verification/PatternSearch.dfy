/** The pattern search of the proof of work (src/patternsearch.cpp, src/aes.cpp): a scratchpad of hashed
    chunks, walked through slice by slice with a block cipher. Memory is words of 32 bits; SHA-512 and
    the AES block cipher are parameters. */
module PatternSearch {
  import opened Limbs

  type Word = x: nat | x < 0x1_0000_0000

  const CHUNK := 16
  const SLICE := 1024
  const CHUNKS := 0x100_0000
  const SLICES := 0x4_0000
  const ITERATIONS := 15
  const LANES := 8

  datatype Primitives = Primitives(sha: seq<Word> -> seq<Word>, aes: (seq<Word>, seq<Word>) -> seq<Word>)

  ghost predicate PrimitivesOk(p: Primitives) {
    && (forall m :: |p.sha(m)| == CHUNK)
    && (forall k, b :: |p.aes(k, b)| == 4)
  }

  // ----- One slice -----

  /** Chunk i: the digest of the hash with its first word replaced by i. */
  function Chunk(p: Primitives, midHash: seq<Word>, i: nat): seq<Word>
    requires |midHash| == 8 && i < CHUNKS
  {
    p.sha(midHash[0 := i as Word])
  }

  ghost function SliceAt(p: Primitives, midHash: seq<Word>, a: nat): (s: seq<Word>)
    requires PrimitivesOk(p) && |midHash| == 8 && a < SLICES
    ensures |s| == SLICE
  {
    seq(SLICE, w requires 0 <= w < SLICE => Chunk(p, midHash, a * 64 + w / CHUNK)[w % CHUNK])
  }

  /** Exclusive or of the low k bits. */
  function XorBits(x: nat, y: nat, k: nat): (z: nat)
    ensures z < Pow(2, k)
  {
    if k == 0 then 0 else 2 * XorBits(x / 2, y / 2, k - 1) + (if x % 2 != y % 2 then 1 else 0)
  }

  function XorWord(x: Word, y: Word): Word {
    Pow2At32();
    XorBits(x, y, 32)
  }

  lemma {:induction false} XorBitsSet(x: nat, y: nat, n: nat, k: nat)
    ensures BitSet(XorBits(x, y, n), k) <==> k < n && BitSet(x, k) != BitSet(y, k)
    decreases n
  {
    hide BitSet;
    if n == 0 {
      ZeroHasNone(k);
    } else {
      var z := XorBits(x, y, n);
      assert z / 2 == XorBits(x / 2, y / 2, n - 1);
      if k == 0 {
        BitZero(x);
        BitZero(y);
        BitZero(z);
      } else {
        BitSetNext(x, k);
        BitSetNext(y, k);
        BitSetNext(z, k);
        XorBitsSet(x / 2, y / 2, n - 1, k - 1);
      }
    }
  }

  /** Each bit of an exclusive or is set if and only if it is in exactly one of the two words. */
  lemma XorWordSet(x: Word, y: Word, k: nat)
    ensures BitSet(XorWord(x, y), k) <==> BitSet(x, k) != BitSet(y, k)
  {
    hide BitSet;
    XorBitsSet(x, y, 32, k);
    if k >= 32 {
      Pow2At32();
      NoHighBits(x, 32, k);
      NoHighBits(y, 32, k);
    }
  }

  lemma {:induction false} NoHighBits(x: nat, n: nat, k: nat)
    requires x < Pow(2, n) && k >= n
    ensures !BitSet(x, k)
    decreases n
  {
    hide BitSet;
    if n == 0 {
      ZeroHasNone(k);
    } else {
      BitSetNext(x, k);
      NoHighBits(x / 2, n - 1, k - 1);
    }
  }

  /** So what was mixed in can be taken out again by mixing it in once more. */
  lemma XorWordUndone(x: Word, y: Word)
    ensures XorWord(XorWord(x, y), y) == x
  {
    hide BitSet, XorWord;
    forall k: nat ensures BitSet(XorWord(XorWord(x, y), y), k) <==> BitSet(x, k) {
      XorWordSet(x, y, k);
      XorWordSet(XorWord(x, y), y, k);
    }
    BitsDetermine(XorWord(XorWord(x, y), y), x);
  }

  function Xor(x: seq<Word>, y: seq<Word>): (z: seq<Word>)
    requires |x| == |y|
    ensures |z| == |x| && forall i :: 0 <= i < |z| ==> z[i] == XorWord(x[i], y[i])
  {
    seq(|x|, i requires 0 <= i < |x| => XorWord(x[i], y[i]))
  }

  /** Cipher block chaining (section 6.2 of NIST SP 800-38A). */
  function Cbc(p: Primitives, key: seq<Word>, iv: seq<Word>, data: seq<Word>): (c: seq<Word>)
    requires |iv| == 4 && |data| % 4 == 0
    decreases |data|
  {
    if data == [] then []
    else
      var block := p.aes(key, Xor(data[..4], iv));
      if |block| != 4 then [] else block + Cbc(p, key, block, data[4..])
  }

  lemma {:induction false} CbcLength(p: Primitives, key: seq<Word>, iv: seq<Word>, data: seq<Word>)
    requires PrimitivesOk(p) && |iv| == 4 && |data| % 4 == 0
    ensures |Cbc(p, key, iv, data)| == |data|
    decreases |data|
  {
    if data != [] {
      CbcLength(p, key, p.aes(key, Xor(data[..4], iv)), data[4..]);
    }
  }

  /** Block i is what the cipher makes of the data and the block before it, or of the vector. */
  lemma {:induction false} CbcBlocks(p: Primitives, key: seq<Word>, iv: seq<Word>, data: seq<Word>, i: nat)
    requires PrimitivesOk(p) && |iv| == 4 && |data| % 4 == 0 && 4 * i + 4 <= |data|
    ensures var c := Cbc(p, key, iv, data);
            && |c| == |data|
            && c[4 * i..4 * i + 4] ==
               p.aes(key, Xor(data[4 * i..4 * i + 4], if i == 0 then iv else c[4 * i - 4..4 * i]))
    decreases i
  {
    hide XorWord;
    CbcLength(p, key, iv, data);
    var block := p.aes(key, Xor(data[..4], iv));
    var rest := Cbc(p, key, block, data[4..]);
    assert Cbc(p, key, iv, data) == block + rest;
    if i > 0 {
      CbcBlocks(p, key, block, data[4..], i - 1);
      assert data[4..][4 * (i - 1)..4 * (i - 1) + 4] == data[4 * i..4 * i + 4];
      assert (block + rest)[4 * i..4 * i + 4] == rest[4 * (i - 1)..4 * (i - 1) + 4];
      assert (block + rest)[4 * i - 4..4 * i] == if i == 1 then block else rest[4 * (i - 1) - 4..4 * (i - 1)];
    }
  }

  function Location(last: Word): (n: nat)
    ensures n < SLICES
  {
    last % SLICES
  }

  /** Another slice is mixed in, and the whole enciphered under its own end. */
  ghost function Round(p: Primitives, cache: seq<Word>, next: seq<Word>): (c: seq<Word>)
    requires PrimitivesOk(p) && |cache| == |next| == SLICE
    ensures |c| == SLICE
  {
    var mixed := Xor(cache, next);
    CbcLength(p, mixed[SLICE - 8..], mixed[SLICE - 4..], mixed);
    Cbc(p, mixed[SLICE - 8..], mixed[SLICE - 4..], mixed)
  }

  /** A round, block by block: each of the 256 blocks of four words of the two slices mixed, with the block
      before it, under the last eight words of the mixed slices; the first with their last four. */
  lemma RoundBlocks(p: Primitives, cache: seq<Word>, next: seq<Word>, i: nat)
    requires PrimitivesOk(p) && |cache| == |next| == SLICE && i < 256
    ensures var c, mixed := Round(p, cache, next), Xor(cache, next);
            && |mixed| == 1024 && (forall w :: 0 <= w < 1024 ==> mixed[w] == XorWord(cache[w], next[w]))
            && c[4 * i..4 * i + 4] ==
               p.aes(mixed[1016..], Xor(mixed[4 * i..4 * i + 4], if i == 0 then mixed[1020..] else c[4 * i - 4..4 * i]))
  {
    hide XorWord;
    var mixed := Xor(cache, next);
    CbcBlocks(p, mixed[1016..], mixed[1020..], mixed, i);
  }

  ghost function Walk(p: Primitives, midHash: seq<Word>, a: nat, rounds: nat): (c: seq<Word>)
    requires PrimitivesOk(p) && |midHash| == 8 && a < SLICES
    ensures |c| == SLICE
  {
    if rounds == 0 then SliceAt(p, midHash, a)
    else
      var c := Walk(p, midHash, a, rounds - 1);
      Round(p, c, SliceAt(p, midHash, Location(c[SLICE - 1])))
  }

  /** What is mixed into a slice in its next round: word w of the slice that its last word names, which is
      word w % 16 of the digest of chunk number w / 16 of that slice's 64. */
  lemma WalkMixes(p: Primitives, midHash: seq<Word>, a: nat, rounds: nat, w: nat)
    requires PrimitivesOk(p) && |midHash| == 8 && a < SLICES && w < 1024
    ensures Walk(p, midHash, a, 0)[w] == p.sha(midHash[0 := a * 64 + w / 16])[w % 16]
    ensures var c := Walk(p, midHash, a, rounds);
            var next := SliceAt(p, midHash, c[1023] % 0x4_0000);
            && Walk(p, midHash, a, rounds + 1) == Round(p, c, next)
            && next[w] == p.sha(midHash[0 := (c[1023] % 0x4_0000) * 64 + w / 16])[w % 16]
  {
    hide Round;
  }

  /** Slice a is a solution, with b as its proof of calculation. */
  ghost predicate IsHit(p: Primitives, midHash: seq<Word>, a: nat, b: Word)
    requires PrimitivesOk(p) && |midHash| == 8
  {
    a < SLICES
    && var c := Walk(p, midHash, a, ITERATIONS);
       Location(c[SLICE - 1]) < 1000 && c[SLICE - 2] == b
  }

  /** After fifteen rounds the last word names one of the first 1000 slices, and the word before it is b. */
  lemma HitMeans(p: Primitives, midHash: seq<Word>, a: nat, b: Word)
    requires PrimitivesOk(p) && |midHash| == 8
    ensures IsHit(p, midHash, a, b) <==>
            a < 0x4_0000 && var c := Walk(p, midHash, a, 15); c[1023] % 0x4_0000 < 1000 && c[1022] == b
  {
    hide Walk;
  }

  // ----- Filling the scratchpad -----

  ghost predicate HasChunk(p: Primitives, midHash: seq<Word>, mem: seq<Word>, i: nat)
    requires |midHash| == 8 && |mem| == CHUNKS * CHUNK
  {
    i < CHUNKS && mem[i * CHUNK..(i + 1) * CHUNK] == Chunk(p, midHash, i)
  }

  ghost predicate Filled(p: Primitives, midHash: seq<Word>, mem: seq<Word>) {
    |midHash| == 8 && |mem| == CHUNKS * CHUNK && forall i :: 0 <= i < CHUNKS ==> HasChunk(p, midHash, mem, i)
  }

  /** The chunks of one thread: an equal share, the last thread taking the remainder too. */
  function Share(n: nat): nat
    requires n > 0
  {
    CHUNKS / n
  }

  function StartChunk(t: nat, n: nat): nat
    requires t < n
  {
    t * Share(n)
  }

  function EndChunk(t: nat, n: nat): nat
    requires t < n
  {
    StartChunk(t, n) + Share(n) + (if t + 1 == n then CHUNKS % n else 0)
  }

  ghost predicate IsChunkOf(i: nat, t: nat, n: nat) {
    t < n && StartChunk(t, n) <= i < EndChunk(t, n)
  }

  lemma SharesJoin(t: nat, n: nat)
    requires t < n
    ensures t + 1 < n ==> EndChunk(t, n) == StartChunk(t + 1, n)
    ensures t + 1 == n ==> EndChunk(t, n) == CHUNKS
  {
    assert t * Share(n) + Share(n) == (t + 1) * Share(n);
    assert n * Share(n) + CHUNKS % n == CHUNKS;
  }

  lemma {:induction false} SharesGrow(t: nat, u: nat, n: nat)
    requires t <= u < n
    ensures StartChunk(t, n) <= StartChunk(u, n)
    ensures t < u ==> EndChunk(t, n) <= StartChunk(u, n)
  {
    if t < u {
      SharesGrow(t, u - 1, n);
      SharesJoin(u - 1, n);
      SharesJoin(t, n);
    }
  }

  /** For any number of threads every chunk belongs to exactly one of them. */
  lemma OneThreadEach(i: nat, n: nat) returns (t: nat)
    requires i < CHUNKS && n > 0
    ensures IsChunkOf(i, t, n) && forall u: nat :: IsChunkOf(i, u, n) ==> u == t
  {
    t := n - 1;
    SharesJoin(t, n);
    while i < StartChunk(t, n)
      invariant t < n && i < EndChunk(t, n)
    {
      assert StartChunk(0, n) == 0;
      SharesJoin(t - 1, n);
      t := t - 1;
    }
    forall u: nat | IsChunkOf(i, u, n) ensures u == t {
      if u < t {
        SharesGrow(u, t, n);
      } else if t < u {
        SharesGrow(t, u, n);
      }
    }
  }

  lemma EndsWithin(t: nat, n: nat)
    requires t < n
    ensures EndChunk(t, n) <= CHUNKS
  {
    SharesJoin(n - 1, n);
    SharesGrow(t, n - 1, n);
  }

  /** Each thread fills its own chunks and touches no other. */
  method SHA512Filler(p: Primitives, mem: array<Word>, threadNumber: nat, totalThreads: nat, midHash: seq<Word>)
    requires PrimitivesOk(p) && |midHash| == 8 && mem.Length == CHUNKS * CHUNK && threadNumber < totalThreads
    modifies mem
    ensures forall i :: 0 <= i < CHUNKS && IsChunkOf(i, threadNumber, totalThreads) ==> HasChunk(p, midHash, mem[..], i)
    ensures forall i :: 0 <= i < CHUNKS && HasChunk(p, midHash, old(mem[..]), i) ==> HasChunk(p, midHash, mem[..], i)
    ensures forall w :: 0 <= w < mem.Length && !IsChunkOf(w / CHUNK, threadNumber, totalThreads) ==>
            mem[w] == old(mem[w])
  {
    hide Share, StartChunk, EndChunk;
    EndsWithin(threadNumber, totalThreads);
    var i := StartChunk(threadNumber, totalThreads);
    var end := EndChunk(threadNumber, totalThreads);
    var midHash32 := midHash;
    while i < end
      invariant StartChunk(threadNumber, totalThreads) <= i && (i <= end || i == StartChunk(threadNumber, totalThreads))
      invariant forall w :: 0 <= w < mem.Length && !IsChunkOf(w / CHUNK, threadNumber, totalThreads) ==>
                mem[w] == old(mem[w])
      invariant |midHash32| == 8 && midHash32[1..] == midHash[1..]
      invariant forall k :: StartChunk(threadNumber, totalThreads) <= k < i && k < CHUNKS ==>
                HasChunk(p, midHash, mem[..], k)
      invariant forall k :: 0 <= k < CHUNKS && HasChunk(p, midHash, old(mem[..]), k) ==>
                HasChunk(p, midHash, mem[..], k)
    {
      midHash32 := midHash32[0 := i as Word];
      assert midHash32 == midHash[0 := i as Word];
      ghost var was := mem[..];
      WriteChunk(mem, i, p.sha(midHash32));
      assert IsChunkOf(i, threadNumber, totalThreads);
      OthersUntouched(was, mem[..], i, p.sha(midHash32));
      assert forall w :: 0 <= w < mem.Length ==> mem[w] == mem[..][w];
      ChunkWritten(p, midHash, was, mem[..], i);
      i := i + 1;
    }
  }

  method WriteChunk(mem: array<Word>, i: nat, digest: seq<Word>)
    requires (i + 1) * CHUNK <= mem.Length && |digest| == CHUNK
    modifies mem
    ensures mem[..] == old(mem[..i * CHUNK]) + digest + old(mem[(i + 1) * CHUNK..])
  {
    for w := 0 to CHUNK
      invariant mem[..] == old(mem[..i * CHUNK]) + digest[..w] + old(mem[i * CHUNK + w..])
    {
      mem[i * CHUNK + w] := digest[w];
    }
  }

  lemma OthersUntouched(was: seq<Word>, mem: seq<Word>, i: nat, digest: seq<Word>)
    requires |was| == CHUNKS * CHUNK && i < CHUNKS && |digest| == CHUNK
    requires mem == was[..i * CHUNK] + digest + was[(i + 1) * CHUNK..]
    ensures |mem| == |was| && forall w :: 0 <= w < |mem| && w / CHUNK != i ==> mem[w] == was[w]
  {
  }

  lemma ChunkWritten(p: Primitives, midHash: seq<Word>, was: seq<Word>, mem: seq<Word>, i: nat)
    requires PrimitivesOk(p) && |midHash| == 8 && |was| == CHUNKS * CHUNK && i < CHUNKS
    requires mem == was[..i * CHUNK] + Chunk(p, midHash, i) + was[(i + 1) * CHUNK..]
    ensures |mem| == CHUNKS * CHUNK && HasChunk(p, midHash, mem, i)
    ensures forall k :: 0 <= k < CHUNKS && HasChunk(p, midHash, was, k) ==> HasChunk(p, midHash, mem, k)
  {
    hide Chunk;
    assert |Chunk(p, midHash, i)| == CHUNK by { ChunkLength(p, midHash, i); }
    assert mem[i * CHUNK..(i + 1) * CHUNK] == Chunk(p, midHash, i);
    forall k | 0 <= k < CHUNKS && k != i
      ensures mem[k * CHUNK..(k + 1) * CHUNK] == was[k * CHUNK..(k + 1) * CHUNK]
    {
    }
  }

  lemma ChunkLength(p: Primitives, midHash: seq<Word>, i: nat)
    requires PrimitivesOk(p) && |midHash| == 8 && i < CHUNKS
    ensures |Chunk(p, midHash, i)| == CHUNK
  {
  }

  /** Once every thread has run, in whatever order, the scratchpad is filled. */
  method FillAll(p: Primitives, mem: array<Word>, order: seq<nat>, totalThreads: nat, midHash: seq<Word>)
    requires PrimitivesOk(p) && |midHash| == 8 && mem.Length == CHUNKS * CHUNK && totalThreads > 0
    requires forall t :: t in order <==> 0 <= t < totalThreads
    modifies mem
    ensures Filled(p, midHash, mem[..])
  {
    hide HasChunk, IsChunkOf;
    for k := 0 to |order|
      invariant forall i, t :: 0 <= i < CHUNKS && t in order[..k] && IsChunkOf(i, t, totalThreads)
                  ==> HasChunk(p, midHash, mem[..], i)
    {
      assert order[k] in order && order[..k + 1] == order[..k] + [order[k]];
      SHA512Filler(p, mem, order[k], totalThreads, midHash);
    }
    assert order[..|order|] == order;
    forall i | 0 <= i < CHUNKS ensures HasChunk(p, midHash, mem[..], i) {
      var t := OneThreadEach(i, totalThreads);
      ChunkOfThread(i, t, totalThreads);
    }
  }

  lemma ChunkOfThread(i: nat, t: nat, n: nat)
    requires IsChunkOf(i, t, n)
    ensures t < n
  {
  }

  /** A slice of the filled scratchpad. */
  lemma SliceOfFilled(p: Primitives, midHash: seq<Word>, mem: seq<Word>, a: nat)
    requires PrimitivesOk(p) && Filled(p, midHash, mem) && a < SLICES
    ensures mem[a * SLICE..(a + 1) * SLICE] == SliceAt(p, midHash, a)
  {
    hide Chunk;
    var s := mem[a * SLICE..(a + 1) * SLICE];
    forall w | 0 <= w < SLICE ensures s[w] == SliceAt(p, midHash, a)[w] {
      var i := a * 64 + w / CHUNK;
      assert HasChunk(p, midHash, mem, i);
      assert s[w] == mem[i * CHUNK..(i + 1) * CHUNK][w % CHUNK];
    }
  }
}
