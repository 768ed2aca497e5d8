/**
 The fixed-size chunker (apps/agent/graph/chunker.go) on sequences of runes.
 */
module Chunker {

  type Rune = int

  datatype FixedSizeChunker = FixedSizeChunker(chunkSize: int, chunkOverlap: int)

  /** The constructor. Its default overlap of 50 may still exceed a small chunk size. */
  function NewFixedSizeChunker(chunkSize: int, overlap: int): FixedSizeChunker {
    var size := if chunkSize <= 0 then 512 else chunkSize;
    FixedSizeChunker(size, if overlap < 0 || overlap >= size then 50 else overlap)
  }

  /** How far the start moves from chunk to chunk. */
  function Step(c: FixedSizeChunker): int {
    var step := c.chunkSize - c.chunkOverlap;
    if step <= 0 then c.chunkSize else step
  }

  /** The runes a chunk repeats from the one before. */
  function Repeated(c: FixedSizeChunker): int { c.chunkSize - Step(c) }

  predicate WellFormed(c: FixedSizeChunker) {
    c.chunkSize > 0 && 0 <= Repeated(c) < c.chunkSize
  }

  lemma ConstructorIsWellFormed(chunkSize: int, overlap: int)
    ensures WellFormed(NewFixedSizeChunker(chunkSize, overlap))
  {
  }

  /** Every argument that makes sense is used: a positive size, and an overlap below the size is what
      a chunk repeats. The size is 512 by default; another overlap becomes 50, or none if that does
      not fit either. */
  lemma ConstructorUsesArguments(chunkSize: int, overlap: int)
    ensures var c := NewFixedSizeChunker(chunkSize, overlap);
            && (chunkSize > 0 ==> c.chunkSize == chunkSize) && (chunkSize <= 0 ==> c.chunkSize == 512)
            && (0 <= overlap < c.chunkSize ==> Repeated(c) == overlap)
            && (!(0 <= overlap < c.chunkSize) ==> Repeated(c) == if c.chunkSize > 50 then 50 else 0)
  {
  }

  /** The chunks from a start on, each a window of the contents, until one reaches their end. */
  function ChunksFrom(c: FixedSizeChunker, runes: seq<Rune>, start: nat): seq<seq<Rune>>
    requires WellFormed(c) && start <= |runes|
    decreases |runes| - start
  {
    if start + c.chunkSize >= |runes| then [runes[start..]]
    else [runes[start..start + c.chunkSize]] + ChunksFrom(c, runes, start + Step(c))
  }

  /** One more chunk put out leaves the chunks of the next start. */
  lemma MoveOn(c: FixedSizeChunker, runes: seq<Rune>, start: nat, chunks: seq<seq<Rune>>)
    requires WellFormed(c) && start + c.chunkSize < |runes|
    ensures chunks + ChunksFrom(c, runes, start)
            == (chunks + [runes[start..start + c.chunkSize]]) + ChunksFrom(c, runes, start + Step(c))
  {
  }

  /** The chunk that reaches the end is the last one. */
  lemma LastChunk(c: FixedSizeChunker, runes: seq<Rune>, start: nat, chunks: seq<seq<Rune>>)
    requires WellFormed(c) && start <= |runes| <= start + c.chunkSize
    ensures chunks + ChunksFrom(c, runes, start) == chunks + [runes[start..|runes|]]
  {
    assert runes[start..|runes|] == runes[start..];
  }

  /** The loop. Contents that fit one chunk are returned as they are. */
  method Chunk(c: FixedSizeChunker, runes: seq<Rune>) returns (chunks: seq<seq<Rune>>)
    requires WellFormed(c)
    ensures chunks == ChunksFrom(c, runes, 0)
  {
    if |runes| <= c.chunkSize {
      LastChunk(c, runes, 0, []);
      assert runes[0..|runes|] == runes;
      return [runes];
    }
    chunks := [];
    var step := c.chunkSize - c.chunkOverlap;
    if step <= 0 {
      step := c.chunkSize;
    }
    var start := 0;
    ghost var all := ChunksFrom(c, runes, 0);
    while start < |runes|
      invariant 0 <= start < |runes| && step == Step(c)
      invariant chunks + ChunksFrom(c, runes, start) == all
      decreases |runes| - start
    {
      var end := start + c.chunkSize;
      if end > |runes| {
        end := |runes|;
      }
      if end < |runes| {
        MoveOn(c, runes, start, chunks);
      } else {
        LastChunk(c, runes, start, chunks);
      }
      chunks := chunks + [runes[start..end]];
      if end == |runes| {
        break;
      }
      start := start + step;
    }
  }

  // ----- what the chunks are -----

  function NewParts(chunks: seq<seq<Rune>>, repeated: nat): seq<Rune> {
    if chunks == [] then []
    else (if repeated <= |chunks[0]| then chunks[0][repeated..] else []) + NewParts(chunks[1..], repeated)
  }

  /** The first chunk, followed by each later chunk without what it repeats. */
  function Rebuilt(chunks: seq<seq<Rune>>, repeated: nat): seq<Rune> {
    if chunks == [] then [] else chunks[0] + NewParts(chunks[1..], repeated)
  }

  /** The second chunk begins with the end of the first and goes on from there. */
  predicate Repeats(first: seq<Rune>, second: seq<Rune>, repeated: nat) {
    && repeated <= |first| && repeated < |second|
    && second[..repeated] == first[|first| - repeated..]
  }

  predicate Overlapping(chunks: seq<seq<Rune>>, repeated: nat) {
    |chunks| <= 1 || (Repeats(chunks[0], chunks[1], repeated) && Overlapping(chunks[1..], repeated))
  }

  /** All chunks but the last are full, and the last is not empty unless there is nothing. */
  lemma {:induction false} ChunkSizes(c: FixedSizeChunker, runes: seq<Rune>, start: nat)
    requires WellFormed(c) && start <= |runes|
    ensures var chunks := ChunksFrom(c, runes, start);
            && chunks != []
            && (forall i :: 0 <= i < |chunks| ==> |chunks[i]| <= c.chunkSize)
            && (forall i :: 0 <= i < |chunks| - 1 ==> |chunks[i]| == c.chunkSize)
    decreases |runes| - start
  {
    if start + c.chunkSize < |runes| {
      ChunkSizes(c, runes, start + Step(c));
    }
  }

  lemma {:induction false} ChunksOverlap(c: FixedSizeChunker, runes: seq<Rune>, start: nat)
    requires WellFormed(c) && start <= |runes|
    ensures Overlapping(ChunksFrom(c, runes, start), Repeated(c))
    decreases |runes| - start
  {
    if start + c.chunkSize < |runes| {
      var next := start + Step(c);
      ChunksOverlap(c, runes, next);
      var first, rest := runes[start..start + c.chunkSize], ChunksFrom(c, runes, next);
      FirstChunk(c, runes, next);
      WindowsOverlap(runes, start, start + c.chunkSize, next, next + |rest[0]|);
      assert ([first] + rest)[1..] == rest;
    }
  }

  lemma FirstChunk(c: FixedSizeChunker, runes: seq<Rune>, start: nat)
    requires WellFormed(c) && start <= |runes|
    ensures var chunks := ChunksFrom(c, runes, start);
            var end := if start + c.chunkSize >= |runes| then |runes| else start + c.chunkSize;
            chunks != [] && chunks[0] == runes[start..end]
  {
  }

  lemma WindowsOverlap(runes: seq<Rune>, start: nat, end: nat, next: nat, later: nat)
    requires start <= next <= end < later <= |runes|
    ensures Repeats(runes[start..end], runes[next..later], end - next)
  {
  }

  lemma NewPartsFirst(first: seq<Rune>, rest: seq<seq<Rune>>, k: nat)
    requires k <= |first|
    ensures NewParts([first] + rest, k) == first[k..] + NewParts(rest, k)
  {
    assert ([first] + rest)[1..] == rest;
  }

  lemma Joined(runes: seq<Rune>, start: nat, size: nat, k: nat, next: nat)
    requires start + size <= |runes| && k <= size && next + k == start + size
    ensures runes[start..start + size][k..] + runes[next + k..] == runes[start + k..]
  {
  }

  lemma {:induction false} NewPartsContinue(c: FixedSizeChunker, runes: seq<Rune>, start: nat)
    requires WellFormed(c) && start + Repeated(c) <= |runes|
    ensures NewParts(ChunksFrom(c, runes, start), Repeated(c)) == runes[start + Repeated(c)..]
    decreases |runes| - start
  {
    var k := Repeated(c);
    if start + c.chunkSize >= |runes| {
      assert NewParts([runes[start..]], k) == runes[start..][k..] + NewParts([], k);
    } else {
      var next := start + Step(c);
      NewPartsContinue(c, runes, next);
      NewPartsFirst(runes[start..start + c.chunkSize], ChunksFrom(c, runes, next), k);
      Joined(runes, start, c.chunkSize, k, next);
    }
  }

  /** Nothing is lost or doubled: the chunks rebuild the contents, for every constructor argument. */
  lemma ChunksRebuildContents(chunkSize: int, overlap: int, runes: seq<Rune>)
    ensures var c := NewFixedSizeChunker(chunkSize, overlap);
            WellFormed(c) && Rebuilt(ChunksFrom(c, runes, 0), Repeated(c)) == runes
  {
    ConstructorIsWellFormed(chunkSize, overlap);
    var c := NewFixedSizeChunker(chunkSize, overlap);
    if c.chunkSize < |runes| {
      var first, rest := runes[..c.chunkSize], ChunksFrom(c, runes, Step(c));
      NewPartsContinue(c, runes, Step(c));
      assert ([first] + rest)[1..] == rest;
      assert runes == first + runes[c.chunkSize..];
    }
  }
}
