/** split_into_chunks: the collected text cut into consecutive slices of a
    fixed size, one slice for each multiple of the size below the text's length. */
module Chunker {
  import opened Strings

  datatype Result<T, E> = Success(value: T) | Failure(error: E)

  /** range() refuses a zero step with a ValueError. */
  datatype ChunkError = ZeroChunkSize

  function Min(a: int, b: int): int { if a <= b then a else b }

  /** How many values range(0, n, size) yields. */
  function ChunkCount(n: nat, size: nat): nat
    requires size > 0
  {
    (n + size - 1) / size
  }

  /** Python's s[lo:hi] for non-negative bounds: both bounds are clamped to
      len(s), and the slice is empty when lo is not below hi. */
  function Slice<T>(s: seq<T>, lo: nat, hi: nat): seq<T>
  {
    var a := Min(lo, |s|);
    var b := Min(hi, |s|);
    if a <= b then s[a..b] else []
  }

  /** The list comprehension for a positive chunk size. */
  function Chunks(text: string, size: nat): seq<string>
    requires size > 0
  {
    seq(ChunkCount(|text|, size), i requires 0 <= i => Slice(text, i * size, i * size + size))
  }

  /** split_into_chunks for any integer chunk size: a zero size makes range()
      raise, a negative one gives an empty range and so no chunks, a positive
      one cuts the text into chunks that join back into it. */
  function SplitIntoChunks(text: string, chunkSize: int): (r: Result<seq<string>, ChunkError>)
    ensures r.Failure? <==> chunkSize == 0
    ensures chunkSize < 0 ==> r == Success([])
    ensures chunkSize > 0 ==> r.Success? && Concat(r.value) == text
    ensures chunkSize > 0 ==> r.Success? && |r.value| == ChunkCount(|text|, chunkSize)
  {
    if chunkSize == 0 then Failure(ZeroChunkSize)
    else if chunkSize < 0 then Success([])
    else ChunksConcat(text, chunkSize); Success(Chunks(text, chunkSize))
  }

  /** The chunk count is the ceiling of n / size: enough chunks to cover n
      characters, and one fewer would not. */
  lemma ChunkCountIsCeiling(n: nat, size: nat)
    requires size > 0
    ensures n <= ChunkCount(n, size) * size
    ensures 0 < n ==> (ChunkCount(n, size) - 1) * size < n
    ensures ChunkCount(n, size) == 0 <==> n == 0
  {
    var c := ChunkCount(n, size);
    var r := (n + size - 1) % size;
    assert n + size - 1 == c * size + r;
    if n == 0 {
      assert c == 0 by { assert c * size <= size - 1; }
    }
  }

  /** Every chunk starts inside the text. */
  lemma ChunkStartInside(n: nat, size: nat, i: nat)
    requires size > 0
    requires i < ChunkCount(n, size)
    ensures i * size < n
    ensures i * size + size <= ChunkCount(n, size) * size
  {
    ChunkCountIsCeiling(n, size);
    var c := ChunkCount(n, size);
    assert i * size <= (c - 1) * size by {
      MulMonotone(i, c - 1, size);
    }
    assert i * size + size <= c * size by {
      MulMonotone(i + 1, c, size);
    }
  }

  lemma MulMonotone(a: nat, b: nat, k: nat)
    requires a <= b
    ensures a * k <= b * k
  {
  }

  /** Chunk i is text[i*size .. min((i+1)*size, len(text))]: the chunks are
      contiguous and do not overlap. Every chunk but the last holds exactly
      size characters, and the last holds between 1 and size. */
  lemma ChunkAt(text: string, size: nat, i: nat)
    requires size > 0
    requires i < |Chunks(text, size)|
    ensures i * size < |text|
    ensures Chunks(text, size)[i] == text[i * size .. Min(i * size + size, |text|)]
    ensures i + 1 < |Chunks(text, size)| ==> |Chunks(text, size)[i]| == size
    ensures i + 1 == |Chunks(text, size)| ==> 0 < |Chunks(text, size)[i]| <= size
  {
    var n := |text|;
    ChunkStartInside(n, size, i);
    if i + 1 < ChunkCount(n, size) {
      ChunkStartInside(n, size, i + 1);
    }
  }

  /** No chunks exactly when the text is empty. */
  lemma ChunksEmpty(text: string, size: nat)
    requires size > 0
    ensures Chunks(text, size) == [] <==> text == []
  {
    ChunkCountIsCeiling(|text|, size);
  }

  /** The first k chunks joined give the first k*size characters of the text. */
  lemma {:induction false} ChunksPrefix(text: string, size: nat, k: nat)
    requires size > 0
    requires k <= |Chunks(text, size)|
    ensures Concat(Chunks(text, size)[..k]) == text[..Min(k * size, |text|)]
  {
    var chunks := Chunks(text, size);
    if k == 0 {
      assert chunks[..0] == [];
    } else {
      ChunksPrefix(text, size, k - 1);
      assert chunks[..k] == chunks[..k - 1] + [chunks[k - 1]];
      ConcatAppend(chunks[..k - 1], chunks[k - 1]);
      ChunkAt(text, size, k - 1);
      assert (k - 1) * size + size == k * size;
      assert (k - 1) * size < |text|;
      assert text[..Min(k * size, |text|)]
          == text[..(k - 1) * size] + text[(k - 1) * size .. Min(k * size, |text|)];
    }
  }

  /** Round trip: joining the chunks, in order, gives back exactly the text. */
  lemma ChunksConcat(text: string, size: nat)
    requires size > 0
    ensures Concat(Chunks(text, size)) == text
  {
    var chunks := Chunks(text, size);
    ChunksPrefix(text, size, |chunks|);
    ChunkCountIsCeiling(|text|, size);
    assert chunks[..|chunks|] == chunks;
  }
}
