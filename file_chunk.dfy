/**
 * Splitting a file into upload chunks (file-slice-upload, `createFileChunk`).
 *
 * A chunk is a `Blob` slice, given here by its byte range. `file.slice(a, b)`
 * clamps `b` to the file size. The value of the imported constant
 * `CHUNK_SIZE` is not part of this model, so it is a parameter `chunkConst`.
 */
module FileChunk {

  /** The bytes `[start, end)` of the file. */
  datatype Chunk = Chunk(start: nat, end: nat)

  function Min(a: nat, b: nat): nat
  {
    if a <= b then a else b
  }

  /** `file.slice(start, end)`: the end is clamped to the file size. */
  function Slice(size: nat, start: nat, end: nat): Chunk
  {
    Chunk(start, Min(end, size))
  }

  /** The chunks pushed for the offsets `cur, cur + step, ...` below `size`, each ending at `cur + chunkConst`. */
  function ChunksFrom(size: nat, step: nat, chunkConst: nat, cur: nat): seq<Chunk>
    requires step > 0
    decreases size - cur
  {
    if cur >= size then [] else [Slice(size, cur, cur + chunkConst)] + ChunksFrom(size, step, chunkConst, cur + step)
  }

  /** `createFileChunk(file, chunkSize)` as a value. */
  function Chunks(size: nat, chunkSize: nat, chunkConst: nat): seq<Chunk>
    requires chunkSize > 0
  {
    ChunksFrom(size, chunkSize, chunkConst, 0)
  }

  /** The number of offsets `0, step, 2*step, ...` below `size`, that is `ceil(size / step)`. */
  function CeilDiv(size: nat, step: nat): nat
    requires step > 0
    decreases size
  {
    if size == 0 then 0 else if size <= step then 1 else 1 + CeilDiv(size - step, step)
  }

  /**
   * `createFileChunk(file, chunkSize = CHUNK_SIZE)`: the loop's cursor
   * steps by `chunkSize`, and each slice ends `CHUNK_SIZE` bytes later.
   */
  method CreateFileChunk(size: nat, chunkSize: nat, chunkConst: nat) returns (fileChunks: seq<Chunk>)
    requires chunkSize > 0
    ensures fileChunks == Chunks(size, chunkSize, chunkConst)
  {
    fileChunks := [];
    var cur := 0;
    while cur < size
      invariant fileChunks + ChunksFrom(size, chunkSize, chunkConst, cur) == Chunks(size, chunkSize, chunkConst)
      decreases size - cur
    {
      assert ChunksFrom(size, chunkSize, chunkConst, cur)
        == [Slice(size, cur, cur + chunkConst)] + ChunksFrom(size, chunkSize, chunkConst, cur + chunkSize);
      fileChunks := fileChunks + [Slice(size, cur, cur + chunkConst)];
      cur := cur + chunkSize;
    }
  }

  /** Chunk `i` starts at `i * step` and ends `chunkConst` later, clamped; there are `ceil(size / step)` of them. */
  lemma {:induction false} ChunksFromAt(size: nat, step: nat, chunkConst: nat, cur: nat)
    requires step > 0
    ensures var r := ChunksFrom(size, step, chunkConst, cur);
      && |r| == (if cur >= size then 0 else CeilDiv(size - cur, step))
      && forall i :: 0 <= i < |r| ==> r[i] == Slice(size, cur + i * step, cur + i * step + chunkConst)
    decreases size - cur
  {
    if cur < size {
      ChunksFromAt(size, step, chunkConst, cur + step);
      var r := ChunksFrom(size, step, chunkConst, cur);
      var rest := ChunksFrom(size, step, chunkConst, cur + step);
      assert r == [Slice(size, cur, cur + chunkConst)] + rest;
      forall i | 0 < i < |r|
        ensures r[i] == Slice(size, cur + i * step, cur + i * step + chunkConst)
      {
        assert r[i] == rest[i - 1];
        MulPred(i, step);
      }
    }
  }

  /** `ceil(size / chunkSize)` chunks, the `i`-th at offset `i * chunkSize`; an empty file has none. */
  lemma ChunkCountAndOffsets(size: nat, chunkSize: nat, chunkConst: nat)
    requires chunkSize > 0
    ensures |Chunks(size, chunkSize, chunkConst)| == CeilDiv(size, chunkSize)
    ensures size == 0 ==> Chunks(size, chunkSize, chunkConst) == []
    ensures forall i :: 0 <= i < |Chunks(size, chunkSize, chunkConst)| ==>
      Chunks(size, chunkSize, chunkConst)[i].start == i * chunkSize
      && Chunks(size, chunkSize, chunkConst)[i].end == Min(i * chunkSize + chunkConst, size)
  {
    ChunksFromAt(size, chunkSize, chunkConst, 0);
  }

  /** Offsets strictly increase from chunk to chunk. */
  lemma ChunksInOffsetOrder(size: nat, chunkSize: nat, chunkConst: nat)
    requires chunkSize > 0
    ensures forall i, j :: 0 <= i < j < |Chunks(size, chunkSize, chunkConst)| ==>
      Chunks(size, chunkSize, chunkConst)[i].start < Chunks(size, chunkSize, chunkConst)[j].start
  {
    ChunkCountAndOffsets(size, chunkSize, chunkConst);
    var r := Chunks(size, chunkSize, chunkConst);
    forall i, j | 0 <= i < j < |r| ensures r[i].start < r[j].start
    {
      MulStrict(i, j, chunkSize);
    }
  }

  lemma MulPred(i: nat, k: nat)
    requires i > 0
    ensures k + (i - 1) * k == i * k
  {
  }

  lemma MulStrict(i: nat, j: nat, k: nat)
    requires i < j && k > 0
    ensures i * k < j * k
  {
  }

  /**
   * With the default `chunkSize = CHUNK_SIZE` the chunks tile the file:
   * the first starts at 0, each ends where the next starts, the last ends
   * at the file size, and every chunk but the last is `CHUNK_SIZE` long.
   */
  lemma DefaultChunksTileTheFile(size: nat, chunkConst: nat)
    requires chunkConst > 0 && size > 0
    ensures var r := Chunks(size, chunkConst, chunkConst);
      && |r| > 0 && r[0].start == 0 && r[|r| - 1].end == size
      && (forall i :: 0 <= i < |r| - 1 ==> r[i].end == r[i + 1].start && r[i].end - r[i].start == chunkConst)
      && (forall i :: 0 <= i < |r| ==> r[i].start < r[i].end <= r[i].start + chunkConst)
  {
    ChunkCountAndOffsets(size, chunkConst, chunkConst);
    var r := Chunks(size, chunkConst, chunkConst);
    var n := |r|;
    LastOffsetCovers(size, chunkConst);
    forall i | 0 <= i < n - 1
      ensures r[i].end == r[i + 1].start && r[i].end - r[i].start == chunkConst
    {
      assert (i + 1) * chunkConst == i * chunkConst + chunkConst;
      assert (i + 1) * chunkConst < size;
    }
    forall i | 0 <= i < n
      ensures r[i].start < r[i].end <= r[i].start + chunkConst
    {
      MulStrict(i, n, chunkConst);
      assert i * chunkConst < size by { assert i <= n - 1; MulMono(i, n - 1, chunkConst); }
    }
  }

  lemma MulMono(i: nat, j: nat, k: nat)
    requires i <= j
    ensures i * k <= j * k
  {
  }

  /** The last offset is below `size`, and one more step reaches or passes it. */
  lemma {:induction false} LastOffsetCovers(size: nat, step: nat)
    requires step > 0 && size > 0
    ensures CeilDiv(size, step) >= 1
    ensures (CeilDiv(size, step) - 1) * step < size <= CeilDiv(size, step) * step
    decreases size
  {
    if size > step {
      LastOffsetCovers(size - step, step);
      var n := CeilDiv(size - step, step);
      MulPred(n + 1, step);
      MulPred(n, step);
    }
  }
}
