/** The contract between a runtime, which decodes a clip chunk by chunk, and the model that checks
    and delivers the chunks. */
module NormalChunks {
  import opened Arith
  import opened Base
  import opened TemporalWindows
  import opened Padding

  const CHUNK_SIZE: nat := 7

  /** A decoded chunk; all its frames are images of one shape. */
  datatype RawChunk<T> = RawChunk(frameStart: int, height: nat, width: nat, frames: seq<Image<T>>) {
    function FrameStop(): int {
      frameStart + |frames|
    }
  }

  datatype Chunk<U> = Chunk(frameStart: int, normals: seq<U>)

  datatype Error = TooFewFrames | TooManyFrames | EmptyFrame | NotContiguous | BadLength | BadShape | WrongTotal

  /** Where chunk `c` of `n` frames starts; the chunk ends where the next one starts. */
  function ChunkStart(n: nat, size: nat, c: nat): nat {
    Min(c * size, n)
  }

  function ValidateInput(n: nat, height: nat, width: nat, maxFrames: int): Option<Error> {
    if n < WINDOW_SIZE then Some(TooFewFrames)
    else if n > maxFrames then Some(TooManyFrames)
    else if height == 0 || width == 0 then Some(EmptyFrame)
    else None
  }

  /** A clip is accepted exactly when it has from 14 to `maxFrames` frames and its frames are not empty; too few frames
      are noticed before too many, and the number of frames before their size. */
  lemma ValidInputMeans(n: nat, height: nat, width: nat, maxFrames: int)
    ensures ValidateInput(n, height, width, maxFrames).None? <==> 14 <= n <= maxFrames && height * width > 0
    ensures ValidateInput(n, height, width, maxFrames) == Some(TooFewFrames) <==> n < 14
    ensures ValidateInput(n, height, width, maxFrames) == Some(TooManyFrames) <==> 14 <= n && maxFrames < n
    ensures ValidateInput(n, height, width, maxFrames) == Some(EmptyFrame) <==> 14 <= n <= maxFrames && height * width == 0
  {
    if height > 0 && width > 0 {
      MulMonotone(1, height, width);
    }
  }

  /** Chunk `c` is exactly the next piece of the clip, in the clip's frame size. */
  ghost predicate InPlace<T>(n: nat, height: nat, width: nat, chunk: RawChunk<T>, c: nat) {
    && chunk.frameStart == ChunkStart(n, CHUNK_SIZE, c)
    && |chunk.frames| == ChunkStart(n, CHUNK_SIZE, c + 1) - ChunkStart(n, CHUNK_SIZE, c)
    && chunk.height == height && chunk.width == width
  }

  /** All chunks are in place and together reach the end of the clip. */
  ghost predicate Contract<T>(n: nat, height: nat, width: nat, chunks: seq<RawChunk<T>>) {
    && (forall c :: 0 <= c < |chunks| ==> InPlace(n, height, width, chunks[c], c))
    && |chunks| * CHUNK_SIZE >= n
  }

  /** What is wrong with the chunk that should start at `expected`, as the first check that it fails. */
  function Fault<T>(n: nat, height: nat, width: nat, chunk: RawChunk<T>, expected: nat): Option<Error> {
    if chunk.frameStart != expected then Some(NotContiguous)
    else if |chunk.frames| != Min(CHUNK_SIZE, n - expected) then Some(BadLength)
    else if chunk.height != height || chunk.width != width then Some(BadShape)
    else None
  }

  /** A chunk is in place exactly when nothing is wrong with it. */
  lemma FaultlessIsInPlace<T>(n: nat, height: nat, width: nat, chunk: RawChunk<T>, c: nat)
    ensures Fault(n, height, width, chunk, ChunkStart(n, CHUNK_SIZE, c)).None? <==> InPlace(n, height, width, chunk, c)
  {
    assert (c + 1) * CHUNK_SIZE == c * CHUNK_SIZE + CHUNK_SIZE;
  }

  /** Checks the runtime's chunks one by one and delivers each as soon as it has passed. Whatever the
      runtime, the run ends without an error exactly when the contract was kept; the chunks delivered are
      the leading ones that were in place, each frame normalised. */
  method Infer<T, U>(n: nat, height: nat, width: nat, maxFrames: int, chunks: seq<RawChunk<T>>, normalise: Image<T> -> U)
      returns (delivered: seq<Chunk<U>>, error: Option<Error>)
    ensures error.None? <==> ValidateInput(n, height, width, maxFrames).None? && Contract(n, height, width, chunks)
    ensures ValidateInput(n, height, width, maxFrames).Some? ==>
              delivered == [] && error == ValidateInput(n, height, width, maxFrames)
    ensures |delivered| <= |chunks| && (error.None? ==> |delivered| == |chunks|)
    ensures ValidateInput(n, height, width, maxFrames).None? && error.Some? ==>
              error == if |delivered| == |chunks| then Some(WrongTotal)
                       else Fault(n, height, width, chunks[|delivered|], ChunkStart(n, CHUNK_SIZE, |delivered|))
    ensures forall c :: 0 <= c < |delivered| ==> (
              && InPlace(n, height, width, chunks[c], c)
              && delivered[c].frameStart == chunks[c].frameStart
              && |delivered[c].normals| == |chunks[c].frames|
              && forall k :: 0 <= k < |chunks[c].frames| ==> delivered[c].normals[k] == normalise(chunks[c].frames[k]))
  {
    delivered, error := [], ValidateInput(n, height, width, maxFrames);
    if error.Some? {
      return;
    }
    var expectedStart: int := 0;
    for c := 0 to |chunks|
      invariant expectedStart == ChunkStart(n, CHUNK_SIZE, c) && |delivered| == c
      invariant forall d :: 0 <= d < c ==> (
                  && InPlace(n, height, width, chunks[d], d)
                  && delivered[d].frameStart == chunks[d].frameStart
                  && |delivered[d].normals| == |chunks[d].frames|
                  && forall k :: 0 <= k < |chunks[d].frames| ==> delivered[d].normals[k] == normalise(chunks[d].frames[k]))
    {
      var chunk := chunks[c];
      if chunk.frameStart != expectedStart {
        return delivered, Some(NotContiguous);
      }
      if |chunk.frames| != Min(CHUNK_SIZE, n - expectedStart) {
        return delivered, Some(BadLength);
      }
      if chunk.height != height || chunk.width != width {
        return delivered, Some(BadShape);
      }
      var normals := seq(|chunk.frames|, k requires 0 <= k < |chunk.frames| => normalise(chunk.frames[k]));
      delivered := delivered + [Chunk(chunk.frameStart, normals)];
      expectedStart := chunk.FrameStop();
    }
    error := if expectedStart != n then Some(WrongTotal) else None;
  }

  /** Under the contract each frame is in exactly one chunk, the `f / 7`-th, as its `f % 7`-th frame;
      only empty chunks can come after the last frame. */
  lemma FrameDeliveredOnce<T>(n: nat, height: nat, width: nat, chunks: seq<RawChunk<T>>, f: nat)
    requires Contract(n, height, width, chunks) && f < n
    ensures f / CHUNK_SIZE < |chunks|
    ensures forall c :: 0 <= c < |chunks| ==>
              (chunks[c].frameStart <= f < chunks[c].FrameStop() <==> c == f / CHUNK_SIZE)
    ensures chunks[f / CHUNK_SIZE].frameStart + f % CHUNK_SIZE == f
    ensures chunks[f / CHUNK_SIZE].height == height && chunks[f / CHUNK_SIZE].width == width
    ensures |chunks[f / CHUNK_SIZE].frames| <= 7 && (f / CHUNK_SIZE < (n - 1) / CHUNK_SIZE ==> |chunks[f / CHUNK_SIZE].frames| == 7)
  {
    forall c | 0 <= c < |chunks| ensures chunks[c].frameStart <= f < chunks[c].FrameStop() <==> c == f / CHUNK_SIZE {
      assert InPlace(n, height, width, chunks[c], c);
    }
    var c := f / CHUNK_SIZE;
    assert c < |chunks|;
    assert InPlace(n, height, width, chunks[c], c);
  }

  /** The VAE answers a chunk of latents with one padded image per frame. */
  ghost predicate DecodesTo<L(!new), T>(decode: (seq<L>, nat) -> Image<T>, height: nat, width: nat) {
    forall latents: seq<L>, k: nat :: k < |latents| ==> HasShape(decode(latents, k), height, width)
  }

  /** Frame `k` of the latents, decoded and unpadded. */
  function DecodedFrame<L, T>(decode: (seq<L>, nat) -> Image<T>, latents: seq<L>, k: nat, width: nat, p: Pad): Image<T> {
    Unpad(decode(latents, k), p.left + width + p.right, p)
  }

  /** Each pixel of a decoded frame is that of its own padded image, beyond the padding. */
  lemma DecodedPixel<L(!new), T>(decode: (seq<L>, nat) -> Image<T>, latents: seq<L>, k: nat, height: nat, width: nat, p: Pad,
                                 r: nat, c: nat)
    requires DecodesTo(decode, p.top + height + p.bottom, p.left + width + p.right) && k < |latents|
    requires r < height && c < width
    ensures HasShape(decode(latents, k), p.top + height + p.bottom, p.left + width + p.right)
    ensures HasShape(DecodedFrame(decode, latents, k, width, p), height, width)
    ensures DecodedFrame(decode, latents, k, width, p)[r][c] == decode(latents, k)[p.top + r][p.left + c]
  {
    hide Unpad, HasShape;
    UnpadPixel(decode(latents, k), height, width, p, r, c);
  }

  /** `chunk` holds the frames decoded from the latents from `start` to `end`, unpadded to the clip's frame size. */
  ghost predicate Decodes<L, T>(prediction: seq<L>, height: nat, width: nat, p: Pad,
                                decode: (seq<L>, nat) -> Image<T>, chunk: RawChunk<T>, start: nat, end: nat)
    requires end <= |prediction|
  {
    && start < end && chunk.frameStart == start && |chunk.frames| == end - start
    && chunk.height == height && chunk.width == width
    && forall k: nat :: k < end - start ==> (
         && chunk.frames[k] == DecodedFrame(decode, prediction[start..end], k, width, p)
         && HasShape(chunk.frames[k], height, width))
  }

  /** Decodes the prediction chunk by chunk and takes the padding off: chunk `c` holds the frames from
      `ChunkStart(n, size, c)` to where the next one starts, and none is empty. */
  method DecodeChunks<L(!new), T>(prediction: seq<L>, height: nat, width: nat, p: Pad, size: nat,
                                  decode: (seq<L>, nat) -> Image<T>)
      returns (chunks: seq<RawChunk<T>>)
    requires size >= 1 && DecodesTo(decode, p.top + height + p.bottom, p.left + width + p.right)
    ensures |chunks| == CeilDiv(|prediction|, size)
    ensures forall c: nat :: c < |chunks| ==>
              Decodes(prediction, height, width, p, decode, chunks[c],
                      ChunkStart(|prediction|, size, c), ChunkStart(|prediction|, size, c + 1))
  {
    chunks := [];
    var n := |prediction|;
    var start := 0;
    while start < n
      invariant start == |chunks| * size
      invariant start < n + size
      invariant forall c: nat :: c < |chunks| ==>
                  Decodes(prediction, height, width, p, decode, chunks[c], ChunkStart(n, size, c), ChunkStart(n, size, c + 1))
    {
      var stop := Min(start + size, n);
      var latents := prediction[start..stop];
      var frames := seq(stop - start, (k: nat) => DecodedFrame(decode, latents, k, width, p));
      forall k | 0 <= k < stop - start ensures HasShape(frames[k], height, width) {
        UnpadShape(decode(latents, k), height, width, p);
      }
      assert (|chunks| + 1) * size == start + size;
      chunks := chunks + [RawChunk(start, height, width, frames)];
      start := start + size;
    }
    CeilDivLeast(n, size, |chunks|);
    if |chunks| > 0 {
      CeilDivLeast(n, size, |chunks| - 1);
      assert (|chunks| - 1) * size == start - size;
    }
  }

  /** Frame `f` is delivered where it belongs: normalised, unpadded, decoded from the latents of its chunk. */
  ghost predicate FrameDelivered<L, T, U>(prediction: seq<L>, height: nat, width: nat,
                                          decode: (seq<L>, nat) -> Image<T>, normalise: Image<T> -> U,
                                          delivered: seq<Chunk<U>>, f: nat)
    requires f < |prediction|
  {
    var c, k, p := f / CHUNK_SIZE, f % CHUNK_SIZE, PaddingToMultiple(height, width, MULTIPLE);
    var latents := prediction[f - k..Min(f - k + CHUNK_SIZE, |prediction|)];
    && c < |delivered| && k < |delivered[c].normals| && delivered[c].frameStart + k == f
    && delivered[c].normals[k] == normalise(DecodedFrame(decode, latents, k, width, p))
  }

  /** The diffusers runtime always keeps the contract, so a valid clip is delivered without an error,
      every frame where it belongs. */
  method InferClip<L(!new), T, U>(prediction: seq<L>, height: nat, width: nat, maxFrames: int,
                                  decode: (seq<L>, nat) -> Image<T>, normalise: Image<T> -> U)
      returns (delivered: seq<Chunk<U>>, error: Option<Error>)
    requires var p := PaddingToMultiple(height, width, MULTIPLE);
             DecodesTo(decode, p.top + height + p.bottom, p.left + width + p.right)
    ensures error == ValidateInput(|prediction|, height, width, maxFrames)
    ensures error.None? ==>
              forall f: nat :: f < |prediction| ==> FrameDelivered(prediction, height, width, decode, normalise, delivered, f)
  {
    var p := PaddingToMultiple(height, width, MULTIPLE);
    var n := |prediction|;
    var chunks := DecodeChunks(prediction, height, width, p, CHUNK_SIZE, decode);
    CeilDivLeast(n, CHUNK_SIZE, |chunks|);
    forall c: nat | c < |chunks| ensures InPlace(n, height, width, chunks[c], c) {
      assert Decodes(prediction, height, width, p, decode, chunks[c],
                     ChunkStart(n, CHUNK_SIZE, c), ChunkStart(n, CHUNK_SIZE, c + 1));
    }
    delivered, error := Infer(n, height, width, maxFrames, chunks, normalise);
    if error.None? {
      forall f: nat | f < n ensures FrameDelivered(prediction, height, width, decode, normalise, delivered, f) {
        FrameDeliveredOnce(n, height, width, chunks, f);
        var c := f / CHUNK_SIZE;
        assert InPlace(n, height, width, chunks[c], c);
        assert Decodes(prediction, height, width, p, decode, chunks[c],
                       ChunkStart(n, CHUNK_SIZE, c), ChunkStart(n, CHUNK_SIZE, c + 1));
      }
    }
  }
}
