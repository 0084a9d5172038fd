/** Colour histograms of all frames, filled by one scatter over encoded indices, and the banded look-up of
    frame similarities. */
module ColorHistogram {
  import opened Arith

  const BINS: nat := 512

  datatype Pixel = Pixel(r: int, g: int, b: int) {
    ghost predicate Valid() {
      0 <= r < 256 && 0 <= g < 256 && 0 <= b < 256
    }
  }

  /** The cell of the 8 by 8 by 8 colour cube: each channel shifted right by five bits. */
  datatype Cell = Cell(r: int, g: int, b: int)

  function CellOf(p: Pixel): Cell {
    Cell(p.r / 32, p.g / 32, p.b / 32)
  }

  ghost predicate InCube(c: Cell) {
    0 <= c.r < 8 && 0 <= c.g < 8 && 0 <= c.b < 8
  }

  function Encode(c: Cell): int {
    c.r * 64 + c.g * 8 + c.b
  }

  /** The encoding numbers the cells from 0 to 511, each once. */
  lemma EncodeInjective(c: Cell, d: Cell)
    requires InCube(c) && InCube(d)
    ensures 0 <= Encode(c) < BINS
    ensures Encode(c) == Encode(d) ==> c == d
  {
  }

  function Bin(p: Pixel): int {
    Encode(CellOf(p))
  }

  /** A clip as the flat list of its frames' pixels: frame `f` is pixels `f * size` to `(f + 1) * size`. */
  datatype Clip = Clip(frames: nat, size: nat, pixels: seq<Pixel>) {
    ghost predicate Valid() {
      |pixels| == frames * size && forall p :: p in pixels ==> p.Valid()
    }
  }

  /** Where the pixel at position `k` counts: its frame's block of 512 entries, at its bin. */
  function Index(clip: Clip, k: nat): int
    requires clip.size >= 1 && k < |clip.pixels|
  {
    (k / clip.size) * BINS + Bin(clip.pixels[k])
  }

  /** How many of the pixels from `from` to `end` lie in the cell. */
  function Count(pixels: seq<Pixel>, from: nat, end: nat, c: Cell): (n: nat)
    requires from <= end <= |pixels|
    ensures n <= end - from
    decreases end - from
  {
    if from == end then 0
    else Count(pixels, from, end - 1, c) + if CellOf(pixels[end - 1]) == c then 1 else 0
  }

  /** The part of frame `f` that lies before position `k`. */
  function UpTo(clip: Clip, f: nat, k: nat): nat
    requires f < clip.frames && k <= clip.frames * clip.size
  {
    var from, end := f * clip.size, f * clip.size + clip.size;
    if k < from then from else if k > end then end else k
  }

  lemma FrameBounds(clip: Clip, f: nat)
    requires f < clip.frames
    ensures f * clip.size + clip.size <= clip.frames * clip.size
  {
    MulMonotone(f + 1, clip.frames, clip.size);
    MulNext(f, clip.size);
  }

  /** Frame `f`'s count of cell `c`, over the pixels before position `k`. */
  ghost function FrameCount(clip: Clip, f: nat, c: Cell, k: nat): nat
    requires clip.Valid() && f < clip.frames && k <= |clip.pixels|
  {
    FrameBounds(clip, f);
    Count(clip.pixels, f * clip.size, UpTo(clip, f, k), c)
  }

  /** The pixel at `k` adds one to its own cell in its own frame, and to nothing else. */
  lemma FrameCountStep(clip: Clip, f: nat, c: Cell, k: nat)
    requires clip.Valid() && f < clip.frames && k < |clip.pixels|
    ensures FrameCount(clip, f, c, k + 1) ==
            FrameCount(clip, f, c, k) + if k / clip.size == f && CellOf(clip.pixels[k]) == c then 1 else 0
  {
    DivBounds(k, clip.size, f);
    FrameBounds(clip, f);
  }

  lemma SomePixels(clip: Clip, k: nat)
    requires clip.Valid() && k < |clip.pixels|
    ensures clip.size >= 1 && clip.frames >= 1
  {
    MulMonotone(0, clip.size, clip.frames);
  }

  lemma PixelInCube(clip: Clip, k: nat)
    requires clip.Valid() && k < |clip.pixels|
    ensures clip.size >= 1 && InCube(CellOf(clip.pixels[k]))
  {
    SomePixels(clip, k);
    assert clip.pixels[k] in clip.pixels;
  }

  /** Blocks of 512 entries do not overlap. */
  lemma BlocksApart(q: int, b: int, f: int, e: int)
    requires 0 <= b < BINS && 0 <= e < BINS
    ensures q * BINS + b == f * BINS + e <==> q == f && b == e
    ensures q < f ==> q * BINS + b < f * BINS
  {
  }

  /** An index belongs to one frame and one cell. */
  lemma IndexDecodes(clip: Clip, f: nat, c: Cell, k: nat)
    requires clip.Valid() && f < clip.frames && InCube(c) && k < |clip.pixels|
    ensures InCube(CellOf(clip.pixels[k]))
    ensures 0 <= Index(clip, k) < clip.frames * BINS
    ensures Index(clip, k) == f * BINS + Encode(c) <==> k / clip.size == f && CellOf(clip.pixels[k]) == c
  {
    hide Encode, CellOf;
    var p := clip.pixels[k];
    PixelInCube(clip, k);
    EncodeInjective(CellOf(p), c);
    EncodeInjective(c, c);
    QuotientBelow(k, clip.size, clip.frames);
    BlocksApart(k / clip.size, Encode(CellOf(p)), f, Encode(c));
    BlocksApart(k / clip.size, Encode(CellOf(p)), clip.frames, 0);
  }

  /** Entry (f, c) of the flat histograms is the plain count of frame `f`'s pixels in cell `c`, of those before
      position `k`. */
  ghost predicate EntryCounts(histograms: seq<nat>, clip: Clip, f: nat, c: Cell, k: nat)
    requires clip.Valid() && f < clip.frames && k <= |clip.pixels|
  {
    && 0 <= f * BINS + Encode(c) < |histograms|
    && histograms[f * BINS + Encode(c)] == FrameCount(clip, f, c, k)
  }

  lemma EntryInitially(histograms: seq<nat>, clip: Clip, f: nat, c: Cell)
    requires clip.Valid() && f < clip.frames && InCube(c)
    requires |histograms| == clip.frames * BINS && forall i :: 0 <= i < |histograms| ==> histograms[i] == 0
    ensures EntryCounts(histograms, clip, f, c, 0)
  {
    EncodeInjective(c, c);
    FrameBounds(clip, f);
  }

  lemma IndexInRange(clip: Clip, k: nat)
    requires clip.Valid() && k < |clip.pixels|
    ensures clip.size >= 1 && 0 <= Index(clip, k) < clip.frames * BINS
  {
    SomePixels(clip, k);
    IndexDecodes(clip, 0, Cell(0, 0, 0), k);
  }

  function Bumped(h: seq<nat>, i: nat): seq<nat>
    requires i < |h|
  {
    h[i := h[i] + 1]
  }

  lemma EntryStep(histograms: seq<nat>, clip: Clip, f: nat, c: Cell, k: nat)
    requires clip.Valid() && f < clip.frames && InCube(c) && k < |clip.pixels|
    requires 0 <= Index(clip, k) < |histograms| && EntryCounts(histograms, clip, f, c, k)
    ensures EntryCounts(Bumped(histograms, Index(clip, k)), clip, f, c, k + 1)
  {
    IndexDecodes(clip, f, c, k);
    FrameCountStep(clip, f, c, k);
  }

  ghost predicate AllCount(histograms: seq<nat>, clip: Clip, k: nat)
    requires clip.Valid() && k <= |clip.pixels|
  {
    forall f: nat, c: Cell :: f < clip.frames && InCube(c) ==> EntryCounts(histograms, clip, f, c, k)
  }

  lemma AllInitially(histograms: seq<nat>, clip: Clip)
    requires clip.Valid()
    requires |histograms| == clip.frames * BINS && forall i :: 0 <= i < |histograms| ==> histograms[i] == 0
    ensures AllCount(histograms, clip, 0)
  {
    forall f: nat, c: Cell | f < clip.frames && InCube(c) ensures EntryCounts(histograms, clip, f, c, 0) {
      EntryInitially(histograms, clip, f, c);
    }
  }

  lemma AllStep(before: seq<nat>, after: seq<nat>, clip: Clip, k: nat, k': nat)
    requires clip.Valid() && k < |clip.pixels| && k' == k + 1 && AllCount(before, clip, k)
    requires 0 <= Index(clip, k) < |before| && after == Bumped(before, Index(clip, k))
    ensures AllCount(after, clip, k')
  {
    hide EntryCounts;
    forall f: nat, c: Cell | f < clip.frames && InCube(c) ensures EntryCounts(after, clip, f, c, k') {
      assert EntryCounts(before, clip, f, c, k);
      EntryStep(before, clip, f, c, k);
    }
  }

  method AddOne(a: array<nat>, i: nat)
    requires i < a.Length
    modifies a
    ensures |old(a[..])| == a.Length && a[..] == Bumped(old(a[..]), i)
  {
    a[i] := a[i] + 1;
  }

  /** Adds one, in place, at the encoded index of every pixel in turn. */
  method ScatterAdd(histograms: array<nat>, clip: Clip)
    requires clip.Valid() && histograms.Length == clip.frames * BINS && AllCount(histograms[..], clip, 0)
    modifies histograms
    ensures AllCount(histograms[..], clip, |clip.pixels|)
  {
    hide AllCount, Index;
    for k := 0 to |clip.pixels|
      invariant AllCount(histograms[..], clip, k)
    {
      IndexInRange(clip, k);
      ghost var before := histograms[..];
      AddOne(histograms, Index(clip, k));
      AllStep(before, histograms[..], clip, k, k + 1);
    }
  }

  /** The positions from `from` to `end` whose pixel has red in the `r`-th, green in the `g`-th and blue in the `b`-th
      eighth of the range. */
  ghost function Positions(pixels: seq<Pixel>, from: nat, end: nat, r: int, g: int, b: int): set<int>
    requires from <= end <= |pixels|
  {
    set k | from <= k < end && 32 * r <= pixels[k].r < 32 * r + 32
            && 32 * g <= pixels[k].g < 32 * g + 32 && 32 * b <= pixels[k].b < 32 * b + 32
  }

  lemma {:induction false} CountIsCardinality(pixels: seq<Pixel>, from: nat, end: nat, c: Cell)
    requires from <= end <= |pixels|
    ensures Count(pixels, from, end, c) == |Positions(pixels, from, end, c.r, c.g, c.b)|
    decreases end - from
  {
    var all := Positions(pixels, from, end, c.r, c.g, c.b);
    if from == end {
      assert all == {};
    } else {
      CountIsCardinality(pixels, from, end - 1, c);
      var rest := Positions(pixels, from, end - 1, c.r, c.g, c.b);
      assert all == rest + if CellOf(pixels[end - 1]) == c then {end - 1 as int} else {};
      assert end - 1 !in rest;
    }
  }

  /** Each entry is the number of its frame's pixels in its cell of the colour cube. */
  lemma EntryIsCardinality(histograms: seq<nat>, clip: Clip, f: nat, r: nat, g: nat, b: nat)
    requires clip.Valid() && f < clip.frames && r < 8 && g < 8 && b < 8
    requires |histograms| == clip.frames * BINS && AllCount(histograms, clip, |clip.pixels|)
    ensures f * clip.size + clip.size <= |clip.pixels| && f * 512 + r * 64 + g * 8 + b < |histograms|
    ensures histograms[f * 512 + r * 64 + g * 8 + b]
         == |Positions(clip.pixels, f * clip.size, f * clip.size + clip.size, r, g, b)|
  {
    FrameBounds(clip, f);
    assert EntryCounts(histograms, clip, f, Cell(r, g, b), |clip.pixels|);
    CountIsCardinality(clip.pixels, f * clip.size, f * clip.size + clip.size, Cell(r, g, b));
  }

  /** The entry for the cell (r, g, b) of frame `f` is the number of the frame's pixels there. */
  ghost predicate HasCount(histograms: seq<nat>, clip: Clip, f: nat, r: nat, g: nat, b: nat) {
    && f * clip.size + clip.size <= |clip.pixels| && f * 512 + r * 64 + g * 8 + b < |histograms|
    && histograms[f * 512 + r * 64 + g * 8 + b]
       == |Positions(clip.pixels, f * clip.size, f * clip.size + clip.size, r, g, b)|
  }

  lemma EntryHasCount(histograms: seq<nat>, clip: Clip, f: nat, r: nat, g: nat, b: nat)
    requires clip.Valid() && f < clip.frames && r < 8 && g < 8 && b < 8
    requires |histograms| == clip.frames * BINS && AllCount(histograms, clip, |clip.pixels|)
    ensures HasCount(histograms, clip, f, r, g, b)
  {
    hide AllCount, Positions;
    EntryIsCardinality(histograms, clip, f, r, g, b);
  }

  /** Indices of different frames or cells never collide, so each entry ends as the plain per-frame count. */
  method ComputeHistograms(clip: Clip) returns (histograms: array<nat>)
    requires clip.Valid()
    ensures histograms.Length == clip.frames * BINS
    ensures AllCount(histograms[..], clip, |clip.pixels|)
    ensures forall f: nat, r: nat, g: nat, b: nat :: f < clip.frames && r < 8 && g < 8 && b < 8 ==>
              HasCount(histograms[..], clip, f, r, g, b)
  {
    hide AllCount, HasCount;
    histograms := new nat[clip.frames * BINS](_ => 0);
    AllInitially(histograms[..], clip);
    ScatterAdd(histograms, clip);
    forall f: nat, r: nat, g: nat, b: nat | f < clip.frames && r < 8 && g < 8 && b < 8
      ensures HasCount(histograms[..], clip, f, r, g, b)
    {
      EntryHasCount(histograms[..], clip, f, r, g, b);
    }
  }

  /** The sum of the first `n` entries from `from`. */
  function Sum(h: seq<nat>, from: nat, n: nat): nat
    requires from + n <= |h|
  {
    if n == 0 then 0 else Sum(h, from, n - 1) + h[from + n - 1]
  }

  /** How many of the pixels from `from` to `end` have a bin below `n`. */
  function CountBelow(pixels: seq<Pixel>, from: nat, end: nat, n: int): nat
    requires from <= end <= |pixels|
    decreases end - from
  {
    if from == end then 0
    else CountBelow(pixels, from, end - 1, n) + if Bin(pixels[end - 1]) < n then 1 else 0
  }

  function Decode(n: nat): Cell {
    Cell(n / 64, n / 8 % 8, n % 8)
  }

  lemma DecodeEncode(n: nat)
    requires n < BINS
    ensures InCube(Decode(n)) && Encode(Decode(n)) == n
  {
  }

  lemma {:induction false} CountBelowNext(pixels: seq<Pixel>, from: nat, end: nat, n: nat)
    requires from <= end <= |pixels| && n < BINS && forall p :: p in pixels ==> p.Valid()
    ensures CountBelow(pixels, from, end, n + 1) == CountBelow(pixels, from, end, n) + Count(pixels, from, end, Decode(n))
    decreases end - from
  {
    if from < end {
      CountBelowNext(pixels, from, end - 1, n);
      assert pixels[end - 1] in pixels;
      DecodeEncode(n);
      EncodeInjective(CellOf(pixels[end - 1]), Decode(n));
    }
  }

  lemma {:induction false} CountBelowEnds(pixels: seq<Pixel>, from: nat, end: nat)
    requires from <= end <= |pixels| && forall p :: p in pixels ==> p.Valid()
    ensures CountBelow(pixels, from, end, 0) == 0 && CountBelow(pixels, from, end, BINS) == end - from
    decreases end - from
  {
    if from < end {
      CountBelowEnds(pixels, from, end - 1);
      assert pixels[end - 1] in pixels;
      EncodeInjective(CellOf(pixels[end - 1]), CellOf(pixels[end - 1]));
    }
  }

  lemma {:induction false} SumIsCountBelow(h: seq<nat>, clip: Clip, f: nat, n: nat)
    requires clip.Valid() && f < clip.frames && n <= BINS
    requires |h| == clip.frames * BINS && AllCount(h, clip, |clip.pixels|)
    ensures f * BINS + n <= |h| && f * clip.size + clip.size <= |clip.pixels|
    ensures Sum(h, f * BINS, n) == CountBelow(clip.pixels, f * clip.size, f * clip.size + clip.size, n)
  {
    FrameBounds(clip, f);
    var from, end := f * clip.size, f * clip.size + clip.size;
    if n == 0 {
      CountBelowEnds(clip.pixels, from, end);
    } else {
      SumIsCountBelow(h, clip, f, n - 1);
      DecodeEncode(n - 1);
      assert EntryCounts(h, clip, f, Decode(n - 1), |clip.pixels|);
      CountBelowNext(clip.pixels, from, end, n - 1);
    }
  }

  /** Each frame's histogram counts all its pixels: its entries sum to height times width. */
  lemma FrameTotal(h: seq<nat>, clip: Clip, f: nat)
    requires clip.Valid() && f < clip.frames
    requires |h| == clip.frames * BINS && AllCount(h, clip, |clip.pixels|)
    ensures Sum(h, f * BINS, BINS) == clip.size
  {
    SumIsCountBelow(h, clip, f, BINS);
    CountBelowEnds(clip.pixels, f * clip.size, f * clip.size + clip.size);
  }

  /** The similarity of two frames' (normalised) histograms. */
  function Dot(x: seq<real>, y: seq<real>, n: nat): real
    requires n <= |x| && n <= |y|
  {
    if n == 0 then 0.0 else Dot(x, y, n - 1) + x[n - 1] * y[n - 1]
  }

  /** `similarities[t]` holds frame `t`'s similarities to all frames. */
  ghost predicate Square(s: seq<seq<real>>) {
    forall t :: 0 <= t < |s| ==> |s[t]| == |s|
  }

  function Similarities(hs: seq<seq<real>>): (s: seq<seq<real>>)
    requires forall t :: 0 <= t < |hs| ==> |hs[t]| == BINS
    ensures Square(s) && |s| == |hs|
  {
    seq(|hs|, t requires 0 <= t < |hs| => seq(|hs|, u requires 0 <= u < |hs| => Dot(hs[t], hs[u], BINS)))
  }

  lemma {:induction false} DotCommutes(x: seq<real>, y: seq<real>, n: nat)
    requires n <= |x| && n <= |y|
    ensures Dot(x, y, n) == Dot(y, x, n)
  {
    if n > 0 {
      DotCommutes(x, y, n - 1);
    }
  }

  /** The similarity is linear in each frame, by this and by symmetry. */
  lemma {:induction false} DotLinear(x: seq<real>, y: seq<real>, z: seq<real>, w: seq<real>, t: real, n: nat)
    requires n <= |x| && n <= |y| && n <= |z| && n <= |w|
    requires forall i :: 0 <= i < n ==> w[i] == y[i] + t * z[i]
    ensures Dot(x, w, n) == Dot(x, y, n) + t * Dot(x, z, n)
  {
    if n > 0 {
      DotLinear(x, y, z, w, t, n - 1);
      assert x[n - 1] * w[n - 1] == x[n - 1] * y[n - 1] + t * (x[n - 1] * z[n - 1]);
      assert t * Dot(x, z, n) == t * Dot(x, z, n - 1) + t * (x[n - 1] * z[n - 1]);
    }
  }

  /** A frame that is all of one colour is as similar to another as that one has of the colour. */
  lemma {:induction false} DotPicks(x: seq<real>, y: seq<real>, n: nat, j: nat)
    requires n <= |x| && n <= |y|
    requires forall i :: 0 <= i < n ==> y[i] == if i == j then 1.0 else 0.0
    ensures Dot(x, y, n) == if j < n then x[j] else 0.0
  {
    if n > 0 {
      DotPicks(x, y, n - 1, j);
    }
  }

  /** Zeros on both sides of a row. */
  function PadRow(row: seq<real>, half: nat): seq<real> {
    seq(half, _ => 0.0) + row + seq(half, _ => 0.0)
  }

  /** Row `t`, position `k` of the banded look-up with a window of `2 * half + 1`: the padded row at `k + t`. */
  function Banded(s: seq<seq<real>>, half: nat, t: nat, k: nat): real
    requires Square(s) && t < |s| && k <= 2 * half
  {
    PadRow(s[t], half)[k + t]
  }

  /** The look-up gives the similarity of frame `t` to frame `t + k - half`, and 0 outside the clip. */
  lemma BandedIsShifted(s: seq<seq<real>>, half: nat, t: nat, k: nat)
    requires Square(s) && t < |s| && k <= 2 * half
    ensures Banded(s, half, t, k) == if 0 <= t + k - half < |s| then s[t][t + k - half] else 0.0
  {
  }

  /** The band of the similarities is symmetric: frame `u` seen from `t` is as similar as `t` seen from `u`. */
  lemma BandedSymmetric(hs: seq<seq<real>>, half: nat, t: nat, k: nat)
    requires forall t :: 0 <= t < |hs| ==> |hs[t]| == BINS
    requires t < |hs| && k <= 2 * half && 0 <= t + k - half < |hs|
    ensures Banded(Similarities(hs), half, t, k) == Banded(Similarities(hs), half, t + k - half, 2 * half - k)
  {
    var s := Similarities(hs);
    BandedIsShifted(s, half, t, k);
    BandedIsShifted(s, half, t + k - half, 2 * half - k);
    DotCommutes(hs[t], hs[t + k - half], BINS);
  }
}
