/** The plan of overlapping frame windows, with a tail window clamped to the end of the clip. */
module TemporalWindows {
  import opened Arith
  import opened Base

  const WINDOW_SIZE: nat := 14
  const WINDOW_STRIDE: nat := 10

  datatype Window = Window(start: nat, stop: nat)

  datatype PlanError = ClipTooShort

  /** The windows at `from`, `from + stride`, ... that fit. */
  function Regular(frameCount: nat, size: nat, stride: nat, from: nat): seq<Window>
    requires stride >= 1
    decreases frameCount - from
  {
    if from >= frameCount then []
    else
      (if from + size <= frameCount then [Window(from, from + size)] else [])
      + Regular(frameCount, size, stride, from + stride)
  }

  lemma {:induction false} RegularShape(frameCount: nat, size: nat, stride: nat, from: nat)
    requires stride >= 1 && size >= 1
    ensures var ws := Regular(frameCount, size, stride, from);
            if from + size > frameCount then ws == []
            else
              && |ws| == (frameCount - size - from) / stride + 1
              && forall i :: 0 <= i < |ws| ==> ws[i] == Window(from + i * stride, from + i * stride + size)
    decreases frameCount - from
  {
    if from < frameCount {
      RegularShape(frameCount, size, stride, from + stride);
      var ws, rest := Regular(frameCount, size, stride, from), Regular(frameCount, size, stride, from + stride);
      if from + size <= frameCount {
        if from + stride + size <= frameCount {
          DivStep(frameCount - size - from, stride);
        } else {
          assert (frameCount - size - from) / stride == 0;
        }
        forall i | 0 <= i < |ws| ensures ws[i] == Window(from + i * stride, from + i * stride + size) {
          if i > 0 {
            assert ws[i] == rest[i - 1];
            assert from + stride + (i - 1) * stride == from + i * stride;
          }
        }
      }
    }
  }

  function Plan(frameCount: nat, size: nat, stride: nat): Result<seq<Window>, PlanError>
    requires size >= 1 && stride >= 1
  {
    if frameCount < size then Failure(ClipTooShort)
    else
      RegularShape(frameCount, size, stride, 0);
      var ws := Regular(frameCount, size, stride, 0);
      if ws[|ws| - 1].stop < frameCount then Success(ws + [Window(frameCount - size, frameCount)])
      else Success(ws)
  }

  function CeilDiv(a: nat, d: nat): nat
    requires d >= 1
  {
    (a + d - 1) / d
  }

  /** The quotient is the least number of steps of size `d` that reaches `a`. */
  lemma CeilDivLeast(a: nat, d: nat, q: nat)
    requires d >= 1
    ensures CeilDiv(a, d) <= q <==> a <= q * d
  {
    var c := CeilDiv(a, d);
    assert a <= c * d < a + d;
    if q < c {
      assert q * d <= (c - 1) * d;
    } else {
      assert c * d <= q * d;
    }
  }

  /** Windows of one size over `frameCount` frames that start at the first frame, end at the last, and
      move on by at least one frame and at most `stride` at a time. */
  ghost predicate Covers(ws: seq<Window>, frameCount: nat, size: nat, stride: nat) {
    && ws != []
    && (forall i :: 0 <= i < |ws| ==> ws[i].stop == ws[i].start + size)
    && ws[0].start == 0 && ws[|ws| - 1].stop == frameCount
    && (forall i :: 0 < i < |ws| ==> ws[i - 1].start < ws[i].start <= ws[i - 1].start + stride)
  }

  /** The regular windows reach to within `stride` frames of the end. */
  lemma RegularCovers(frameCount: nat, size: nat, stride: nat)
    requires frameCount >= size >= stride >= 1
    ensures var ws, q := Regular(frameCount, size, stride, 0), (frameCount - size) / stride;
            && |ws| == q + 1 && Covers(ws, q * stride + size, size, stride)
            && (forall i :: 0 < i < |ws| ==> ws[i].start == ws[i - 1].start + stride)
            && q * stride <= frameCount - size < q * stride + stride
  {
    RegularShape(frameCount, size, stride, 0);
    var ws := Regular(frameCount, size, stride, 0);
    forall i | 0 < i < |ws| ensures ws[i].start == ws[i - 1].start + stride {
      assert i * stride == (i - 1) * stride + stride;
    }
    var a, q := frameCount - size, (frameCount - size) / stride;
    assert a == q * stride + a % stride;
  }

  /** Rounding up adds one exactly where the division leaves something over. */
  lemma CeilDivSteps(a: nat, d: nat)
    requires d >= 1
    ensures CeilDiv(a, d) == if a / d * d == a then a / d else a / d + 1
  {
    var q, r := a / d, a % d;
    assert a == q * d + r;
    if r == 0 {
      QuotientUnique(a + d - 1, d, q, d - 1);
    } else {
      MulNext(q, d);
      QuotientUnique(a + d - 1, d, q + 1, r - 1);
    }
  }

  lemma PlanCount(frameCount: nat, size: nat, stride: nat)
    requires frameCount >= size >= stride >= 1
    ensures |Plan(frameCount, size, stride).value| == 1 + CeilDiv(frameCount - size, stride)
  {
    hide Regular, CeilDiv;
    RegularCovers(frameCount, size, stride);
    CeilDivSteps(frameCount - size, stride);
  }

  /** One more window at the end keeps a covering, when it starts at most `stride` after the last one. */
  lemma CoversExtended(ws: seq<Window>, end: nat, frameCount: nat, size: nat, stride: nat)
    requires Covers(ws, end, size, stride) && size <= end < frameCount <= end + stride
    ensures Covers(ws + [Window(frameCount - size, frameCount)], frameCount, size, stride)
  {
    assert ws[|ws| - 1].stop == ws[|ws| - 1].start + size;
  }

  /** In a covering, neighbours overlap by at least `size - stride` frames and by less than `size`. */
  lemma CoversOverlap(ws: seq<Window>, frameCount: nat, size: nat, stride: nat)
    requires Covers(ws, frameCount, size, stride)
    ensures forall i :: 0 < i < |ws| ==> size - stride <= ws[i - 1].stop - ws[i].start < size
  {
  }

  lemma PlanCovers(frameCount: nat, size: nat, stride: nat)
    requires frameCount >= size >= stride >= 1
    ensures Covers(Plan(frameCount, size, stride).value, frameCount, size, stride)
  {
    hide Regular;
    RegularCovers(frameCount, size, stride);
    var ws, end := Regular(frameCount, size, stride, 0), (frameCount - size) / stride * stride + size;
    assert ws[|ws| - 1].stop == end;
    if end < frameCount {
      CoversExtended(ws, end, frameCount, size, stride);
    }
  }

  /** The plan covers the clip, and consecutive windows overlap by at least `size - stride` frames and
      by less than `size`. */
  lemma PlanShape(frameCount: nat, size: nat, stride: nat)
    requires frameCount >= size >= stride >= 1
    ensures var ws := Plan(frameCount, size, stride).value;
            && Covers(ws, frameCount, size, stride)
            && |ws| == 1 + CeilDiv(frameCount - size, stride)
            && forall i :: 0 < i < |ws| ==> size - stride <= ws[i - 1].stop - ws[i].start < size
  {
    PlanCount(frameCount, size, stride);
    PlanCovers(frameCount, size, stride);
    hide Plan, CeilDiv;
    CoversOverlap(Plan(frameCount, size, stride).value, frameCount, size, stride);
  }

  lemma {:induction false} StartBound(ws: seq<Window>, frameCount: nat, size: nat, stride: nat, i: nat)
    requires Covers(ws, frameCount, size, stride) && i < |ws|
    ensures ws[i].start <= i * stride
  {
    if i > 0 {
      StartBound(ws, frameCount, size, stride, i - 1);
      assert i * stride == (i - 1) * stride + stride;
    }
  }

  /** No covering of the clip has fewer windows than the plan. */
  lemma PlanFewest(frameCount: nat, size: nat, stride: nat, ws: seq<Window>)
    requires frameCount >= size >= stride >= 1
    requires Covers(ws, frameCount, size, stride)
    ensures |Plan(frameCount, size, stride).value| <= |ws|
  {
    PlanShape(frameCount, size, stride);
    StartBound(ws, frameCount, size, stride, |ws| - 1);
    CeilDivLeast(frameCount - size, stride, |ws| - 1);
  }

  /** In a covering, starts and stops increase with the window. */
  lemma {:induction false} CoversIncreasing(ws: seq<Window>, frameCount: nat, size: nat, stride: nat, i: nat, j: nat)
    requires Covers(ws, frameCount, size, stride) && i < j < |ws|
    ensures ws[i].start < ws[j].start && ws[i].stop < ws[j].stop
  {
    if i < j - 1 {
      CoversIncreasing(ws, frameCount, size, stride, i, j - 1);
    }
  }
}
