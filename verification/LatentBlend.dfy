/** Blending the windows' latents into one prediction, in exact reals and one value per frame; every
    latent element of a frame is blended alike. */
module LatentBlend {
  import opened Base
  import opened TemporalWindows

  /** A frame of the prediction buffer, which is allocated without being initialised. */
  datatype Cell = Uninitialised | Value(value: real)

  /** Entry `k` of the linear ramp from 1 to 0 over `overlap + 2` points, end points left off. */
  function Weight(overlap: nat, k: nat): (t: real)
    requires k < overlap
    ensures 0.0 < t < 1.0
  {
    1.0 - (k + 1) as real / (overlap + 1) as real
  }

  /** The weights with 1 in front and 0 behind are evenly spaced, so the old prediction fades out linearly over the
      overlap and the two ends mirror each other. */
  lemma WeightsAreEvenRamp(overlap: nat, k: nat)
    requires k < overlap
    ensures var step := 1.0 / (overlap + 1) as real;
            && (if k == 0 then 1.0 else Weight(overlap, k - 1)) - Weight(overlap, k) == step
            && Weight(overlap, k) - (if k == overlap - 1 then 0.0 else Weight(overlap, k + 1)) == step
            && Weight(overlap, k) + Weight(overlap, overlap - 1 - k) == 1.0
  {
    var n := (overlap + 1) as real;
    assert n / n == 1.0;
    assert (k + 1) as real / n + (overlap - k) as real / n == (overlap + 1) as real / n;
  }

  /** Where the frames that the windows before window `n` have written end. */
  function WrittenTo(ws: seq<Window>, n: nat): nat
    requires n <= |ws|
  {
    if n == 0 then 0 else ws[n - 1].stop
  }

  ghost predicate InWindow(w: Window, f: nat) {
    w.start <= f < w.stop
  }

  /** The share of the old prediction that window `n` leaves at frame `f`. */
  function Kept(ws: seq<Window>, n: nat, f: nat): real
    requires n < |ws|
  {
    var w := ws[n];
    if f < w.start || w.stop <= f then 1.0
    else if w.start <= f < WrittenTo(ws, n) then Weight(WrittenTo(ws, n) - w.start, f - w.start)
    else 0.0
  }

  lemma KeptRange(ws: seq<Window>, n: nat, f: nat)
    requires n < |ws|
    ensures 0.0 <= Kept(ws, n, f) <= 1.0
    ensures !InWindow(ws[n], f) ==> Kept(ws, n, f) == 1.0
    ensures InWindow(ws[n], f) ==> if f < WrittenTo(ws, n) then Kept(ws, n, f) > 0.0 else Kept(ws, n, f) == 0.0
  {
  }

  /** Window `i`'s coefficient at frame `f` after the first `n` windows; it depends on nothing but the
      window plan. */
  function Coefficient(ws: seq<Window>, n: nat, i: nat, f: nat): real
    requires n <= |ws|
  {
    if n <= i then 0.0
    else if i == n - 1 then 1.0 - Kept(ws, n - 1, f)
    else Kept(ws, n - 1, f) * Coefficient(ws, n - 1, i, f)
  }

  /** The sum over the first `k` windows of coefficient times `v(i)`. */
  function Combination(ws: seq<Window>, n: nat, k: nat, f: nat, v: nat -> real): real
    requires n <= |ws|
  {
    if k == 0 then 0.0
    else Combination(ws, n, k - 1, f, v) + Coefficient(ws, n, k - 1, f) * v(k - 1)
  }

  /** The product, under a name that proofs can keep folded. */
  function Times(x: real, y: real): real {
    x * y
  }

  lemma TimesDistributes(t: real, a: real, c: real, x: real)
    ensures Times(t, 0.0) == 0.0
    ensures Times(t, a + Times(c, x)) == Times(t, a) + Times(Times(t, c), x)
  {
    assert t * (a + c * x) == t * a + t * (c * x);
    assert t * (c * x) == (t * c) * x;
  }

  lemma CoefficientScales(ws: seq<Window>, n: nat, i: nat, f: nat)
    requires i < n < |ws|
    ensures Coefficient(ws, n + 1, i, f) == Times(Kept(ws, n, f), Coefficient(ws, n, i, f))
  {
  }

  lemma CombinationNext(ws: seq<Window>, n: nat, k: nat, f: nat, v: nat -> real)
    requires n <= |ws|
    ensures Combination(ws, n, 0, f, v) == 0.0
    ensures Combination(ws, n, k + 1, f, v) == Combination(ws, n, k, f, v) + Times(Coefficient(ws, n, k, f), v(k))
  {
  }

  lemma {:induction false} CombinationScales(ws: seq<Window>, n: nat, k: nat, f: nat, v: nat -> real)
    requires k <= n < |ws|
    ensures Combination(ws, n + 1, k, f, v) == Times(Kept(ws, n, f), Combination(ws, n, k, f, v))
  {
    hide Times, Kept, Coefficient, Combination;
    if k == 0 {
      CombinationNext(ws, n, 0, f, v);
      CombinationNext(ws, n + 1, 0, f, v);
      TimesDistributes(Kept(ws, n, f), 0.0, 0.0, 0.0);
    } else {
      CombinationScales(ws, n, k - 1, f, v);
      CoefficientScales(ws, n, k - 1, f);
      CombinationNext(ws, n, k - 1, f, v);
      CombinationNext(ws, n + 1, k - 1, f, v);
      TimesDistributes(Kept(ws, n, f), Combination(ws, n, k - 1, f, v), Coefficient(ws, n, k - 1, f), v(k - 1));
    }
  }

  /** One more window moves the combination towards that window's value, by the share it does not keep. */
  lemma CombinationStep(ws: seq<Window>, n: nat, f: nat, v: nat -> real)
    requires n < |ws|
    ensures Combination(ws, n + 1, n + 1, f, v)
         == Kept(ws, n, f) * Combination(ws, n, n, f, v) + (1.0 - Kept(ws, n, f)) * v(n)
  {
    CombinationScales(ws, n, n, f, v);
  }

  /** A window's coefficient at a frame is positive where the window covers the frame, and zero elsewhere. */
  lemma {:induction false} CoefficientSign(ws: seq<Window>, frameCount: nat, size: nat, stride: nat,
                                           n: nat, i: nat, f: nat)
    requires Covers(ws, frameCount, size, stride) && i < n <= |ws|
    ensures if InWindow(ws[i], f) then Coefficient(ws, n, i, f) > 0.0 else Coefficient(ws, n, i, f) == 0.0
  {
    if i < n - 1 {
      CoefficientSign(ws, frameCount, size, stride, n - 1, i, f);
      var t, c := Kept(ws, n - 1, f), Coefficient(ws, n - 1, i, f);
      CoversIncreasing(ws, frameCount, size, stride, i, n - 1);
      if i < n - 2 {
        CoversIncreasing(ws, frameCount, size, stride, i, n - 2);
      }
      if InWindow(ws[i], f) {
        assert f < WrittenTo(ws, n - 1);
        assert t > 0.0;
        assert t * c > 0.0;
      }
    }
  }

  /** Wherever something has been written, the coefficients sum to one. */
  lemma {:induction false} PartitionOfUnity(ws: seq<Window>, frameCount: nat, size: nat, stride: nat, n: nat, f: nat)
    requires Covers(ws, frameCount, size, stride) && size >= stride && n <= |ws| && f < WrittenTo(ws, n)
    ensures Combination(ws, n, n, f, _ => 1.0) == 1.0
  {
    var one: nat -> real := _ => 1.0;
    CombinationStep(ws, n - 1, f, one);
    if f < WrittenTo(ws, n - 1) {
      PartitionOfUnity(ws, frameCount, size, stride, n - 1, f);
    } else {
      assert n == 1 || ws[n - 1].start <= ws[n - 2].stop;
      assert Kept(ws, n - 1, f) == 0.0;
    }
  }

  lemma NonNegative(x: real, y: real)
    requires x >= 0.0 && y >= 0.0
    ensures x * y >= 0.0
  {
  }

  lemma Convex(t: real, x: real, y: real, lo: real, hi: real)
    requires 0.0 <= t <= 1.0 && lo <= x <= hi && lo <= y <= hi
    ensures lo <= t * x + (1.0 - t) * y <= hi
  {
    var u := 1.0 - t;
    NonNegative(t, x - lo);
    NonNegative(u, y - lo);
    NonNegative(t, hi - x);
    NonNegative(u, hi - y);
    assert t * x + u * y == lo + t * (x - lo) + u * (y - lo);
    assert t * x + u * y == hi - t * (hi - x) - u * (hi - y);
  }

  /** Blended values stay within any bounds that the covering windows' values stay within. */
  lemma {:induction false} BlendBounded(ws: seq<Window>, frameCount: nat, size: nat, stride: nat,
                                        n: nat, f: nat, v: nat -> real, lo: real, hi: real)
    requires Covers(ws, frameCount, size, stride) && size >= stride && n <= |ws| && f < WrittenTo(ws, n)
    requires forall i: nat :: i < n && InWindow(ws[i], f) ==> lo <= v(i) <= hi
    ensures lo <= Combination(ws, n, n, f, v) <= hi
  {
    hide Combination, Kept;
    CombinationStep(ws, n - 1, f, v);
    KeptRange(ws, n - 1, f);
    if f < WrittenTo(ws, n - 1) {
      BlendBounded(ws, frameCount, size, stride, n - 1, f, v, lo, hi);
      if InWindow(ws[n - 1], f) {
        Convex(Kept(ws, n - 1, f), Combination(ws, n - 1, n - 1, f, v), v(n - 1), lo, hi);
      }
    } else {
      assert n == 1 || ws[n - 1].start <= ws[n - 2].stop;
      assert InWindow(ws[n - 1], f);
    }
  }

  /** Once the windows have moved past a frame, its value never changes again. */
  lemma {:induction false} FramesSettle(ws: seq<Window>, frameCount: nat, size: nat, stride: nat,
                                        n: nat, m: nat, f: nat, v: nat -> real)
    requires Covers(ws, frameCount, size, stride) && n <= m <= |ws| && n < |ws| && f < ws[n].start
    ensures Combination(ws, m, m, f, v) == Combination(ws, n, n, f, v)
  {
    if n < m {
      FramesSettle(ws, frameCount, size, stride, n, m - 1, f, v);
      CombinationStep(ws, m - 1, f, v);
      if n < m - 1 {
        CoversIncreasing(ws, frameCount, size, stride, n, m - 1);
      }
    }
  }

  /** The whole pass: whatever the windows generated, each frame's prediction is a combination of the
      windows covering it whose coefficients are positive, sum to one and are fixed by the plan; so it
      stays within any bounds that those windows stay within. */
  lemma BlendIsConvex(frameCount: nat, size: nat, stride: nat, f: nat, v: nat -> real, lo: real, hi: real)
    requires frameCount >= size >= stride >= 1 && f < frameCount
    ensures var ws := Plan(frameCount, size, stride).value;
            && (forall i: nat :: i < |ws| ==>
                  if InWindow(ws[i], f) then Coefficient(ws, |ws|, i, f) > 0.0 else Coefficient(ws, |ws|, i, f) == 0.0)
            && Combination(ws, |ws|, |ws|, f, _ => 1.0) == 1.0
            && ((forall i: nat :: i < |ws| && InWindow(ws[i], f) ==> lo <= v(i) <= hi) ==>
                  lo <= Combination(ws, |ws|, |ws|, f, v) <= hi)
  {
    PlanShape(frameCount, size, stride);
    var ws := Plan(frameCount, size, stride).value;
    forall i: nat | i < |ws|
      ensures if InWindow(ws[i], f) then Coefficient(ws, |ws|, i, f) > 0.0 else Coefficient(ws, |ws|, i, f) == 0.0
    {
      CoefficientSign(ws, frameCount, size, stride, |ws|, i, f);
    }
    PartitionOfUnity(ws, frameCount, size, stride, |ws|, f);
    if forall i: nat :: i < |ws| && InWindow(ws[i], f) ==> lo <= v(i) <= hi {
      BlendBounded(ws, frameCount, size, stride, |ws|, f, v, lo, hi);
    }
  }

  /** What the windows generated at frame `f`, where they cover it. */
  ghost function ValuesAt(ws: seq<Window>, outs: seq<seq<real>>, f: nat): nat -> real {
    (i: nat) =>
      if i < |ws| && i < |outs| && InWindow(ws[i], f) && f - ws[i].start < |outs[i]|
      then outs[i][f - ws[i].start] else 0.0
  }

  /** The value due to frame `f` after the first `n` windows, which generated `outs`. */
  ghost function Blended(ws: seq<Window>, outs: seq<seq<real>>, n: nat, f: nat): real
    requires n <= |ws|
  {
    Combination(ws, n, n, f, ValuesAt(ws, outs, f))
  }

  lemma {:induction false} CombinationAgrees(ws: seq<Window>, n: nat, k: nat, f: nat, v: nat -> real, v': nat -> real)
    requires n <= |ws| && forall i: nat :: i < k ==> v(i) == v'(i)
    ensures Combination(ws, n, k, f, v) == Combination(ws, n, k, f, v')
  {
    if k > 0 {
      CombinationAgrees(ws, n, k - 1, f, v, v');
    }
  }

  /** Later windows do not change what the first `n` amount to. */
  lemma BlendedLocal(ws: seq<Window>, outs: seq<seq<real>>, out: seq<real>, n: nat, f: nat)
    requires n <= |ws| && n <= |outs|
    ensures Blended(ws, outs + [out], n, f) == Blended(ws, outs, n, f)
  {
    CombinationAgrees(ws, n, n, f, ValuesAt(ws, outs + [out], f), ValuesAt(ws, outs, f));
  }

  /** What the generation of window `j` is started from: the prediction so far on the overlap. */
  ghost function Replacement(ws: seq<Window>, outs: seq<seq<real>>, j: nat): Option<seq<real>>
    requires j < |ws|
  {
    if j == 0 then None
    else
      var overlap := if ws[j].start <= ws[j - 1].stop then ws[j - 1].stop - ws[j].start else 0;
      Some(seq(overlap, (k: nat) => Blended(ws, outs, j, ws[j].start + k)))
  }

  /** Window `j`'s output is what the generator makes of the window and of the prediction so far on its overlap. */
  ghost predicate Generated(ws: seq<Window>, size: nat, generate: (Window, Option<seq<real>>, nat) -> real,
                            outs: seq<seq<real>>, j: nat)
    requires j < |ws| && j < |outs|
  {
    && |outs[j]| == size
    && forall k: nat :: k < size ==> outs[j][k] == generate(ws[j], Replacement(ws, outs[..j], j), k)
  }

  /** The frames `start..stop` of the prediction; none of them may still be uninitialised. */
  method ReadFrames(prediction: array<Cell>, start: nat, stop: nat) returns (frames: seq<real>)
    requires start <= stop <= prediction.Length
    requires forall f :: start <= f < stop ==> prediction[f].Value?
    ensures |frames| == stop - start
    ensures forall k :: 0 <= k < |frames| ==> prediction[start + k] == Value(frames[k])
  {
    frames := [];
    for f := start to stop
      invariant |frames| == f - start
      invariant forall k :: 0 <= k < |frames| ==> prediction[start + k] == Value(frames[k])
    {
      frames := frames + [prediction[f].value];
    }
  }

  /** Mixes the old prediction into the front of the new window, in place. */
  method BlendOverlap(window: array<real>, replacement: seq<real>)
    requires |replacement| <= window.Length
    modifies window
    ensures forall k :: 0 <= k < |replacement| ==>
              window[k] == replacement[k] * Weight(|replacement|, k) + old(window[k]) * (1.0 - Weight(|replacement|, k))
    ensures forall k :: |replacement| <= k < window.Length ==> window[k] == old(window[k])
  {
    for k := 0 to |replacement|
      invariant forall l :: 0 <= l < k ==>
                  window[l] == replacement[l] * Weight(|replacement|, l) + old(window[l]) * (1.0 - Weight(|replacement|, l))
      invariant forall l :: k <= l < window.Length ==> window[l] == old(window[l])
    {
      var t := Weight(|replacement|, k);
      window[k] := replacement[k] * t + window[k] * (1.0 - t);
    }
  }

  /** Copies the window over the frames from `start` on; the frames outside it keep their contents. */
  method CopyFrames(prediction: array<Cell>, start: nat, window: array<real>)
    requires start + window.Length <= prediction.Length
    modifies prediction
    ensures forall k :: 0 <= k < window.Length ==> prediction[start + k] == Value(window[k])
    ensures forall f :: 0 <= f < prediction.Length && !(start <= f < start + window.Length) ==>
              prediction[f] == old(prediction[f])
  {
    for k := 0 to window.Length
      invariant forall l :: 0 <= l < k ==> prediction[start + l] == Value(window[l])
      invariant forall f :: 0 <= f < prediction.Length && !(start <= f < start + k) ==>
                  prediction[f] == old(prediction[f])
    {
      prediction[start + k] := Value(window[k]);
    }
  }

  /** The frames written after `n` windows hold what is due to them. */
  ghost predicate Holds(prediction: array<Cell>, ws: seq<Window>, outs: seq<seq<real>>, n: nat)
    requires n <= |ws| && WrittenTo(ws, n) <= prediction.Length
    reads prediction
  {
    forall f: nat :: f < WrittenTo(ws, n) ==> prediction[f] == Value(Blended(ws, outs, n, f))
  }

  /** Window `n` keeps its share of the old value and adds the rest of its own. */
  lemma FrameStep(ws: seq<Window>, outs: seq<seq<real>>, out: seq<real>, n: nat, f: nat)
    requires n < |ws| && |outs| == n && (InWindow(ws[n], f) ==> f - ws[n].start < |out|)
    ensures Blended(ws, outs + [out], n + 1, f)
         == Kept(ws, n, f) * Blended(ws, outs, n, f)
            + (1.0 - Kept(ws, n, f)) * (if InWindow(ws[n], f) then out[f - ws[n].start] else 0.0)
  {
    BlendedLocal(ws, outs, out, n, f);
    CombinationStep(ws, n, f, ValuesAt(ws, outs + [out], f));
  }

  /** `from` and `to` mixed at step `k` of `n`. */
  function Faded(from: real, to: real, k: nat, n: nat): real
    requires n > 0
  {
    from + (to - from) * (k as real / n as real)
  }

  /** What window `j` does to the buffer, which goes from `before` to `after`: `out` is generated from the frames that
      the buffer holds on the overlap with the window before, or from nothing in the first window; in the overlap
      the old frames fade out and the new ones in, in even steps; and the rest of the window is new. */
  ghost predicate Goes(ws: seq<Window>, generate: (Window, Option<seq<real>>, nat) -> real, j: nat,
                       before: seq<Cell>, overlap: seq<real>, out: seq<real>, after: seq<Cell>)
    requires j < |ws|
  {
    var w := ws[j];
    && w.start <= w.stop <= |before| == |after| && |out| == w.stop - w.start
    && (if j == 0 then overlap == [] else w.start <= ws[j - 1].stop && |overlap| == ws[j - 1].stop - w.start <= |out|)
    && (forall k: nat :: k < |out| ==> out[k] == generate(w, if j == 0 then None else Some(overlap), k))
    && (forall k: nat :: k < |overlap| ==> before[w.start + k] == Value(overlap[k]))
    && (forall k: nat :: k < |out| ==>
          after[w.start + k] == Value(if k < |overlap| then Faded(overlap[k], out[k], k + 1, |overlap| + 1) else out[k]))
    && (forall f: nat :: f < |before| && !InWindow(w, f) ==> after[f] == before[f])
  }

  lemma FadedEnds(from: real, to: real, n: nat)
    requires n > 0
    ensures Faded(from, to, 0, n) == from && Faded(from, to, n, n) == to
  {
    assert n as real / n as real == 1.0;
  }

  lemma FadedEvenly(from: real, to: real, k: nat, n: nat)
    requires n > 0
    ensures (Faded(from, to, k + 1, n) - Faded(from, to, k, n)) * n as real == to - from
  {
    var a, b := k as real / n as real, (k + 1) as real / n as real;
    assert (b - a) * n as real == 1.0;
    assert (to - from) * b - (to - from) * a == (to - from) * (b - a);
    assert ((to - from) * (b - a)) * n as real == (to - from) * ((b - a) * n as real);
  }

  lemma FadedIsWeighted(overlap: nat, k: nat, from: real, to: real)
    requires k < overlap
    ensures from * Weight(overlap, k) + to * (1.0 - Weight(overlap, k)) == Faded(from, to, k + 1, overlap + 1)
  {
    var s := (k + 1) as real / (overlap + 1) as real;
    assert Weight(overlap, k) == 1.0 - s;
    assert from * (1.0 - s) + to * s == from + (to - from) * s;
  }

  /** The share kept inside window `n`: the weight on the overlap, nothing behind it. */
  lemma KeptInWindow(ws: seq<Window>, n: nat, f: nat)
    requires n < |ws| && InWindow(ws[n], f)
    ensures Kept(ws, n, f) == if f < WrittenTo(ws, n) then Weight(WrittenTo(ws, n) - ws[n].start, f - ws[n].start) else 0.0
  {
  }

  lemma WindowGoes(ws: seq<Window>, generate: (Window, Option<seq<real>>, nat) -> real, n: nat,
                   before: seq<Cell>, overlap: seq<real>, out: seq<real>, mixed: seq<real>, after: seq<Cell>)
    requires n < |ws| && ws[n].start <= ws[n].stop <= |before| == |after| && |mixed| == |out| == ws[n].stop - ws[n].start
    requires if n == 0 then overlap == []
             else ws[n].start <= ws[n - 1].stop && |overlap| == ws[n - 1].stop - ws[n].start <= |out|
    requires forall k: nat :: k < |out| ==> out[k] == generate(ws[n], if n == 0 then None else Some(overlap), k)
    requires forall k: nat :: k < |overlap| ==> before[ws[n].start + k] == Value(overlap[k])
    requires forall k: nat :: k < |overlap| ==>
               mixed[k] == overlap[k] * Weight(|overlap|, k) + out[k] * (1.0 - Weight(|overlap|, k))
    requires forall k: nat :: |overlap| <= k < |out| ==> mixed[k] == out[k]
    requires forall k: nat :: k < |out| ==> after[ws[n].start + k] == Value(mixed[k])
    requires forall f: nat :: f < |before| && !InWindow(ws[n], f) ==> after[f] == before[f]
    ensures Goes(ws, generate, n, before, overlap, out, after)
  {
    hide Weight, Faded;
    forall k: nat | k < |overlap| ensures mixed[k] == Faded(overlap[k], out[k], k + 1, |overlap| + 1) {
      FadedIsWeighted(|overlap|, k, overlap[k], out[k]);
    }
  }

  lemma KeptBefore(ws: seq<Window>, n: nat, f: nat)
    requires n < |ws| && f < ws[n].start
    ensures Kept(ws, n, f) == 1.0
  {
  }

  /** After a window that goes as it should, every frame written holds what is due to it. */
  lemma HoldsNext(ws: seq<Window>, generate: (Window, Option<seq<real>>, nat) -> real, outs: seq<seq<real>>, n: nat,
                  before: seq<Cell>, overlap: seq<real>, out: seq<real>, after: seq<Cell>, f: nat)
    requires n < |ws| && |outs| == n && Goes(ws, generate, n, before, overlap, out, after)
    requires f < ws[n].stop && WrittenTo(ws, n) <= |before| && ws[n].stop >= WrittenTo(ws, n) && (n == 0 ==> ws[0].start == 0)
    requires f < WrittenTo(ws, n) ==> before[f] == Value(Blended(ws, outs, n, f))
    ensures after[f] == Value(Blended(ws, outs + [out], n + 1, f))
  {
    hide Blended, Weight, Faded, Kept;
    FrameStep(ws, outs, out, n, f);
    var start := ws[n].start;
    if start <= f {
      KeptInWindow(ws, n, f);
      var k := f - start;
      assert after[start + k] == after[f] && before[start + k] == before[f];
      if k < |overlap| {
        FadedIsWeighted(|overlap|, k, overlap[k], out[k]);
      }
    } else {
      KeptBefore(ws, n, f);
    }
  }

  /** One window: starts from the overlap, generates, blends in place and copies into the buffer. */
  method ProcessWindow(prediction: array<Cell>, ghost frameCount: nat, ghost size: nat, ghost stride: nat,
                       ws: seq<Window>, n: nat, generate: (Window, Option<seq<real>>, nat) -> real,
                       ghost outs: seq<seq<real>>)
      returns (ghost overlap: seq<real>, ghost out: seq<real>)
    requires Covers(ws, frameCount, size, stride) && size >= stride && n < |ws| && |outs| == n
    requires prediction.Length == frameCount && WrittenTo(ws, n) <= frameCount && ws[n].stop <= frameCount
    requires Holds(prediction, ws, outs, n)
    modifies prediction
    ensures Goes(ws, generate, n, old(prediction[..]), overlap, out, prediction[..])
    ensures Holds(prediction, ws, outs + [out], n + 1)
    ensures |out| == size
    ensures forall k: nat :: k < size ==> out[k] == generate(ws[n], Replacement(ws, outs, n), k)
    ensures forall f :: 0 <= f < ws[n].start ==> prediction[f] == old(prediction[f])
  {
    hide Blended, Combination, Coefficient, ValuesAt, Weight, Faded, Kept, Goes;
    var start, stop := ws[n].start, ws[n].stop;
    var replacement: Option<seq<real>> := None;
    overlap := [];
    if n > 0 {
      assert start <= ws[n - 1].stop;
      var frames := ReadFrames(prediction, start, ws[n - 1].stop);
      replacement, overlap := Some(frames), frames;
      assert frames == Replacement(ws, outs, n).value;
    }
    var window := new real[stop - start](k requires 0 <= k => generate(ws[n], replacement, k));
    out := window[..];
    if replacement.Some? {
      BlendOverlap(window, replacement.value);
    }
    ghost var mixed := window[..];
    CopyFrames(prediction, start, window);
    assert window[..] == mixed;
    forall k: nat | k < |out| ensures prediction[..][start + k] == Value(mixed[k]) {
      assert prediction[start + k] == Value(window[k]);
    }
    WindowGoes(ws, generate, n, old(prediction[..]), overlap, out, mixed, prediction[..]);
    forall f: nat | f < stop ensures prediction[f] == Value(Blended(ws, outs + [out], n + 1, f)) {
      HoldsNext(ws, generate, outs, n, old(prediction[..]), overlap, out, prediction[..], f);
    }
  }

  lemma GeneratedKept(ws: seq<Window>, size: nat, generate: (Window, Option<seq<real>>, nat) -> real,
                      outs: seq<seq<real>>, out: seq<real>)
    requires |outs| < |ws|
    requires forall j: nat :: j < |outs| ==> Generated(ws, size, generate, outs, j)
    requires |out| == size
    requires forall k: nat :: k < size ==> out[k] == generate(ws[|outs|], Replacement(ws, outs, |outs|), k)
    ensures forall j: nat :: j <= |outs| ==> Generated(ws, size, generate, outs + [out], j)
  {
    hide Replacement;
    forall j: nat | j <= |outs| ensures Generated(ws, size, generate, outs + [out], j) {
      assert (outs + [out])[..j] == outs[..j];
      if j < |outs| {
        assert Generated(ws, size, generate, outs, j);
      } else {
        assert outs[..j] == outs;
      }
    }
  }

  /** The whole pass: the buffer before each window and at the end, and each window's overlap and output. */
  datatype Pass = Pass(history: seq<seq<Cell>>, overlaps: seq<seq<real>>, outs: seq<seq<real>>)

  /** The pass starts from a buffer that is not initialised, every window goes as it should, and the last one leaves
      `prediction`. */
  ghost predicate Leads(ws: seq<Window>, generate: (Window, Option<seq<real>>, nat) -> real, pass: Pass,
                        prediction: seq<Cell>)
  {
    && |pass.history| == |ws| + 1 && |pass.overlaps| == |pass.outs| == |ws|
    && pass.history[0] == seq(|prediction|, _ => Uninitialised)
    && (forall j: nat :: j < |ws| ==>
          Goes(ws, generate, j, pass.history[j], pass.overlaps[j], pass.outs[j], pass.history[j + 1]))
    && pass.history[|ws|] == prediction
  }

  /** The prediction of a whole clip; null when there are too few frames. Every frame is written, with
      the combination due to it of what the windows generated, so nothing uninitialised is ever used. */
  method PredictLatents(frameCount: nat, size: nat, stride: nat, generate: (Window, Option<seq<real>>, nat) -> real)
      returns (prediction: array?<Cell>, ghost pass: Pass)
    requires size >= stride >= 1
    ensures prediction == null <==> frameCount < size
    ensures prediction != null ==>
              var ws := Plan(frameCount, size, stride).value;
              && fresh(prediction) && prediction.Length == frameCount && |pass.outs| == |ws|
              && Leads(ws, generate, pass, prediction[..])
              && (forall j: nat :: j < |ws| ==> Generated(ws, size, generate, pass.outs, j))
              && (forall f: nat :: f < frameCount ==> prediction[f] == Value(Blended(ws, pass.outs, |ws|, f)))
  {
    hide Blended, Generated, Replacement, Goes;
    ghost var history, overlaps, outs: seq<seq<real>> := [], [], [];
    pass := Pass([], [], []);
    var plan := Plan(frameCount, size, stride);
    if plan.Failure? {
      return null, pass;
    }
    var ws := plan.value;
    PlanShape(frameCount, size, stride);
    var buffer := new Cell[frameCount](_ => Uninitialised);
    history := [buffer[..]];
    for n := 0 to |ws|
      invariant WrittenTo(ws, n) <= frameCount && |outs| == |overlaps| == n && |history| == n + 1
      invariant Holds(buffer, ws, outs, n)
      invariant history[0] == seq(frameCount, _ => Uninitialised) && history[n] == buffer[..]
      invariant forall j: nat :: j < n ==> Goes(ws, generate, j, history[j], overlaps[j], outs[j], history[j + 1])
      invariant forall j: nat :: j < n ==> Generated(ws, size, generate, outs, j)
    {
      if n < |ws| - 1 {
        CoversIncreasing(ws, frameCount, size, stride, n, |ws| - 1);
      }
      ghost var overlap, out := ProcessWindow(buffer, frameCount, size, stride, ws, n, generate, outs);
      GeneratedKept(ws, size, generate, outs, out);
      history, overlaps, outs := history + [buffer[..]], overlaps + [overlap], outs + [out];
    }
    prediction, pass := buffer, Pass(history, overlaps, outs);
  }
}
