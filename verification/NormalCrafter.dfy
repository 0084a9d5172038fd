/** The whole pass over a clip, from the generator of the windows to the delivered frames. */
module NormalCrafter {
  import opened Base
  import opened TemporalWindows
  import opened LatentBlend
  import opened Padding
  import opened NormalChunks

  /** What the windows covering frame `f` generated there is within the bounds. */
  ghost predicate CoveredWithin(ws: seq<Window>, outs: seq<seq<real>>, f: nat, lo: real, hi: real) {
    forall i: nat :: i < |ws| && InWindow(ws[i], f) ==> lo <= ValuesAt(ws, outs, f)(i) <= hi
  }

  /** `prediction` blends what the windows of the plan generated, and stays within their bounds at every frame. */
  ghost predicate Blends(generate: (Window, Option<seq<real>>, nat) -> real, pass: Pass, prediction: seq<real>)
    requires |prediction| >= WINDOW_SIZE
  {
    var ws, outs := Plan(|prediction|, 14, 10).value, pass.outs;
    && Leads(ws, generate, pass, seq(|prediction|, f requires 0 <= f < |prediction| => Value(prediction[f])))
    && (forall j: nat :: j < |ws| ==> Generated(ws, WINDOW_SIZE, generate, outs, j))
    && (forall f: nat :: f < |prediction| ==> prediction[f] == Blended(ws, outs, |ws|, f))
    && (forall f: nat, lo: real, hi: real :: f < |prediction| && CoveredWithin(ws, outs, f, lo, hi) ==>
          lo <= prediction[f] <= hi)
  }

  lemma StaysWithin(frameCount: nat, outs: seq<seq<real>>, f: nat, lo: real, hi: real)
    requires frameCount >= WINDOW_SIZE && f < frameCount
    requires CoveredWithin(Plan(frameCount, WINDOW_SIZE, WINDOW_STRIDE).value, outs, f, lo, hi)
    ensures var ws := Plan(frameCount, WINDOW_SIZE, WINDOW_STRIDE).value;
            lo <= Blended(ws, outs, |ws|, f) <= hi
  {
    hide Combination, ValuesAt, Regular;
    var ws := Plan(frameCount, WINDOW_SIZE, WINDOW_STRIDE).value;
    BlendIsConvex(frameCount, WINDOW_SIZE, WINDOW_STRIDE, f, ValuesAt(ws, outs, f), lo, hi);
  }

  /** The values of a prediction that has been written throughout. */
  method Values(prediction: array<Cell>) returns (values: seq<real>)
    requires forall f :: 0 <= f < prediction.Length ==> prediction[f].Value?
    ensures |values| == prediction.Length
    ensures forall f :: 0 <= f < prediction.Length ==> prediction[f] == Value(values[f])
  {
    values := ReadFrames(prediction, 0, prediction.Length);
  }

  /** The prediction of a clip that is long enough. */
  method Predict(frameCount: nat, generate: (Window, Option<seq<real>>, nat) -> real)
      returns (prediction: seq<real>, ghost pass: Pass)
    requires frameCount >= WINDOW_SIZE
    ensures |prediction| == frameCount && Blends(generate, pass, prediction)
  {
    hide Blended, Generated, CoveredWithin, Regular, Leads;
    var buffer;
    buffer, pass := PredictLatents(frameCount, WINDOW_SIZE, WINDOW_STRIDE, generate);
    prediction := Values(buffer);
    assert buffer[..] == seq(frameCount, f requires 0 <= f < frameCount => Value(prediction[f]));
    ghost var ws, outs := Plan(frameCount, WINDOW_SIZE, WINDOW_STRIDE).value, pass.outs;
    forall f: nat, lo: real, hi: real | f < frameCount && CoveredWithin(ws, outs, f, lo, hi)
      ensures lo <= prediction[f] <= hi
    {
      StaysWithin(frameCount, outs, f, lo, hi);
    }
  }

  /** A clip is refused for its input only. Otherwise every frame is delivered where it belongs, as decoded from a
      prediction that blends what the windows generated and stays within their bounds. */
  method InferFrames<T, U>(frameCount: nat, height: nat, width: nat, maxFrames: int,
                           generate: (Window, Option<seq<real>>, nat) -> real,
                           decode: (seq<real>, nat) -> Image<T>, normalise: Image<T> -> U)
      returns (delivered: seq<Chunk<U>>, error: Option<Error>, ghost prediction: seq<real>, ghost pass: Pass)
    requires var p := PaddingToMultiple(height, width, MULTIPLE);
             DecodesTo(decode, p.top + height + p.bottom, p.left + width + p.right)
    ensures error == ValidateInput(frameCount, height, width, maxFrames)
    ensures error.Some? ==> delivered == []
    ensures error.None? ==> |prediction| == frameCount >= WINDOW_SIZE && Blends(generate, pass, prediction)
    ensures error.None? ==>
              forall f: nat :: f < frameCount ==> FrameDelivered(prediction, height, width, decode, normalise, delivered, f)
  {
    hide Blends, FrameDelivered, DecodesTo, PaddingToMultiple;
    delivered, error, prediction, pass :=
      [], ValidateInput(frameCount, height, width, maxFrames), [], Pass([], [], []);
    if error.None? {
      var latents;
      latents, pass := Predict(frameCount, generate);
      prediction := latents;
      delivered, error := InferClip(latents, height, width, maxFrames, decode, normalise);
    }
  }
}
