/** The entry point of the synchronous drivers. */
module VllmCaption {
  import opened Base
  import opened CaptionSpec
  import CaptionEngine
  import InflightCaptioner
  import PhasedCaptioner

  datatype Error = NegativeLimit | PromptCountMismatch | Raised

  function ResolveStage2Prompts(stage2: Option<seq<Option<string>>>, n: nat): (r: Result<seq<Option<string>>, Error>)
    ensures r.Failure? <==> stage2.Some? && |stage2.value| != n
    ensures r.Failure? ==> r.error == PromptCountMismatch
    ensures r.Success? ==> |r.value| == n && forall i :: 0 <= i < n ==> r.value[i] == if stage2.None? then None else stage2.value[i]
  {
    match stage2
    case None => Success(seq(n, _ => None))
    case Some(ps) => if |ps| == n then Success(ps) else Failure(PromptCountMismatch)
  }

  /** What the entry point answers; the driver, its limit, its batch size and the engine's schedule
      play no part in it. */
  ghost function Expected(m: Model, inputs: seq<Inputs>, stage2: Option<seq<Option<string>>>, maxInflight: int)
    : Result<seq<WindowResult>, Error>
  {
    if maxInflight < 0 then Failure(NegativeLimit)
    else
      match ResolveStage2Prompts(stage2, |inputs|)
      case Failure(e) => Failure(e)
      case Success(prompts) =>
        match BatchSpec(m, Batch(inputs, prompts))
        case None => Failure(Raised)
        case Some(rs) => Success(rs)
  }

  /** The results are right for their windows, and account for exactly the tokens of the requests `asked`. */
  ghost predicate Settles(m: Model, inputs: seq<Inputs>, stage2: Option<seq<Option<string>>>, rs: seq<WindowResult>,
                          asked: seq<Inputs>)
  {
    match ResolveStage2Prompts(stage2, |inputs|)
    case Failure(_) => false
    case Success(prompts) => AnswersBatch(m, Batch(inputs, prompts), rs, asked)
  }

  /** The expected answer, on any engine with nothing left running by a call that raised. On any other one, the
      call raises instead if the engine finishes one of those requests. A call that answers leaves nothing
      behind, so the next one on the same engine is as good. */
  method Caption(engine: CaptionEngine.Engine, inputs: seq<Inputs>, stage2: Option<seq<Option<string>>>,
                 maxInflight: int, inflightBatching: bool, batchSize: int)
      returns (r: Result<seq<WindowResult>, Error>)
    modifies engine
    ensures r.Success? ==> r == Expected(engine.m, inputs, stage2, maxInflight) && engine.running == old(engine.running)
    ensures r == Failure(NegativeLimit) <==> maxInflight < 0
    ensures r == Failure(PromptCountMismatch) <==> maxInflight >= 0 && stage2.Some? && |stage2.value| != |inputs|
    ensures old(engine.completed) <= engine.completed
    ensures r.Success? ==> Settles(engine.m, inputs, stage2, r.value, engine.completed[|old(engine.completed)|..])
    ensures old(engine.running) == map[] ==> r == Expected(engine.m, inputs, stage2, maxInflight)
    ensures r != Expected(engine.m, inputs, stage2, maxInflight) ==>
              && r == Failure(Raised) && inflightBatching
              && exists id :: id in old(engine.running) && id !in engine.running
  {
    hide AnswersBatch;
    if maxInflight < 0 {
      return Failure(NegativeLimit);
    }
    var prompts := ResolveStage2Prompts(stage2, |inputs|);
    if prompts.Failure? {
      return Failure(prompts.error);
    }
    var b := Batch(inputs, prompts.value);
    var out;
    if inflightBatching {
      out := InflightCaptioner.CaptionInflightBatching(engine, b, maxInflight);
    } else {
      out := PhasedCaptioner.CaptionNoInflightBatching(engine, b, batchSize);
    }
    r := if out.Some? then Success(out.value) else Failure(Raised);
  }

  /** Successive calls on one engine that has nothing left running: every answer up to the first exception is the
      expected one. */
  method CaptionGroups(engine: CaptionEngine.Engine, groups: seq<(seq<Inputs>, Option<seq<Option<string>>>)>,
                       maxInflight: nat, inflightBatching: bool, batchSize: int)
      returns (rs: seq<Result<seq<WindowResult>, Error>>)
    requires engine.running == map[]
    modifies engine
    ensures |rs| <= |groups|
    ensures forall g :: 0 <= g < |rs| ==> rs[g] == Expected(engine.m, groups[g].0, groups[g].1, maxInflight)
    ensures forall g :: 0 <= g < |rs| - 1 ==> rs[g].Success?
    ensures |rs| < |groups| ==> rs != [] && rs[|rs| - 1].Failure?
  {
    rs := [];
    for g := 0 to |groups|
      invariant |rs| == g && engine.running == map[]
      invariant forall k :: 0 <= k < g ==> rs[k].Success? && rs[k] == Expected(engine.m, groups[k].0, groups[k].1, maxInflight)
    {
      var r := Caption(engine, groups[g].0, groups[g].1, maxInflight, inflightBatching, batchSize);
      rs := rs + [r];
      if r.Failure? {
        return;
      }
    }
  }
}
