/** Caption requests, which are updated in place, and what all the drivers do with them. */
module CaptionRequests {
  import opened Base
  import opened CaptionSpec

  class CaptionRequest {
    const requestId: nat
    const inputs: Inputs
    const stage2Prompt: Option<string>
    var caption: Option<string>
    var promptTokens: nat
    var outputTokens: nat
    var finishReason: Option<string>

    constructor (requestId: nat, inputs: Inputs, stage2Prompt: Option<string>)
      ensures this.requestId == requestId && this.inputs == inputs && this.stage2Prompt == stage2Prompt
      ensures caption == None && finishReason == None && promptTokens == outputTokens == 0
    {
      this.requestId, this.inputs, this.stage2Prompt := requestId, inputs, stage2Prompt;
      caption, finishReason := None, None;
      promptTokens, outputTokens := 0, 0;
    }

    /** The request carries exactly the fields of answer `a`. */
    ghost predicate Holds(a: Answer)
      reads this
    {
      && caption == Some(a.caption)
      && TokenCounts(promptTokens, outputTokens) == a.tokens
      && finishReason == a.finishReason
    }

    /** Writes the fields of a finished output; false where the plugin's decoder raises. */
    method Populate(m: Model, g: Generation) returns (ok: bool)
      modifies this
      ensures ok == ReadAnswer(m, g).Some?
      ensures ok ==> Holds(ReadAnswer(m, g).value)
    {
      caption := m.decode(g);
      promptTokens := |g.promptTokenIds|;
      outputTokens := if g.outputs != [] then |g.outputs[0].tokenIds| else 0;
      finishReason := if g.outputs != [] then g.outputs[0].finishReason else None;
      return caption.Some?;
    }
  }

  /** The terminal result of a request, with the window's accumulated token counts. */
  method MakeWindowResult(r: CaptionRequest, tokens: TokenCounts) returns (w: WindowResult)
    ensures forall a :: r.Holds(a) ==> w == Finish(a, tokens)
    ensures r.caption.None? ==> w == WindowResult(UNKNOWN_CAPTION, r.finishReason, tokens)
  {
    var text := if r.caption.None? || r.caption.value == "" then UNKNOWN_CAPTION else r.caption.value;
    w := WindowResult(text, r.finishReason, tokens);
  }

  /** An identifier outside `used`: random tokens are assumed never to repeat. */
  method FreshId(used: set<nat>) returns (id: nat)
    ensures id !in used
  {
    id := 0;
    var rest := used;
    while rest != {}
      invariant rest <= used
      invariant forall u: nat :: u in used && u !in rest ==> u < id
      decreases rest
    {
      var u :| u in rest;
      rest := rest - {u};
      id := if u < id then id else u + 1;
    }
  }

  /** One item of what `engine.step` or `llm.generate` returns. */
  datatype EngineOutput = EngineOutput(requestId: nat, finished: bool, generation: Generation)

  /** The finished ones among the first `k` outputs. */
  function Finished(outs: seq<EngineOutput>, k: nat): (f: seq<EngineOutput>)
    requires k <= |outs|
    ensures |f| <= k
    ensures forall o :: o in f <==> o in outs[..k] && o.finished
  {
    if k == 0 then []
    else Finished(outs, k - 1) + if outs[k - 1].finished then [outs[k - 1]] else []
  }

  ghost predicate DistinctIds(outs: seq<EngineOutput>) {
    forall j, k :: 0 <= j < k < |outs| ==> outs[j].requestId != outs[k].requestId
  }

  lemma FinishedNone(outs: seq<EngineOutput>)
    ensures Finished(outs, 0) == []
  {
  }

  lemma FinishedNext(outs: seq<EngineOutput>, k: nat)
    requires k < |outs|
    ensures Finished(outs, k + 1) == Finished(outs, k) + if outs[k].finished then [outs[k]] else []
  {
  }

  /** An earlier finished output is an earlier output. */
  lemma FinishedBefore(outs: seq<EngineOutput>, k: nat, j: nat)
    requires k < |outs| && j < |Finished(outs, k)| && DistinctIds(outs)
    ensures Finished(outs, k)[j].requestId != outs[k].requestId
  {
    assert Finished(outs, k)[j] in outs[..k];
  }

  lemma DistinctIdsOneMore(outs: seq<EngineOutput>, o: EngineOutput)
    requires DistinctIds(outs) && forall j :: 0 <= j < |outs| ==> outs[j].requestId != o.requestId
    ensures DistinctIds(outs + [o])
  {
  }

  lemma {:induction false} FinishedDistinct(outs: seq<EngineOutput>, k: nat)
    requires k <= |outs| && DistinctIds(outs)
    ensures DistinctIds(Finished(outs, k))
  {
    hide Finished;
    if k > 0 {
      FinishedDistinct(outs, k - 1);
      FinishedNext(outs, k - 1);
      var f, o := Finished(outs, k - 1), outs[k - 1];
      forall j | 0 <= j < |f| ensures f[j].requestId != o.requestId {
        FinishedBefore(outs, k - 1, j);
      }
      DistinctIdsOneMore(f, o);
    } else {
      FinishedNone(outs);
    }
  }

  ghost predicate KeyedById(inFlight: map<nat, CaptionRequest>) {
    forall id :: id in inFlight ==> inFlight[id].requestId == id
  }

  /** The engine output `o` belongs to the in-flight request with its id and answers that request's
      inputs. */
  ghost predicate Answers(m: Model, inFlight: map<nat, CaptionRequest>, o: EngineOutput) {
    o.requestId in inFlight && o.generation == m.generate(inFlight[o.requestId].inputs)
  }

  /** Fills in every finished request and returns those, in output order. `ok` is false exactly where it
      raises: at an output whose id is unknown or that cannot be decoded. */
  method ProcessVllmOutput(m: Model, outs: seq<EngineOutput>, inFlight: map<nat, CaptionRequest>)
      returns (ok: bool, finished: seq<CaptionRequest>)
    requires KeyedById(inFlight) && DistinctIds(outs)
    requires forall o :: o in outs && o.finished && o.requestId in inFlight ==> Answers(m, inFlight, o)
    modifies inFlight.Values
    ensures !ok ==> exists o :: o in outs && o.finished &&
                        (o.requestId in inFlight ==> Ask(m, inFlight[o.requestId].inputs).None?)
    ensures ok ==> |finished| == |Finished(outs, |outs|)|
    ensures ok ==> forall k :: 0 <= k < |finished| ==>
              && Finished(outs, |outs|)[k].requestId in inFlight
              && finished[k] == inFlight[Finished(outs, |outs|)[k].requestId]
              && Ask(m, finished[k].inputs).Some?
              && finished[k].Holds(Ask(m, finished[k].inputs).value)
  {
    hide ReadAnswer, CaptionRequest.Holds, Finished;
    finished := [];
    var n := 0;
    FinishedNone(outs);
    while n < |outs|
      invariant 0 <= n <= |outs|
      invariant |finished| == |Finished(outs, n)|
      invariant forall k :: 0 <= k < |finished| ==>
                  && Finished(outs, n)[k].requestId in inFlight
                  && finished[k] == inFlight[Finished(outs, n)[k].requestId]
                  && Ask(m, finished[k].inputs).Some?
                  && finished[k].Holds(Ask(m, finished[k].inputs).value)
    {
      var out := outs[n];
      FinishedNext(outs, n);
      if out.finished {
        if out.requestId !in inFlight {
          return false, finished;
        }
        var request := inFlight[out.requestId];
        assert request.inputs == inFlight[out.requestId].inputs;
        forall k | 0 <= k < |finished| ensures finished[k] != request {
          FinishedBefore(outs, n, k);
        }
        ok := request.Populate(m, out.generation);
        if !ok {
          return;
        }
        finished := finished + [request];
      }
      n := n + 1;
    }
    ok := true;
  }

  /** The inputs of the requests, in order. */
  ghost function Asked(fs: seq<CaptionRequest>): (xs: seq<Inputs>)
    ensures |xs| == |fs|
  {
    seq(|fs|, k requires 0 <= k < |fs| => fs[k].inputs)
  }

  ghost predicate DistinctRequests(rs: seq<CaptionRequest>) {
    forall j, k :: 0 <= j < k < |rs| ==> rs[j].requestId != rs[k].requestId
  }

  /** `rs` are the first requests of the leading windows of `b`, and `index` finds their windows. */
  ghost predicate FirstRequests(b: Batch, rs: seq<CaptionRequest>, index: map<nat, nat>)
    requires b.Valid()
  {
    && |rs| <= |b.inputs|
    && DistinctRequests(rs)
    && forall j :: 0 <= j < |rs| ==> (
         && rs[j].requestId in index && index[rs[j].requestId] == j
         && rs[j].inputs == b.inputs[j] && rs[j].stage2Prompt == b.prompts[j])
  }

  /** One request per window, with an id that is not yet taken. */
  method MakeRequests(b: Batch, taken: set<nat>) returns (requests: seq<CaptionRequest>, index: map<nat, nat>)
    requires b.Valid()
    ensures |requests| == |b.inputs| && FirstRequests(b, requests, index)
    ensures fresh(requests) && index.Keys !! taken
  {
    requests, index := [], map[];
    for i := 0 to |b.inputs|
      invariant |requests| == i && FirstRequests(b, requests, index)
      invariant fresh(requests) && index.Keys !! taken
    {
      var id := FreshId(index.Keys + taken);
      var request := new CaptionRequest(id, b.inputs[i], b.prompts[i]);
      requests := requests + [request];
      index := index[id := i];
    }
  }

  /** The dictionaries of one call: whose window each request id is, and by window the tokens counted and
      the results produced. */
  datatype Books = Books(index: map<nat, nat>, tokens: map<nat, TokenCounts>, results: map<nat, WindowResult>)

  function CountTokens(s: Books, i: nat, t: TokenCounts): Books {
    s.(tokens := s.tokens[i := (if i in s.tokens then s.tokens[i] else NO_TOKENS).Plus(t)])
  }

  /** How far a call is: first answers counted plus results produced, over the first `n` windows. */
  ghost function Milestones(s: Books, n: nat): (c: nat)
    ensures c <= 2 * n
  {
    if n == 0 then 0
    else Milestones(s, n - 1) + (if n - 1 in s.tokens then 1 else 0) + (if n - 1 in s.results then 1 else 0)
  }

  lemma {:induction false} MilestonesGrow(s: Books, s': Books, i: nat, n: nat)
    requires forall j :: j in s.tokens ==> j in s'.tokens
    requires forall j :: j in s.results ==> j in s'.results
    requires (i !in s.tokens && i in s'.tokens) || (i !in s.results && i in s'.results)
    ensures Milestones(s', n) >= Milestones(s, n) + if i < n then 1 else 0
  {
    if n > 0 {
      MilestonesGrow(s, s', i, n - 1);
    }
  }
}
