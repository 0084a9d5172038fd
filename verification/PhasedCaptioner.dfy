/** The fallback driver: one batched pass over all windows, then one over those to refine. */
module PhasedCaptioner {
  import opened Base
  import opened CaptionSpec
  import opened CaptionRequests
  import opened CaptionEngine

  function Concat<T>(chunks: seq<seq<T>>): seq<T> {
    if chunks == [] then [] else Concat(chunks[..|chunks| - 1]) + chunks[|chunks| - 1]
  }

  /** Chunks of exactly `max(1, chunkSize)` items, the last one possibly shorter but never empty. */
  method SplitByChunkSize<T>(items: seq<T>, chunkSize: int) returns (chunks: seq<seq<T>>)
    ensures Concat(chunks) == items
    ensures var size := if chunkSize < 1 then 1 else chunkSize;
            forall c :: 0 <= c < |chunks| ==>
              0 < |chunks[c]| <= size && (c < |chunks| - 1 ==> |chunks[c]| == size)
  {
    chunks := [];
    var chunk: seq<T> := [];
    for i := 0 to |items|
      invariant Concat(chunks) + chunk == items[..i]
      invariant |chunk| == 0 || |chunk| < chunkSize
      invariant forall c :: 0 <= c < |chunks| ==> |chunks[c]| == if chunkSize < 1 then 1 else chunkSize
    {
      chunk := chunk + [items[i]];
      if |chunk| >= chunkSize {
        chunks := chunks + [chunk];
        assert chunks[..|chunks| - 1] + [chunk] == chunks;
        chunk := [];
      }
    }
    assert items[..|items|] == items;
    if chunk != [] {
      chunks := chunks + [chunk];
      assert chunks[..|chunks| - 1] + [chunk] == chunks;
    }
  }

  /** One output per request, in request order and under the request's own id, for every batch size. */
  method VllmGenerate(engine: Engine, requests: seq<CaptionRequest>, batchSize: int)
      returns (outs: seq<EngineOutput>)
    modifies engine`completed
    ensures |outs| == |requests|
    ensures forall k :: 0 <= k < |outs| ==>
              outs[k] == EngineOutput(requests[k].requestId, true, engine.m.generate(requests[k].inputs))
    ensures engine.completed == old(engine.completed) + Asked(requests)
  {
    var inputs := seq(|requests|, i requires 0 <= i < |requests| => requests[i].inputs);
    var chunks := SplitByChunkSize(inputs, batchSize);
    var all: seq<Generation> := [];
    for c := 0 to |chunks|
      invariant |all| == |Concat(chunks[..c])|
      invariant forall k :: 0 <= k < |all| ==> all[k] == engine.m.generate(Concat(chunks[..c])[k])
      invariant engine.completed == old(engine.completed) + Concat(chunks[..c])
    {
      var gs := engine.Generate(chunks[c]);
      all := all + gs;
      assert chunks[..c + 1][..c] == chunks[..c];
    }
    assert chunks[..|chunks|] == chunks && inputs == Asked(requests);
    outs := seq(|requests|, k requires 0 <= k < |requests| => EngineOutput(requests[k].requestId, true, all[k]));
  }

  lemma {:induction false} AllFinished(outs: seq<EngineOutput>, k: nat)
    requires k <= |outs| && forall o :: o in outs ==> o.finished
    ensures Finished(outs, k) == outs[..k]
  {
    hide Finished;
    if k == 0 {
      FinishedNone(outs);
    } else {
      AllFinished(outs, k - 1);
      FinishedNext(outs, k - 1);
      assert outs[k - 1] in outs && outs[..k] == outs[..k - 1] + [outs[k - 1]];
    }
  }

  /** Every request carries the answer to its own inputs. */
  ghost predicate Answered(m: Model, rs: seq<CaptionRequest>)
    reads rs
  {
    forall r :: r in rs ==> Ask(m, r.inputs).Some? && r.Holds(Ask(m, r.inputs).value)
  }

  method IndexById(requests: seq<CaptionRequest>) returns (inFlight: map<nat, CaptionRequest>)
    requires DistinctRequests(requests)
    ensures KeyedById(inFlight) && inFlight.Values <= set r | r in requests
    ensures forall r :: r in requests ==> r.requestId in inFlight && inFlight[r.requestId] == r
  {
    inFlight := map[];
    for i := 0 to |requests|
      invariant KeyedById(inFlight)
      invariant forall id :: id in inFlight ==> inFlight[id] in requests
      invariant forall j :: 0 <= j < i ==>
                  requests[j].requestId in inFlight && inFlight[requests[j].requestId] == requests[j]
    {
      inFlight := inFlight[requests[i].requestId := requests[i]];
    }
  }

  /** Completes every request, in the given order; false where one of them cannot be decoded. */
  method ProcessRequests(engine: Engine, requests: seq<CaptionRequest>, batchSize: int)
      returns (ok: bool, finished: seq<CaptionRequest>)
    requires DistinctRequests(requests)
    modifies requests, engine`completed
    ensures !ok ==> exists r :: r in requests && Ask(engine.m, r.inputs).None?
    ensures ok ==> finished == requests && Answered(engine.m, requests)
    ensures engine.completed == old(engine.completed) + Asked(requests)
  {
    hide Ask, KeyedById, Finished, CaptionRequest.Holds;
    var m := engine.m;
    var inFlight := IndexById(requests);
    var outs := VllmGenerate(engine, requests, batchSize);
    forall o | o in outs ensures o.finished && Answers(m, inFlight, o) && inFlight[o.requestId] in requests {
      var k :| 0 <= k < |outs| && outs[k] == o;
      assert requests[k] in requests;
    }
    assert DistinctIds(outs);
    AllFinished(outs, |outs|);
    assert outs[..|outs|] == outs;
    assert forall k :: 0 <= k < |outs| ==> requests[k] in requests;
    assert forall k :: 0 <= k < |outs| ==> inFlight[outs[k].requestId] == requests[k];
    ok, finished := ProcessVllmOutput(m, outs, inFlight);
    if ok {
      assert finished == requests;
    }
  }

  /** Window `j` has had its first answer counted. */
  ghost predicate Counted(m: Model, b: Batch, tokens: map<nat, TokenCounts>, j: nat)
    requires b.Valid() && j < |b.inputs|
  {
    && Ask(m, b.inputs[j]).Some?
    && j in tokens && tokens[j] == Ask(m, b.inputs[j]).value.tokens
  }

  /** The requests among the first `n` that have a stage-2 prompt, in order. */
  function Needing(requests: seq<CaptionRequest>, n: nat): seq<CaptionRequest>
    requires n <= |requests|
  {
    if n == 0 then []
    else Needing(requests, n - 1) + if requests[n - 1].stage2Prompt.Some? then [requests[n - 1]] else []
  }

  lemma {:induction false} NeedingMembers(requests: seq<CaptionRequest>, n: nat)
    requires n <= |requests|
    ensures forall k :: 0 <= k < |Needing(requests, n)| ==>
              exists j :: 0 <= j < n && requests[j] == Needing(requests, n)[k] && requests[j].stage2Prompt.Some?
    ensures forall j :: 0 <= j < n && requests[j].stage2Prompt.Some? ==> requests[j] in Needing(requests, n)
  {
    if n > 0 {
      NeedingMembers(requests, n - 1);
      var before, all := Needing(requests, n - 1), Needing(requests, n);
      forall k | 0 <= k < |all| ensures exists j :: 0 <= j < n && requests[j] == all[k] && requests[j].stage2Prompt.Some? {
        if k < |before| {
          assert all[k] == before[k];
          var j :| 0 <= j < n - 1 && requests[j] == before[k] && requests[j].stage2Prompt.Some?;
        } else {
          assert all[k] == requests[n - 1];
        }
      }
    } else {
      assert Needing(requests, n) == [];
    }
  }

  lemma {:induction false} NeedingDistinct(requests: seq<CaptionRequest>, n: nat)
    requires n <= |requests| && DistinctRequests(requests)
    ensures DistinctRequests(Needing(requests, n))
  {
    if n > 0 {
      var before := Needing(requests, n - 1);
      NeedingDistinct(requests, n - 1);
      NeedingMembers(requests, n - 1);
      forall k | 0 <= k < |before| ensures before[k].requestId != requests[n - 1].requestId {
        assert before[k] == Needing(requests, n - 1)[k];
      }
    }
  }

  /** They are requests of their windows. */
  lemma NeedingKnown(b: Batch, requests: seq<CaptionRequest>, index: map<nat, nat>)
    requires b.Valid() && |requests| == |b.inputs| && FirstRequests(b, requests, index)
    ensures forall q :: q in Needing(requests, |requests|) ==> (
              && q.requestId in index && index[q.requestId] < |b.inputs|
              && q.inputs == b.inputs[index[q.requestId]]
              && q.stage2Prompt == b.prompts[index[q.requestId]] && q.stage2Prompt.Some?)
    ensures forall k :: 0 <= k < |Needing(requests, |requests|)| ==>
              Needing(requests, |requests|)[k].requestId in index
  {
    hide Needing;
    NeedingMembers(requests, |requests|);
  }

  lemma NeedingAnswered(m: Model, requests: seq<CaptionRequest>)
    requires Answered(m, requests)
    ensures Answered(m, Needing(requests, |requests|))
  {
    hide Needing, Ask, CaptionRequest.Holds;
    NeedingMembers(requests, |requests|);
  }

  /** Refining them in order asks for the refined inputs of their windows in order. */
  lemma {:induction false} NeedingRefined(m: Model, b: Batch, requests: seq<CaptionRequest>, n: nat,
                                          index: map<nat, nat>, refined: seq<CaptionRequest>)
    requires b.Valid() && n <= |requests| == |b.inputs| && FirstRequests(b, requests, index)
    requires |refined| == |Needing(requests, n)|
    requires forall k :: 0 <= k < |refined| ==> (
               && Needing(requests, n)[k].requestId in index && index[Needing(requests, n)[k].requestId] < |b.inputs|
               && RefinedInputs(m, b, index[Needing(requests, n)[k].requestId]) == Some(refined[k].inputs))
    ensures Asked(refined) == Refinements(m, b, n)
  {
    hide Ask;
    if n > 0 {
      var before := Needing(requests, n - 1);
      assert forall k :: 0 <= k < |before| ==> before[k] == Needing(requests, n)[k];
      NeedingRefined(m, b, requests, n - 1, index, refined[..|before|]);
      if requests[n - 1].stage2Prompt.Some? {
        assert refined == refined[..|before|] + [refined[|before|]];
        assert Needing(requests, n)[|before|] == requests[n - 1];
      } else {
        assert refined[..|before|] == refined;
      }
    }
  }

  lemma FirstCounted(m: Model, b: Batch, tokens: map<nat, TokenCounts>, i: nat, a: Answer)
    requires b.Valid() && i < |b.inputs| && Ask(m, b.inputs[i]) == Some(a)
    ensures Counted(m, b, tokens[i := a.tokens], i)
    ensures forall j: nat :: j < |b.inputs| && Counted(m, b, tokens, j) ==> Counted(m, b, tokens[i := a.tokens], j)
  {
  }

  lemma FirstAt(m: Model, b: Batch, finished: seq<CaptionRequest>, index: map<nat, nat>, i: nat)
    requires b.Valid() && |finished| == |b.inputs| && FirstRequests(b, finished, index)
    requires Answered(m, finished) && i < |finished|
    ensures finished[i].requestId in index && index[finished[i].requestId] == i
    ensures finished[i].stage2Prompt == b.prompts[i]
    ensures Ask(m, b.inputs[i]).Some? && finished[i].Holds(Ask(m, b.inputs[i]).value)
  {
    hide Ask, CaptionRequest.Holds;
    assert finished[i] in finished;
  }

  lemma FirstDone(m: Model, b: Batch, results: map<nat, WindowResult>, i: nat, a: Answer)
    requires b.Valid() && i < |b.inputs| && Ask(m, b.inputs[i]) == Some(a) && b.prompts[i].None?
    ensures Done(m, b, results[i := Finish(a, a.tokens)], i)
    ensures forall j: nat :: j < |b.inputs| && Done(m, b, results, j) ==> Done(m, b, results[i := Finish(a, a.tokens)], j)
  {
    hide Ask, Finish;
  }

  /** Counts the first answers; windows without a stage-2 prompt are done, the others follow in order. */
  method AccountFirst(m: Model, b: Batch, finished: seq<CaptionRequest>, index: map<nat, nat>)
      returns (results: map<nat, WindowResult>, tokens: map<nat, TokenCounts>, needsStage2: seq<CaptionRequest>)
    requires b.Valid() && |finished| == |b.inputs| && FirstRequests(b, finished, index)
    requires Answered(m, finished)
    ensures forall j: nat :: j < |b.inputs| ==> Counted(m, b, tokens, j)
    ensures forall j: nat :: j < |b.inputs| && b.prompts[j].None? ==> Done(m, b, results, j)
    ensures needsStage2 == Needing(finished, |finished|)
  {
    hide Ask, Counted, Done, Finish;
    hide FirstRequests, Answered;
    results, tokens, needsStage2 := map[], map[], [];
    for i := 0 to |finished|
      invariant forall j: nat :: j < i ==> Counted(m, b, tokens, j)
      invariant forall j: nat :: j < i && b.prompts[j].None? ==> Done(m, b, results, j)
      invariant needsStage2 == Needing(finished, i)
    {
      var q := finished[i];
      FirstAt(m, b, finished, index, i);
      var idx := index[q.requestId];
      ghost var a := Ask(m, b.inputs[i]).value;
      FirstCounted(m, b, tokens, i, a);
      ghost var before := tokens;
      tokens := tokens[idx := TokenCounts(q.promptTokens, q.outputTokens)];
      forall j: nat | j < i ensures Counted(m, b, tokens, j) {
        assert Counted(m, b, before, j);
      }
      if q.stage2Prompt.None? {
        FirstDone(m, b, results, i, a);
        var w := MakeWindowResult(q, tokens[idx]);
        results := results[idx := w];
      } else {
        needsStage2 := needsStage2 + [q];
      }
    }
  }

  /** `refined[k]` refines the window that `needsStage2[k]` is for. */
  ghost predicate Refines(m: Model, b: Batch, index: map<nat, nat>, orig: CaptionRequest, refined: CaptionRequest)
    requires b.Valid()
  {
    && orig.requestId in index && index[orig.requestId] < |b.inputs|
    && refined.requestId in index && index[refined.requestId] == index[orig.requestId]
    && RefinedInputs(m, b, index[orig.requestId]) == Some(refined.inputs)
  }

  /** Builds the refinement requests in order; false where the plugin cannot build one. */
  method RefineAll(m: Model, b: Batch, needsStage2: seq<CaptionRequest>, index0: map<nat, nat>)
      returns (ok: bool, refined: seq<CaptionRequest>, index: map<nat, nat>)
    requires b.Valid() && Answered(m, needsStage2)
    requires forall q :: q in needsStage2 ==> (
               && q.requestId in index0 && index0[q.requestId] < |b.inputs|
               && q.inputs == b.inputs[index0[q.requestId]]
               && q.stage2Prompt == b.prompts[index0[q.requestId]] && q.stage2Prompt.Some?)
    ensures !ok ==> exists q :: q in needsStage2 && RefinedInputs(m, b, index0[q.requestId]).None?
    ensures ok ==> |refined| == |needsStage2| && DistinctRequests(refined) && fresh(refined)
    ensures ok ==> forall id :: id in index0 ==> id in index && index[id] == index0[id]
    ensures ok ==> forall k :: 0 <= k < |refined| ==> Refines(m, b, index, needsStage2[k], refined[k])
  {
    hide Ask;
    refined, index := [], index0;
    for k := 0 to |needsStage2|
      invariant Answered(m, needsStage2)
      invariant |refined| == k && DistinctRequests(refined) && fresh(refined)
      invariant forall id :: id in index0 ==> id in index && index[id] == index0[id]
      invariant forall l :: 0 <= l < k ==> Refines(m, b, index, needsStage2[l], refined[l])
    {
      var q := needsStage2[k];
      assert q in needsStage2;
      var inputs := m.refine(q.inputs, q.caption.value, q.stage2Prompt.value);
      if inputs.None? {
        return false, [], index;
      }
      var id := FreshId(index.Keys);
      var request := new CaptionRequest(id, inputs.value, None);
      refined := refined + [request];
      index := index[id := index[q.requestId]];
    }
    ok := true;
  }

  /** Adds the second answers to the counts and completes the refined windows. */
  method AccountSecond(m: Model, b: Batch, finished: seq<CaptionRequest>, index: map<nat, nat>,
                       results0: map<nat, WindowResult>, tokens0: map<nat, TokenCounts>)
      returns (results: map<nat, WindowResult>)
    requires b.Valid() && Answered(m, finished)
    requires forall k :: 0 <= k < |finished| ==> (
               && finished[k].requestId in index && index[finished[k].requestId] < |b.inputs|
               && RefinedInputs(m, b, index[finished[k].requestId]) == Some(finished[k].inputs))
    requires forall j, k :: 0 <= j < k < |finished| ==> index[finished[j].requestId] != index[finished[k].requestId]
    requires forall j: nat :: j < |b.inputs| ==> Counted(m, b, tokens0, j)
    ensures forall j: nat :: j < |b.inputs| && Done(m, b, results0, j) ==> Done(m, b, results, j)
    ensures forall q :: q in finished ==> Done(m, b, results, index[q.requestId])
  {
    results := results0;
    var tokens := tokens0;
    for k := 0 to |finished|
      invariant forall l :: k <= l < |finished| ==> Counted(m, b, tokens, index[finished[l].requestId])
      invariant forall j: nat :: j < |b.inputs| && Done(m, b, results0, j) ==> Done(m, b, results, j)
      invariant forall l :: 0 <= l < k ==> Done(m, b, results, index[finished[l].requestId])
    {
      var q := finished[k];
      assert q in finished;
      var idx := index[q.requestId];
      tokens := tokens[idx := tokens[idx].Plus(TokenCounts(q.promptTokens, q.outputTokens))];
      var w := MakeWindowResult(q, tokens[idx]);
      results := results[idx := w];
    }
  }

  lemma NeedingApart(b: Batch, requests: seq<CaptionRequest>, index: map<nat, nat>)
    requires b.Valid() && |requests| == |b.inputs| && FirstRequests(b, requests, index)
    ensures var f := Needing(requests, |requests|);
            forall j, k :: 0 <= j < k < |f| ==>
              f[j].requestId in index && f[k].requestId in index && index[f[j].requestId] != index[f[k].requestId]
  {
    hide Needing;
    NeedingMembers(requests, |requests|);
    NeedingDistinct(requests, |requests|);
  }

  /** What the refinement requests are for: each for its own window, every window with a prompt has one, and they ask for
      exactly the refined inputs, in order. */
  ghost predicate RefineAllWindows(m: Model, b: Batch, index: map<nat, nat>, refined: seq<CaptionRequest>)
    requires b.Valid()
  {
    && (forall k :: 0 <= k < |refined| ==> (
          && refined[k].requestId in index && index[refined[k].requestId] < |b.inputs|
          && RefinedInputs(m, b, index[refined[k].requestId]) == Some(refined[k].inputs)))
    && (forall j, k :: 0 <= j < k < |refined| ==> index[refined[j].requestId] != index[refined[k].requestId])
    && (forall i :: 0 <= i < |b.inputs| && b.prompts[i].Some? ==>
          exists k :: 0 <= k < |refined| && index[refined[k].requestId] == i)
    && Asked(refined) == Refinements(m, b, |b.inputs|)
  }

  lemma RefinedAsked(m: Model, b: Batch, requests: seq<CaptionRequest>, index0: map<nat, nat>, index: map<nat, nat>,
                     needsStage2: seq<CaptionRequest>, refined: seq<CaptionRequest>)
    requires b.Valid() && |requests| == |b.inputs| && FirstRequests(b, requests, index0)
    requires needsStage2 == Needing(requests, |requests|) && |refined| == |needsStage2|
    requires forall id :: id in index0 ==> id in index && index[id] == index0[id]
    requires forall k :: 0 <= k < |refined| ==> Refines(m, b, index, needsStage2[k], refined[k])
    ensures RefineAllWindows(m, b, index, refined)
  {
    hide RefinedInputs, Refinements, Asked, Needing;
    NeedingKnown(b, requests, index0);
    NeedingApart(b, requests, index0);
    forall k | 0 <= k < |refined|
      ensures && needsStage2[k].requestId in index0 && index0[needsStage2[k].requestId] < |b.inputs|
              && RefinedInputs(m, b, index0[needsStage2[k].requestId]) == Some(refined[k].inputs)
              && refined[k].requestId in index && index[refined[k].requestId] == index0[needsStage2[k].requestId]
    {
      assert Refines(m, b, index, needsStage2[k], refined[k]);
      assert needsStage2[k] in needsStage2;
    }
    NeedingRefined(m, b, requests, |requests|, index0, refined);
    forall i | 0 <= i < |b.inputs| && b.prompts[i].Some?
      ensures exists k :: 0 <= k < |refined| && index[refined[k].requestId] == i
    {
      NeedingMembers(requests, |requests|);
      var k :| 0 <= k < |needsStage2| && needsStage2[k] == requests[i];
      assert index[refined[k].requestId] == i;
    }
  }

  lemma RefinedFails(m: Model, b: Batch, i: nat)
    requires b.Valid() && i < |b.inputs|
    requires RefinedInputs(m, b, i).Some? && Ask(m, RefinedInputs(m, b, i).value).None?
    ensures ItemSpec(m, b, i).None?
  {
  }

  /** Asks for the refinements and completes their windows. */
  method SecondPass(engine: Engine, b: Batch, batchSize: int, refined: seq<CaptionRequest>, index: map<nat, nat>,
                    results0: map<nat, WindowResult>, tokens: map<nat, TokenCounts>)
      returns (r: Option<seq<WindowResult>>)
    requires b.Valid() && DistinctRequests(refined) && RefineAllWindows(engine.m, b, index, refined)
    requires forall j: nat :: j < |b.inputs| ==> Counted(engine.m, b, tokens, j)
    requires forall j: nat :: j < |b.inputs| && b.prompts[j].None? ==> Done(engine.m, b, results0, j)
    modifies refined, engine`completed
    ensures r == BatchSpec(engine.m, b)
    ensures engine.completed == old(engine.completed) + Refinements(engine.m, b, |b.inputs|)
  {
    hide Done, Counted, Ask, RefinedInputs, Refinements, Asked, DistinctRequests;
    var m := engine.m;
    var ok, finished := ProcessRequests(engine, refined, batchSize);
    if !ok {
      ghost var k :| 0 <= k < |refined| && Ask(m, refined[k].inputs).None?;
      RefinedFails(m, b, index[refined[k].requestId]);
      return None;
    }
    hide ItemSpec;
    var results := AccountSecond(m, b, finished, index, results0, tokens);
    forall j: nat | j < |b.inputs| ensures Done(m, b, results, j) {
      if b.prompts[j].Some? {
        var k :| 0 <= k < |refined| && index[refined[k].requestId] == j;
        assert refined[k] in finished;
      }
    }
    r := InInputOrder(m, b, results);
  }

  /** Everything after the first pass. */
  method RefinementPass(engine: Engine, b: Batch, batchSize: int, ghost requests: seq<CaptionRequest>,
                        index0: map<nat, nat>, results0: map<nat, WindowResult>,
                        tokens: map<nat, TokenCounts>, needsStage2: seq<CaptionRequest>)
      returns (r: Option<seq<WindowResult>>)
    requires b.Valid() && |requests| == |b.inputs| && FirstRequests(b, requests, index0)
    requires needsStage2 == Needing(requests, |requests|) && Answered(engine.m, requests)
    requires forall j: nat :: j < |b.inputs| ==> Counted(engine.m, b, tokens, j)
    requires forall j: nat :: j < |b.inputs| && b.prompts[j].None? ==> Done(engine.m, b, results0, j)
    modifies engine`completed
    ensures r == BatchSpec(engine.m, b)
    ensures r.Some? ==> engine.completed == old(engine.completed) + Refinements(engine.m, b, |b.inputs|)
    ensures old(engine.completed) <= engine.completed
  {
    hide Done, Counted, Ask, RefinedInputs, Refinements, Needing, RefineAllWindows, CaptionRequest.Holds;
    var m := engine.m;
    NeedingKnown(b, requests, index0);
    NeedingAnswered(m, requests);
    var ok, refined, index := RefineAll(m, b, needsStage2, index0);
    if !ok {
      ghost var q :| q in needsStage2 && RefinedInputs(m, b, index0[q.requestId]).None?;
      assert ItemSpec(m, b, index0[q.requestId]).None?;
      return None;
    }
    RefinedAsked(m, b, requests, index0, index, needsStage2, refined);
    r := SecondPass(engine, b, batchSize, refined, index, results0, tokens);
  }

  /** Exactly the per-item specification, for every batch size; None is a raised exception. On return the engine has
      answered exactly what the windows ask for, which is what the results account for. */
  method CaptionNoInflightBatching(engine: Engine, b: Batch, batchSize: int)
      returns (r: Option<seq<WindowResult>>)
    requires b.Valid()
    modifies engine`completed
    ensures r == BatchSpec(engine.m, b)
    ensures old(engine.completed) <= engine.completed
    ensures r.Some? ==> AnswersBatch(engine.m, b, r.value, engine.completed[|old(engine.completed)|..])
  {
    hide Ask, AnswersBatch, Requested, Refinements, Counted, Done, Needing, RefinedInputs;
    var m := engine.m;
    ghost var completed := engine.completed;
    var requests, index := MakeRequests(b, {});
    assert Asked(requests) == b.inputs;
    var ok, finished := ProcessRequests(engine, requests, batchSize);
    if !ok {
      ghost var q :| q in requests && Ask(m, q.inputs).None?;
      assert ItemSpec(m, b, index[q.requestId]).None?;
      return None;
    }
    var results, tokens, needsStage2 := AccountFirst(m, b, finished, index);
    r := RefinementPass(engine, b, batchSize, requests, index, results, tokens, needsStage2);
    if r.Some? {
      ghost var asked := engine.completed[|completed|..];
      assert asked == b.inputs + Refinements(m, b, |b.inputs|);
      RequestedInTwoPasses(m, b, |b.inputs|);
      assert b.inputs[..|b.inputs|] == b.inputs;
      AnswersAll(m, b, r.value, asked);
    }
  }
}
