/** The production driver: a queue of requests, a bounded in-flight set, and an engine that finishes
    whichever in-flight requests it likes at each step. */
module InflightCaptioner {
  import opened Arith
  import opened Base
  import opened CaptionSpec
  import opened CaptionRequests
  import opened CaptionEngine

  /** Where window `i`, still open, stands; `r` is its one request. While `refining`, its first answer has
      been counted but its refinement request has not been built. */
  ghost predicate Open(m: Model, b: Batch, s: Books, i: nat, r: CaptionRequest, refining: bool)
    requires b.Valid() && i < |b.inputs|
  {
    if i !in s.tokens then
      !refining && r.inputs == b.inputs[i] && r.stage2Prompt == b.prompts[i]
    else (
      && Ask(m, b.inputs[i]).Some? && s.tokens[i] == Ask(m, b.inputs[i]).value.tokens
      && b.prompts[i].Some?
      && if refining then r.inputs == b.inputs[i] && r.stage2Prompt == b.prompts[i]
         else r.stage2Prompt.None? && RefinedInputs(m, b, i) == Some(r.inputs))
  }

  /** `r` is the request of the open window that the index names for it. */
  ghost predicate Owned(s: Books, live: map<nat, CaptionRequest>, r: CaptionRequest) {
    r.requestId in s.index && s.index[r.requestId] in live && live[s.index[r.requestId]] == r
  }

  /** Every window has exactly one open request or exactly one, correct, result. */
  ghost predicate Inv(m: Model, b: Batch, s: Books, live: map<nat, CaptionRequest>, refining: set<nat>)
    requires b.Valid()
  {
    && (forall i: nat :: i < |b.inputs| ==> (i in live <==> i !in s.results))
    && (forall i :: i in live ==>
          && i < |b.inputs|
          && live[i].requestId in s.index && s.index[live[i].requestId] == i
          && Open(m, b, s, i, live[i], i in refining))
    && (forall i :: i in s.results ==> i < |b.inputs| && i in s.tokens && Done(m, b, s.results, i))
    && (forall i :: i in s.tokens ==> i < |b.inputs|)
    && refining <= live.Keys
  }

  /** What the engine has answered for window `i`, by the books: its own inputs when it is counted and the refined
      ones when it is finished. */
  ghost function AnsweredAt(m: Model, b: Batch, s: Books, i: nat): multiset<Inputs>
    requires b.Valid() && i < |b.inputs|
  {
    (if i in s.tokens then multiset{b.inputs[i]} else multiset{}) +
    match RefinedInputs(m, b, i) {
      case None => multiset{}
      case Some(x) => if i in s.results then multiset{x} else multiset{}
    }
  }

  ghost function Answered(m: Model, b: Batch, s: Books, n: nat): multiset<Inputs>
    requires b.Valid() && n <= |b.inputs|
  {
    if n == 0 then multiset{} else Answered(m, b, s, n - 1) + AnsweredAt(m, b, s, n - 1)
  }

  /** `s'` has window `i` counted, and finished when `final`; nothing else is different. */
  ghost predicate KeysGrow(s: Books, s': Books, i: nat, final: bool) {
    && i in s'.tokens && (i in s'.results <==> i in s.results || final)
    && (forall j :: j != i ==> (j in s'.tokens <==> j in s.tokens) && (j in s'.results <==> j in s.results))
  }

  /** When every window has a result, nothing is open. */
  lemma AllDone(m: Model, b: Batch, s: Books, live: map<nat, CaptionRequest>, refining: set<nat>)
    requires b.Valid() && Inv(m, b, s, live, refining)
    ensures |s.results| <= |b.inputs|
    ensures |s.results| == |b.inputs| <==> live == map[]
  {
    IndexSetSize(s.results.Keys, |b.inputs|);
    if live == map[] {
      assert s.results.Keys == Indices(|b.inputs|);
      IndicesSize(|b.inputs|);
    } else {
      var i :| i in live;
      assert i !in s.results.Keys && i in Indices(|b.inputs|);
    }
  }

  /** A window that is not touched stays as it is. */
  lemma OthersKept(m: Model, b: Batch, s: Books, s': Books, live: map<nat, CaptionRequest>, refining: set<nat>, i: nat)
    requires b.Valid() && Inv(m, b, s, live, refining) && i < |b.inputs|
    requires forall j :: j != i ==> (j in s'.tokens <==> j in s.tokens)
    requires forall j :: j in s.tokens && j != i ==> s'.tokens[j] == s.tokens[j]
    requires forall j :: j in s.results && j != i ==> j in s'.results && s'.results[j] == s.results[j]
    ensures forall j :: j in live && j != i ==> Open(m, b, s', j, live[j], j in refining)
    ensures forall j :: j in s.results && j != i ==> j < |b.inputs| && Done(m, b, s'.results, j)
  {
    forall j | j in s.results && j != i ensures j < |b.inputs| && Done(m, b, s'.results, j) {
      assert Done(m, b, s.results, j);
    }
    forall j | j in live && j != i ensures Open(m, b, s', j, live[j], j in refining) {
      assert Open(m, b, s, j, live[j], j in refining);
    }
  }

  /** Counting the first answer of a window that is still to be refined. */
  lemma AccountRefinable(m: Model, b: Batch, s: Books, live: map<nat, CaptionRequest>, refining: set<nat>,
                         r: CaptionRequest, a: Answer)
    requires b.Valid() && Inv(m, b, s, live, refining)
    requires Owned(s, live, r) && s.index[r.requestId] !in refining
    requires Ask(m, r.inputs) == Some(a) && r.stage2Prompt.Some?
    ensures var i := s.index[r.requestId];
            var s' := CountTokens(s, i, a.tokens);
            Inv(m, b, s', live, refining + {i})
  {
    hide Ask, RefinedInputs, ItemSpec;
    var i := s.index[r.requestId];
    var s' := CountTokens(s, i, a.tokens);
    assert Open(m, b, s, i, r, false);
    assert Open(m, b, s', i, r, true);
    OthersKept(m, b, s, s', live, refining, i);
    hide Open, Done;
    assert s'.results == s.results;
  }

  /** The last answer of a window produces the right result. */
  lemma FinalResult(m: Model, b: Batch, s: Books, i: nat, r: CaptionRequest, a: Answer)
    requires b.Valid() && i < |b.inputs| && Open(m, b, s, i, r, false)
    requires Ask(m, r.inputs) == Some(a) && r.stage2Prompt.None?
    ensures ItemSpec(m, b, i) == Some(Finish(a, CountTokens(s, i, a.tokens).tokens[i]))
  {
  }

  function Complete(s: Books, i: nat, a: Answer): Books {
    var counted := CountTokens(s, i, a.tokens);
    counted.(results := counted.results[i := Finish(a, counted.tokens[i])])
  }

  /** A window that gets its result is no longer open. */
  lemma InvClosed(m: Model, b: Batch, s: Books, s': Books, live: map<nat, CaptionRequest>, refining: set<nat>, i: nat)
    requires b.Valid() && Inv(m, b, s, live, refining) && i in live && i !in refining
    requires s'.index == s.index && s'.results.Keys == s.results.Keys + {i} && s'.tokens.Keys == s.tokens.Keys + {i}
    requires Done(m, b, s'.results, i)
    requires forall j :: j in live && j != i ==> Open(m, b, s', j, live[j], j in refining)
    requires forall j :: j in s.results && j != i ==> j < |b.inputs| && Done(m, b, s'.results, j)
    ensures Inv(m, b, s', live - {i}, refining)
  {
    hide Open, Done;
  }

  lemma AccountFinal(m: Model, b: Batch, s: Books, live: map<nat, CaptionRequest>, refining: set<nat>,
                     r: CaptionRequest, a: Answer)
    requires b.Valid() && Inv(m, b, s, live, refining)
    requires Owned(s, live, r) && s.index[r.requestId] !in refining
    requires Ask(m, r.inputs) == Some(a) && r.stage2Prompt.None?
    ensures Inv(m, b, Complete(s, s.index[r.requestId], a), live - {s.index[r.requestId]}, refining)
  {
    hide Ask, RefinedInputs, ItemSpec, Finish;
    var i := s.index[r.requestId];
    var s' := Complete(s, i, a);
    assert Open(m, b, s, i, r, false);
    FinalResult(m, b, s, i, r, a);
    OthersKept(m, b, s, s', live, refining, i);
    assert Done(m, b, s'.results, i);
    InvClosed(m, b, s, s', live, refining, i);
  }

  /** Window `i` gets its answer to the inputs `x`: the first to its own ones, the second to the refined ones. */
  ghost predicate AnswersTo(m: Model, b: Batch, s: Books, i: nat, x: Inputs, final: bool)
    requires b.Valid() && i < |b.inputs|
  {
    && i !in s.results
    && if i in s.tokens then final && RefinedInputs(m, b, i) == Some(x)
       else x == b.inputs[i] && (final ==> RefinedInputs(m, b, i).None?)
  }

  lemma OpenAnswersTo(m: Model, b: Batch, s: Books, live: map<nat, CaptionRequest>, refining: set<nat>, r: CaptionRequest)
    requires b.Valid() && Inv(m, b, s, live, refining)
    requires Owned(s, live, r) && s.index[r.requestId] !in refining
    ensures s.index[r.requestId] < |b.inputs|
    ensures AnswersTo(m, b, s, s.index[r.requestId], r.inputs, r.stage2Prompt.None?)
  {
    assert Open(m, b, s, s.index[r.requestId], r, false);
  }

  lemma AnsweredAtOnce(m: Model, b: Batch, s: Books, s': Books, i: nat, x: Inputs, final: bool, j: nat)
    requires b.Valid() && i < |b.inputs| && j < |b.inputs|
    requires KeysGrow(s, s', i, final) && AnswersTo(m, b, s, i, x, final)
    ensures AnsweredAt(m, b, s', j) == AnsweredAt(m, b, s, j) + if j == i then multiset{x} else multiset{}
  {
    hide RefinedInputs;
  }

  /** One more answer for window `i` adds its inputs to what has been answered. */
  lemma {:induction false} AnsweredOnce(m: Model, b: Batch, s: Books, s': Books, i: nat, x: Inputs, final: bool, n: nat)
    requires b.Valid() && n <= |b.inputs| && i < |b.inputs|
    requires KeysGrow(s, s', i, final) && AnswersTo(m, b, s, i, x, final)
    ensures Answered(m, b, s', n) == Answered(m, b, s, n) + if i < n then multiset{x} else multiset{}
  {
    hide AnsweredAt, KeysGrow, AnswersTo;
    if n > 0 {
      AnsweredOnce(m, b, s, s', i, x, final, n - 1);
      AnsweredAtOnce(m, b, s, s', i, x, final, n - 1);
    }
  }

  lemma AnsweredAtAll(m: Model, b: Batch, s: Books, i: nat)
    requires b.Valid() && i < |b.inputs| && i in s.tokens && i in s.results
    ensures AnsweredAt(m, b, s, i) == multiset([b.inputs[i]] + Refinement(m, b, i))
  {
    hide RefinedInputs;
  }

  lemma RequestedNext(m: Model, b: Batch, n: nat)
    requires b.Valid() && n <= |b.inputs|
    ensures Requested(m, b, n) == if n == 0 then [] else Requested(m, b, n - 1) + ([b.inputs[n - 1]] + Refinement(m, b, n - 1))
  {
    hide Refinement;
  }

  lemma MultisetConcat<T>(a: seq<T>, b: seq<T>)
    ensures multiset(a + b) == multiset(a) + multiset(b)
  {
  }

  /** When every window is finished, the engine has answered exactly what was to be requested. */
  lemma {:induction false} AllAnswered(m: Model, b: Batch, s: Books, n: nat)
    requires b.Valid() && n <= |b.inputs|
    requires forall i: nat :: i < n ==> i in s.tokens && i in s.results
    ensures Answered(m, b, s, n) == multiset(Requested(m, b, n))
  {
    hide AnsweredAt, Refinement, Requested;
    RequestedNext(m, b, n);
    if n > 0 {
      AllAnswered(m, b, s, n - 1);
      AnsweredAtAll(m, b, s, n - 1);
      MultisetConcat(Requested(m, b, n - 1), [b.inputs[n - 1]] + Refinement(m, b, n - 1));
    }
  }

  ghost predicate DistinctObjects(fs: seq<CaptionRequest>) {
    forall j, k :: 0 <= j < k < |fs| ==> fs[j] != fs[k]
  }

  /** The effect of accounting the finished requests `fs` on the open windows: those without a stage-2
      prompt are gone, the others are being refined, and the rest are untouched. */
  ghost predicate Accounted(s: Books, fs: seq<CaptionRequest>, k: nat,
                            live0: map<nat, CaptionRequest>, live: map<nat, CaptionRequest>, refining: set<nat>)
    requires k <= |fs|
  {
    && (forall i :: i in live ==> i in live0 && live[i] == live0[i])
    && (forall j :: 0 <= j < |fs| && fs[j].requestId in s.index ==>
          var i := s.index[fs[j].requestId];
          && (i in live <==> i in live0 && !(j < k && fs[j].stage2Prompt.None?))
          && (i in refining <==> j < k && fs[j].stage2Prompt.Some?))
    && (forall i :: i in live0 && live0[i] !in fs ==> i in live && i !in refining)
    && (forall i :: i in refining ==> i in live && live[i] in fs[..k])
  }

  lemma AccountedNone(s: Books, fs: seq<CaptionRequest>, live: map<nat, CaptionRequest>)
    ensures Accounted(s, fs, 0, live, live, {})
  {
  }

  /** The next request's window is still open and not being refined. */
  lemma AccountedNext(s: Books, fs: seq<CaptionRequest>, k: nat,
                      live0: map<nat, CaptionRequest>, live: map<nat, CaptionRequest>, refining: set<nat>)
    requires k < |fs| && Accounted(s, fs, k, live0, live, refining) && Owned(s, live0, fs[k])
    ensures Owned(s, live, fs[k]) && s.index[fs[k].requestId] !in refining
  {
  }

  lemma AccountedFinal(s: Books, fs: seq<CaptionRequest>, k: nat,
                       live0: map<nat, CaptionRequest>, live: map<nat, CaptionRequest>, refining: set<nat>)
    requires k < |fs| && DistinctObjects(fs) && Accounted(s, fs, k, live0, live, refining)
    requires fs[k].requestId in s.index && forall r :: r in fs ==> Owned(s, live0, r)
    requires fs[k].stage2Prompt.None?
    ensures Accounted(s, fs, k + 1, live0, live - {s.index[fs[k].requestId]}, refining)
  {
    assert fs[k] in fs && forall j :: 0 <= j < |fs| ==> fs[j] in fs && Owned(s, live0, fs[j]);
  }

  lemma AccountedRefinable(s: Books, fs: seq<CaptionRequest>, k: nat,
                           live0: map<nat, CaptionRequest>, live: map<nat, CaptionRequest>, refining: set<nat>)
    requires k < |fs| && DistinctObjects(fs) && Accounted(s, fs, k, live0, live, refining)
    requires fs[k].requestId in s.index && forall r :: r in fs ==> Owned(s, live0, r)
    requires fs[k].stage2Prompt.Some?
    ensures Accounted(s, fs, k + 1, live0, live, refining + {s.index[fs[k].requestId]})
  {
    assert fs[k] in fs && forall j :: 0 <= j < |fs| ==> fs[j] in fs && Owned(s, live0, fs[j]);
  }

  /** Counts one finished request and, when it has no stage-2 prompt, produces its window's result. */
  method AccountRequest(m: Model, b: Batch, s0: Books, r: CaptionRequest,
                        ghost live: map<nat, CaptionRequest>, ghost refining: set<nat>)
      returns (s: Books)
    requires b.Valid() && Inv(m, b, s0, live, refining)
    requires Owned(s0, live, r) && s0.index[r.requestId] !in refining
    requires Ask(m, r.inputs).Some? && r.Holds(Ask(m, r.inputs).value)
    ensures s.index == s0.index && Milestones(s, |b.inputs|) > Milestones(s0, |b.inputs|)
    ensures Answered(m, b, s, |b.inputs|) == Answered(m, b, s0, |b.inputs|) + multiset{r.inputs}
    ensures var i := s0.index[r.requestId];
            if r.stage2Prompt.None? then Inv(m, b, s, live - {i}, refining) else Inv(m, b, s, live, refining + {i})
  {
    hide Inv, Ask;
    var i := s0.index[r.requestId];
    ghost var a := Ask(m, r.inputs).value;
    OpenAnswersTo(m, b, s0, live, refining, r);
    s := CountTokens(s0, i, TokenCounts(r.promptTokens, r.outputTokens));
    if r.stage2Prompt.None? {
      var w := MakeWindowResult(r, s.tokens[i]);
      s := s.(results := s.results[i := w]);
      AccountFinal(m, b, s0, live, refining, r, a);
    } else {
      AccountRefinable(m, b, s0, live, refining, r, a);
    }
    AnsweredOnce(m, b, s0, s, i, r.inputs, r.stage2Prompt.None?, |b.inputs|);
    MilestonesGrow(s0, s, i, |b.inputs|);
  }

  lemma AskedOneMore(fs: seq<CaptionRequest>, k: nat)
    requires k < |fs|
    ensures multiset(Asked(fs[..k + 1])) == multiset(Asked(fs[..k])) + multiset{fs[k].inputs}
  {
    assert Asked(fs[..k + 1]) == Asked(fs[..k]) + [fs[k].inputs];
  }

  /** Counts the finished requests and produces the results of those without a stage-2 prompt. */
  method Account(m: Model, b: Batch, s0: Books, fs: seq<CaptionRequest>, ghost live0: map<nat, CaptionRequest>)
      returns (s: Books, ghost live: map<nat, CaptionRequest>, ghost refining: set<nat>)
    requires b.Valid() && Inv(m, b, s0, live0, {})
    requires DistinctObjects(fs)
    requires forall r :: r in fs ==> Owned(s0, live0, r)
    requires forall r :: r in fs ==> Ask(m, r.inputs).Some? && r.Holds(Ask(m, r.inputs).value)
    ensures Inv(m, b, s, live, refining)
    ensures s.index == s0.index && Accounted(s0, fs, |fs|, live0, live, refining)
    ensures Answered(m, b, s, |b.inputs|) == Answered(m, b, s0, |b.inputs|) + multiset(Asked(fs))
    ensures Milestones(s, |b.inputs|) >= Milestones(s0, |b.inputs|) + if fs == [] then 0 else 1
  {
    hide Inv, Ask, Milestones, Asked, Answered, Accounted, CaptionRequest.Holds;
    s, live, refining := s0, live0, {};
    AccountedNone(s0, fs, live0);
    assert Asked(fs[..0]) == [];
    for k := 0 to |fs|
      invariant Inv(m, b, s, live, refining)
      invariant s.index == s0.index && Accounted(s0, fs, k, live0, live, refining)
      invariant Answered(m, b, s, |b.inputs|) == Answered(m, b, s0, |b.inputs|) + multiset(Asked(fs[..k]))
      invariant Milestones(s, |b.inputs|) >= Milestones(s0, |b.inputs|) + if k == 0 then 0 else 1
    {
      var r := fs[k];
      assert r in fs && Owned(s0, live0, r);
      AccountedNext(s0, fs, k, live0, live, refining);
      ghost var i := s.index[r.requestId];
      var s' := AccountRequest(m, b, s, r, live, refining);
      if r.stage2Prompt.None? {
        AccountedFinal(s0, fs, k, live0, live, refining);
        live := live - {i};
      } else {
        AccountedRefinable(s0, fs, k, live0, live, refining);
        refining := refining + {i};
      }
      AskedOneMore(fs, k);
      s := s';
    }
    assert fs[..|fs|] == fs;
  }

  /** Replacing a window's answered request by its refinement request `q` closes the refinement. */
  lemma RefineOne(m: Model, b: Batch, s: Books, live: map<nat, CaptionRequest>, refining: set<nat>,
                  i: nat, q: CaptionRequest)
    requires b.Valid() && Inv(m, b, s, live, refining) && i in refining
    requires q.requestId !in s.index && q.stage2Prompt.None? && RefinedInputs(m, b, i) == Some(q.inputs)
    ensures Inv(m, b, s.(index := s.index[q.requestId := i]), live[i := q], refining - {i})
  {
    var s' := s.(index := s.index[q.requestId := i]);
    assert i in live && Open(m, b, s, i, live[i], true);
    assert Open(m, b, s', i, q, false);
    forall j | j in live && j != i ensures Open(m, b, s', j, live[j], j in refining) {
      assert Open(m, b, s, j, live[j], j in refining);
    }
  }

  /** The windows being refined are exactly those of the requests in `fs[k..]` that have a stage-2 prompt. */
  ghost predicate ToRefine(s: Books, fs: seq<CaptionRequest>, k: nat,
                           live: map<nat, CaptionRequest>, refining: set<nat>)
    requires k <= |fs|
  {
    && (forall i :: i in refining ==>
          && i in live && live[i] in fs[k..] && live[i].stage2Prompt.Some?
          && live[i].requestId in s.index && s.index[live[i].requestId] == i)
    && (forall j :: k <= j < |fs| && fs[j].stage2Prompt.Some? ==>
          Owned(s, live, fs[j]) && s.index[fs[j].requestId] in refining)
  }

  /** What refining has changed so far: only the books' index grew, each window in `refining0` but no longer in
      `refining` is now owned by one of the `added` requests, and no other window is touched. */
  ghost predicate Replaced(s0: Books, s: Books, live0: map<nat, CaptionRequest>, live: map<nat, CaptionRequest>,
                           refining0: set<nat>, refining: set<nat>, added: seq<CaptionRequest>)
  {
    && s.tokens == s0.tokens && s.results == s0.results
    && (forall id :: id in s0.index ==> id in s.index && s.index[id] == s0.index[id])
    && DistinctRequests(added)
    && (forall q :: q in added ==> q.requestId !in s0.index && Owned(s, live, q))
    && live.Keys == live0.Keys
    && (forall i :: i in live0 ==>
          if i in refining0 && i !in refining then live[i] in added else live[i] == live0[i])
  }

  lemma ReplacedOne(s0: Books, s: Books, live0: map<nat, CaptionRequest>, live: map<nat, CaptionRequest>,
                    refining0: set<nat>, refining: set<nat>, added: seq<CaptionRequest>, i: nat, q: CaptionRequest)
    requires Replaced(s0, s, live0, live, refining0, refining, added) && refining <= refining0
    requires i in refining && i in live && live[i] !in added
    requires q.requestId !in s.index
    ensures Replaced(s0, s.(index := s.index[q.requestId := i]), live0, live[i := q],
                     refining0, refining - {i}, added + [q])
  {
    var s', live' := s.(index := s.index[q.requestId := i]), live[i := q];
    forall r | r in added ensures r.requestId != q.requestId && r.requestId !in s0.index && Owned(s', live', r) {
      assert Owned(s, live, r);
    }
    assert live'.Keys == live.Keys;
  }

  lemma ToRefineOne(s: Books, live: map<nat, CaptionRequest>, refining: set<nat>,
                    fs: seq<CaptionRequest>, k: nat, q: CaptionRequest)
    requires k < |fs| && DistinctObjects(fs) && ToRefine(s, fs, k, live, refining) && fs[k].stage2Prompt.Some?
    requires q.requestId !in s.index
    ensures var i := s.index[fs[k].requestId];
            ToRefine(s.(index := s.index[q.requestId := i]), fs, k + 1, live[i := q], refining - {i})
  {
    assert Owned(s, live, fs[k]);
    assert fs[k..] == [fs[k]] + fs[k + 1..];
  }

  /** Builds the refinement request of `r`'s window, or answers None where the plugin raises. */
  method RefineRequest(m: Model, b: Batch, s: Books, r: CaptionRequest, taken: set<nat>,
                       ghost live: map<nat, CaptionRequest>, ghost refining: set<nat>)
      returns (q: Option<CaptionRequest>)
    requires b.Valid() && Inv(m, b, s, live, refining) && Owned(s, live, r) && s.index[r.requestId] in refining
    requires r.stage2Prompt.Some? && Ask(m, r.inputs).Some? && r.Holds(Ask(m, r.inputs).value)
    ensures q.None? ==> !Captionable(m, b)
    ensures q.Some? ==> fresh(q.value) && q.value.requestId !in s.index && q.value.requestId !in taken
    ensures q.Some? ==>
              var i := s.index[r.requestId];
              Inv(m, b, s.(index := s.index[q.value.requestId := i]), live[i := q.value], refining - {i})
  {
    ghost var i := s.index[r.requestId];
    assert Open(m, b, s, i, r, true);
    var inputs := m.refine(r.inputs, r.caption.value, r.stage2Prompt.value);
    assert RefinedInputs(m, b, i) == inputs;
    if inputs.None? {
      assert ItemSpec(m, b, i).None?;
      return None;
    }
    var id := FreshId(s.index.Keys + taken);
    var request := new CaptionRequest(id, inputs.value, None);
    RefineOne(m, b, s, live, refining, i, request);
    q := Some(request);
  }

  /** Builds and queues the refinement requests; false where the plugin raises. */
  method QueueRefinements(m: Model, b: Batch, s0: Books, fs: seq<CaptionRequest>, taken: set<nat>,
                          ghost live0: map<nat, CaptionRequest>, ghost refining0: set<nat>)
      returns (ok: bool, s: Books, added: seq<CaptionRequest>, ghost live: map<nat, CaptionRequest>)
    requires b.Valid() && Inv(m, b, s0, live0, refining0) && DistinctObjects(fs)
    requires ToRefine(s0, fs, 0, live0, refining0) && forall r :: r in fs ==> r.requestId in s0.index
    requires forall r :: r in fs ==> Ask(m, r.inputs).Some? && r.Holds(Ask(m, r.inputs).value)
    ensures !ok ==> !Captionable(m, b)
    ensures ok ==> Inv(m, b, s, live, {}) && Replaced(s0, s, live0, live, refining0, {}, added)
    ensures ok ==> s.tokens == s0.tokens && s.results == s0.results
    ensures ok ==> fresh(added) && (fs == [] ==> added == []) && (s0.index.Keys !! taken ==> s.index.Keys !! taken)
  {
    hide Inv;
    s, added, live := s0, [], live0;
    ghost var refining := refining0;
    for k := 0 to |fs|
      invariant Inv(m, b, s, live, refining) && refining <= refining0
      invariant Replaced(s0, s, live0, live, refining0, refining, added)
      invariant fresh(added) && (k == 0 ==> added == []) && (s0.index.Keys !! taken ==> s.index.Keys !! taken)
      invariant ToRefine(s, fs, k, live, refining)
      invariant forall r :: r in fs ==> r.Holds(Ask(m, r.inputs).value)
    {
      var r := fs[k];
      assert fs[k..] == [r] + fs[k + 1..];
      if r.stage2Prompt.Some? {
        var q := RefineRequest(m, b, s, r, taken, live, refining);
        if q.None? {
          ok := false;
          return;
        }
        var i := s.index[r.requestId];
        ToRefineOne(s, live, refining, fs, k, q.value);
        ReplacedOne(s0, s, live0, live, refining0, refining, added, i, q.value);
        s := s.(index := s.index[q.value.requestId := i]);
        live := live[i := q.value];
        refining := refining - {i};
        added := added + [q.value];
      }
    }
    assert refining == {};
    ok := true;
  }

  /** Every open window's request is either queued or in flight, never both, and nothing else is. */
  ghost predicate Placed(s: Books, live: map<nat, CaptionRequest>, queue: seq<CaptionRequest>,
                         inFlight: map<nat, CaptionRequest>)
  {
    && DistinctRequests(queue) && KeyedById(inFlight)
    && (forall q :: q in queue ==> Owned(s, live, q) && q.requestId !in inFlight)
    && (forall id :: id in inFlight ==> Owned(s, live, inFlight[id]))
    && (forall i :: i in live ==>
          live[i] in queue || (live[i].requestId in inFlight && inFlight[live[i].requestId] == live[i]))
  }

  /** What is left of `inFlight0` without the first `k` finished requests. */
  ghost predicate Deleted(inFlight0: map<nat, CaptionRequest>, fs: seq<CaptionRequest>, k: nat,
                          inFlight: map<nat, CaptionRequest>)
    requires k <= |fs|
  {
    && (forall id :: id in inFlight <==> id in inFlight0 && forall j :: 0 <= j < k ==> fs[j].requestId != id)
    && (forall id :: id in inFlight ==> inFlight[id] == inFlight0[id])
  }

  lemma DeletedOneMore(inFlight0: map<nat, CaptionRequest>, fs: seq<CaptionRequest>, k: nat,
                       inFlight: map<nat, CaptionRequest>)
    requires k < |fs| && DistinctRequests(fs) && fs[k].requestId in inFlight0 && Deleted(inFlight0, fs, k, inFlight)
    ensures fs[k].requestId in inFlight
    ensures Deleted(inFlight0, fs, k + 1, inFlight - {fs[k].requestId})
  {
  }

  lemma SizeWithout<T>(m: map<nat, T>, id: nat)
    requires id in m
    ensures |m - {id}| == |m| - 1
  {
    assert m == (m - {id})[id := m[id]];
  }

  /** Removes the finished requests; each of them is there to be removed. */
  method DeleteFinished(inFlight0: map<nat, CaptionRequest>, fs: seq<CaptionRequest>)
      returns (inFlight: map<nat, CaptionRequest>)
    requires forall r :: r in fs ==> r.requestId in inFlight0
    requires DistinctRequests(fs)
    ensures forall id :: id in inFlight <==> id in inFlight0 && forall r :: r in fs ==> r.requestId != id
    ensures forall id :: id in inFlight ==> inFlight[id] == inFlight0[id]
    ensures |inFlight| == |inFlight0| - |fs|
  {
    inFlight := inFlight0;
    for k := 0 to |fs|
      invariant Deleted(inFlight0, fs, k, inFlight)
      invariant |inFlight| == |inFlight0| - k
    {
      hide Deleted, DistinctRequests;
      assert fs[k] in fs;
      DeletedOneMore(inFlight0, fs, k, inFlight);
      SizeWithout(inFlight, fs[k].requestId);
      inFlight := inFlight - {fs[k].requestId};
    }
  }

  /** The finished requests of a step, with what is known of them. */
  ghost predicate JustFinished(s: Books, live: map<nat, CaptionRequest>, inFlight: map<nat, CaptionRequest>,
                               outs: seq<EngineOutput>, fs: seq<CaptionRequest>)
  {
    && DistinctRequests(fs)
    && (forall r :: r in fs ==> r.requestId in inFlight && inFlight[r.requestId] == r && Owned(s, live, r))
    && (forall id :: id in FinishedIds(outs) <==> exists r :: r in fs && r.requestId == id)
  }

  lemma FinishedAre(s: Books, live: map<nat, CaptionRequest>, queue: seq<CaptionRequest>,
                    inFlight: map<nat, CaptionRequest>, outs: seq<EngineOutput>, fs: seq<CaptionRequest>)
    requires Placed(s, live, queue, inFlight) && DistinctIds(outs)
    requires |fs| == |Finished(outs, |outs|)|
    requires forall k :: 0 <= k < |fs| ==> (
               && Finished(outs, |outs|)[k].requestId in inFlight
               && fs[k] == inFlight[Finished(outs, |outs|)[k].requestId])
    ensures JustFinished(s, live, inFlight, outs, fs)
  {
    hide Finished, Owned;
    var f := Finished(outs, |outs|);
    assert outs[..|outs|] == outs;
    FinishedDistinct(outs, |outs|);
    forall id | id in FinishedIds(outs) ensures exists r :: r in fs && r.requestId == id {
      var o :| o in outs && o.finished && o.requestId == id;
      assert o in f;
      var k :| 0 <= k < |f| && f[k] == o;
      assert fs[k] in fs && fs[k].requestId == id;
    }
    forall r | r in fs ensures r.requestId in FinishedIds(outs) && r.requestId in inFlight && inFlight[r.requestId] == r {
      var k :| 0 <= k < |fs| && fs[k] == r;
      assert f[k] in f;
    }
  }

  /** What became of the open windows when the finished requests `fs` were deleted, accounted and refined. */
  ghost predicate Settled(s0: Books, s: Books, live0: map<nat, CaptionRequest>, live: map<nat, CaptionRequest>,
                          fs: seq<CaptionRequest>, added: seq<CaptionRequest>)
  {
    && (forall i :: i in live0 ==> live0[i].requestId in s0.index && s0.index[live0[i].requestId] == i)
    && (forall id :: id in s0.index ==> id in s.index && s.index[id] == s0.index[id])
    && (forall i :: i in live0 && live0[i] !in fs ==> i in live && live[i] == live0[i])
    && (forall i :: i in live ==> live[i] in added || (i in live0 && live[i] == live0[i] && live[i] !in fs))
    && (forall q :: q in added ==> q.requestId !in s0.index && Owned(s, live, q))
    && DistinctRequests(added)
  }

  lemma SettledAll(s0: Books, s1: Books, s: Books, live0: map<nat, CaptionRequest>, live1: map<nat, CaptionRequest>,
                   live: map<nat, CaptionRequest>, refining: set<nat>, fs: seq<CaptionRequest>, added: seq<CaptionRequest>)
    requires forall i :: i in live0 ==> live0[i].requestId in s0.index && s0.index[live0[i].requestId] == i
    requires forall r :: r in fs ==> Owned(s0, live0, r)
    requires s1.index == s0.index && Accounted(s0, fs, |fs|, live0, live1, refining)
    requires Replaced(s1, s, live1, live, refining, {}, added)
    ensures Settled(s0, s, live0, live, fs, added)
  {
    forall i | i in live0 && live0[i] !in fs ensures i in live && live[i] == live0[i] {
      assert i in live1 && i !in refining;
    }
    forall i | i in live && live[i] !in added ensures i in live0 && live[i] == live0[i] && live[i] !in fs {
      assert i in live1 && i !in refining && live[i] == live1[i] == live0[i];
    }
  }

  /** After the finished requests are settled, everything open has its place again. */
  lemma PlacedAgain(s0: Books, s: Books, live0: map<nat, CaptionRequest>, live: map<nat, CaptionRequest>,
                    queue: seq<CaptionRequest>, added: seq<CaptionRequest>, inFlight0: map<nat, CaptionRequest>,
                    inFlight: map<nat, CaptionRequest>, fs: seq<CaptionRequest>)
    requires Placed(s0, live0, queue, inFlight0) && Settled(s0, s, live0, live, fs, added)
    requires forall r :: r in fs ==> r.requestId in inFlight0 && inFlight0[r.requestId] == r
    requires forall id :: id in inFlight <==> id in inFlight0 && forall r :: r in fs ==> r.requestId != id
    requires forall id :: id in inFlight ==> inFlight[id] == inFlight0[id]
    ensures Placed(s, live, queue + added, inFlight)
  {
    forall q | q in queue ensures Owned(s, live, q) && q !in fs && q.requestId in s0.index && q.requestId !in inFlight {
      assert Owned(s0, live0, q);
    }
    forall id | id in inFlight ensures Owned(s, live, inFlight[id]) && id in s0.index {
      assert Owned(s0, live0, inFlight0[id]);
    }
    forall i | i in live && live[i] !in added
      ensures live[i] in queue || (live[i].requestId in inFlight && inFlight[live[i].requestId] == live[i])
    {
      assert live[i] == live0[i] && live[i] !in fs;
    }
  }

  /** The engine is running exactly the in-flight requests and those of `stray`, which an earlier call has left behind. */
  ghost predicate Mirrors(running: map<nat, Inputs>, inFlight: map<nat, CaptionRequest>, stray: map<nat, Inputs>) {
    && (forall id :: id in running <==> id in inFlight || id in stray)
    && (forall id :: id in inFlight ==> id !in stray && running[id] == inFlight[id].inputs)
    && (forall id :: id in stray ==> running[id] == stray[id])
  }

  lemma MirrorsSize(running: map<nat, Inputs>, inFlight: map<nat, CaptionRequest>, stray: map<nat, Inputs>)
    requires Mirrors(running, inFlight, stray)
    ensures |running| == |inFlight| + |stray|
  {
    assert running.Keys == inFlight.Keys + stray.Keys && inFlight.Keys !! stray.Keys;
    assert |running.Keys| == |inFlight.Keys| + |stray.Keys|;
  }

  lemma MirrorsOnlyStrays(running: map<nat, Inputs>, stray: map<nat, Inputs>)
    requires Mirrors(running, map[], stray)
    ensures running == stray
  {
  }

  /** A step that finishes only in-flight requests leaves the strays alone. */
  lemma MirrorsAfter(running: map<nat, Inputs>, inFlight0: map<nat, CaptionRequest>, inFlight: map<nat, CaptionRequest>,
                     stray: map<nat, Inputs>, outs: seq<EngineOutput>, fs: seq<CaptionRequest>)
    requires Mirrors(running, inFlight0, stray)
    requires forall r :: r in fs ==> r.requestId in inFlight0
    requires forall id :: id in FinishedIds(outs) <==> exists r :: r in fs && r.requestId == id
    requires forall id :: id in inFlight <==> id in inFlight0 && forall r :: r in fs ==> r.requestId != id
    requires forall id :: id in inFlight ==> inFlight[id] == inFlight0[id]
    ensures Mirrors(running - FinishedIds(outs), inFlight, stray)
  {
    hide FinishedIds;
    forall id | id in stray ensures id !in FinishedIds(outs) {
    }
  }

  /** The loop is under way: the books are right, every open request has its place, and the engine is running
      what it should. */
  ghost predicate Going(m: Model, b: Batch, s: Books, live: map<nat, CaptionRequest>, queue: seq<CaptionRequest>,
                        inFlight: map<nat, CaptionRequest>, stray: map<nat, Inputs>, running: map<nat, Inputs>)
    requires b.Valid()
  {
    Inv(m, b, s, live, {}) && Placed(s, live, queue, inFlight) && s.index.Keys !! stray.Keys && Mirrors(running, inFlight, stray)
  }

  /** The requests at hand are all among `mine`, those that this call has made. */
  ghost predicate Within(queue: seq<CaptionRequest>, inFlight: map<nat, CaptionRequest>, mine: set<CaptionRequest>) {
    (forall q :: q in queue ==> q in mine) && inFlight.Values <= mine
  }

  lemma UnanswerableOpen(m: Model, b: Batch, s: Books, live: map<nat, CaptionRequest>, r: CaptionRequest)
    requires b.Valid() && Inv(m, b, s, live, {}) && Owned(s, live, r) && Ask(m, r.inputs).None?
    ensures !Captionable(m, b)
  {
    var i := s.index[r.requestId];
    assert Open(m, b, s, i, r, false);
    assert ItemSpec(m, b, i).None?;
  }

  lemma SameInputs(inFlight: map<nat, CaptionRequest>, running: map<nat, Inputs>, stray: map<nat, Inputs>,
                   f: seq<EngineOutput>, fs: seq<CaptionRequest>)
    requires Mirrors(running, inFlight, stray) && |fs| == |f|
    requires forall k :: 0 <= k < |fs| ==> f[k].requestId in inFlight && fs[k] == inFlight[f[k].requestId]
    ensures InputsOf(f, running) == Asked(fs)
  {
  }

  /** The requests that an engine step finished, filled in; false where the decoder raises or where what was
      finished is a stray. */
  method TakeFinished(m: Model, b: Batch, s: Books, queue: seq<CaptionRequest>, inFlight: map<nat, CaptionRequest>,
                      outs: seq<EngineOutput>, ghost running: map<nat, Inputs>, ghost stray: map<nat, Inputs>,
                      ghost live: map<nat, CaptionRequest>)
      returns (ok: bool, fs: seq<CaptionRequest>)
    requires b.Valid() && Going(m, b, s, live, queue, inFlight, stray, running) && DistinctIds(outs)
    requires forall o :: o in outs ==> o.requestId in running && o.generation == m.generate(running[o.requestId])
    modifies inFlight.Values
    ensures !ok ==> !Captionable(m, b) || exists id :: id in FinishedIds(outs) && id in stray
    ensures ok ==> JustFinished(s, live, inFlight, outs, fs)
    ensures ok ==> InputsOf(Finished(outs, |outs|), running) == Asked(fs)
    ensures ok ==> forall r :: r in fs ==> Ask(m, r.inputs).Some? && r.Holds(Ask(m, r.inputs).value)
  {
    hide Inv, Ask, InputsOf, Asked, Finished, CaptionRequest.Holds;
    ok, fs := ProcessVllmOutput(m, outs, inFlight);
    if !ok {
      ghost var o :| o in outs && o.finished && (o.requestId in inFlight ==> Ask(m, inFlight[o.requestId].inputs).None?);
      assert o.requestId in FinishedIds(outs);
      if o.requestId in inFlight {
        UnanswerableOpen(m, b, s, live, inFlight[o.requestId]);
      }
    } else {
      FinishedAre(s, live, queue, inFlight, outs, fs);
      SameInputs(inFlight, running, stray, Finished(outs, |outs|), fs);
    }
  }

  lemma SameAnswers(m: Model, b: Batch, s: Books, s': Books, i: nat)
    requires b.Valid() && s'.tokens == s.tokens && s'.results == s.results && i < |b.inputs|
    ensures AnsweredAt(m, b, s', i) == AnsweredAt(m, b, s, i)
  {
  }

  /** Where only the index has changed, nothing counted or finished has. */
  lemma {:induction false} SameCounts(m: Model, b: Batch, s: Books, s': Books, n: nat)
    requires b.Valid() && s'.tokens == s.tokens && s'.results == s.results && n <= |b.inputs|
    ensures Answered(m, b, s', n) == Answered(m, b, s, n)
    ensures Milestones(s', n) == Milestones(s, n)
  {
    hide AnsweredAt;
    if n > 0 {
      SameCounts(m, b, s, s', n - 1);
      SameAnswers(m, b, s, s', n - 1);
    }
  }

  lemma IndexInverse(m: Model, b: Batch, s: Books, live: map<nat, CaptionRequest>)
    requires b.Valid() && Inv(m, b, s, live, {})
    ensures forall i :: i in live ==> live[i].requestId in s.index && s.index[live[i].requestId] == i
  {
  }

  lemma ToRefineInitially(m: Model, b: Batch, s0: Books, s: Books, fs: seq<CaptionRequest>,
                          live0: map<nat, CaptionRequest>, live: map<nat, CaptionRequest>, refining: set<nat>)
    requires b.Valid() && Inv(m, b, s, live, refining) && s.index == s0.index
    requires forall r :: r in fs ==> Owned(s0, live0, r)
    requires Accounted(s0, fs, |fs|, live0, live, refining)
    ensures ToRefine(s, fs, 0, live, refining)
  {
    assert fs[..|fs|] == fs == fs[0..];
    forall i | i in refining ensures live[i].stage2Prompt.Some? {
      assert i in live && Open(m, b, s, i, live[i], true);
    }
    forall j | 0 <= j < |fs| && fs[j].stage2Prompt.Some?
      ensures Owned(s, live, fs[j]) && s.index[fs[j].requestId] in refining
    {
      assert fs[j] in fs && Owned(s0, live0, fs[j]);
    }
  }

  /** Accounts the finished requests and builds the refinement requests; false where the plugin raises. */
  method Advance(m: Model, b: Batch, s0: Books, fs: seq<CaptionRequest>, taken: set<nat>,
                 ghost live0: map<nat, CaptionRequest>)
      returns (ok: bool, s: Books, added: seq<CaptionRequest>, ghost live: map<nat, CaptionRequest>)
    requires b.Valid() && Inv(m, b, s0, live0, {})
    requires DistinctRequests(fs) && forall r :: r in fs ==> Owned(s0, live0, r)
    requires forall r :: r in fs ==> Ask(m, r.inputs).Some? && r.Holds(Ask(m, r.inputs).value)
    ensures !ok ==> !Captionable(m, b)
    ensures ok ==> Inv(m, b, s, live, {}) && Settled(s0, s, live0, live, fs, added)
    ensures ok ==> fresh(added) && (fs == [] ==> added == []) && (s0.index.Keys !! taken ==> s.index.Keys !! taken)
    ensures ok ==> Answered(m, b, s, |b.inputs|) == Answered(m, b, s0, |b.inputs|) + multiset(Asked(fs))
    ensures ok ==> Milestones(s, |b.inputs|) >= Milestones(s0, |b.inputs|) + if fs == [] then 0 else 1
  {
    hide Inv, Answered, Asked, Accounted, Replaced, Settled, ToRefine, Milestones, Captionable;
    ghost var refining;
    s, live, refining := Account(m, b, s0, fs, live0);
    ghost var s1, live1 := s, live;
    ToRefineInitially(m, b, s0, s, fs, live0, live, refining);
    ok, s, added, live := QueueRefinements(m, b, s, fs, taken, live, refining);
    if ok {
      SameCounts(m, b, s1, s, |b.inputs|);
      IndexInverse(m, b, s0, live0);
      SettledAll(s0, s1, s, live0, live1, live, refining, fs, added);
    }
  }

  lemma FinishedSome(outs: seq<EngineOutput>, fs: seq<CaptionRequest>)
    requires forall id :: id in FinishedIds(outs) <==> exists r :: r in fs && r.requestId == id
    ensures fs == [] <==> FinishedIds(outs) == {}
  {
    hide FinishedIds;
    if fs != [] {
      assert fs[0] in fs && fs[0].requestId in FinishedIds(outs);
    }
  }

  /** Everything a loop iteration does with the outputs of an engine step; false where it raises. */
  method Settle(m: Model, b: Batch, s0: Books, queue0: seq<CaptionRequest>, inFlight0: map<nat, CaptionRequest>,
                outs: seq<EngineOutput>, taken: set<nat>, ghost running: map<nat, Inputs>, ghost stray: map<nat, Inputs>,
                ghost live0: map<nat, CaptionRequest>, ghost mine0: set<CaptionRequest>)
      returns (ok: bool, s: Books, queue: seq<CaptionRequest>, inFlight: map<nat, CaptionRequest>,
               ghost live: map<nat, CaptionRequest>, ghost mine: set<CaptionRequest>)
    requires b.Valid() && Going(m, b, s0, live0, queue0, inFlight0, stray, running) && taken == stray.Keys
    requires Within(queue0, inFlight0, mine0) && DistinctIds(outs)
    requires forall o :: o in outs ==> o.requestId in running && o.generation == m.generate(running[o.requestId])
    modifies mine0
    ensures !ok ==> !Captionable(m, b) || exists id :: id in FinishedIds(outs) && id in stray
    ensures ok ==> Going(m, b, s, live, queue, inFlight, stray, running - FinishedIds(outs))
    ensures ok ==> Within(queue, inFlight, mine) && fresh(mine - mine0) && |inFlight| <= |inFlight0|
    ensures ok ==> Answered(m, b, s, |b.inputs|)
                   == Answered(m, b, s0, |b.inputs|) + multiset(InputsOf(Finished(outs, |outs|), running))
    ensures ok && FinishedIds(outs) != {} ==> Milestones(s, |b.inputs|) > Milestones(s0, |b.inputs|)
    ensures ok && FinishedIds(outs) == {} ==> Milestones(s, |b.inputs|) >= Milestones(s0, |b.inputs|) && queue == queue0
  {
    hide Inv, Answered, Asked, InputsOf, Finished, Placed, Settled, Milestones, Captionable, Mirrors, FinishedIds;
    var fs;
    ok, fs := TakeFinished(m, b, s0, queue0, inFlight0, outs, running, stray, live0);
    s, queue, inFlight, live, mine := s0, queue0, inFlight0, live0, mine0;
    if !ok {
      return;
    }
    inFlight := DeleteFinished(inFlight0, fs);
    var added;
    ok, s, added, live := Advance(m, b, s0, fs, taken, live0);
    if ok {
      PlacedAgain(s0, s, live0, live, queue0, added, inFlight0, inFlight, fs);
      MirrorsAfter(running, inFlight0, inFlight, stray, outs, fs);
      FinishedSome(outs, fs);
      queue := queue0 + added;
      mine := mine0 + set q | q in added;
      assert inFlight.Values <= inFlight0.Values;
    }
  }

  /** With nothing counted, every window is open with its first request. */
  lemma StartedOpen(m: Model, b: Batch, queue: seq<CaptionRequest>, s: Books, live: map<nat, CaptionRequest>)
    requires b.Valid() && |queue| == |b.inputs| && FirstRequests(b, queue, s.index)
    requires s.tokens == map[] && s.results == map[]
    requires live == map i: nat | i < |b.inputs| :: queue[i]
    ensures Inv(m, b, s, live, {})
  {
    forall i | i in live ensures live[i].requestId in s.index && s.index[live[i].requestId] == i && Open(m, b, s, i, live[i], false) {
    }
  }

  /** And every open window's request is queued. */
  lemma StartedPlaced(b: Batch, queue: seq<CaptionRequest>, s: Books, live: map<nat, CaptionRequest>)
    requires b.Valid() && |queue| == |b.inputs| && FirstRequests(b, queue, s.index)
    requires live == map i: nat | i < |b.inputs| :: queue[i]
    ensures Placed(s, live, queue, map[])
  {
    forall q | q in queue ensures Owned(s, live, q) {
      var j: nat :| j < |queue| && queue[j] == q;
    }
  }

  lemma Started(m: Model, b: Batch, queue: seq<CaptionRequest>, s: Books, live: map<nat, CaptionRequest>,
                stray: map<nat, Inputs>)
    requires b.Valid() && Inv(m, b, s, live, {}) && Placed(s, live, queue, map[]) && s.index.Keys !! stray.Keys
    ensures Going(m, b, s, live, queue, map[], stray, stray)
  {
    hide Inv, Placed;
  }

  /** One request per window, queued in input order. */
  method Start(m: Model, b: Batch, taken: set<nat>, ghost stray: map<nat, Inputs>)
      returns (queue: seq<CaptionRequest>, s: Books, ghost live: map<nat, CaptionRequest>, ghost mine: set<CaptionRequest>)
    requires b.Valid() && taken == stray.Keys
    ensures Going(m, b, s, live, queue, map[], stray, stray)
    ensures s.results == map[] && s.tokens == map[]
    ensures Within(queue, map[], mine) && fresh(mine)
  {
    var index;
    hide Going, FirstRequests, Inv, Placed;
    queue, index := MakeRequests(b, taken);
    s := Books(index, map[], map[]);
    live := map i: nat | i < |b.inputs| :: queue[i];
    mine := set q | q in queue;
    StartedOpen(m, b, queue, s, live);
    StartedPlaced(b, queue, s, live);
    Started(m, b, queue, s, live, stray);
  }

  lemma {:induction false} NothingAnswered(m: Model, b: Batch, s: Books, n: nat)
    requires b.Valid() && n <= |b.inputs| && s.tokens == map[] && s.results == map[]
    ensures Answered(m, b, s, n) == multiset{}
  {
    if n > 0 {
      NothingAnswered(m, b, s, n - 1);
    }
  }

  lemma PlacedSubmit(s: Books, live: map<nat, CaptionRequest>, queue: seq<CaptionRequest>,
                     inFlight: map<nat, CaptionRequest>)
    requires Placed(s, live, queue, inFlight) && queue != []
    ensures queue[0].requestId in s.index && queue[0].requestId !in inFlight
    ensures Placed(s, live, queue[1..], inFlight[queue[0].requestId := queue[0]])
  {
    assert queue[0] in queue && queue == [queue[0]] + queue[1..];
    assert forall q :: q in queue[1..] ==> q in queue;
  }

  lemma MirrorsSubmit(running: map<nat, Inputs>, inFlight: map<nat, CaptionRequest>, stray: map<nat, Inputs>, q: CaptionRequest)
    requires Mirrors(running, inFlight, stray) && q.requestId !in inFlight && q.requestId !in stray
    ensures q.requestId !in running
    ensures Mirrors(running[q.requestId := q.inputs], inFlight[q.requestId := q], stray)
  {
  }

  /** Hands the oldest queued request to the engine. */
  method Submit(engine: Engine, ghost b: Batch, queue0: seq<CaptionRequest>, inFlight0: map<nat, CaptionRequest>,
                ghost s: Books, ghost live: map<nat, CaptionRequest>, ghost stray: map<nat, Inputs>,
                ghost mine: set<CaptionRequest>)
      returns (queue: seq<CaptionRequest>, inFlight: map<nat, CaptionRequest>)
    requires b.Valid() && queue0 != [] && Within(queue0, inFlight0, mine)
    requires Going(engine.m, b, s, live, queue0, inFlight0, stray, engine.running)
    modifies engine
    ensures queue == queue0[1..] && |inFlight| == |inFlight0| + 1 && Within(queue, inFlight, mine)
    ensures Going(engine.m, b, s, live, queue, inFlight, stray, engine.running)
    ensures engine.peak == if |engine.running| > old(engine.peak) then |engine.running| else old(engine.peak)
    ensures engine.completed == old(engine.completed)
  {
    hide Inv, Placed, Mirrors;
    var request := queue0[0];
    assert request in queue0;
    PlacedSubmit(s, live, queue0, inFlight0);
    MirrorsSubmit(engine.running, inFlight0, stray, request);
    engine.AddRequest(request.requestId, request.inputs);
    queue, inFlight := queue0[1..], inFlight0[request.requestId := request];
  }

  /** An engine step is never taken idly: with an open window and nothing left to submit, or no room
      to submit it, some request is in flight. */
  lemma SomethingInFlight(m: Model, b: Batch, s: Books, live: map<nat, CaptionRequest>, queue: seq<CaptionRequest>,
                          inFlight: map<nat, CaptionRequest>, stray: map<nat, Inputs>, running: map<nat, Inputs>)
    requires b.Valid() && Going(m, b, s, live, queue, inFlight, stray, running)
    requires live != map[] && (queue == [] || |inFlight| > 0)
    ensures inFlight != map[] && running != map[]
  {
    if queue == [] {
      var i :| i in live;
      assert live[i].requestId in inFlight;
    }
    var id :| id in inFlight;
    assert id in running;
  }

  /** What the engine is running is what it was running before this call or one of this call's own requests. */
  ghost predicate Accountable(m: Model, b: Batch, stray: map<nat, Inputs>, running: map<nat, Inputs>)
    requires b.Valid()
  {
    forall id :: id in running ==> (id in stray && running[id] == stray[id]) || Requestable(m, b, running[id])
  }

  lemma GoingAccountable(m: Model, b: Batch, s: Books, live: map<nat, CaptionRequest>, queue: seq<CaptionRequest>,
                         inFlight: map<nat, CaptionRequest>, stray: map<nat, Inputs>, running: map<nat, Inputs>)
    requires b.Valid() && Going(m, b, s, live, queue, inFlight, stray, running)
    ensures Accountable(m, b, stray, running)
  {
    forall id | id in running && id !in stray ensures Requestable(m, b, running[id]) {
      assert Owned(s, live, inFlight[id]);
      var i := s.index[inFlight[id].requestId];
      assert Open(m, b, s, i, live[i], false);
    }
  }

  /** The loop goes on exactly while some window is open. */
  lemma GoingOn(m: Model, b: Batch, s: Books, live: map<nat, CaptionRequest>, queue: seq<CaptionRequest>,
                inFlight: map<nat, CaptionRequest>, stray: map<nat, Inputs>, running: map<nat, Inputs>)
    requires b.Valid() && Going(m, b, s, live, queue, inFlight, stray, running)
    ensures |s.results| <= |b.inputs|
    ensures |s.results| == |b.inputs| <==> live == map[]
  {
    AllDone(m, b, s, live, {});
  }

  lemma StillAccountable(m: Model, b: Batch, stray: map<nat, Inputs>, running: map<nat, Inputs>, finished: set<nat>)
    requires b.Valid() && Accountable(m, b, stray, running)
    ensures Accountable(m, b, stray, running - finished)
  {
  }

  lemma FinallyDone(m: Model, b: Batch, s: Books, live: map<nat, CaptionRequest>, queue: seq<CaptionRequest>,
                    inFlight: map<nat, CaptionRequest>, stray: map<nat, Inputs>, running: map<nat, Inputs>)
    requires b.Valid() && Going(m, b, s, live, queue, inFlight, stray, running) && live == map[]
    ensures running == stray
    ensures Answered(m, b, s, |b.inputs|) == multiset(Requested(m, b, |b.inputs|))
    ensures forall i: nat :: i < |b.inputs| ==> Done(m, b, s.results, i)
  {
    assert inFlight == map[];
    MirrorsOnlyStrays(running, stray);
    AllAnswered(m, b, s, |b.inputs|);
  }

  lemma GoingSize(m: Model, b: Batch, s: Books, live: map<nat, CaptionRequest>, queue: seq<CaptionRequest>,
                  inFlight: map<nat, CaptionRequest>, stray: map<nat, Inputs>, running: map<nat, Inputs>)
    requires b.Valid() && Going(m, b, s, live, queue, inFlight, stray, running)
    ensures |running| == |inFlight| + |stray|
  {
    MirrorsSize(running, inFlight, stray);
  }

  /** Submits a request if there is one and room for it. */
  method SubmitIfRoom(engine: Engine, ghost b: Batch, maxInflight: nat, queue0: seq<CaptionRequest>,
                      inFlight0: map<nat, CaptionRequest>, ghost s: Books, ghost live: map<nat, CaptionRequest>,
                      ghost stray: map<nat, Inputs>, ghost mine: set<CaptionRequest>)
      returns (queue: seq<CaptionRequest>, inFlight: map<nat, CaptionRequest>)
    requires b.Valid() && Going(engine.m, b, s, live, queue0, inFlight0, stray, engine.running)
    requires Within(queue0, inFlight0, mine) && live != map[] && (maxInflight == 0 || |inFlight0| <= maxInflight)
    modifies engine
    ensures Going(engine.m, b, s, live, queue, inFlight, stray, engine.running) && Within(queue, inFlight, mine)
    ensures inFlight != map[] && engine.running != map[] && (maxInflight == 0 || |inFlight| <= maxInflight)
    ensures maxInflight == 0 || engine.peak <= Max(old(engine.peak), maxInflight + |stray|)
    ensures engine.completed == old(engine.completed)
    ensures |queue| < |queue0| || (queue == queue0 && engine.patience == old(engine.patience))
  {
    hide Going, Within;
    queue, inFlight := queue0, inFlight0;
    if queue != [] && (maxInflight == 0 || |inFlight| < maxInflight) {
      queue, inFlight := Submit(engine, b, queue, inFlight, s, live, stray, mine);
      GoingSize(engine.m, b, s, live, queue, inFlight, stray, engine.running);
    }
    SomethingInFlight(engine.m, b, s, live, queue, inFlight, stray, engine.running);
  }

  /** One turn of the loop: submits a request if possible, steps the engine and settles what that finished; false
      where it raises. */
  method Turn(engine: Engine, b: Batch, maxInflight: nat, s0: Books, queue0: seq<CaptionRequest>,
              inFlight0: map<nat, CaptionRequest>, taken: set<nat>, ghost stray: map<nat, Inputs>,
              ghost live0: map<nat, CaptionRequest>, ghost mine0: set<CaptionRequest>, ghost before: multiset<Inputs>)
      returns (ok: bool, s: Books, queue: seq<CaptionRequest>, inFlight: map<nat, CaptionRequest>,
               ghost live: map<nat, CaptionRequest>, ghost mine: set<CaptionRequest>)
    requires b.Valid() && Going(engine.m, b, s0, live0, queue0, inFlight0, stray, engine.running) && taken == stray.Keys
    requires Within(queue0, inFlight0, mine0) && live0 != map[]
    requires maxInflight == 0 || |inFlight0| <= maxInflight
    requires multiset(engine.completed) == before + Answered(engine.m, b, s0, |b.inputs|)
    modifies engine, mine0
    ensures Accountable(engine.m, b, stray, engine.running)
    ensures !ok ==> !Captionable(engine.m, b) || exists id :: id in stray && id !in engine.running
    ensures ok ==> Going(engine.m, b, s, live, queue, inFlight, stray, engine.running)
    ensures ok ==> Within(queue, inFlight, mine) && fresh(mine - mine0)
    ensures maxInflight == 0 || engine.peak <= Max(old(engine.peak), maxInflight + |stray|)
    ensures ok ==> maxInflight == 0 || |inFlight| <= maxInflight
    ensures old(engine.completed) <= engine.completed
    ensures ok ==> multiset(engine.completed) == before + Answered(engine.m, b, s, |b.inputs|)
    ensures ok ==>
              || Milestones(s, |b.inputs|) > Milestones(s0, |b.inputs|)
              || (Milestones(s, |b.inputs|) == Milestones(s0, |b.inputs|) &&
                    (|queue| < |queue0| || (|queue| == |queue0| && engine.patience < old(engine.patience))))
  {
    hide Going, Within, Answered, Milestones, Captionable, FinishedIds, InputsOf, Finished, Accountable, DistinctIds, Max;
    queue, inFlight := SubmitIfRoom(engine, b, maxInflight, queue0, inFlight0, s0, live0, stray, mine0);
    GoingAccountable(engine.m, b, s0, live0, queue, inFlight, stray, engine.running);
    ghost var running := engine.running;
    var outs := engine.Step();
    StillAccountable(engine.m, b, stray, running, FinishedIds(outs));
    ok, s, queue, inFlight, live, mine :=
      Settle(engine.m, b, s0, queue, inFlight, outs, taken, running, stray, live0, mine0);
  }

  /** What has been completed since is what the results answer for. */
  lemma CallAnswers(m: Model, b: Batch, rs: seq<WindowResult>, before: seq<Inputs>, after: seq<Inputs>)
    requires b.Valid() && BatchSpec(m, b) == Some(rs) && before <= after
    requires multiset(after) == multiset(before) + multiset(Requested(m, b, |b.inputs|))
    ensures AnswersBatch(m, b, rs, after[|before|..])
  {
    hide BatchSpec, Requested, AnswersBatch;
    var asked := after[|before|..];
    assert after == before + asked;
    assert multiset(before + asked) == multiset(asked) + multiset(before);
    SameWithout(multiset(asked), multiset(Requested(m, b, |b.inputs|)), multiset(before));
    AnswersAll(m, b, rs, asked);
  }

  /** Whatever the engine finishes when, and for every in-flight limit (0 is no limit): the call returns the per-item
      specification, or raises (None) where that does or where the engine finishes a request that an earlier
      call has left behind; so on an engine with nothing left behind, as after any call that returned, it is
      exactly the specification. On return the engine is running what it was before and has answered exactly
      what the windows ask for, which is what the results account for; after an exception it may still be running requests of this call. No more than
      `maxInflight` requests of the call are running at once. */
  method CaptionInflightBatching(engine: Engine, b: Batch, maxInflight: nat) returns (r: Option<seq<WindowResult>>)
    requires b.Valid()
    modifies engine
    ensures r.Some? ==> r == BatchSpec(engine.m, b) && engine.running == old(engine.running)
    ensures old(engine.completed) <= engine.completed
    ensures r.Some? ==> AnswersBatch(engine.m, b, r.value, engine.completed[|old(engine.completed)|..])
    ensures r.None? ==> BatchSpec(engine.m, b).None? || exists id :: id in old(engine.running) && id !in engine.running
    ensures old(engine.running) == map[] ==> r == BatchSpec(engine.m, b)
    ensures Accountable(engine.m, b, old(engine.running), engine.running)
    ensures maxInflight == 0 || engine.peak <= Max(old(engine.peak), maxInflight + |old(engine.running)|)
  {
    hide Going, Within, Answered, Requested, AnswersBatch, Milestones, Captionable, Accountable, Inv;
    ghost var stray, completed, peak := engine.running, engine.completed, engine.peak;
    ghost var before := multiset(completed);
    var taken := engine.running.Keys;
    ghost var live, mine;
    var queue, s;
    queue, s, live, mine := Start(engine.m, b, taken, stray);
    NothingAnswered(engine.m, b, s, |b.inputs|);
    var inFlight: map<nat, CaptionRequest> := map[];
    GoingAccountable(engine.m, b, s, live, queue, inFlight, stray, engine.running);
    GoingOn(engine.m, b, s, live, queue, inFlight, stray, engine.running);
    while |s.results| < |b.inputs|
      invariant Going(engine.m, b, s, live, queue, inFlight, stray, engine.running)
      invariant Accountable(engine.m, b, stray, engine.running)
      invariant Within(queue, inFlight, mine) && fresh(mine)
      invariant completed <= engine.completed && multiset(engine.completed) == before + Answered(engine.m, b, s, |b.inputs|)
      invariant maxInflight == 0 || (|inFlight| <= maxInflight && engine.peak <= Max(peak, maxInflight + |stray|))
      invariant |s.results| <= |b.inputs| && (|s.results| == |b.inputs| <==> live == map[])
      decreases 2 * |b.inputs| - Milestones(s, |b.inputs|), |queue|, engine.patience
    {
      var ok;
      ok, s, queue, inFlight, live, mine :=
        Turn(engine, b, maxInflight, s, queue, inFlight, taken, stray, live, mine, before);
      if !ok {
        return None;
      }
      GoingOn(engine.m, b, s, live, queue, inFlight, stray, engine.running);
    }
    FinallyDone(engine.m, b, s, live, queue, inFlight, stray, engine.running);
    r := InInputOrder(engine.m, b, s.results);
    CallAnswers(engine.m, b, r.value, completed, engine.completed);
  }
}
