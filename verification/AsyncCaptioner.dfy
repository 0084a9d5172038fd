/** The asyncio driver: one task per outstanding request, completed in any order, with retries and
    per-window containment of failures. */
module AsyncCaptioner {
  import opened Base
  import opened CaptionSpec
  import opened CaptionRequests

  datatype Phase = Stage1 | Stage2 | Stage2Build

  /** How one attempt at the engine goes: it iterates to the end, raises, or finds the engine dead. */
  datatype Attempt = Served | Transient | Dead

  datatype Outcome = Completed | Failed | EngineDead

  /** What a call runs on. `attempt(i, p, k)` is how attempt `k`, counted from 0, at window `i`'s request of phase `p`
      goes, should it come to that. */
  datatype Runtime = Runtime(m: Model, maxRetries: int, attempt: (nat, Phase, nat) -> Attempt) {
    /** At least one attempt is made, whatever the bound. */
    function Tries(): (n: nat)
      ensures n >= 1
    {
      if maxRetries < 1 then 1 else maxRetries
    }
  }

  /** Attempt `k` yields an answer; one without outputs does not count as one. */
  predicate Yields(e: Runtime, i: nat, p: Phase, inputs: Inputs, k: nat) {
    e.attempt(i, p, k).Served? && e.m.generate(inputs).outputs != []
  }

  /** What becomes of a request from attempt `k` on. */
  function DriveFrom(e: Runtime, i: nat, p: Phase, inputs: Inputs, k: nat): (outcome: Outcome)
    requires k < e.Tries()
    ensures outcome == Completed ==> Ask(e.m, inputs).Some?
    decreases e.Tries() - k
  {
    if e.attempt(i, p, k).Dead? then EngineDead
    else if Yields(e, i, p, inputs, k) then if Ask(e.m, inputs).Some? then Completed else Failed
    else if k + 1 == e.Tries() then Failed
    else DriveFrom(e, i, p, inputs, k + 1)
  }

  function Drive(e: Runtime, i: nat, p: Phase, inputs: Inputs): (outcome: Outcome)
    ensures outcome == Completed ==> Ask(e.m, inputs).Some?
  {
    DriveFrom(e, i, p, inputs, 0)
  }

  /** Attempt `k` is made if it comes to that: the first one always, and any other within the bound. */
  predicate Allowed(e: Runtime, k: nat) {
    k == 0 || k < e.maxRetries
  }

  /** Some attempt from `from` on within the bound yields an answer before any finds the engine dead. */
  ghost predicate ServedWithin(e: Runtime, i: nat, p: Phase, inputs: Inputs, from: nat) {
    exists k: nat :: from <= k && Allowed(e, k) && Yields(e, i, p, inputs, k) &&
                     forall j: nat :: from <= j < k ==> !e.attempt(i, p, j).Dead?
  }

  /** Some attempt from `from` on within the bound finds the engine dead before any yields an answer. */
  ghost predicate DeadWithin(e: Runtime, i: nat, p: Phase, inputs: Inputs, from: nat) {
    exists k: nat :: from <= k && Allowed(e, k) && e.attempt(i, p, k).Dead? &&
                     forall j: nat :: from <= j < k ==> !Yields(e, i, p, inputs, j)
  }

  /** An attempt that neither yields nor finds the engine dead decides nothing. */
  lemma ServedNext(e: Runtime, i: nat, p: Phase, inputs: Inputs, k: nat)
    requires !e.attempt(i, p, k).Dead? && !Yields(e, i, p, inputs, k)
    ensures ServedWithin(e, i, p, inputs, k) <==> ServedWithin(e, i, p, inputs, k + 1)
  {
    hide Yields;
    if ServedWithin(e, i, p, inputs, k) {
      var n: nat :| k <= n && Allowed(e, n) && Yields(e, i, p, inputs, n) &&
                    forall j: nat :: k <= j < n ==> !e.attempt(i, p, j).Dead?;
      assert k + 1 <= n;
    }
    if ServedWithin(e, i, p, inputs, k + 1) {
      var n: nat :| k + 1 <= n && Allowed(e, n) && Yields(e, i, p, inputs, n) &&
                    forall j: nat :: k + 1 <= j < n ==> !e.attempt(i, p, j).Dead?;
      assert forall j: nat :: k <= j < n ==> !e.attempt(i, p, j).Dead?;
    }
  }

  lemma DeadNext(e: Runtime, i: nat, p: Phase, inputs: Inputs, k: nat)
    requires !e.attempt(i, p, k).Dead? && !Yields(e, i, p, inputs, k)
    ensures DeadWithin(e, i, p, inputs, k) <==> DeadWithin(e, i, p, inputs, k + 1)
  {
    hide Yields;
    if DeadWithin(e, i, p, inputs, k) {
      var n: nat :| k <= n && Allowed(e, n) && e.attempt(i, p, n).Dead? &&
                    forall j: nat :: k <= j < n ==> !Yields(e, i, p, inputs, j);
      assert k + 1 <= n;
    }
    if DeadWithin(e, i, p, inputs, k + 1) {
      var n: nat :| k + 1 <= n && Allowed(e, n) && e.attempt(i, p, n).Dead? &&
                    forall j: nat :: k + 1 <= j < n ==> !Yields(e, i, p, inputs, j);
      assert forall j: nat :: k <= j < n ==> !Yields(e, i, p, inputs, j);
    }
  }

  lemma {:induction false} DriveOutcomeFrom(e: Runtime, i: nat, p: Phase, inputs: Inputs, k: nat)
    requires k < e.Tries()
    ensures DriveFrom(e, i, p, inputs, k) == EngineDead <==> DeadWithin(e, i, p, inputs, k)
    ensures DriveFrom(e, i, p, inputs, k) == Completed <==> ServedWithin(e, i, p, inputs, k) && Ask(e.m, inputs).Some?
    decreases e.Tries() - k
  {
    hide Ask;
    if e.attempt(i, p, k).Dead? {
      assert DeadWithin(e, i, p, inputs, k);
      assert !ServedWithin(e, i, p, inputs, k);
    } else if Yields(e, i, p, inputs, k) {
      assert ServedWithin(e, i, p, inputs, k);
      assert !DeadWithin(e, i, p, inputs, k);
    } else if k + 1 < e.Tries() {
      DriveOutcomeFrom(e, i, p, inputs, k + 1);
      ServedNext(e, i, p, inputs, k);
      DeadNext(e, i, p, inputs, k);
    }
  }

  /** A request completes exactly when some attempt within the bound yields an answer that can be decoded before
      any attempt finds the engine dead; it is lost exactly when the engine is found dead first; and otherwise
      it fails. */
  lemma DriveOutcome(e: Runtime, i: nat, p: Phase, inputs: Inputs)
    ensures Drive(e, i, p, inputs) == EngineDead <==> DeadWithin(e, i, p, inputs, 0)
    ensures Drive(e, i, p, inputs) == Completed <==> ServedWithin(e, i, p, inputs, 0) && Ask(e.m, inputs).Some?
  {
    DriveOutcomeFrom(e, i, p, inputs, 0);
  }

  class Task {
    const request: CaptionRequest

    constructor (request: CaptionRequest)
      ensures this.request == request
    {
      this.request := request;
    }
  }

  function Unknown(tokens: TokenCounts): WindowResult {
    WindowResult(UNKNOWN_CAPTION, None, tokens)
  }

  /** The batch that a list of requests stands for. */
  ghost function BatchOf(requests: seq<CaptionRequest>): (b: Batch)
    ensures b.Valid() && |b.inputs| == |requests|
    ensures forall i :: 0 <= i < |requests| ==>
              b.inputs[i] == requests[i].inputs && b.prompts[i] == requests[i].stage2Prompt
  {
    Batch(seq(|requests|, i requires 0 <= i < |requests| => requests[i].inputs),
          seq(|requests|, i requires 0 <= i < |requests| => requests[i].stage2Prompt))
  }

  /** How a window ends: with a result, with a failure in some phase and the result that stands in for it, or in
      a dead engine. */
  datatype Fate = Answered(result: WindowResult) | FailedIn(phase: Phase, result: WindowResult) | Lost

  /** How window `i` ends: unknown without tokens for an empty input or a stage-1 failure, unknown with the stage-1
      tokens for a later failure, and otherwise its one or two answers. */
  function FateOf(e: Runtime, b: Batch, i: nat): Fate
    requires i < |b.inputs| == |b.prompts|
  {
    if b.inputs[i] == map[] then Answered(Unknown(NO_TOKENS))
    else
      match Drive(e, i, Stage1, b.inputs[i])
      case EngineDead => Lost
      case Failed => FailedIn(Stage1, Unknown(NO_TOKENS))
      case Completed =>
        var first := Ask(e.m, b.inputs[i]).value;
        if b.prompts[i].None? then Answered(Finish(first, first.tokens))
        else
          match RefinedInputs(e.m, b, i)
          case None => FailedIn(Stage2Build, Unknown(first.tokens))
          case Some(refined) =>
            match Drive(e, i, Stage2, refined)
            case EngineDead => Lost
            case Failed => FailedIn(Stage2, Unknown(first.tokens))
            case Completed =>
              var second := Ask(e.m, refined).value;
              Answered(Finish(second, first.tokens.Plus(second.tokens)))
  }

  /** The windows that fail, each with its phase. */
  ghost function FailedOf(e: Runtime, b: Batch): map<nat, Phase>
    requires b.Valid()
  {
    map i: nat | i < |b.inputs| && FateOf(e, b, i).FailedIn? :: FateOf(e, b, i).phase
  }

  /** Every request that window `i` comes to is served within its retries. */
  ghost predicate WellServed(e: Runtime, b: Batch, i: nat)
    requires b.Valid() && i < |b.inputs|
  {
    && ServedWithin(e, i, Stage1, b.inputs[i], 0)
    && (RefinedInputs(e.m, b, i).Some? ==> ServedWithin(e, i, Stage2, RefinedInputs(e.m, b, i).value, 0))
  }

  /** A window with inputs is answered exactly when its requests are served within their retries and its
      specification raises nowhere; the answer is then the specified one. */
  lemma AnsweredIff(e: Runtime, b: Batch, i: nat)
    requires b.Valid() && i < |b.inputs| && b.inputs[i] != map[]
    ensures FateOf(e, b, i).Answered? <==> WellServed(e, b, i) && ItemSpec(e.m, b, i).Some?
    ensures FateOf(e, b, i).Answered? ==> ItemSpec(e.m, b, i) == Some(FateOf(e, b, i).result)
  {
    hide ServedWithin, DeadWithin, Drive;
    DriveOutcome(e, i, Stage1, b.inputs[i]);
    if RefinedInputs(e.m, b, i).Some? {
      DriveOutcome(e, i, Stage2, RefinedInputs(e.m, b, i).value);
    }
  }

  /** Window `i`'s request with the inputs `x` is served within its retries, and its answer can be decoded. */
  ghost predicate Completes(e: Runtime, i: nat, p: Phase, x: Inputs) {
    ServedWithin(e, i, p, x, 0) && e.m.decode(e.m.generate(x)).Some?
  }

  ghost predicate CompletesFirst(e: Runtime, b: Batch, i: nat)
    requires b.Valid() && i < |b.inputs|
  {
    Completes(e, i, Stage1, b.inputs[i])
  }

  ghost predicate CompletesSecond(e: Runtime, b: Batch, i: nat)
    requires b.Valid() && i < |b.inputs|
  {
    CompletesFirst(e, b, i) && RefinedInputs(e.m, b, i).Some? && Completes(e, i, Stage2, RefinedInputs(e.m, b, i).value)
  }

  /** What result is due to window `i`: it accounts for the tokens of the requests that completed, also where the window
      fails afterwards, and it reports the last answer, or is unknown where the window fails. */
  ghost predicate Due(e: Runtime, b: Batch, i: nat, w: WindowResult)
    requires b.Valid() && i < |b.inputs|
  {
    if b.inputs[i] == map[] then w == WindowResult(UNKNOWN_CAPTION, None, TokenCounts(0, 0))
    else
      var own, extra := b.inputs[i], RefinedInputs(e.m, b, i);
      && w.tokens.prompt == (if CompletesFirst(e, b, i) then Cost(e.m, own, false) else 0)
                          + (if CompletesSecond(e, b, i) then Cost(e.m, extra.value, false) else 0)
      && w.tokens.output == (if CompletesFirst(e, b, i) then Cost(e.m, own, true) else 0)
                          + (if CompletesSecond(e, b, i) then Cost(e.m, extra.value, true) else 0)
      && if CompletesSecond(e, b, i) then Reports(e.m, e.m.generate(extra.value), w)
         else if CompletesFirst(e, b, i) && b.prompts[i].None? then Reports(e.m, e.m.generate(own), w)
         else w.text == UNKNOWN_CAPTION && w.finishReason == None
  }

  /** Window `i` fails in phase `p`: in the first request, in building the second, or in the second. */
  ghost predicate FailsIn(e: Runtime, b: Batch, i: nat, p: Phase)
    requires b.Valid() && i < |b.inputs|
  {
    && b.inputs[i] != map[]
    && match p
       case Stage1 => !CompletesFirst(e, b, i)
       case Stage2Build => CompletesFirst(e, b, i) && b.prompts[i].Some? && RefinedInputs(e.m, b, i).None?
       case Stage2 => CompletesFirst(e, b, i) && RefinedInputs(e.m, b, i).Some? && !CompletesSecond(e, b, i)
  }

  lemma DriveCompletes(e: Runtime, i: nat, p: Phase, x: Inputs)
    ensures Drive(e, i, p, x) == Completed <==> Completes(e, i, p, x)
    ensures Ask(e.m, x).Some? <==> e.m.decode(e.m.generate(x)).Some?
  {
    hide Drive, ServedWithin, DeadWithin;
    DriveOutcome(e, i, p, x);
  }

  lemma AskMeans(m: Model, x: Inputs, tokens: TokenCounts)
    requires Ask(m, x).Some?
    ensures var a, w := Ask(m, x).value, Finish(Ask(m, x).value, tokens);
            a.tokens == TokenCounts(Cost(m, x, false), Cost(m, x, true)) && Reports(m, m.generate(x), w) && w.tokens == tokens
  {
  }

  /** A window that is not lost to a dead engine ends as is due, and fails in exactly the phase that it fails in. */
  lemma FateIsDue(e: Runtime, b: Batch, i: nat)
    requires b.Valid() && i < |b.inputs| && FateOf(e, b, i) != Lost
    ensures Due(e, b, i, FateOf(e, b, i).result)
    ensures forall p :: FateOf(e, b, i).FailedIn? && FateOf(e, b, i).phase == p <==> FailsIn(e, b, i, p)
  {
    hide Drive, Completes, Ask, Finish, Cost, Reports;
    if b.inputs[i] != map[] {
      var own := b.inputs[i];
      DriveCompletes(e, i, Stage1, own);
      if CompletesFirst(e, b, i) {
        var first := Ask(e.m, own).value;
        AskMeans(e.m, own, first.tokens);
        if RefinedInputs(e.m, b, i).Some? {
          var x := RefinedInputs(e.m, b, i).value;
          DriveCompletes(e, i, Stage2, x);
          if CompletesSecond(e, b, i) {
            AskMeans(e.m, x, first.tokens.Plus(Ask(e.m, x).value.tokens));
          }
        }
      }
    }
  }

  /** A window is lost exactly when one of its requests finds the engine dead before it is served. */
  lemma LostMeans(e: Runtime, b: Batch, i: nat)
    requires b.Valid() && i < |b.inputs|
    ensures FateOf(e, b, i) == Lost <==>
            && b.inputs[i] != map[]
            && (|| DeadWithin(e, i, Stage1, b.inputs[i], 0)
                || (CompletesFirst(e, b, i) && RefinedInputs(e.m, b, i).Some?
                    && DeadWithin(e, i, Stage2, RefinedInputs(e.m, b, i).value, 0)))
  {
    hide Drive, Completes, Ask, ServedWithin, DeadWithin;
    DriveOutcome(e, i, Stage1, b.inputs[i]);
    DriveCompletes(e, i, Stage1, b.inputs[i]);
    if RefinedInputs(e.m, b, i).Some? {
      DriveOutcome(e, i, Stage2, RefinedInputs(e.m, b, i).value);
    }
  }

  /** A window with inputs whose requests are served within their retries, and which has a right result, gets it and
      does not fail. */
  lemma ServedIsRight(e: Runtime, b: Batch, i: nat)
    requires b.Valid() && i < |b.inputs| && b.inputs[i] != map[] && WellServed(e, b, i)
    requires exists w :: Right(e.m, b.inputs[i], b.prompts[i], w)
    ensures FateOf(e, b, i).Answered? && Right(e.m, b.inputs[i], b.prompts[i], FateOf(e, b, i).result)
  {
    hide FateOf, WellServed, ItemSpec, Right;
    var w :| Right(e.m, b.inputs[i], b.prompts[i], w);
    ItemSpecIsRight(e.m, b, i, w);
    AnsweredIff(e, b, i);
  }

  /** Every window has inputs, is served within its retries and can be captioned. */
  ghost predicate AllGoesWell(e: Runtime, b: Batch)
    requires b.Valid()
  {
    Captionable(e.m, b) && forall i: nat :: i < |b.inputs| ==> b.inputs[i] != map[] && WellServed(e, b, i)
  }

  /** Then no window fails or is lost, and the results are those of the synchronous drivers. */
  lemma GoesWell(e: Runtime, b: Batch)
    requires b.Valid() && AllGoesWell(e, b)
    ensures forall i: nat :: i < |b.inputs| ==> FateOf(e, b, i) == Answered(ItemSpec(e.m, b, i).value)
    ensures Captionable(e.m, b) && FailedOf(e, b) == map[]
  {
    hide FateOf, WellServed, ItemSpec;
    forall i: nat | i < |b.inputs| ensures FateOf(e, b, i) == Answered(ItemSpec(e.m, b, i).value) {
      AnsweredIff(e, b, i);
    }
  }

  /** Window `i` has its one outstanding request `r`, in phase `p`. */
  ghost predicate Open(e: Runtime, b: Batch, s: Books, i: nat, r: CaptionRequest, p: Phase)
    requires b.Valid() && i < |b.inputs|
  {
    && b.inputs[i] != map[]
    && if p == Stage1 then
         i !in s.tokens && r.inputs == b.inputs[i] && r.stage2Prompt == b.prompts[i]
       else (
         && p == Stage2 && i in s.tokens
         && Drive(e, i, Stage1, b.inputs[i]) == Completed && s.tokens[i] == Ask(e.m, b.inputs[i]).value.tokens
         && b.prompts[i].Some? && r.stage2Prompt.None?
         && RefinedInputs(e.m, b, i) == Some(r.inputs))
  }

  function TokensSoFar(s: Books, i: nat): TokenCounts {
    if i in s.tokens then s.tokens[i] else NO_TOKENS
  }

  /** What the outcome of an open window's request means for the window. */
  lemma OutcomeDecides(e: Runtime, b: Batch, s: Books, i: nat, r: CaptionRequest, p: Phase)
    requires b.Valid() && i < |b.inputs| && Open(e, b, s, i, r, p)
    ensures Drive(e, i, p, r.inputs) == EngineDead ==> FateOf(e, b, i) == Lost
    ensures Drive(e, i, p, r.inputs) == Failed ==> FateOf(e, b, i) == FailedIn(p, Unknown(TokensSoFar(s, i)))
    ensures Drive(e, i, p, r.inputs) == Completed ==>
              var a := Ask(e.m, r.inputs).value;
              if r.stage2Prompt.None? then
                FateOf(e, b, i) == Answered(Finish(a, TokensSoFar(s, i).Plus(a.tokens)))
              else
                && p == Stage1 && r.inputs == b.inputs[i] && r.stage2Prompt == b.prompts[i]
                && (RefinedInputs(e.m, b, i).None? ==> FateOf(e, b, i) == FailedIn(Stage2Build, Unknown(a.tokens)))
  {
    hide Drive, Ask;
  }

  lemma OpenHasInputs(e: Runtime, b: Batch, s: Books, i: nat, r: CaptionRequest, p: Phase)
    requires b.Valid() && i < |b.inputs| && Open(e, b, s, i, r, p)
    ensures b.inputs[i] != map[]
    ensures r.stage2Prompt.Some? ==> i !in s.tokens
  {
  }

  /** `log` calls back once for each entry of `m`, with its value. */
  ghost predicate FiredOnce<V>(log: seq<(nat, V)>, m: map<nat, V>) {
    && (forall k :: 0 <= k < |log| ==> log[k].0 in m && m[log[k].0] == log[k].1)
    && (forall i :: i in m ==> (i, m[i]) in log)
    && (forall j, k :: 0 <= j < k < |log| ==> log[j].0 != log[k].0)
  }

  lemma FiredFirst<V>(log: seq<(nat, V)>, m: map<nat, V>)
    requires FiredOnce(log, m) && log != []
    ensures log[0].0 in m
  {
  }

  lemma FiredAgain<V>(log: seq<(nat, V)>, m: map<nat, V>, i: nat, v: V)
    requires FiredOnce(log, m) && i !in m
    ensures FiredOnce(log + [(i, v)], m[i := v])
  {
    var log', m' := log + [(i, v)], m[i := v];
    assert log'[|log|] == (i, v);
    forall j | j in m' ensures (j, m'[j]) in log' {
      assert j != i ==> (j, m[j]) in log;
    }
  }

  /** Window `i` has ended as it should, with result `w`; `failed` records it exactly when it failed. */
  ghost predicate Ended(e: Runtime, b: Batch, failed: map<nat, Phase>, i: nat, w: WindowResult)
    requires b.Valid() && i < |b.inputs|
  {
    match FateOf(e, b, i)
    case Answered(x) => w == x && i !in failed
    case FailedIn(p, x) => w == x && i in failed && failed[i] == p
    case Lost => false
  }

  /** The books of a run of which `count` windows have been yielded: each of those has either exactly one
      pending task or exactly one result, which is the one due to it. While its task is being handled, the
      window in `busy` has neither. */
  ghost predicate Inv(e: Runtime, b: Batch, count: nat, s: Books, live: map<nat, Task>,
                      phase: map<Task, Phase>, failed: map<nat, Phase>, busy: set<nat>)
    requires b.Valid()
  {
    && count <= |b.inputs|
    && (forall i: nat :: i < count && i !in busy ==> (i in live <==> i !in s.results))
    && (forall i :: i in busy ==> i < count && i !in live && i !in s.results)
    && (forall i :: i in live ==>
          && i < count && live[i] in phase
          && live[i].request.requestId in s.index && s.index[live[i].request.requestId] == i
          && Open(e, b, s, i, live[i].request, phase[live[i]]))
    && (forall i :: i in s.results ==> i < count && Ended(e, b, failed, i, s.results[i]))
    && (forall i :: i in s.tokens ==> i < count)
    && (forall i :: i in failed ==> i in s.results)
  }

  /** The pending tasks are exactly the tasks of the open windows. */
  ghost predicate Tasked(index: map<nat, nat>, live: map<nat, Task>, pending: map<Task, CaptionRequest>, phase: map<Task, Phase>) {
    && pending.Keys == phase.Keys
    && (forall t :: t in pending ==>
          && pending[t] == t.request && t.request.requestId in index
          && index[t.request.requestId] in live && live[index[t.request.requestId]] == t)
    && (forall i :: i in live ==> live[i] in pending)
  }

  /** Taking window `i`'s task out to handle it. */
  lemma Taken(e: Runtime, b: Batch, count: nat, s: Books, live: map<nat, Task>, phase: map<Task, Phase>,
              failed: map<nat, Phase>, i: nat)
    requires b.Valid() && Inv(e, b, count, s, live, phase, failed, {}) && i in live
    ensures Inv(e, b, count, s, live - {i}, phase - {live[i]}, failed, {i})
    ensures i < count && i !in s.results && i !in failed && Open(e, b, s, i, live[i].request, phase[live[i]])
  {
    forall j | j in live && j != i
      ensures live[j] in phase - {live[i]} && Open(e, b, s, j, live[j].request, (phase - {live[i]})[live[j]])
    {
      assert Open(e, b, s, j, live[j].request, phase[live[j]]);
      assert live[j].request.requestId in s.index && s.index[live[j].request.requestId] == j;
    }
  }

  lemma TaskedTaken(index: map<nat, nat>, live: map<nat, Task>, pending: map<Task, CaptionRequest>, phase: map<Task, Phase>, t: Task)
    requires Tasked(index, live, pending, phase) && t in pending
    requires forall i :: i in live ==> live[i].request.requestId in index && index[live[i].request.requestId] == i
    ensures Tasked(index, live - {index[t.request.requestId]}, pending - {t}, phase - {t})
  {
  }

  lemma TaskedContinued(index: map<nat, nat>, live: map<nat, Task>, pending: map<Task, CaptionRequest>, phase: map<Task, Phase>,
                        i: nat, t: Task, p: Phase)
    requires Tasked(index, live, pending, phase) && t !in pending && i !in live && t.request.requestId !in index
    ensures Tasked(index[t.request.requestId := i], live[i := t],
                   pending[t := t.request], phase[t := p])
  {
  }

  lemma IndexInverse(e: Runtime, b: Batch, count: nat, s: Books, live: map<nat, Task>, phase: map<Task, Phase>,
                     failed: map<nat, Phase>, busy: set<nat>)
    requires b.Valid() && Inv(e, b, count, s, live, phase, failed, busy)
    ensures forall i :: i in live ==> live[i].request.requestId in s.index && s.index[live[i].request.requestId] == i
  {
  }

  lemma Initially(e: Runtime, b: Batch)
    requires b.Valid()
    ensures Inv(e, b, 0, Books(map[], map[], map[]), map[], map[], map[], {}) && Tasked(map[], map[], map[], map[])
    ensures FiredOnce<WindowResult>([], map[]) && FiredOnce<Phase>([], map[])
  {
  }

  lemma IndexGrows(e: Runtime, b: Batch, count: nat, s: Books, live: map<nat, Task>, phase: map<Task, Phase>,
                   failed: map<nat, Phase>, busy: set<nat>, id: nat, i: nat)
    requires b.Valid() && Inv(e, b, count, s, live, phase, failed, busy) && id !in s.index
    ensures Inv(e, b, count, s.(index := s.index[id := i]), live, phase, failed, busy)
  {
    forall j | j in live ensures Open(e, b, s.(index := s.index[id := i]), j, live[j].request, phase[live[j]]) {
      assert Open(e, b, s, j, live[j].request, phase[live[j]]);
    }
  }

  lemma TaskedGrows(index: map<nat, nat>, live: map<nat, Task>, pending: map<Task, CaptionRequest>,
                    phase: map<Task, Phase>, id: nat, i: nat)
    requires Tasked(index, live, pending, phase) && id !in index
    ensures Tasked(index[id := i], live, pending, phase)
  {
  }

  /** With no task pending, every window has ended as it should. */
  lemma AllEnded(e: Runtime, b: Batch, s: Books, live: map<nat, Task>, pending: map<Task, CaptionRequest>,
                 phase: map<Task, Phase>, failed: map<nat, Phase>)
    requires b.Valid() && Inv(e, b, |b.inputs|, s, live, phase, failed, {})
    requires Tasked(s.index, live, pending, phase) && pending == map[]
    ensures forall i: nat :: i < |b.inputs| ==>
              i in s.results && FateOf(e, b, i) != Lost && FateOf(e, b, i).result == s.results[i]
    ensures forall i :: i in s.results ==> i < |b.inputs|
    ensures failed == FailedOf(e, b)
  {
    hide Open, FateOf;
    assert forall i :: i !in live;
    forall i: nat | i < |b.inputs| ensures i in s.results && Ended(e, b, failed, i, s.results[i]) {
    }
  }

  /** Counting tokens for the busy window disturbs nothing. */
  lemma CountedBusy(e: Runtime, b: Batch, count: nat, s: Books, live: map<nat, Task>, phase: map<Task, Phase>,
                    failed: map<nat, Phase>, i: nat, t: TokenCounts)
    requires b.Valid() && Inv(e, b, count, s, live, phase, failed, {i})
    ensures Inv(e, b, count, CountTokens(s, i, t), live, phase, failed, {i})
  {
    hide Ended, Drive, Ask, RefinedInputs;
    assert i in {i};
    forall j | j in live ensures Open(e, b, CountTokens(s, i, t), j, live[j].request, phase[live[j]]) {
      assert Open(e, b, s, j, live[j].request, phase[live[j]]);
    }
  }

  /** A window's end is not changed by how another window ends. */
  lemma OthersEnded(e: Runtime, b: Batch, failed: map<nat, Phase>, failed': map<nat, Phase>, i: nat,
                    results: map<nat, WindowResult>)
    requires b.Valid() && forall j :: j != i ==> (j in failed' <==> j in failed) && (j in failed ==> failed'[j] == failed[j])
    requires forall j :: j in results ==> j < |b.inputs| && j != i && Ended(e, b, failed, j, results[j])
    ensures forall j :: j in results ==> Ended(e, b, failed', j, results[j])
  {
    hide FateOf;
  }

  /** The busy window gets its result `w`; `failed'` records it when it failed. */
  lemma Closed(e: Runtime, b: Batch, count: nat, s: Books, live: map<nat, Task>, phase: map<Task, Phase>,
               failed: map<nat, Phase>, i: nat, w: WindowResult, failed': map<nat, Phase>)
    requires b.Valid() && Inv(e, b, count, s, live, phase, failed, {i})
    requires i in {i} && i < |b.inputs|
    requires failed' == failed || (i in failed' && failed' == failed[i := failed'[i]])
    requires FateOf(e, b, i) == if failed' == failed then Answered(w) else FailedIn(failed'[i], w)
    ensures Inv(e, b, count, s.(results := s.results[i := w]), live, phase, failed', {})
  {
    hide Drive, Ask, RefinedInputs, FateOf;
    var s' := s.(results := s.results[i := w]);
    assert i !in s.results && i !in failed;
    assert Ended(e, b, failed', i, w);
    OthersEnded(e, b, failed, failed', i, s.results);
    forall j | j in live ensures Open(e, b, s', j, live[j].request, phase[live[j]]) {
      assert Open(e, b, s, j, live[j].request, phase[live[j]]);
    }
    hide Open, Ended;
  }

  /** The busy window goes on with task `t`. */
  lemma Continued(e: Runtime, b: Batch, count: nat, s: Books, live: map<nat, Task>, phase: map<Task, Phase>,
                  failed: map<nat, Phase>, i: nat, t: Task, p: Phase)
    requires b.Valid() && Inv(e, b, count, s, live, phase, failed, {i})
    requires i in {i} && i < |b.inputs|
    requires t.request.requestId !in s.index && t !in phase
    requires Open(e, b, s, i, t.request, p)
    ensures Inv(e, b, count, s.(index := s.index[t.request.requestId := i]), live[i := t], phase[t := p], failed, {})
  {
    hide Drive, Ask, RefinedInputs, Ended;
    var s' := s.(index := s.index[t.request.requestId := i]);
    assert Open(e, b, s', i, t.request, p);
    forall j | j in live ensures j != i && Open(e, b, s', j, live[j].request, phase[t := p][live[j]]) {
      assert Open(e, b, s, j, live[j].request, phase[live[j]]);
    }
  }

  /** The next window is yielded and handled at once. */
  lemma Yielded(e: Runtime, b: Batch, count: nat, s: Books, live: map<nat, Task>, phase: map<Task, Phase>,
                failed: map<nat, Phase>)
    requires b.Valid() && Inv(e, b, count, s, live, phase, failed, {}) && count < |b.inputs|
    ensures Inv(e, b, count + 1, s, live, phase, failed, {count})
    ensures count !in s.tokens
  {
    assert count in {count};
  }

  method SomeTasks(s: set<Task>) returns (d: set<Task>)
    requires s != {}
    ensures d <= s && d != {}
  {
    d :| d <= s && d != {};
  }

  class Captioner {
    const e: Runtime
    var index: map<nat, nat>
    var results: map<nat, WindowResult>
    var tokenCounts: map<nat, TokenCounts>
    var pending: map<Task, CaptionRequest>
    var phase: map<Task, Phase>
    var doneLog: seq<(nat, WindowResult)>  // the calls of on_window_done
    var errorLog: seq<(nat, Phase)>        // the calls of on_window_error
    ghost var live: map<nat, Task>
    ghost var failed: map<nat, Phase>

    constructor (e: Runtime)
      ensures this.e == e && Idle()
    {
      this.e := e;
      index, results, tokenCounts := map[], map[], map[];
      pending, phase, doneLog, errorLog := map[], map[], [], [];
      live, failed := map[], map[];
    }

    ghost predicate Idle()
      reads this
    {
      && index == map[] && results == map[] && tokenCounts == map[] && pending == map[] && phase == map[]
      && doneLog == [] && errorLog == [] && live == map[] && failed == map[]
    }

    ghost function Books(): Books
      reads this
    {
      CaptionRequests.Books(index, tokenCounts, results)
    }

    ghost predicate Handling(b: Batch, count: nat, busy: set<nat>)
      requires b.Valid()
      reads this
    {
      && Inv(e, b, count, Books(), live, phase, failed, busy)
      && Tasked(index, live, pending, phase)
      && FiredOnce(doneLog, results)
      && FiredOnce(errorLog, failed)
    }

    /** Holds between handlers, after `count` windows have been yielded. */
    ghost predicate Valid(b: Batch, count: nat)
      requires b.Valid()
      reads this
    {
      Handling(b, count, {})
    }

    /** Records window `idx`'s terminal result and fires its callback. */
    method Emit(idx: nat, result: WindowResult)
      requires FiredOnce(doneLog, results) && idx !in results
      modifies this`results, this`doneLog
      ensures results == old(results)[idx := result] && FiredOnce(doneLog, results)
    {
      FiredAgain(doneLog, results, idx, result);
      results := results[idx := result];
      doneLog := doneLog + [(idx, result)];
    }

    method EmitFinal(idx: nat, request: CaptionRequest)
      requires FiredOnce(doneLog, results) && idx !in results && idx in tokenCounts
      modifies this`results, this`doneLog
      ensures FiredOnce(doneLog, results)
      ensures idx in results && results == old(results)[idx := results[idx]]
      ensures forall a :: request.Holds(a) ==> results[idx] == Finish(a, tokenCounts[idx])
    {
      var result := MakeWindowResult(request, tokenCounts[idx]);
      Emit(idx, result);
    }

    method EmitUnknown(idx: nat)
      requires FiredOnce(doneLog, results) && idx !in results
      modifies this`results, this`doneLog
      ensures FiredOnce(doneLog, results)
      ensures results == old(results)[idx := Unknown(if idx in tokenCounts then tokenCounts[idx] else NO_TOKENS)]
    {
      var tc := if idx in tokenCounts then tokenCounts[idx] else NO_TOKENS;
      Emit(idx, Unknown(tc));
    }

    /** Tells on_window_error, once, that window `idx` failed in phase `p`. */
    method ReportError(idx: nat, p: Phase)
      requires FiredOnce(errorLog, failed) && idx !in failed
      modifies this`errorLog, this`failed
      ensures failed == old(failed)[idx := p] && FiredOnce(errorLog, failed)
      ensures errorLog == old(errorLog) + [(idx, p)]
    {
      FiredAgain(errorLog, failed, idx, p);
      errorLog := errorLog + [(idx, p)];
      failed := failed[idx := p];
    }

    method Spawn(request: CaptionRequest, p: Phase) returns (task: Task)
      modifies this`pending, this`phase
      ensures fresh(task) && task.request == request
      ensures pending == old(pending)[task := request] && phase == old(phase)[task := p]
    {
      task := new Task(request);
      pending := pending[task := request];
      phase := phase[task := p];
    }

    /** Drives window `i`'s request of phase `p` through the engine. The request is written only when an attempt
        succeeds. */
    method DriveRequest(request: CaptionRequest, i: nat, p: Phase) returns (outcome: Outcome, attempts: nat)
      modifies request
      ensures outcome == Drive(e, i, p, request.inputs)
      ensures attempts == 1 || 1 < attempts <= e.maxRetries
      ensures forall k: nat :: k < attempts - 1 ==>
                !e.attempt(i, p, k).Dead? && (e.attempt(i, p, k).Served? ==> e.m.generate(request.inputs).outputs == [])
      ensures match outcome
              case EngineDead => e.attempt(i, p, attempts - 1).Dead?
              case Completed =>
                && e.attempt(i, p, attempts - 1).Served? && e.m.generate(request.inputs).outputs != []
                && e.m.decode(e.m.generate(request.inputs)).Some?
              case Failed =>
                || attempts >= e.maxRetries
                || (e.attempt(i, p, attempts - 1).Served? && e.m.generate(request.inputs).outputs != []
                    && e.m.decode(e.m.generate(request.inputs)).None?)
      ensures outcome == Completed ==> request.Holds(Ask(e.m, request.inputs).value)
    {
      attempts := 0;
      var generation := e.m.generate(request.inputs);
      while true
        invariant forall k: nat :: k < attempts ==>
                    !e.attempt(i, p, k).Dead? && (e.attempt(i, p, k).Served? ==> generation.outputs == [])
        invariant attempts < e.Tries() && Drive(e, i, p, request.inputs) == DriveFrom(e, i, p, request.inputs, attempts)
        decreases e.Tries() - attempts
      {
        var attempt := e.attempt(i, p, attempts);
        attempts := attempts + 1;
        if attempt == Dead {
          return EngineDead, attempts;
        }
        if attempt == Served && generation.outputs != [] {
          break;
        }
        if attempts >= e.maxRetries {
          return Failed, attempts;
        }
      }
      var ok := request.Populate(e.m, generation);
      outcome := if ok then Completed else Failed;
    }

    /** Takes a task out of the pending ones; its window is then being handled. */
    method Take(ghost b: Batch, ghost count: nat, task: Task) returns (req: CaptionRequest, p: Phase, idx: nat)
      requires b.Valid() && Valid(b, count) && task in pending
      modifies this`pending, this`phase, this`live
      ensures task in old(phase) && old(pending)[task] == task.request
      ensures req == task.request && p == old(phase)[task] && req.requestId in index && idx == index[req.requestId]
      ensures Handling(b, count, {idx}) && pending == old(pending) - {task}
      ensures idx < |b.inputs| && idx !in results && idx !in failed && idx !in live && Open(e, b, Books(), idx, req, p)
    {
      hide Inv, FiredOnce, Open;
      req, p := pending[task], phase[task];
      idx := index[req.requestId];
      IndexInverse(e, b, count, Books(), live, phase, failed, {});
      TaskedTaken(index, live, pending, phase, task);
      Taken(e, b, count, Books(), live, phase, failed, idx);
      pending, phase, live := pending - {task}, phase - {task}, live - {idx};
    }

    /** Closes the busy window as unknown, with the tokens counted so far, and reports phase `p`. */
    method CloseFailed(ghost b: Batch, ghost count: nat, idx: nat, p: Phase)
      requires b.Valid() && Handling(b, count, {idx}) && idx < |b.inputs| && idx !in results && idx !in failed
      requires FateOf(e, b, idx) == FailedIn(p, Unknown(TokensSoFar(Books(), idx)))
      modifies this`results, this`doneLog, this`errorLog, this`failed
      ensures Valid(b, count) && idx in results && forall i :: i in old(results) ==> i in results
      ensures errorLog == old(errorLog) + [(idx, p)]
    {
      hide Inv, FiredOnce, Tasked, FateOf;
      Closed(e, b, count, Books(), live, phase, failed, idx, Unknown(TokensSoFar(Books(), idx)), failed[idx := p]);
      EmitUnknown(idx);
      ReportError(idx, p);
    }

    /** Closes the busy window with its final answer. */
    method CloseFinal(ghost b: Batch, ghost count: nat, idx: nat, req: CaptionRequest, ghost a: Answer)
      requires b.Valid() && Handling(b, count, {idx}) && idx < |b.inputs| && idx !in results && idx !in failed
      requires idx in tokenCounts && req.Holds(a) && FateOf(e, b, idx) == Answered(Finish(a, tokenCounts[idx]))
      modifies this`results, this`doneLog
      ensures Valid(b, count) && idx in results && forall i :: i in old(results) ==> i in results
    {
      hide Inv, FiredOnce, Tasked, FateOf;
      Closed(e, b, count, Books(), live, phase, failed, idx, Finish(a, tokenCounts[idx]), failed);
      EmitFinal(idx, req);
    }

    /** Gives the busy window the task for `request`. */
    method Continue(ghost b: Batch, ghost count: nat, idx: nat, request: CaptionRequest, p: Phase)
      requires b.Valid() && Handling(b, count, {idx}) && idx < |b.inputs| && idx !in live
      requires request.requestId !in index && Open(e, b, Books(), idx, request, p)
      modifies this`index, this`pending, this`phase, this`live
      ensures Valid(b, count) && idx in live
      ensures index == old(index)[request.requestId := idx]
      ensures exists t :: t in pending && fresh(t) && t.request == request && pending == old(pending)[t := request]
    {
      hide Inv, FiredOnce, Tasked;
      var t := Spawn(request, p);
      TaskedContinued(index, live, old(pending), old(phase), idx, t, p);
      Continued(e, b, count, Books(), live, old(phase), failed, idx, t, p);
      index := index[request.requestId := idx];
      live := live[idx := t];
    }

    /** Adds a finished request's tokens to the busy window's count. */
    method Count(ghost b: Batch, ghost count: nat, idx: nat, req: CaptionRequest)
      requires b.Valid() && Handling(b, count, {idx})
      modifies this`tokenCounts
      ensures Handling(b, count, {idx})
      ensures Books() == CountTokens(old(Books()), idx, TokenCounts(req.promptTokens, req.outputTokens))
    {
      hide Inv, FiredOnce, Tasked;
      CountedBusy(e, b, count, Books(), live, phase, failed, idx, TokenCounts(req.promptTokens, req.outputTokens));
      var prev := if idx in tokenCounts then tokenCounts[idx] else NO_TOKENS;
      tokenCounts := tokenCounts[idx := prev.Plus(TokenCounts(req.promptTokens, req.outputTokens))];
    }

    /** Builds the stage-2 request of the busy window, whose first answer `a` has just been counted, and
        spawns it; a plugin failure closes the window. */
    method Refine(ghost b: Batch, ghost count: nat, idx: nat, req: CaptionRequest, ghost a: Answer)
      requires b.Valid() && Handling(b, count, {idx}) && idx < |b.inputs|
      requires idx !in results && idx !in failed && idx !in live && b.inputs[idx] != map[]
      requires req.inputs == b.inputs[idx] && req.stage2Prompt == b.prompts[idx] && req.stage2Prompt.Some?
      requires Drive(e, idx, Stage1, req.inputs) == Completed
      requires Ask(e.m, req.inputs) == Some(a) && req.Holds(a) && idx in tokenCounts && tokenCounts[idx] == a.tokens
      requires RefinedInputs(e.m, b, idx).None? ==> FateOf(e, b, idx) == FailedIn(Stage2Build, Unknown(a.tokens))
      modifies this`index, this`results, this`pending, this`phase, this`doneLog, this`errorLog, this`live, this`failed
      ensures Valid(b, count) && forall i :: i in old(results) ==> i in results
      ensures old(pending.Keys) <= pending.Keys
      ensures forall t :: t in pending && t !in old(pending) ==> fresh(t) && fresh(t.request)
      ensures if RefinedInputs(e.m, b, idx).None? then errorLog == old(errorLog) + [(idx, Stage2Build)]
              else errorLog == old(errorLog)
    {
      hide Inv, FiredOnce, Tasked, FateOf, Drive;
      var refined := e.m.refine(req.inputs, req.caption.value, req.stage2Prompt.value);
      assert RefinedInputs(e.m, b, idx) == refined;
      if refined.None? {
        CloseFailed(b, count, idx, Stage2Build);
      } else {
        var id := FreshId(index.Keys);
        var request := new CaptionRequest(id, refined.value, None);
        Continue(b, count, idx, request, Stage2);
      }
    }

    /** Routes one completed task. A dead engine only takes the task out, and true is returned for the
        exception. Otherwise the window is finished, or reported exactly once as failed, or moves on to
        its stage-2 task; other tasks are untouched. */
    method HandleCompleted(ghost b: Batch, ghost count: nat, task: Task, outcome: Outcome) returns (dead: bool)
      requires b.Valid() && Valid(b, count) && task in pending
      requires task in phase && task.request.requestId in index
      requires outcome == Drive(e, index[task.request.requestId], phase[task], task.request.inputs)
      requires outcome == Completed ==> task.request.Holds(Ask(e.m, task.request.inputs).value)
      modifies this
      ensures dead <==> outcome == EngineDead
      ensures dead ==> results == old(results) && doneLog == old(doneLog) && errorLog == old(errorLog)
      ensures dead ==> exists i: nat :: i < |b.inputs| && FateOf(e, b, i) == Lost && Handling(b, count, {i})
      ensures !dead ==> Valid(b, count) && old(pending.Keys) - {task} <= pending.Keys
      ensures !dead ==> forall t :: t in pending && t !in old(pending) ==> fresh(t) && fresh(t.request)
      ensures !dead ==> Milestones(Books(), |b.inputs|) > old(Milestones(Books(), |b.inputs|))
      ensures outcome == Failed ==>
                errorLog == old(errorLog) + [(old(index)[task.request.requestId], old(phase)[task])]
      ensures outcome == Completed && errorLog != old(errorLog) ==>
                task.request.stage2Prompt.Some? &&
                errorLog == old(errorLog) + [(old(index)[task.request.requestId], Stage2Build)]
    {
      hide Inv, FiredOnce, Tasked, Milestones, FateOf, Drive, Ask, Open;
      ghost var s := Books();
      var req, p, idx := Take(b, count, task);
      OutcomeDecides(e, b, Books(), idx, req, p);
      OpenHasInputs(e, b, Books(), idx, req, p);
      if outcome == EngineDead {
        return true;
      }
      dead := false;
      if outcome == Failed {
        CloseFailed(b, count, idx, p);
      } else {
        ghost var a := Ask(e.m, req.inputs).value;
        Count(b, count, idx, req);
        if req.stage2Prompt.None? {
          CloseFinal(b, count, idx, req, a);
        } else {
          Refine(b, count, idx, req, a);
        }
      }
      MilestonesGrow(s, Books(), idx, |b.inputs|);
    }

    /** Spawns the next request, or answers its window at once when its inputs are empty. */
    method Yield(ghost b: Batch, ghost requests: seq<CaptionRequest>, idx: nat, request: CaptionRequest)
      requires b == BatchOf(requests) && idx < |requests| && requests[idx] == request
      requires Valid(b, idx) && request.requestId !in index
      modifies this
      ensures Valid(b, idx + 1) && index == old(index)[request.requestId := idx]
      ensures forall t :: t in pending ==> t in old(pending) || (fresh(t) && t.request == request)
      ensures errorLog == old(errorLog)
    {
      hide Inv, FiredOnce, Tasked;
      Yielded(e, b, idx, Books(), live, phase, failed);
      if request.inputs == map[] {
        IndexGrows(e, b, idx + 1, Books(), live, phase, failed, {idx}, request.requestId, idx);
        TaskedGrows(index, live, pending, phase, request.requestId, idx);
        index := index[request.requestId := idx];
        Closed(e, b, idx + 1, Books(), live, phase, failed, idx, Unknown(NO_TOKENS), failed);
        EmitUnknown(idx);
      } else {
        Continue(b, idx + 1, idx, request, Stage1);
      }
    }

    method YieldAll(requests: seq<CaptionRequest>)
      requires Idle() && DistinctRequests(requests)
      modifies this
      ensures Valid(BatchOf(requests), |requests|)
      ensures forall t :: t in pending ==> t.request in requests
    {
      hide Inv, FiredOnce, Tasked;
      ghost var b := BatchOf(requests);
      assert Valid(b, 0) by {
        Initially(e, b);
      }
      for idx := 0 to |requests|
        invariant Valid(b, idx)
        invariant forall k :: idx <= k < |requests| ==> requests[k].requestId !in index
        invariant forall t :: t in pending ==> t.request in requests
      {
        Yield(b, requests, idx, requests[idx]);
      }
    }

    /** What holds of the callbacks at any time, also when the run has raised: each was called at most once for
        a window, with what is due to that window. */
    ghost predicate Truthful(b: Batch)
      requires b.Valid()
      reads this
    {
      && FiredOnce(doneLog, results) && FiredOnce(errorLog, failed)
      && (forall i :: i in results ==> i < |b.inputs| && Ended(e, b, failed, i, results[i]))
      && (forall i :: i in failed ==> i in results)
    }

    /** Cancels whatever is still pending. */
    method CancelPending(ghost b: Batch)
      requires b.Valid() && Truthful(b)
      modifies this`pending, this`phase
      ensures pending == map[] && phase == map[] && Truthful(b)
    {
      hide FiredOnce, Ended;
      pending, phase := map[], map[];
    }

    /** The pending task's window and phase, by which its request is driven. */
    ghost predicate Driven(b: Batch, task: Task)
      requires b.Valid()
      reads this
    {
      task in phase && task.request.requestId in index
    }

    lemma PendingDriven(b: Batch, task: Task)
      requires b.Valid() && Valid(b, |b.inputs|) && task in pending
      ensures Driven(b, task)
    {
    }

    lemma HandlingIsTruthful(b: Batch, busy: set<nat>)
      requires b.Valid() && Handling(b, |b.inputs|, busy)
      ensures Truthful(b)
    {
    }

    /** With nothing pending, every window has ended as it should. */
    lemma NothingPending(b: Batch)
      requires b.Valid() && Valid(b, |b.inputs|) && pending == map[]
      ensures Truthful(b) && failed == FailedOf(e, b)
      ensures forall i: nat :: i < |b.inputs| ==>
                i in results && FateOf(e, b, i) != Lost && FateOf(e, b, i).result == results[i]
      ensures forall i :: i in results ==> i < |b.inputs|
    {
      AllEnded(e, b, Books(), live, pending, phase, failed);
    }

    /** Handles a nonempty set of completed tasks, in any order, up to the first that finds the engine dead. */
    method HandleDone(ghost b: Batch, done0: set<Task>, ghost mine0: set<CaptionRequest>)
        returns (dead: bool, ghost mine: set<CaptionRequest>)
      requires b.Valid() && Valid(b, |b.inputs|) && done0 != {} && done0 <= pending.Keys
      requires forall t :: t in pending ==> t.request in mine0
      modifies this, mine0
      ensures dead ==> Truthful(b) && exists i: nat :: i < |b.inputs| && FateOf(e, b, i) == Lost
      ensures !dead ==> Valid(b, |b.inputs|) && Milestones(Books(), |b.inputs|) > old(Milestones(Books(), |b.inputs|))
      ensures !dead ==> fresh(mine - mine0) && forall t :: t in pending ==> t.request in mine
    {
      hide Handling, Milestones, FateOf, Truthful, Ended, Drive, Ask, CaptionRequest.Holds;
      mine := mine0;
      var done := done0;
      ghost var before := Milestones(Books(), |b.inputs|);
      while done != {}
        invariant Valid(b, |b.inputs|)
        invariant done <= pending.Keys && done <= done0
        invariant fresh(mine - mine0) && forall t :: t in pending ==> t.request in mine
        invariant Milestones(Books(), |b.inputs|) >= before + if done == done0 then 0 else 1
        decreases done
      {
        var task :| task in done;
        done := done - {task};
        PendingDriven(b, task);
        var outcome, _ := DriveRequest(task.request, index[task.request.requestId], phase[task]);
        dead := HandleCompleted(b, |b.inputs|, task, outcome);
        if dead {
          ghost var i: nat :| i < |b.inputs| && FateOf(e, b, i) == Lost && Handling(b, |b.inputs|, {i});
          HandlingIsTruthful(b, {i});
          return;
        }
        mine := mine + set t | t in pending :: t.request;
      }
      dead := false;
    }

    /** For every order in which the tasks complete: raises (None) exactly when some window is lost to a dead engine,
        and otherwise returns exactly the result due to each window, in input order. Whether or not it raises,
        each callback has fired at most once for a window and truthfully; when it returns, on_window_done has
        fired for every window and on_window_error for exactly those that failed. No task outlives the run. */
    method Run(requests: seq<CaptionRequest>) returns (r: Option<seq<WindowResult>>)
      requires Idle() && DistinctRequests(requests)
      modifies this, requests
      ensures pending == map[] && phase == map[]
      ensures Truthful(BatchOf(requests))
      ensures r.None? <==> exists i: nat :: i < |requests| && FateOf(e, BatchOf(requests), i) == Lost
      ensures r.Some? ==> |r.value| == |requests| && failed == FailedOf(e, BatchOf(requests))
      ensures r.Some? ==> forall i: nat :: i < |requests| ==>
                && i in results && results[i] == r.value[i]
                && FateOf(e, BatchOf(requests), i) != Lost && FateOf(e, BatchOf(requests), i).result == r.value[i]
      ensures r.Some? ==> forall i :: i in results ==> i < |requests|
    {
      hide Handling, Truthful, Milestones, FateOf, FailedOf, BatchOf;
      ghost var b := BatchOf(requests);
      ghost var mine := set q | q in requests;
      YieldAll(requests);
      while pending != map[]
        invariant Valid(b, |requests|)
        invariant forall t :: t in pending ==> t.request in mine
        invariant forall q :: q in mine ==> q in requests || fresh(q)
        decreases 2 * |requests| - Milestones(Books(), |requests|)
      {
        // The event loop reports some nonempty set of completed tasks.
        var done := SomeTasks(pending.Keys);
        var dead;
        dead, mine := HandleDone(b, done, mine);
        if dead {
          CancelPending(b);
          return None;
        }
      }
      NothingPending(b);
      CancelPending(b);
      var rs := results;
      r := Some(seq(|requests|, i requires 0 <= i < |requests| => rs[i]));
    }
  }

  /** What the calls logged say is so: no window has two calls of a kind, on_window_done was given the result due
      to its window, and on_window_error the phase in which its window fails. */
  ghost predicate Truly(e: Runtime, b: Batch, doneLog: seq<(nat, WindowResult)>, errorLog: seq<(nat, Phase)>)
    requires b.Valid()
  {
    && (forall j, k :: 0 <= j < k < |doneLog| ==> doneLog[j].0 != doneLog[k].0)
    && (forall j, k :: 0 <= j < k < |errorLog| ==> errorLog[j].0 != errorLog[k].0)
    && (forall k :: 0 <= k < |doneLog| ==>
          && doneLog[k].0 < |b.inputs| && FateOf(e, b, doneLog[k].0) != Lost
          && FateOf(e, b, doneLog[k].0).result == doneLog[k].1)
    && (forall k :: 0 <= k < |errorLog| ==>
          && errorLog[k].0 < |b.inputs| && FateOf(e, b, errorLog[k].0).FailedIn?
          && FateOf(e, b, errorLog[k].0).phase == errorLog[k].1)
  }

  lemma LogsAreTrue(e: Runtime, b: Batch, doneLog: seq<(nat, WindowResult)>, errorLog: seq<(nat, Phase)>,
                    results: map<nat, WindowResult>, failed: map<nat, Phase>)
    requires b.Valid() && FiredOnce(doneLog, results) && FiredOnce(errorLog, failed)
    requires forall i :: i in results ==> i < |b.inputs| && Ended(e, b, failed, i, results[i])
    requires forall i :: i in failed ==> i in results
    ensures Truly(e, b, doneLog, errorLog)
  {
    hide FateOf;
    forall k | 0 <= k < |doneLog|
      ensures doneLog[k].0 < |b.inputs| && FateOf(e, b, doneLog[k].0) != Lost && FateOf(e, b, doneLog[k].0).result == doneLog[k].1
    {
      assert Ended(e, b, failed, doneLog[k].0, results[doneLog[k].0]);
    }
    forall k | 0 <= k < |errorLog|
      ensures errorLog[k].0 < |b.inputs| && FateOf(e, b, errorLog[k].0).FailedIn?
      ensures FateOf(e, b, errorLog[k].0).phase == errorLog[k].1
    {
      assert Ended(e, b, failed, errorLog[k].0, results[errorLog[k].0]);
    }
  }

  lemma AllWell(e: Runtime, b: Batch, rs: seq<WindowResult>, errorLog: seq<(nat, Phase)>)
    requires b.Valid() && |rs| == |b.inputs| && Captionable(e.m, b)
    requires forall i: nat :: i < |b.inputs| ==> FateOf(e, b, i) == Answered(ItemSpec(e.m, b, i).value)
    requires forall i: nat :: i < |b.inputs| ==> FateOf(e, b, i).result == rs[i]
    requires FiredOnce(errorLog, map[])
    ensures BatchSpec(e.m, b) == Some(rs) && errorLog == []
  {
    hide FateOf, ItemSpec;
    assert rs == ListSpec(e.m, b);
    var none: map<nat, Phase> := map[];
    if errorLog != [] {
      FiredFirst(errorLog, none);
      assert false;
    }
  }

  /** The results `rs` and the calls of on_window_error are what they should be. */
  ghost predicate Settles(e: Runtime, b: Batch, rs: seq<WindowResult>, errorLog: seq<(nat, Phase)>)
    requires b.Valid()
  {
    && |rs| == |b.inputs| && (forall i: nat :: i < |rs| ==> Due(e, b, i, rs[i]))
    && (forall k :: 0 <= k < |errorLog| ==> errorLog[k].0 < |rs| && FailsIn(e, b, errorLog[k].0, errorLog[k].1))
    && (forall i: nat, p: Phase :: i < |rs| && FailsIn(e, b, i, p) ==> (i, p) in errorLog)
    && (forall i: nat :: i < |rs| && b.inputs[i] != map[] && WellServed(e, b, i)
                         && (exists w :: Right(e.m, b.inputs[i], b.prompts[i], w)) ==>
          Right(e.m, b.inputs[i], b.prompts[i], rs[i]) && forall k :: 0 <= k < |errorLog| ==> errorLog[k].0 != i)
  }

  lemma FatesSettle(e: Runtime, b: Batch, rs: seq<WindowResult>, errorLog: seq<(nat, Phase)>)
    requires b.Valid() && |rs| == |b.inputs| && FiredOnce(errorLog, FailedOf(e, b))
    requires forall i: nat :: i < |rs| ==> FateOf(e, b, i) != Lost && FateOf(e, b, i).result == rs[i]
    ensures Settles(e, b, rs, errorLog)
  {
    hide FateOf, Due, FailsIn, WellServed, Right;
    forall i: nat | i < |rs|
      ensures Due(e, b, i, rs[i])
      ensures forall p :: FateOf(e, b, i).FailedIn? && FateOf(e, b, i).phase == p <==> FailsIn(e, b, i, p)
    {
      FateIsDue(e, b, i);
    }
    forall i: nat | i < |rs| && b.inputs[i] != map[] && WellServed(e, b, i)
                    && exists w :: Right(e.m, b.inputs[i], b.prompts[i], w)
      ensures Right(e.m, b.inputs[i], b.prompts[i], rs[i]) && FateOf(e, b, i).Answered?
    {
      ServedIsRight(e, b, i);
    }
    forall i: nat, p: Phase | i < |rs| && FailsIn(e, b, i, p) ensures (i, p) in errorLog {
      assert i in FailedOf(e, b) && FailedOf(e, b)[i] == p;
    }
  }

  /** The asynchronous entry point, for every order in which the tasks complete. It raises exactly when some window
      is lost to a dead engine; otherwise each result is the one due to its window, with one call of
      on_window_done per window and one of on_window_error for exactly the windows that fail. Calls made before
      an exception are truthful too. When all goes well, the results are those of the synchronous drivers. */
  method CaptionAsync(e: Runtime, requests: seq<CaptionRequest>)
      returns (r: Option<seq<WindowResult>>, doneLog: seq<(nat, WindowResult)>, errorLog: seq<(nat, Phase)>)
    requires DistinctRequests(requests)
    modifies requests
    ensures r.None? <==> exists i: nat :: i < |requests| && FateOf(e, BatchOf(requests), i) == Lost
    ensures r.Some? ==> |r.value| == |requests|
    ensures r.Some? ==> forall i: nat :: i < |requests| ==>
              FateOf(e, BatchOf(requests), i) != Lost && FateOf(e, BatchOf(requests), i).result == r.value[i]
    ensures r.Some? ==> FiredOnce(doneLog, map i: nat | i < |r.value| :: r.value[i])
    ensures r.Some? ==> FiredOnce(errorLog, FailedOf(e, BatchOf(requests)))
    ensures Truly(e, BatchOf(requests), doneLog, errorLog)
    ensures r.Some? ==> Settles(e, BatchOf(requests), r.value, errorLog)
    ensures AllGoesWell(e, BatchOf(requests)) ==> r == BatchSpec(e.m, BatchOf(requests)) && errorLog == []
    ensures AllGoesWell(e, BatchOf(requests)) ==>
              r.Some? && AnswersBatch(e.m, BatchOf(requests), r.value, Requested(e.m, BatchOf(requests), |requests|))
  {
    hide FateOf, FailedOf, BatchOf, FiredOnce, Truly, AllGoesWell, BatchSpec, Settles, AnswersBatch, Requested;
    var captioner := new Captioner(e);
    r := captioner.Run(requests);
    doneLog, errorLog := captioner.doneLog, captioner.errorLog;
    ghost var b := BatchOf(requests);
    LogsAreTrue(e, b, doneLog, errorLog, captioner.results, captioner.failed);
    if r.Some? {
      assert captioner.results == map i: nat | i < |r.value| :: r.value[i];
      FatesSettle(e, b, r.value, errorLog);
    }
    if AllGoesWell(e, b) {
      GoesWell(e, b);
      AllWell(e, b, r.value, errorLog);
      AnswersAll(e.m, b, r.value, Requested(e.m, b, |requests|));
    }
  }
}
