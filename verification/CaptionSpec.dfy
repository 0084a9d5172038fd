/** What captioning one window means, independently of any scheduler: ask the engine once, and
    when the window has a stage-2 prompt, ask it again with the refined inputs. */
module CaptionSpec {
  import opened Base

  /** A prompt payload; an empty dictionary marks a missing model input. */
  type Inputs = map<string, string>

  const UNKNOWN_CAPTION := "Unknown caption"

  datatype Completion = Completion(text: string, tokenIds: seq<int>, finishReason: Option<string>)

  /** What the engine produces for one request; absent prompt token ids are an empty list. */
  datatype Generation = Generation(promptTokenIds: seq<int>, outputs: seq<Completion>)

  datatype TokenCounts = TokenCounts(prompt: nat, output: nat) {
    function Plus(more: TokenCounts): TokenCounts {
      TokenCounts(prompt + more.prompt, output + more.output)
    }
  }

  const NO_TOKENS := TokenCounts(0, 0)

  datatype WindowResult = WindowResult(text: string, finishReason: Option<string>, tokens: TokenCounts)

  /** The engine as a function of a request's inputs, and the plugin's two hooks.
      `decode` and `refine` answer None where the plugin raises. */
  datatype Model = Model(
    generate: Inputs -> Generation,
    decode: Generation -> Option<string>,
    refine: (Inputs, string, string) -> Option<Inputs>)

  /** The fields that a finished engine output writes into its request. */
  datatype Answer = Answer(caption: string, finishReason: Option<string>, tokens: TokenCounts)

  function ReadAnswer(m: Model, g: Generation): Option<Answer> {
    match m.decode(g)
    case None => None
    case Some(caption) =>
      if g.outputs == [] then
        Some(Answer(caption, None, TokenCounts(|g.promptTokenIds|, 0)))
      else
        Some(Answer(caption, g.outputs[0].finishReason,
                    TokenCounts(|g.promptTokenIds|, |g.outputs[0].tokenIds|)))
  }

  function Ask(m: Model, inputs: Inputs): Option<Answer> {
    ReadAnswer(m, m.generate(inputs))
  }

  /** An empty caption is reported as unknown, as a falsy string is. */
  function Finish(a: Answer, tokens: TokenCounts): WindowResult {
    WindowResult(if a.caption == "" then UNKNOWN_CAPTION else a.caption, a.finishReason, tokens)
  }

  /** All the windows of one call; `prompts` are the resolved stage-2 prompts. */
  datatype Batch = Batch(inputs: seq<Inputs>, prompts: seq<Option<string>>) {
    ghost predicate Valid() {
      |inputs| == |prompts|
    }
  }

  /** The inputs of window `i`'s refinement request, when it has one that can be built. */
  function RefinedInputs(m: Model, b: Batch, i: nat): Option<Inputs>
    requires i < |b.inputs| == |b.prompts|
  {
    match Ask(m, b.inputs[i])
    case None => None
    case Some(a) =>
      if b.prompts[i].None? then None else m.refine(b.inputs[i], a.caption, b.prompts[i].value)
  }

  /** Caption, then refine if a stage-2 prompt exists; None where some step raises. */
  function ItemSpec(m: Model, b: Batch, i: nat): Option<WindowResult>
    requires i < |b.inputs| == |b.prompts|
  {
    match Ask(m, b.inputs[i])
    case None => None
    case Some(first) =>
      if b.prompts[i].None? then Some(Finish(first, first.tokens))
      else
        match RefinedInputs(m, b, i)
        case None => None
        case Some(refined) =>
          match Ask(m, refined)
          case None => None
          case Some(second) => Some(Finish(second, first.tokens.Plus(second.tokens)))
  }

  ghost predicate Captionable(m: Model, b: Batch)
    requires b.Valid()
  {
    forall i: nat :: i < |b.inputs| ==> ItemSpec(m, b, i).Some?
  }

  /** The per-item results in input order. */
  ghost function ListSpec(m: Model, b: Batch): (rs: seq<WindowResult>)
    requires b.Valid() && Captionable(m, b)
    ensures |rs| == |b.inputs|
  {
    seq(|b.inputs|, (i: nat) requires i < |b.inputs| => ItemSpec(m, b, i).value)
  }

  /** What a synchronous driver returns: the per-item list, or an exception (None) as soon as one
      item cannot be captioned. */
  ghost function BatchSpec(m: Model, b: Batch): Option<seq<WindowResult>>
    requires b.Valid()
  {
    if Captionable(m, b) then Some(ListSpec(m, b)) else None
  }

  /** Window `j` is finished, with the result it should have. */
  ghost predicate Done(m: Model, b: Batch, results: map<nat, WindowResult>, j: nat)
    requires b.Valid() && j < |b.inputs|
  {
    j in results && ItemSpec(m, b, j) == Some(results[j])
  }

  /** The results of all windows, put back into input order. */
  method InInputOrder(m: Model, b: Batch, results: map<nat, WindowResult>) returns (r: Option<seq<WindowResult>>)
    requires b.Valid()
    requires forall j: nat :: j < |b.inputs| ==> Done(m, b, results, j)
    ensures r.Some? && r == BatchSpec(m, b)
  {
    forall j: nat | j < |b.inputs| ensures j in results && ItemSpec(m, b, j) == Some(results[j]) {
      assert Done(m, b, results, j);
    }
    r := Some(seq(|b.inputs|, i requires 0 <= i < |b.inputs| => results[i]));
    assert r.value == ListSpec(m, b);
  }

  /** What the engine is asked for window `i` beyond its own inputs, if anything. */
  ghost function Refinement(m: Model, b: Batch, i: nat): seq<Inputs>
    requires b.Valid() && i < |b.inputs|
  {
    match RefinedInputs(m, b, i)
    case None => []
    case Some(x) => [x]
  }

  /** What the engine is asked for the first `n` windows: once with each window's own inputs, and once more
      with the refined ones where there are any. */
  ghost function Requested(m: Model, b: Batch, n: nat): seq<Inputs>
    requires b.Valid() && n <= |b.inputs|
  {
    if n == 0 then []
    else
      Requested(m, b, n - 1) + [b.inputs[n - 1]] + Refinement(m, b, n - 1)
  }

  /** The refined inputs alone. */
  ghost function Refinements(m: Model, b: Batch, n: nat): seq<Inputs>
    requires b.Valid() && n <= |b.inputs|
  {
    if n == 0 then []
    else Refinements(m, b, n - 1) + Refinement(m, b, n - 1)
  }

  lemma Interleaved<T>(all: seq<T>, a: seq<T>, b: seq<T>, moreA: seq<T>, moreB: seq<T>)
    requires multiset(all) == multiset(a) + multiset(b)
    ensures multiset(all + moreA + moreB) == multiset(a + moreA) + multiset(b + moreB)
  {
  }

  lemma {:induction false} RequestedInTwoPasses(m: Model, b: Batch, n: nat)
    requires b.Valid() && n <= |b.inputs|
    ensures multiset(Requested(m, b, n)) == multiset(b.inputs[..n]) + multiset(Refinements(m, b, n))
  {
    hide Refinement;
    if n > 0 {
      RequestedInTwoPasses(m, b, n - 1);
      var own, more := [b.inputs[n - 1]], Refinement(m, b, n - 1);
      assert b.inputs[..n] == b.inputs[..n - 1] + own;
      Interleaved(Requested(m, b, n - 1), b.inputs[..n - 1], Refinements(m, b, n - 1), own, more);
    }
  }

  // ----- What a result says, in the terms of the engine and the plugin alone -----

  /** The result reports what the plugin reads from `g`. */
  ghost predicate Reports(m: Model, g: Generation, w: WindowResult) {
    && m.decode(g).Some?
    && w.text == (if m.decode(g).value == "" then UNKNOWN_CAPTION else m.decode(g).value)
    && w.finishReason == (if g.outputs == [] then None else g.outputs[0].finishReason)
  }

  /** What the engine charges for the inputs `x`, in prompt tokens or in output tokens. */
  function Cost(m: Model, x: Inputs, output: bool): nat {
    var g := m.generate(x);
    if !output then |g.promptTokenIds| else if g.outputs == [] then 0 else |g.outputs[0].tokenIds|
  }

  function CostAll(m: Model, xs: seq<Inputs>, output: bool): nat {
    if xs == [] then 0 else CostAll(m, xs[..|xs| - 1], output) + Cost(m, xs[|xs| - 1], output)
  }

  /** The tokens that the results account for. */
  function Spent(rs: seq<WindowResult>, output: bool): nat {
    if rs == [] then 0
    else Spent(rs[..|rs| - 1], output) + if output then rs[|rs| - 1].tokens.output else rs[|rs| - 1].tokens.prompt
  }

  /** `w` is right for a window with inputs `own` and the given stage-2 prompt: it reports the last of its one or two
      generations, and its tokens are the sum of what they cost. */
  ghost predicate Right(m: Model, own: Inputs, prompt: Option<string>, w: WindowResult) {
    if prompt.None? then
      && Reports(m, m.generate(own), w)
      && w.tokens.prompt == Cost(m, own, false) && w.tokens.output == Cost(m, own, true)
    else
      var caption := m.decode(m.generate(own));
      && caption.Some?
      && match m.refine(own, caption.value, prompt.value) {
           case None => false
           case Some(x) =>
             && Reports(m, m.generate(x), w)
             && w.tokens.prompt == Cost(m, own, false) + Cost(m, x, false)
             && w.tokens.output == Cost(m, own, true) + Cost(m, x, true)
         }
  }

  /** The specification gives the one right result, and none exactly where there is none. */
  lemma ItemSpecIsRight(m: Model, b: Batch, i: nat, w: WindowResult)
    requires b.Valid() && i < |b.inputs|
    ensures Right(m, b.inputs[i], b.prompts[i], w) <==> ItemSpec(m, b, i) == Some(w)
  {
  }

  /** The results of a call are right for their windows. */
  ghost predicate AllRight(m: Model, inputs: seq<Inputs>, prompts: seq<Option<string>>, rs: seq<WindowResult>)
    requires |inputs| == |prompts|
  {
    |rs| == |inputs| && forall i :: 0 <= i < |rs| ==> Right(m, inputs[i], prompts[i], rs[i])
  }

  lemma BatchSpecIsRight(m: Model, b: Batch)
    requires b.Valid() && BatchSpec(m, b).Some?
    ensures AllRight(m, b.inputs, b.prompts, BatchSpec(m, b).value)
  {
    hide Right, ItemSpec;
    var rs := BatchSpec(m, b).value;
    forall i: nat | i < |rs| ensures Right(m, b.inputs[i], b.prompts[i], rs[i]) {
      ItemSpecIsRight(m, b, i, rs[i]);
    }
  }

  lemma {:induction false} CostAllConcat(m: Model, a: seq<Inputs>, b: seq<Inputs>, output: bool)
    ensures CostAll(m, a + b, output) == CostAll(m, a, output) + CostAll(m, b, output)
  {
    hide Cost;
    if b == [] {
      assert a + b == a;
    } else {
      assert (a + b)[..|a + b| - 1] == a + b[..|b| - 1];
      CostAllConcat(m, a, b[..|b| - 1], output);
    }
  }

  lemma CostAllOne(m: Model, x: Inputs, output: bool)
    ensures CostAll(m, [x], output) == Cost(m, x, output) && CostAll(m, [], output) == 0
  {
    assert [x][..0] == [];
  }

  lemma SameWithout<T>(a: multiset<T>, b: multiset<T>, c: multiset<T>)
    requires a + c == b + c
    ensures a == b
  {
    assert a == a + c - c && b == b + c - c;
  }

  /** The order of the requests does not matter for what they cost. */
  lemma {:induction false} CostAllPermuted(m: Model, xs: seq<Inputs>, ys: seq<Inputs>, output: bool)
    requires multiset(xs) == multiset(ys)
    ensures CostAll(m, xs, output) == CostAll(m, ys, output)
    decreases |xs|
  {
    hide CostAll, Cost;
    if xs == [] {
      assert |multiset(ys)| == 0;
    } else {
      var rest, x := xs[..|xs| - 1], xs[|xs| - 1];
      assert xs == rest + [x];
      assert x in multiset(ys);
      var j :| 0 <= j < |ys| && ys[j] == x;
      var before, after := ys[..j], ys[j + 1..];
      assert ys == before + ([x] + after);
      assert multiset(rest) + multiset{x} == multiset(before + after) + multiset{x};
      SameWithout(multiset(rest), multiset(before + after), multiset{x});
      CostAllPermuted(m, rest, before + after, output);
      CostAllConcat(m, rest, [x], output);
      CostAllConcat(m, before, [x] + after, output);
      CostAllConcat(m, [x], after, output);
      CostAllConcat(m, before, after, output);
    }
  }

  /** One window's tokens are what its requests cost. */
  lemma ItemTokens(m: Model, b: Batch, i: nat)
    requires b.Valid() && i < |b.inputs| && ItemSpec(m, b, i).Some?
    ensures var t := ItemSpec(m, b, i).value.tokens;
            var extra := RefinedInputs(m, b, i);
            && t.prompt == Cost(m, b.inputs[i], false) + (if extra.None? then 0 else Cost(m, extra.value, false))
            && t.output == Cost(m, b.inputs[i], true) + (if extra.None? then 0 else Cost(m, extra.value, true))
  {
  }

  /** The results account for exactly the tokens of all the requests. */
  lemma {:induction false} SpentIsCost(m: Model, b: Batch, n: nat, output: bool)
    requires b.Valid() && Captionable(m, b) && n <= |b.inputs|
    ensures Spent(ListSpec(m, b)[..n], output) == CostAll(m, Requested(m, b, n), output)
  {
    hide Cost, RefinedInputs, ItemSpec, CostAll;
    if n == 0 {
      CostAllOne(m, map[], output);
    } else {
      SpentIsCost(m, b, n - 1, output);
      ItemTokens(m, b, n - 1);
      var own, extra := b.inputs[n - 1], RefinedInputs(m, b, n - 1);
      var more := Refinement(m, b, n - 1);
      CostAllConcat(m, Requested(m, b, n - 1) + [own], more, output);
      CostAllConcat(m, Requested(m, b, n - 1), [own], output);
      CostAllOne(m, own, output);
      CostAllOne(m, if extra.None? then own else extra.value, output);
      assert ListSpec(m, b)[..n][..n - 1] == ListSpec(m, b)[..n - 1];
    }
  }

  /** The results of a call account for exactly the tokens that the engine generated for it: `asked` are the inputs that
      it answered, in any order. */
  lemma TokensAddUp(m: Model, b: Batch, asked: seq<Inputs>)
    requires b.Valid() && BatchSpec(m, b).Some? && multiset(asked) == multiset(Requested(m, b, |b.inputs|))
    ensures Spent(BatchSpec(m, b).value, false) == CostAll(m, asked, false)
    ensures Spent(BatchSpec(m, b).value, true) == CostAll(m, asked, true)
  {
    hide Spent, CostAll, Requested, ItemSpec;
    assert ListSpec(m, b)[..|b.inputs|] == ListSpec(m, b);
    SpentIsCost(m, b, |b.inputs|, false);
    SpentIsCost(m, b, |b.inputs|, true);
    CostAllPermuted(m, asked, Requested(m, b, |b.inputs|), false);
    CostAllPermuted(m, asked, Requested(m, b, |b.inputs|), true);
  }

  /** The results `rs` answer the batch: they are right, window by window, and what they cost was generated for the
      requests `asked`, which are each window's own inputs and, with a stage-2 prompt, its refined ones. */
  ghost predicate AnswersBatch(m: Model, b: Batch, rs: seq<WindowResult>, asked: seq<Inputs>)
    requires b.Valid()
  {
    && AllRight(m, b.inputs, b.prompts, rs)
    && multiset(asked) == multiset(Requested(m, b, |b.inputs|))
    && Spent(rs, false) == CostAll(m, asked, false) && Spent(rs, true) == CostAll(m, asked, true)
  }

  lemma AnswersAll(m: Model, b: Batch, rs: seq<WindowResult>, asked: seq<Inputs>)
    requires b.Valid() && BatchSpec(m, b) == Some(rs) && multiset(asked) == multiset(Requested(m, b, |b.inputs|))
    ensures AnswersBatch(m, b, rs, asked)
  {
    BatchSpecIsRight(m, b);
    TokensAddUp(m, b, asked);
  }

  /** Some window's own or refined inputs. */
  ghost predicate Requestable(m: Model, b: Batch, x: Inputs)
    requires b.Valid()
  {
    exists i: nat :: i < |b.inputs| && (x == b.inputs[i] || RefinedInputs(m, b, i) == Some(x))
  }

  /** Appending windows to a batch appends their results and leaves the earlier ones alone. */
  lemma BatchSpecAppend(m: Model, b: Batch, c: Batch)
    requires b.Valid() && c.Valid()
    ensures var bc := Batch(b.inputs + c.inputs, b.prompts + c.prompts);
            BatchSpec(m, bc) ==
            if BatchSpec(m, b).Some? && BatchSpec(m, c).Some?
            then Some(BatchSpec(m, b).value + BatchSpec(m, c).value) else None
  {
    var bc := Batch(b.inputs + c.inputs, b.prompts + c.prompts);
    var n := |b.inputs|;
    forall i: nat | i < |bc.inputs|
      ensures ItemSpec(m, bc, i) == if i < n then ItemSpec(m, b, i) else ItemSpec(m, c, i - n)
    {
    }
    if Captionable(m, b) && Captionable(m, c) {
      assert ListSpec(m, bc) == ListSpec(m, b) + ListSpec(m, c);
    } else if !Captionable(m, c) {
      var i: nat :| i < |c.inputs| && ItemSpec(m, c, i).None?;
      assert ItemSpec(m, bc, n + i) == ItemSpec(m, c, i);
    }
  }
}
