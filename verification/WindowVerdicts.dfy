/** Verdicts over the windows of a clip: the semantic filter and the classifier. Decoding a caption is a
    parameter, answering None for malformed output. */
module WindowVerdicts {
  import opened Base

  type Answers = map<string, string>

  type Window = (int, string)

  type Parser = string -> Option<Answers>

  /** A missing answer counts as "no". */
  function Get(answers: Answers, key: string): string {
    if key in answers then answers[key] else "no"
  }

  function Underscored(s: string): string {
    seq(|s|, i requires 0 <= i < |s| => if s[i] == ' ' then '_' else s[i])
  }

  ghost predicate DistinctIndices(ws: seq<Window>) {
    forall j, k :: 0 <= j < k < |ws| ==> ws[j].0 != ws[k].0
  }

  function WindowIndices(ws: seq<Window>): set<int> {
    set w | w in ws :: w.0
  }

  function Malformed(parse: Parser, ws: seq<Window>): set<int> {
    set w | w in ws && parse(w.1).None? :: w.0
  }

  /** `fraction` of the windows is above the threshold. */
  predicate Above(part: nat, whole: nat, threshold: real)
    requires whole > 0
  {
    part as real / whole as real > threshold
  }

  /** Per window index, `reasons` holds `due` for the parsed windows and `errors` the malformed ones, and nothing
      else. */
  ghost predicate SplitBy(parse: Parser, ws: seq<Window>, due: Answers -> Answers, reasons: map<int, Answers>, errors: set<int>) {
    && (forall w :: w in ws ==>
          if parse(w.1).None? then w.0 in errors
          else w.0 in reasons && reasons[w.0] == due(parse(w.1).value))
    && (forall i :: i in reasons ==> exists w :: w in ws && w.0 == i && parse(w.1).Some?)
    && (forall i :: i in errors ==> exists w :: w in ws && w.0 == i && parse(w.1).None?)
  }

  lemma SplitNothing(parse: Parser, due: Answers -> Answers)
    ensures SplitBy(parse, [], due, map[], {})
  {
  }

  /** The maps grow by one window, whose index is new. */
  lemma SplitNext(parse: Parser, ws: seq<Window>, w: Window, due: Answers -> Answers, reasons: map<int, Answers>, errors: set<int>)
    requires SplitBy(parse, ws, due, reasons, errors) && forall v :: v in ws ==> v.0 != w.0
    ensures parse(w.1).None? ==> SplitBy(parse, ws + [w], due, reasons, errors + {w.0})
    ensures parse(w.1).Some? ==> SplitBy(parse, ws + [w], due, reasons[w.0 := due(parse(w.1).value)], errors)
  {
    assert forall v :: v in ws + [w] <==> v in ws || v == w;
  }

  // ----- The semantic filter -----

  function Flagged(criteria: seq<string>, answers: Answers): set<string> {
    set c | c in criteria && Get(answers, Underscored(c)) == "yes"
  }

  function FlaggedReasons(criteria: seq<string>, answers: Answers): Answers {
    map c | c in Flagged(criteria, answers) :: "yes"
  }

  function SemanticRejected(parse: Parser, criteria: seq<string>, ws: seq<Window>): set<int> {
    set w | w in ws && parse(w.1).Some? && Flagged(criteria, parse(w.1).value) != {} :: w.0
  }

  /** The clip fails when all its windows are malformed or too many of them are rejected, unless only scoring. */
  predicate SemanticPass(parse: Parser, criteria: seq<string>, ws: seq<Window>, threshold: real, scoreOnly: bool) {
    || scoreOnly || ws == []
    || (|Malformed(parse, ws)| != |ws| && !Above(|SemanticRejected(parse, criteria, ws)|, |ws|, threshold))
  }

  datatype SemanticVerdict = SemanticVerdict(pass: bool, issues: set<string>, reasons: map<int, Answers>, errors: set<int>)

  ghost predicate SemanticMeets(parse: Parser, criteria: seq<string>, ws: seq<Window>, threshold: real, scoreOnly: bool,
                                v: SemanticVerdict)
  {
    && v.pass == SemanticPass(parse, criteria, ws, threshold, scoreOnly)
    && (forall c :: c in v.issues <==> exists w :: w in ws && parse(w.1).Some? && c in Flagged(criteria, parse(w.1).value))
    && SplitBy(parse, ws, a => FlaggedReasons(criteria, a), v.reasons, v.errors)
  }

  /** The flagged criteria of one window's answers. */
  method FlagWindow(criteria: seq<string>, answers: Answers) returns (issues: set<string>, reasons: Answers)
    ensures issues == Flagged(criteria, answers) && reasons == FlaggedReasons(criteria, answers)
  {
    issues, reasons := {}, map[];
    for k := 0 to |criteria|
      invariant issues == Flagged(criteria[..k], answers) && reasons == FlaggedReasons(criteria[..k], answers)
    {
      var c := criteria[k];
      assert criteria[..k + 1] == criteria[..k] + [c];
      if Get(answers, Underscored(c)) == "yes" {
        issues := issues + {c};
        reasons := reasons[c := "yes"];
      }
    }
    assert criteria[..|criteria|] == criteria;
  }

  method EvaluateSemantic(parse: Parser, ws: seq<Window>, criteria: seq<string>, threshold: real, scoreOnly: bool)
      returns (v: SemanticVerdict)
    requires DistinctIndices(ws)
    ensures SemanticMeets(parse, criteria, ws, threshold, scoreOnly, v)
  {
    hide Flagged, FlaggedReasons, SplitBy;
    var issues: set<string>, rejected: set<int>, reasons: map<int, Answers>, errors: set<int> := {}, {}, map[], {};
    var due := a => FlaggedReasons(criteria, a);
    SplitNothing(parse, due);
    for k := 0 to |ws|
      invariant forall c :: c in issues <==>
                  exists w :: w in ws[..k] && parse(w.1).Some? && c in Flagged(criteria, parse(w.1).value)
      invariant rejected == SemanticRejected(parse, criteria, ws[..k])
      invariant errors == Malformed(parse, ws[..k])
      invariant SplitBy(parse, ws[..k], due, reasons, errors)
    {
      var w := ws[k];
      assert ws[..k + 1] == ws[..k] + [w];
      SplitNext(parse, ws[..k], w, due, reasons, errors);
      var parsed := parse(w.1);
      if parsed.None? {
        errors := errors + {w.0};
      } else {
        var specific, windowReasons := FlagWindow(criteria, parsed.value);
        issues := issues + specific;
        if specific != {} {
          rejected := rejected + {w.0};
        }
        reasons := reasons[w.0 := windowReasons];
      }
    }
    assert ws[..|ws|] == ws;
    var pass := true;
    if !scoreOnly && ws != [] {
      if |errors| == |ws| || Above(|rejected|, |ws|, threshold) {
        pass := false;
      }
    }
    v := SemanticVerdict(pass, issues, reasons, errors);
  }

  lemma SamePermuted(ws: seq<Window>, ws': seq<Window>)
    requires multiset(ws) == multiset(ws')
    ensures |ws| == |ws'| && forall w :: w in ws <==> w in ws'
  {
    assert |ws| == |multiset(ws)| == |multiset(ws')| == |ws'|;
    assert forall w :: w in ws <==> w in multiset(ws);
    assert forall w :: w in ws' <==> w in multiset(ws');
  }

  lemma SameIndexSameWindow(ws: seq<Window>, v: Window, w: Window)
    requires DistinctIndices(ws) && v in ws && w in ws && v.0 == w.0
    ensures v == w
  {
    var j :| 0 <= j < |ws| && ws[j] == v;
    var k :| 0 <= k < |ws| && ws[k] == w;
  }

  /** The per-window maps do not depend on the order of the windows. */
  lemma SplitPermuted(parse: Parser, ws: seq<Window>, ws': seq<Window>, due: Answers -> Answers,
                      reasons: map<int, Answers>, errors: set<int>, reasons': map<int, Answers>, errors': set<int>)
    requires multiset(ws) == multiset(ws')
    requires SplitBy(parse, ws, due, reasons, errors) && SplitBy(parse, ws', due, reasons', errors')
    ensures reasons == reasons' && errors == errors'
  {
    SamePermuted(ws, ws');
    forall i | i in reasons ensures i in reasons' && reasons'[i] == reasons[i] {
      var w :| w in ws && w.0 == i && parse(w.1).Some?;
      assert w in ws';
    }
    forall i | i in reasons' ensures i in reasons {
      var w :| w in ws' && w.0 == i && parse(w.1).Some?;
      assert w in ws;
    }
    forall i ensures i in errors <==> i in errors' {
      if i in errors {
        var w :| w in ws && w.0 == i && parse(w.1).None?;
        assert w in ws';
      }
      if i in errors' {
        var w :| w in ws' && w.0 == i && parse(w.1).None?;
        assert w in ws;
      }
    }
  }

  lemma SplitDisjoint(parse: Parser, ws: seq<Window>, due: Answers -> Answers, reasons: map<int, Answers>, errors: set<int>)
    requires DistinctIndices(ws) && SplitBy(parse, ws, due, reasons, errors)
    ensures reasons.Keys !! errors
  {
    hide DistinctIndices;
    forall i | i in reasons && i in errors ensures false {
      var v :| v in ws && v.0 == i && parse(v.1).Some?;
      var w :| w in ws && w.0 == i && parse(w.1).None?;
      SameIndexSameWindow(ws, v, w);
    }
  }

  lemma SplitCovers(parse: Parser, ws: seq<Window>, due: Answers -> Answers, reasons: map<int, Answers>, errors: set<int>)
    requires SplitBy(parse, ws, due, reasons, errors)
    ensures reasons.Keys + errors == WindowIndices(ws)
  {
    forall i ensures i in reasons.Keys + errors <==> i in WindowIndices(ws) {
      if i in reasons {
        var w :| w in ws && w.0 == i && parse(w.1).Some?;
      } else if i in errors {
        var w :| w in ws && w.0 == i && parse(w.1).None?;
      }
    }
  }

  lemma {:induction false} WindowIndicesSize(ws: seq<Window>)
    requires DistinctIndices(ws)
    ensures |WindowIndices(ws)| == |ws|
  {
    if ws == [] {
      assert WindowIndices(ws) == {};
    } else {
      var rest, last := ws[..|ws| - 1], ws[|ws| - 1];
      WindowIndicesSize(rest);
      assert ws == rest + [last];
      assert WindowIndices(ws) == WindowIndices(rest) + {last.0};
      assert last.0 !in WindowIndices(rest);
    }
  }

  /** Every window is either parsed or malformed, and never both. */
  lemma SplitExactly(parse: Parser, ws: seq<Window>, due: Answers -> Answers, reasons: map<int, Answers>, errors: set<int>)
    requires DistinctIndices(ws) && SplitBy(parse, ws, due, reasons, errors)
    ensures reasons.Keys + errors == WindowIndices(ws) && reasons.Keys !! errors
    ensures |reasons| + |errors| == |ws|
  {
    hide SplitBy, DistinctIndices, WindowIndices;
    SplitDisjoint(parse, ws, due, reasons, errors);
    SplitCovers(parse, ws, due, reasons, errors);
    WindowIndicesSize(ws);
    assert |reasons.Keys + errors| == |reasons.Keys| + |errors|;
  }

  /** As many malformed windows as windows means that every window is malformed. */
  lemma AllMalformed(parse: Parser, ws: seq<Window>)
    requires DistinctIndices(ws)
    ensures |Malformed(parse, ws)| == |ws| <==> forall w :: w in ws ==> parse(w.1).None?
  {
    WindowIndicesSize(ws);
    if forall w :: w in ws ==> parse(w.1).None? {
      assert Malformed(parse, ws) == WindowIndices(ws);
    } else {
      var w :| w in ws && parse(w.1).Some?;
      forall v | v in ws && parse(v.1).None? ensures v.0 != w.0 {
        if v.0 == w.0 {
          SameIndexSameWindow(ws, v, w);
        }
      }
      assert Malformed(parse, ws) <= WindowIndices(ws) - {w.0};
      SubsetSize(Malformed(parse, ws), WindowIndices(ws) - {w.0});
    }
  }

  /** The verdict, the issues and the per-window maps are the same for every order of the windows. */
  lemma SemanticPermuted(parse: Parser, criteria: seq<string>, ws: seq<Window>, ws': seq<Window>, threshold: real,
                         scoreOnly: bool, v: SemanticVerdict, v': SemanticVerdict)
    requires multiset(ws) == multiset(ws')
    requires SemanticMeets(parse, criteria, ws, threshold, scoreOnly, v)
    requires SemanticMeets(parse, criteria, ws', threshold, scoreOnly, v')
    ensures v == v'
  {
    SamePermuted(ws, ws');
    SplitPermuted(parse, ws, ws', a => FlaggedReasons(criteria, a), v.reasons, v.errors, v'.reasons, v'.errors);
    assert Malformed(parse, ws) == Malformed(parse, ws');
    assert SemanticRejected(parse, criteria, ws) == SemanticRejected(parse, criteria, ws');
    assert v.issues == v'.issues;
  }

  /** The answers say yes to the criterion, under the key that has underscores for its spaces. */
  ghost predicate Confirms(answers: Answers, criterion: string) {
    exists key :: key in answers && answers[key] == "yes" && |key| == |criterion| &&
                  forall i :: 0 <= i < |key| ==> key[i] == if criterion[i] == ' ' then '_' else criterion[i]
  }

  lemma ConfirmsIsGet(answers: Answers, criterion: string)
    ensures Confirms(answers, criterion) <==> Get(answers, Underscored(criterion)) == "yes"
  {
    if Confirms(answers, criterion) {
      var key :| key in answers && answers[key] == "yes" && |key| == |criterion| &&
                 forall i :: 0 <= i < |key| ==> key[i] == if criterion[i] == ' ' then '_' else criterion[i];
      assert key == Underscored(criterion);
    }
  }

  ghost function IndicesWhere(ws: seq<Window>, p: Window -> bool): set<int> {
    set w | w in ws && p(w) :: w.0
  }

  ghost function PositionsWhere(ws: seq<Window>, p: Window -> bool): set<int> {
    set j | 0 <= j < |ws| && p(ws[j])
  }

  lemma IndicesNext(ws: seq<Window>, w: Window, p: Window -> bool)
    requires DistinctIndices(ws + [w])
    ensures DistinctIndices(ws) && w.0 !in IndicesWhere(ws, p)
    ensures IndicesWhere(ws + [w], p) == IndicesWhere(ws, p) + if p(w) then {w.0} else {}
  {
    assert forall v :: v in ws + [w] <==> v in ws || v == w;
    forall j, k | 0 <= j < k < |ws| ensures ws[j].0 != ws[k].0 {
      assert (ws + [w])[j].0 != (ws + [w])[k].0;
    }
    forall j | 0 <= j < |ws| ensures ws[j].0 != w.0 {
      assert (ws + [w])[j].0 != (ws + [w])[|ws|].0;
    }
  }

  lemma PositionsNext(ws: seq<Window>, w: Window, p: Window -> bool)
    ensures |ws| !in PositionsWhere(ws, p)
    ensures PositionsWhere(ws + [w], p) == PositionsWhere(ws, p) + if p(w) then {|ws|} else {}
  {
  }

  /** As many window indices as windows satisfy `p`. */
  lemma {:induction false} IndicesCount(ws: seq<Window>, p: Window -> bool)
    requires DistinctIndices(ws)
    ensures |IndicesWhere(ws, p)| == |PositionsWhere(ws, p)|
  {
    if ws == [] {
      assert IndicesWhere(ws, p) == {} && PositionsWhere(ws, p) == {};
    } else {
      hide IndicesWhere, PositionsWhere, DistinctIndices;
      var rest, last := ws[..|ws| - 1], ws[|ws| - 1];
      assert ws == rest + [last];
      IndicesNext(rest, last, p);
      PositionsNext(rest, last, p);
      IndicesCount(rest, p);
    }
  }

  /** `part` of `whole` is above the threshold. */
  lemma AboveMeans(part: nat, whole: nat, threshold: real)
    requires whole > 0
    ensures Above(part, whole, threshold) <==> part as real > threshold * whole as real
  {
    var q := part as real / whole as real;
    assert q * whole as real == part as real;
    if q > threshold {
      assert (q - threshold) * whole as real > 0.0;
    } else {
      assert (threshold - q) * whole as real >= 0.0;
    }
  }

  /** The windows in which some criterion is confirmed. */
  ghost predicate FlaggedWindow(parse: Parser, criteria: seq<string>, w: Window) {
    parse(w.1).Some? && exists c :: c in criteria && Confirms(parse(w.1).value, c)
  }

  lemma RejectedCount(parse: Parser, criteria: seq<string>, ws: seq<Window>)
    requires DistinctIndices(ws)
    ensures |SemanticRejected(parse, criteria, ws)| == |set j | 0 <= j < |ws| && FlaggedWindow(parse, criteria, ws[j])|
  {
    var p := (w: Window) => parse(w.1).Some? && Flagged(criteria, parse(w.1).value) != {};
    IndicesCount(ws, p);
    forall w: Window ensures p(w) <==> FlaggedWindow(parse, criteria, w) {
      if parse(w.1).Some? {
        var answers := parse(w.1).value;
        forall c ensures c in Flagged(criteria, answers) <==> c in criteria && Confirms(answers, c) {
          ConfirmsIsGet(answers, c);
        }
      }
    }
    assert SemanticRejected(parse, criteria, ws) == IndicesWhere(ws, p);
    assert PositionsWhere(ws, p) == set j | 0 <= j < |ws| && FlaggedWindow(parse, criteria, ws[j]);
  }

  /** A clip passes exactly when only scores are wanted, when it has no windows, or when some window could be parsed
      and no more than the allowed share of the windows is flagged. */
  lemma SemanticPassMeans(parse: Parser, criteria: seq<string>, ws: seq<Window>, threshold: real, scoreOnly: bool)
    requires DistinctIndices(ws)
    ensures SemanticPass(parse, criteria, ws, threshold, scoreOnly) <==>
            || scoreOnly || ws == []
            || ((exists w :: w in ws && parse(w.1).Some?)
                && |set j | 0 <= j < |ws| && FlaggedWindow(parse, criteria, ws[j])| as real <= threshold * |ws| as real)
  {
    hide FlaggedWindow, SemanticRejected, Above;
    RejectedCount(parse, criteria, ws);
    AllMalformed(parse, ws);
    if ws != [] {
      AboveMeans(|SemanticRejected(parse, criteria, ws)|, |ws|, threshold);
    }
  }

  /** The issues are the criteria confirmed in some window, each parsed window is given exactly those that it confirms,
      and each other one is an error. */
  lemma SemanticMeans(parse: Parser, criteria: seq<string>, ws: seq<Window>, threshold: real, scoreOnly: bool,
                      v: SemanticVerdict)
    requires SemanticMeets(parse, criteria, ws, threshold, scoreOnly, v)
    ensures forall c :: c in v.issues <==>
              c in criteria && exists w :: w in ws && parse(w.1).Some? && Confirms(parse(w.1).value, c)
    ensures forall w :: w in ws && parse(w.1).None? ==> w.0 in v.errors
    ensures forall w :: w in ws && parse(w.1).Some? ==>
              w.0 in v.reasons && forall c :: if c in criteria && Confirms(parse(w.1).value, c)
                                              then c in v.reasons[w.0] && v.reasons[w.0][c] == "yes"
                                              else c !in v.reasons[w.0]
  {
    hide Confirms, Get;
    forall answers, c ensures c in Flagged(criteria, answers) <==> c in criteria && Confirms(answers, c) {
      ConfirmsIsGet(answers, c);
    }
  }

  /** Raising the rejection threshold never turns a pass into a fail. */
  lemma SemanticMonotone(parse: Parser, criteria: seq<string>, ws: seq<Window>, low: real, high: real, scoreOnly: bool)
    requires low <= high && SemanticPass(parse, criteria, ws, low, scoreOnly)
    ensures SemanticPass(parse, criteria, ws, high, scoreOnly)
  {
  }

  // ----- The classifier -----

  /** The blocked labels that the answers confirm, and the allowed ones that they deny. */
  function RejectedLabels(allow: seq<string>, block: seq<string>, answers: Answers): set<string> {
    (set l | l in block && Get(answers, l) == "yes") + (set l | l in allow && Get(answers, l) == "no")
  }

  function Rejections(allow: seq<string>, block: seq<string>, answers: Answers): Answers {
    map l | l in RejectedLabels(allow, block, answers) :: Get(answers, l)
  }

  predicate MatchesAllow(allow: seq<string>, answers: Answers) {
    exists l :: l in allow && Get(answers, l) == "yes"
  }

  /** The first blocked label that the answers confirm. */
  function FirstBlocked(block: seq<string>, answers: Answers): Option<string> {
    if block == [] then None
    else
      match FirstBlocked(block[..|block| - 1], answers)
      case Some(l) => Some(l)
      case None => if Get(answers, block[|block| - 1]) == "yes" then Some(block[|block| - 1]) else None
  }

  lemma FirstBlockedNone(answers: Answers)
    ensures FirstBlocked([], answers) == None
  {
  }

  lemma FirstBlockedNext(block: seq<string>, k: nat, answers: Answers)
    requires k < |block|
    ensures FirstBlocked(block[..k + 1], answers) ==
            if FirstBlocked(block[..k], answers).Some? then FirstBlocked(block[..k], answers)
            else if Get(answers, block[k]) == "yes" then Some(block[k]) else None
  {
    assert block[..k + 1][..k] == block[..k];
  }

  method CollectBlocked(answers: Answers, block: seq<string>) returns (rejections: Answers, matched: Option<string>)
    ensures forall l :: l in rejections <==> l in block && Get(answers, l) == "yes"
    ensures forall l :: l in rejections ==> rejections[l] == Get(answers, l)
    ensures matched == FirstBlocked(block, answers)
  {
    hide FirstBlocked, Get;
    rejections, matched := map[], None;
    FirstBlockedNone(answers);
    for k := 0 to |block|
      invariant forall l :: l in rejections <==> l in block[..k] && Get(answers, l) == "yes"
      invariant forall l :: l in rejections ==> rejections[l] == Get(answers, l)
      invariant matched == FirstBlocked(block[..k], answers)
    {
      FirstBlockedNext(block, k, answers);
      assert block[..k + 1] == block[..k] + [block[k]];
      if Get(answers, block[k]) == "yes" {
        rejections := rejections[block[k] := "yes"];
        if matched == None {
          matched := Some(block[k]);
        }
      }
    }
    assert block[..|block|] == block;
  }

  method CollectAllowed(answers: Answers, allow: seq<string>, before: Answers)
      returns (rejections: Answers, matched: bool)
    requires forall l :: l in before ==> before[l] == Get(answers, l)
    ensures forall l :: l in rejections <==> l in before || (l in allow && Get(answers, l) == "no")
    ensures forall l :: l in rejections ==> rejections[l] == Get(answers, l)
    ensures matched == MatchesAllow(allow, answers)
  {
    rejections, matched := before, false;
    for k := 0 to |allow|
      invariant forall l :: l in rejections <==> l in before || (l in allow[..k] && Get(answers, l) == "no")
      invariant forall l :: l in rejections ==> rejections[l] == Get(answers, l)
      invariant matched == MatchesAllow(allow[..k], answers)
    {
      assert allow[..k + 1] == allow[..k] + [allow[k]];
      var value := Get(answers, allow[k]);
      if value == "yes" {
        matched := true;
      } else if value == "no" {
        rejections := rejections[allow[k] := "no"];
      }
    }
    assert allow[..|allow|] == allow;
  }

  method CollectMatches(answers: Answers, allow: seq<string>, block: seq<string>)
      returns (rejections: Answers, matchedAllow: bool, matchedBlock: Option<string>)
    ensures rejections == Rejections(allow, block, answers)
    ensures matchedAllow == MatchesAllow(allow, answers)
    ensures matchedBlock == FirstBlocked(block, answers)
  {
    rejections, matchedBlock := CollectBlocked(answers, block);
    rejections, matchedAllow := CollectAllowed(answers, allow, rejections);
  }

  datatype Config = Config(allow: seq<string>, block: seq<string>, customCategories: bool, validLabels: set<string>,
                           threshold: real)

  function ClassifierRejected(parse: Parser, c: Config, ws: seq<Window>): set<int> {
    set w | w in ws && parse(w.1).Some? && FirstBlocked(c.block, parse(w.1).value).Some? :: w.0
  }

  /** Something allowed was seen, when anything has to be; no windows at all count as allowed. */
  predicate AllowOk(parse: Parser, c: Config, ws: seq<Window>) {
    || c.allow == [] || ws == []
    || exists w :: w in ws && parse(w.1).Some? && MatchesAllow(c.allow, parse(w.1).value)
  }

  predicate BlockOk(parse: Parser, c: Config, ws: seq<Window>) {
    c.block == [] || ws == [] || !Above(|ClassifierRejected(parse, c, ws)|, |ws|, c.threshold)
  }

  /** The valid labels that some window confirms, or what stands for none. */
  datatype Classification = Labels(labels: set<string>) | Unclassified | Unlabelled

  function Classify(c: Config, labels: set<string>): Classification {
    if labels != {} then Labels(labels) else if c.customCategories then Unclassified else Unlabelled
  }

  function LabelsOf(c: Config, answers: Answers): set<string> {
    set l | l in answers && answers[l] == "yes" && l in c.validLabels
  }

  function AllLabels(parse: Parser, c: Config, ws: seq<Window>): set<string> {
    set w, l | w in ws && parse(w.1).Some? && l in LabelsOf(c, parse(w.1).value) :: l
  }

  datatype ClassifierVerdict = ClassifierVerdict(pass: bool, issues: set<string>, reasons: map<int, Answers>,
                                                 errors: set<int>, classification: Classification)

  ghost predicate ClassifierMeets(parse: Parser, c: Config, ws: seq<Window>, v: ClassifierVerdict) {
    && v.pass == (AllowOk(parse, c, ws) && BlockOk(parse, c, ws))
    && (forall l :: l in v.issues <==> exists w :: w in ws && parse(w.1).Some? && FirstBlocked(c.block, parse(w.1).value) == Some(l))
    && SplitBy(parse, ws, a => Rejections(c.allow, c.block, a), v.reasons, v.errors)
    && v.classification == Classify(c, AllLabels(parse, c, ws))
  }

  ghost predicate SomeMatch(parse: Parser, allow: seq<string>, ws: seq<Window>) {
    exists w :: w in ws && parse(w.1).Some? && MatchesAllow(allow, parse(w.1).value)
  }

  ghost predicate IssuesOf(parse: Parser, block: seq<string>, ws: seq<Window>, issues: set<string>) {
    forall l :: l in issues <==> exists w :: w in ws && parse(w.1).Some? && FirstBlocked(block, parse(w.1).value) == Some(l)
  }

  /** What one more parsed window adds. */
  lemma ParsedNext(parse: Parser, c: Config, ws: seq<Window>, w: Window, issues: set<string>)
    requires parse(w.1).Some? && IssuesOf(parse, c.block, ws, issues)
    ensures var answers := parse(w.1).value;
            var first := FirstBlocked(c.block, answers);
            && AllLabels(parse, c, ws + [w]) == AllLabels(parse, c, ws) + LabelsOf(c, answers)
            && ClassifierRejected(parse, c, ws + [w]) == ClassifierRejected(parse, c, ws) + (if first.Some? then {w.0} else {})
            && IssuesOf(parse, c.block, ws + [w], issues + if first.Some? then {first.value} else {})
            && SomeMatch(parse, c.allow, ws + [w]) == (SomeMatch(parse, c.allow, ws) || MatchesAllow(c.allow, answers))
  {
    hide LabelsOf, FirstBlocked, MatchesAllow;
    assert forall v :: v in ws + [w] <==> v in ws || v == w;
  }

  /** A malformed window adds nothing. */
  lemma MalformedNext(parse: Parser, c: Config, ws: seq<Window>, w: Window, issues: set<string>)
    requires parse(w.1).None? && IssuesOf(parse, c.block, ws, issues)
    ensures AllLabels(parse, c, ws + [w]) == AllLabels(parse, c, ws)
    ensures ClassifierRejected(parse, c, ws + [w]) == ClassifierRejected(parse, c, ws)
    ensures IssuesOf(parse, c.block, ws + [w], issues)
    ensures SomeMatch(parse, c.allow, ws + [w]) == SomeMatch(parse, c.allow, ws)
  {
    hide LabelsOf, FirstBlocked, MatchesAllow;
    assert forall v :: v in ws + [w] <==> v in ws || v == w;
  }

  lemma NothingYet(parse: Parser, c: Config)
    ensures AllLabels(parse, c, []) == {} && ClassifierRejected(parse, c, []) == {} && IssuesOf(parse, c.block, [], {})
    ensures !SomeMatch(parse, c.allow, [])
  {
  }

  lemma Tallied(parse: Parser, c: Config, ws: seq<Window>, v: ClassifierVerdict)
    requires v.pass == ((c.allow == [] || ws == [] || SomeMatch(parse, c.allow, ws)) && BlockOk(parse, c, ws))
    requires IssuesOf(parse, c.block, ws, v.issues)
    requires SplitBy(parse, ws, a => Rejections(c.allow, c.block, a), v.reasons, v.errors)
    requires v.classification == Classify(c, AllLabels(parse, c, ws))
    ensures ClassifierMeets(parse, c, ws, v)
  {
  }

  method EvaluateClassifier(parse: Parser, ws: seq<Window>, c: Config) returns (v: ClassifierVerdict)
    requires DistinctIndices(ws)
    ensures ClassifierMeets(parse, c, ws, v)
  {
    hide SplitBy, AllLabels, ClassifierRejected, IssuesOf, SomeMatch, FirstBlocked, MatchesAllow, LabelsOf, Rejections;
    var hasAllowed, anyParsed := c.allow == [], false;
    var labels: set<string>, issues: set<string>, rejected: set<int> := {}, {}, {};
    var reasons: map<int, Answers>, errors: set<int> := map[], {};
    ghost var due := a => Rejections(c.allow, c.block, a);
    NothingYet(parse, c);
    SplitNothing(parse, due);
    for k := 0 to |ws|
      invariant hasAllowed == (c.allow == [] || SomeMatch(parse, c.allow, ws[..k]))
      invariant anyParsed || errors != {} <==> k > 0
      invariant labels == AllLabels(parse, c, ws[..k])
      invariant rejected == ClassifierRejected(parse, c, ws[..k])
      invariant IssuesOf(parse, c.block, ws[..k], issues)
      invariant SplitBy(parse, ws[..k], due, reasons, errors)
    {
      var w := ws[k];
      assert ws[..k + 1] == ws[..k] + [w];
      SplitNext(parse, ws[..k], w, due, reasons, errors);
      var parsed := parse(w.1);
      if parsed.None? {
        MalformedNext(parse, c, ws[..k], w, issues);
        errors := errors + {w.0};
      } else {
        ParsedNext(parse, c, ws[..k], w, issues);
        assert issues + {} == issues;
        anyParsed := true;
        labels := labels + LabelsOf(c, parsed.value);
        var rejections, matchedAllow, matchedBlock := CollectMatches(parsed.value, c.allow, c.block);
        reasons := reasons[w.0 := rejections];
        if c.allow != [] && matchedAllow {
          hasAllowed := true;
        }
        if matchedBlock.Some? {
          issues := issues + {matchedBlock.value};
          rejected := rejected + {w.0};
        }
      }
    }
    assert ws[..|ws|] == ws;
    if c.allow != [] && !anyParsed && errors == {} {
      hasAllowed := true;
    }
    var blockOk := true;
    if c.block != [] && ws != [] {
      blockOk := !Above(|rejected|, |ws|, c.threshold);
    }
    v := ClassifierVerdict(hasAllowed && blockOk, issues, reasons, errors, Classify(c, labels));
    Tallied(parse, c, ws, v);
  }

  ghost predicate SaysYes(answers: Answers, l: string) {
    l in answers && answers[l] == "yes"
  }

  /** The first blocked label is one that the answers confirm, with none of those before it confirmed. */
  lemma {:induction false} FirstBlockedMeans(block: seq<string>, answers: Answers, l: string)
    ensures FirstBlocked(block, answers) == Some(l) <==>
            exists i :: 0 <= i < |block| && block[i] == l && SaysYes(answers, l) &&
                        forall j :: 0 <= j < i ==> !SaysYes(answers, block[j])
    ensures FirstBlocked(block, answers).None? <==> forall j :: 0 <= j < |block| ==> !SaysYes(answers, block[j])
  {
    if block != [] {
      FirstBlockedMeans(block[..|block| - 1], answers, l);
      var rest, last := block[..|block| - 1], block[|block| - 1];
      assert forall j :: 0 <= j < |rest| ==> rest[j] == block[j];
      if FirstBlocked(rest, answers).None? && SaysYes(answers, last) && last == l {
        assert block[|rest|] == l;
      }
    }
  }

  lemma SomeBlocked(block: seq<string>, answers: Answers)
    ensures FirstBlocked(block, answers).Some? <==> exists l :: l in block && SaysYes(answers, l)
  {
    hide FirstBlocked, SaysYes;
    FirstBlockedMeans(block, answers, "");
  }

  ghost predicate BlockedWindow(parse: Parser, c: Config, w: Window) {
    parse(w.1).Some? && exists l :: l in c.block && SaysYes(parse(w.1).value, l)
  }

  lemma BlockedCount(parse: Parser, c: Config, ws: seq<Window>)
    requires DistinctIndices(ws)
    ensures |ClassifierRejected(parse, c, ws)| == |set j | 0 <= j < |ws| && BlockedWindow(parse, c, ws[j])|
  {
    var p := (w: Window) => parse(w.1).Some? && FirstBlocked(c.block, parse(w.1).value).Some?;
    IndicesCount(ws, p);
    forall w: Window ensures p(w) <==> BlockedWindow(parse, c, w) {
      if parse(w.1).Some? {
        SomeBlocked(c.block, parse(w.1).value);
      }
    }
    assert ClassifierRejected(parse, c, ws) == IndicesWhere(ws, p);
    assert PositionsWhere(ws, p) == set j | 0 <= j < |ws| && BlockedWindow(parse, c, ws[j]);
  }

  /** A clip passes exactly when some window confirms something allowed, where anything has to be and there are
      windows, and no more than the allowed share of the windows confirms something blocked. */
  lemma ClassifierPassMeans(parse: Parser, c: Config, ws: seq<Window>, v: ClassifierVerdict)
    requires DistinctIndices(ws) && ClassifierMeets(parse, c, ws, v)
    ensures v.pass <==>
            && (c.allow == [] || ws == [] ||
                exists w, l :: w in ws && parse(w.1).Some? && l in c.allow && SaysYes(parse(w.1).value, l))
            && (c.block == [] || ws == [] ||
                |set j | 0 <= j < |ws| && BlockedWindow(parse, c, ws[j])| as real <= c.threshold * |ws| as real)
  {
    hide BlockedWindow, ClassifierRejected, Above, SplitBy, AllLabels;
    BlockedCount(parse, c, ws);
    if ws != [] {
      AboveMeans(|ClassifierRejected(parse, c, ws)|, |ws|, c.threshold);
    }
  }

  /** The labels are the valid ones that some window confirms; without any, the clip is unclassified where categories
      are custom, and unlabelled otherwise. */
  lemma ClassificationMeans(parse: Parser, c: Config, ws: seq<Window>, v: ClassifierVerdict)
    requires ClassifierMeets(parse, c, ws, v)
    ensures forall l :: v.classification.Labels? && l in v.classification.labels <==>
              l in c.validLabels && exists w :: w in ws && parse(w.1).Some? && SaysYes(parse(w.1).value, l)
    ensures v.classification.Labels? ==> v.classification.labels != {}
    ensures !v.classification.Labels? ==> (v.classification.Unclassified? <==> c.customCategories)
  {
    hide SplitBy, AllowOk, BlockOk;
    forall l
      ensures l in AllLabels(parse, c, ws) <==>
                l in c.validLabels && exists w :: w in ws && parse(w.1).Some? && SaysYes(parse(w.1).value, l)
    {
      if l in c.validLabels && exists w :: w in ws && parse(w.1).Some? && SaysYes(parse(w.1).value, l) {
        var w :| w in ws && parse(w.1).Some? && SaysYes(parse(w.1).value, l);
        assert l in LabelsOf(c, parse(w.1).value);
      }
    }
  }

  /** An issue is a first blocked label of some window; each parsed window is given the blocked labels that it confirms
      and the allowed ones that it denies or does not mention, and each other one is an error. */
  lemma ClassifierMeans(parse: Parser, c: Config, ws: seq<Window>, v: ClassifierVerdict)
    requires ClassifierMeets(parse, c, ws, v)
    ensures forall l :: l in v.issues <==>
              exists w :: w in ws && parse(w.1).Some? && FirstBlocked(c.block, parse(w.1).value) == Some(l)
    ensures forall w :: w in ws && parse(w.1).None? ==> w.0 in v.errors
    ensures forall w :: w in ws && parse(w.1).Some? ==> w.0 in v.reasons
    ensures forall w, l :: w in ws && parse(w.1).Some? && w.0 in v.reasons ==>
              (l in v.reasons[w.0] <==>
                 || (l in c.block && SaysYes(parse(w.1).value, l))
                 || (l in c.allow && (l !in parse(w.1).value || parse(w.1).value[l] == "no")))
    ensures forall w, l :: w in ws && parse(w.1).Some? && w.0 in v.reasons && l in v.reasons[w.0] ==>
              v.reasons[w.0][l] == if SaysYes(parse(w.1).value, l) then "yes" else "no"
  {
    hide FirstBlocked, AllLabels, AllowOk, BlockOk;
  }

  /** The classifier's verdict does not depend on the order of the windows either. */
  lemma ClassifierPermuted(parse: Parser, c: Config, ws: seq<Window>, ws': seq<Window>,
                           v: ClassifierVerdict, v': ClassifierVerdict)
    requires multiset(ws) == multiset(ws')
    requires ClassifierMeets(parse, c, ws, v) && ClassifierMeets(parse, c, ws', v')
    ensures v == v'
  {
    SamePermuted(ws, ws');
    SplitPermuted(parse, ws, ws', a => Rejections(c.allow, c.block, a), v.reasons, v.errors, v'.reasons, v'.errors);
    assert ClassifierRejected(parse, c, ws) == ClassifierRejected(parse, c, ws');
    assert AllLabels(parse, c, ws) == AllLabels(parse, c, ws');
    assert ws == [] <==> ws' == [];
    assert v.issues == v'.issues;
  }

  lemma ClassifierMonotone(parse: Parser, c: Config, ws: seq<Window>, higher: real)
    requires c.threshold <= higher && AllowOk(parse, c, ws) && BlockOk(parse, c, ws)
    ensures AllowOk(parse, c.(threshold := higher), ws) && BlockOk(parse, c.(threshold := higher), ws)
  {
    assert ClassifierRejected(parse, c, ws) == ClassifierRejected(parse, c.(threshold := higher), ws);
  }
}
