/** The commands that the job driver sends to the service, and what they amount to. */
module JobCommands {
  import opened Base
  import opened JobBooks

  datatype Answer = SaysInProgress | SaysFailed | SaysFulfilled | SaysNotFound

  /** One command and what was understood of its answer. */
  datatype Command = Invoke(path: string, accepted: bool) | GetStatus(path: string, answer: Option<Answer>)

  /** The service, whose answers are not determined. It says only finitely often, `patience` times, that a launch is in
      progress. */
  class Service {
    var commands: seq<Command>  // all the commands it has been sent

    constructor ()
      ensures commands == []
    {
      commands := [];
    }

    method Submit(path: string) returns (reqId: Option<nat>)
      modifies this
      ensures commands == old(commands) + [Invoke(path, reqId.Some?)]
    {
      reqId := *;
      commands := commands + [Invoke(path, reqId.Some?)];
    }

    method Ask(path: string, patience: nat) returns (answer: Option<Answer>)
      modifies this
      ensures commands == old(commands) + [GetStatus(path, answer)]
      ensures answer == Some(SaysInProgress) ==> patience > 0
    {
      answer :| answer == Some(SaysInProgress) ==> patience > 0;
      commands := commands + [GetStatus(path, answer)];
    }
  }

  predicate Unsuccessful(answer: Option<Answer>) {
    answer == Some(SaysFailed) || answer == Some(SaysNotFound)
  }

  /** A launch, or a poll, with its retries: `failures` commands that came to nothing, and the one that ended it. */
  datatype Call = Launch(path: string, failures: nat, ok: bool) | Poll(path: string, failures: nat, answer: Option<Answer>) {
    function Commands(): seq<Command> {
      if Launch? then seq(failures, _ => Invoke(path, false)) + [Invoke(path, ok)]
      else seq(failures, _ => GetStatus(path, None)) + [GetStatus(path, answer)]
    }

    /** Its last command has come to nothing too, and an exception is raised. */
    predicate Raises() {
      if Launch? then !ok else answer.None?
    }

    /** At most six commands in all, and no exception before the sixth. */
    predicate Bounded() {
      failures <= NUM_RETRIES && (Raises() ==> failures == NUM_RETRIES)
    }
  }

  /** A call sends at most six commands, each for its own path, and raises only after the sixth. */
  lemma BoundedMeans(c: Call)
    requires c.Bounded()
    ensures 1 <= |c.Commands()| <= 6 && (c.Raises() ==> |c.Commands()| == 6)
    ensures forall k :: 0 <= k < |c.Commands()| ==> c.Commands()[k].path == c.path
    ensures forall k :: 0 <= k < |c.Commands()| ==>
              if c.Launch? then c.Commands()[k].Invoke? && (c.Commands()[k].accepted ==> k == |c.Commands()| - 1 && c.ok)
              else c.Commands()[k].GetStatus? && (c.Commands()[k].answer.Some? ==> k == |c.Commands()| - 1)
    ensures var last := c.Commands()[|c.Commands()| - 1];
            if c.Launch? then last.accepted == c.ok else last.answer == c.answer
  {
  }

  function AllCommands(calls: seq<Call>): seq<Command> {
    if calls == [] then [] else AllCommands(calls[..|calls| - 1]) + calls[|calls| - 1].Commands()
  }

  /** How often each path's job was launched. */
  function Launches(calls: seq<Call>): multiset<string> {
    if calls == [] then multiset{}
    else Launches(calls[..|calls| - 1]) + if calls[|calls| - 1].Launch? then multiset{calls[|calls| - 1].path} else multiset{}
  }

  lemma {:induction false} AllCommandsConcat(a: seq<Call>, b: seq<Call>)
    ensures AllCommands(a + b) == AllCommands(a) + AllCommands(b)
  {
    hide Call.Commands;
    if b == [] {
      assert a + b == a;
    } else {
      AllCommandsConcat(a, b[..|b| - 1]);
      assert (a + b)[..|a + b| - 1] == a + b[..|b| - 1];
    }
  }

  lemma {:induction false} LaunchesConcat(a: seq<Call>, b: seq<Call>)
    ensures Launches(a + b) == Launches(a) + Launches(b)
  {
    if b == [] {
      assert a + b == a;
    } else {
      LaunchesConcat(a, b[..|b| - 1]);
      assert (a + b)[..|a + b| - 1] == a + b[..|b| - 1];
    }
  }

  ghost function LaunchesOf(calls: seq<Call>, p: string): set<int> {
    set k | 0 <= k < |calls| && calls[k].Launch? && calls[k].path == p
  }

  lemma LaunchesOfNext(calls: seq<Call>, c: Call, p: string)
    ensures LaunchesOf(calls + [c], p) == LaunchesOf(calls, p) + if c.Launch? && c.path == p then {|calls|} else {}
    ensures |calls| !in LaunchesOf(calls, p)
  {
  }

  /** A path's job was launched as often as there are launches of it among the calls. */
  lemma {:induction false} LaunchesCount(calls: seq<Call>, p: string)
    ensures Launches(calls)[p] == |LaunchesOf(calls, p)|
  {
    if calls == [] {
      assert LaunchesOf(calls, p) == {};
    } else {
      hide LaunchesOf;
      var rest, last := calls[..|calls| - 1], calls[|calls| - 1];
      LaunchesCount(rest, p);
      LaunchesOfNext(rest, last, p);
      assert calls == rest + [last];
    }
  }

  lemma OneCall(c: Call)
    ensures AllCommands([c]) == c.Commands()
    ensures Launches([c]) == if c.Launch? then multiset{c.path} else multiset{}
  {
    assert [c][..0] == [];
  }

  ghost predicate Quiet(calls: seq<Call>) {
    forall c :: c in calls ==> !c.Raises()
  }

  /** Every call but the last has gone well, and the last one raises. */
  ghost predicate EndsRaising(calls: seq<Call>) {
    calls != [] && calls[|calls| - 1].Raises() && Quiet(calls[..|calls| - 1])
  }

  /** Some poll was told that the job of `p` is fulfilled. */
  ghost predicate Fulfilled(calls: seq<Call>, p: string) {
    exists c :: c in calls && c.Poll? && c.path == p && c.answer == Some(SaysFulfilled)
  }

  /** The calls are bounded, and they account for the launches. */
  ghost predicate Accounts(calls: seq<Call>, launches: multiset<string>) {
    (forall c :: c in calls ==> c.Bounded()) && launches == Launches(calls)
  }

  lemma AccountsNone()
    ensures Accounts([], multiset{}) && AllCommands([]) == [] && Quiet([])
  {
  }

  lemma AccountsMore(a: seq<Call>, launches: multiset<string>, b: seq<Call>, launched: multiset<string>)
    requires Accounts(a, launches) && Accounts(b, launched)
    ensures Accounts(a + b, launches + launched)
    ensures AllCommands(a + b) == AllCommands(a) + AllCommands(b)
  {
    AllCommandsConcat(a, b);
    LaunchesConcat(a, b);
  }

  lemma AccountsOne(c: Call)
    requires c.Bounded()
    ensures Accounts([c], if c.Launch? then multiset{c.path} else multiset{})
    ensures AllCommands([c]) == c.Commands()
  {
    OneCall(c);
  }

  lemma FulfilledMore(a: seq<Call>, b: seq<Call>)
    ensures forall p :: Fulfilled(a, p) || Fulfilled(b, p) ==> Fulfilled(a + b, p)
  {
    assert forall c :: c in a || c in b ==> c in a + b;
  }

  /** After calls that went well, more calls raise exactly when they end so themselves. */
  lemma QuietMore(a: seq<Call>, b: seq<Call>)
    requires Quiet(a)
    ensures Quiet(b) ==> Quiet(a + b)
    ensures EndsRaising(b) ==> EndsRaising(a + b)
  {
    if EndsRaising(b) {
      assert (a + b)[..|a + b| - 1] == a + b[..|b| - 1];
    }
  }
}
