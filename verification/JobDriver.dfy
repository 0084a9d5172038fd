/** The driver that runs the input jobs on a pool of workers and records finished ones in a file. */
module JobDriver {
  import opened Base
  import opened JobBooks
  import opened JobCommands
  import opened ProgressFile

  datatype JobState = InProgress | Finished | Failed

  class Worker {
    var index: Option<nat>
    var inputPath: Option<string>
    var outputPath: Option<string>
    var reqId: Option<nat>
    var rerunCount: nat
    var patience: nat  // how often the service will still say that this launch is in progress

    constructor ()
      ensures Ready() && State() == Idle
    {
      index, inputPath, outputPath, reqId, rerunCount := None, None, None, None, 0;
    }

    /** The consistency that `is_idle` asserts, and a request id to poll whenever there is a job. */
    ghost predicate Ready()
      reads this
    {
      && (index.None? ==> inputPath.None? && outputPath.None? && reqId.None? && rerunCount == 0)
      && (index.Some? ==> inputPath.Some? && outputPath.Some? && reqId.Some? && rerunCount < NUM_RETRIES)
    }

    ghost function State(): WorkerState
      reads this
    {
      if inputPath.None? then Idle else Busy(inputPath.value, rerunCount, patience)
    }

    /** Sends invoke commands until one answers with a request id: at most six, then it raises (false). */
    method SubmitJob(service: Service) returns (ok: bool, failures: nat)
      requires inputPath.Some?
      modifies this`reqId, service
      ensures Launch(inputPath.value, failures, ok).Bounded()
      ensures service.commands == old(service.commands) + Launch(inputPath.value, failures, ok).Commands()
      ensures if ok then reqId.Some? else reqId == old(reqId)
    {
      var path := inputPath.value;
      failures := 0;
      while true
        invariant failures <= NUM_RETRIES && reqId == old(reqId)
        invariant service.commands == old(service.commands) + seq(failures, _ => Invoke(path, false))
        decreases NUM_RETRIES - failures
      {
        var answer := service.Submit(path);
        if answer.Some? {
          reqId := answer;
          return true, failures;
        }
        if failures >= NUM_RETRIES {
          return false, failures;
        }
        failures := failures + 1;
      }
    }

    /** One launch of the job at hand. It is never a job that the progress file already records. */
    method LaunchJob(service: Service, ghost recorded: seq<string>) returns (ok: bool, failures: nat)
      requires inputPath.Some? && inputPath.value !in recorded
      modifies this`reqId, this`patience, service
      ensures Launch(inputPath.value, failures, ok).Bounded()
      ensures service.commands == old(service.commands) + Launch(inputPath.value, failures, ok).Commands()
      ensures ok ==> reqId.Some?
    {
      reqId := None;
      patience := *;
      ok, failures := SubmitJob(service);
    }

    method AddJob(service: Service, job: Job, ghost recorded: seq<string>) returns (ok: bool, failures: nat)
      requires Ready() && State() == Idle && job.inputPath !in recorded
      modifies this, service
      ensures Launch(job.inputPath, failures, ok).Bounded()
      ensures service.commands == old(service.commands) + Launch(job.inputPath, failures, ok).Commands()
      ensures State() == Busy(job.inputPath, 0, patience) && (ok ==> Ready())
      ensures index == Some(job.index) && outputPath == Some(job.outputPath)
    {
      index, inputPath, outputPath := Some(job.index), Some(job.inputPath), Some(job.outputPath);
      ok, failures := LaunchJob(service, recorded);
    }

    method Reset()
      modifies this
      ensures Ready() && State() == Idle
    {
      index, inputPath, outputPath, reqId, rerunCount := None, None, None, None, 0;
    }

    /** Asks for the job's status until an answer is understood: at most six times, then None is raised. */
    method CheckJobStatus(service: Service) returns (answer: Option<Answer>, failures: nat)
      requires inputPath.Some? && reqId.Some?
      modifies this`patience, service
      ensures Poll(inputPath.value, failures, answer).Bounded()
      ensures service.commands == old(service.commands) + Poll(inputPath.value, failures, answer).Commands()
      ensures if answer == Some(SaysInProgress) then patience < old(patience) else patience == old(patience)
    {
      var path := inputPath.value;
      failures := 0;
      while true
        invariant failures <= NUM_RETRIES && patience == old(patience)
        invariant service.commands == old(service.commands) + seq(failures, _ => GetStatus(path, None))
        decreases NUM_RETRIES - failures
      {
        answer := service.Ask(path, patience);
        if answer.Some? {
          patience := if answer == Some(SaysInProgress) then patience - 1 else patience;
          return;
        }
        if failures >= NUM_RETRIES {
          return;
        }
        failures := failures + 1;
      }
    }

    /** Polls the job and does what the service's answer calls for: a fulfilled job frees the worker, one that
        failed or was not found is launched again up to four times and then given up, one in progress is left
        alone. None is a raised exception. `calls` are the poll and, if `launched`, the launch; and `answer` is
        what the poll was told. */
    method PollJob(service: Service, ghost recorded: seq<string>)
        returns (status: Option<JobState>, path: string, launched: bool, answer: Option<Answer>, ghost calls: seq<Call>)
      requires Ready() && State().Busy? && State().path !in recorded
      modifies this, service
      ensures path == old(State()).path && (status.Some? ==> Ready())
      ensures status == Some(Finished) <==> answer == Some(SaysFulfilled)
      ensures launched <==> Unsuccessful(answer) && old(State()).reruns + 1 < NUM_RETRIES
      ensures status == Some(Failed) <==> Unsuccessful(answer) && old(State()).reruns + 1 == NUM_RETRIES
      ensures status == Some(Finished) || status == Some(Failed) ==> State() == Idle
      ensures launched ==> status == Some(InProgress) || status == None
      ensures launched ==> State() == Busy(path, old(State()).reruns + 1, patience)
      ensures answer == Some(SaysInProgress) ==>
                && status == Some(InProgress)
                && State() == Busy(path, old(State()).reruns, patience) && patience < old(State()).patience
      ensures answer == None ==> status == None && State() == old(State())
      ensures status == Some(InProgress) ==> launched || answer == Some(SaysInProgress)
      ensures status == None ==> launched || answer == None
      ensures service.commands == old(service.commands) + AllCommands(calls)
      ensures Accounts(calls, if launched then multiset{path} else multiset{})
      ensures if status == None then EndsRaising(calls) else Quiet(calls)
      ensures status == Some(Finished) ==> Fulfilled(calls, path)
    {
      hide Call.Commands, AllCommands, Accounts, Launches;
      path, launched := inputPath.value, false;
      var failures;
      answer, failures := CheckJobStatus(service);
      ghost var poll := Poll(path, failures, answer);
      calls := [poll];
      AccountsOne(poll);
      if answer.None? {
        return None, path, launched, answer, calls;
      }
      if answer.value.SaysFulfilled? {
        Reset();
        assert poll in calls;
        return Some(Finished), path, launched, answer, calls;
      }
      if answer.value.SaysFailed? || answer.value.SaysNotFound? {
        rerunCount := rerunCount + 1;
        if rerunCount >= NUM_RETRIES {
          Reset();
          return Some(Failed), path, launched, answer, calls;
        }
        launched := true;
        var ok;
        ok, failures := LaunchJob(service, recorded);
        ghost var launch := Launch(path, failures, ok);
        AccountsOne(launch);
        AccountsMore([poll], multiset{}, [launch], multiset{path});
        assert multiset{} + multiset{path} == multiset{path};
        calls := [poll] + [launch];
        return if ok then Some(InProgress) else None, path, launched, answer, calls;
      }
      status := Some(InProgress);
    }
  }

  /** Sets the job of a path: in place when the path is there already, at the end otherwise. */
  method Put(pending: seq<Job>, job: Job) returns (r: seq<Job>)
    requires Distinct(Paths(pending))
    ensures Paths(r) == Paths(pending) + if job.inputPath in Paths(pending) then [] else [job.inputPath]
    ensures forall k :: 0 <= k < |r| ==>
              if r[k].inputPath == job.inputPath then r[k] == job else k < |pending| && r[k] == pending[k]
  {
    var k := 0;
    while k < |pending| && pending[k].inputPath != job.inputPath
      invariant k <= |pending| && forall j :: 0 <= j < k ==> pending[j].inputPath != job.inputPath
    {
      k := k + 1;
    }
    if k < |pending| {
      assert Paths(pending)[k] == job.inputPath;
      r := pending[k := job];
      assert forall j :: 0 <= j < |pending| && j != k ==> Paths(pending)[j] != Paths(pending)[k];
    } else {
      r := pending + [job];
    }
  }

  /** The jobs still to be done, as an ordered dictionary: a repeated path keeps its first position and
      takes its last entry. */
  method BuildInputList(inputs: seq<(string, string)>, progress: string) returns (pending: seq<Job>, finished: set<string>)
    ensures forall p :: p in finished <==> p in Entries(progress)
    ensures Paths(pending) == FirstOccurrences(inputs, |inputs|, finished) && Distinct(Paths(pending))
    ensures forall k :: 0 <= k < |pending| ==> pending[k] == LastEntry(inputs, |inputs|, pending[k].inputPath)
  {
    hide Entries;
    finished := ReadProgressFile(progress);
    pending := [];
    for n := 0 to |inputs|
      invariant Paths(pending) == FirstOccurrences(inputs, n, finished) && Distinct(Paths(pending))
      invariant forall k :: 0 <= k < |pending| ==> pending[k] == LastEntry(inputs, n, pending[k].inputPath)
    {
      var (path, output) := inputs[n];
      if path !in finished {
        pending := Put(pending, Job(n + 1, path, output));
      } else {
        assert forall k :: 0 <= k < |pending| ==> Paths(pending)[k] in Paths(pending) && Paths(pending)[k] != path;
      }
    }
  }

  datatype Outcome = Completed | Raised | Crashed

  ghost predicate NoAlias(ws: seq<Worker>) {
    forall i, j :: 0 <= i < j < |ws| ==> ws[i] != ws[j]
  }

  /** The workers are in the states `states`; all of them are ready unless a command has raised. */
  ghost predicate Shows(ws: seq<Worker>, states: seq<WorkerState>, ready: bool)
    reads ws
  {
    && |ws| == |states|
    && forall i :: 0 <= i < |ws| ==> ws[i].State() == states[i] && (ready ==> ws[i].Ready())
  }

  /** Adds a job at worker `i`; the others stay as they are. */
  method AddAt(service: Service, ws: seq<Worker>, ghost states: seq<WorkerState>, i: nat, job: Job,
               ghost recorded: seq<string>)
      returns (ok: bool, ghost patience: nat, ghost calls: seq<Call>)
    requires Shows(ws, states, true) && NoAlias(ws) && i < |ws| == |states|
    requires states[i].Idle? && job.inputPath !in recorded
    modifies ws[i], service
    ensures Shows(ws, states[i := Busy(job.inputPath, 0, patience)], ok)
    ensures service.commands == old(service.commands) + AllCommands(calls)
    ensures Accounts(calls, multiset{job.inputPath})
    ensures if ok then Quiet(calls) else EndsRaising(calls)
  {
    hide Call.Commands, AllCommands, Accounts, Launches;
    var failures;
    ok, failures := ws[i].AddJob(service, job, recorded);
    patience := ws[i].patience;
    calls := [Launch(job.inputPath, failures, ok)];
    AccountsOne(calls[0]);
  }

  /** Polls worker `i`; the others stay as they are. */
  method PollAt(service: Service, ws: seq<Worker>, ghost states: seq<WorkerState>, i: nat, ghost recorded: seq<string>)
      returns (status: Option<JobState>, path: string, launched: bool, ghost w: WorkerState, ghost calls: seq<Call>)
    requires Shows(ws, states, true) && NoAlias(ws) && i < |ws| == |states|
    requires states[i].Busy? && states[i].path !in recorded
    modifies ws[i], service
    ensures path == states[i].path && (launched ==> status == Some(InProgress) || status == None)
    ensures Shows(ws, states[i := w], status.Some?)
    ensures status == Some(Finished) || status == Some(Failed) ==> w == Idle
    ensures status == Some(Failed) ==> states[i].reruns + 1 == NUM_RETRIES
    ensures launched ==>
              w.Busy? && w == Busy(path, states[i].reruns + 1, w.patience) && states[i].reruns + 1 < NUM_RETRIES
    ensures status == Some(InProgress) && !launched ==>
              w.Busy? && w == Busy(path, states[i].reruns, w.patience) && w.patience < states[i].patience
    ensures status == None && !launched ==> w == states[i]
    ensures service.commands == old(service.commands) + AllCommands(calls)
    ensures Accounts(calls, if launched then multiset{path} else multiset{})
    ensures if status == None then EndsRaising(calls) else Quiet(calls)
    ensures status == Some(Finished) ==> Fulfilled(calls, path)
  {
    hide AllCommands, Accounts, Quiet, EndsRaising, Fulfilled;
    var answer;
    status, path, launched, answer, calls := ws[i].PollJob(service, recorded);
    w := ws[i].State();
  }

  lemma ShowsAt(ws: seq<Worker>, states: seq<WorkerState>, i: nat)
    requires Shows(ws, states, true) && i < |ws|
    ensures |ws| == |states| && ws[i].Ready() && ws[i].State() == states[i]
  {
  }

  /** Where the jobs that could move next are. */
  lemma Movable(s: Sys, place: map<string, Place>, i: nat)
    requires Conserved(s, place) && i < |s.workers|
    ensures s.pending != [] ==> s.pending[0] in place && place[s.pending[0]] == Pending
    ensures s.workers[i].Busy? ==>
              && s.workers[i].path in place && place[s.workers[i].path] == At(i)
              && s.workers[i].reruns + 1 <= NUM_RETRIES
  {
    assert s.workers[i].Busy? ==> Launched(s, place, s.workers[i].path);
  }

  method MakeWorkers(count: nat) returns (pool: seq<Worker>)
    ensures |pool| == count && NoAlias(pool) && fresh(pool)
    ensures Shows(pool, seq(count, _ => Idle), true)
  {
    pool := [];
    for i := 0 to count
      invariant |pool| == i && NoAlias(pool) && fresh(pool)
      invariant forall j :: 0 <= j < i ==> pool[j].State() == Idle && pool[j].Ready()
    {
      var worker := new Worker();
      pool := pool + [worker];
    }
  }

  /** The jobs to be done are clean and not recorded. */
  lemma ToBeDone(inputs: seq<(string, string)>, text: string, excluded: set<string>)
    requires forall i :: 0 <= i < |inputs| ==> Clean(inputs[i].0)
    requires forall p :: p in excluded <==> p in Entries(text)
    ensures forall p :: p in FirstOccurrences(inputs, |inputs|, excluded) ==> Clean(p) && p !in Entries(text)
  {
    forall p | p in FirstOccurrences(inputs, |inputs|, excluded) ensures Clean(p) && p !in Entries(text) {
      FirstOccurrencesMembers(inputs, |inputs|, excluded, p);
    }
  }

  ghost predicate AllWorkersIdle(ws: seq<WorkerState>) {
    forall i :: 0 <= i < |ws| ==> ws[i].Idle?
  }

  lemma ShowsLength(ws: seq<Worker>, states: seq<WorkerState>)
    requires Shows(ws, states, true)
    ensures |ws| == |states|
  {
  }

  /** Any answer other than an exception brings a busy worker's job nearer to its end. */
  lemma Closer(ws: seq<WorkerState>, i: nat, w: WorkerState)
    requires i < |ws| && ws[i].Busy? && ws[i].reruns < NUM_RETRIES
    requires w.Busy? ==> w.reruns > ws[i].reruns || (w.reruns == ws[i].reruns && w.patience < ws[i].patience)
    ensures || LaunchesLeft(ws[i := w]) < LaunchesLeft(ws)
            || (LaunchesLeft(ws[i := w]) == LaunchesLeft(ws) && PatienceLeft(ws[i := w]) < PatienceLeft(ws))
  {
    TotalsChange(ws, i, w);
    assert [w][..0] == [] && [ws[i]][..0] == [];
  }

  /** The paths whose jobs have succeeded are those that the service said were fulfilled. */
  ghost predicate Earned(calls: seq<Call>, place: map<string, Place>) {
    forall p :: p in place && (place[p] == Unrecorded || place[p] == Succeeded) ==> Fulfilled(calls, p)
  }

  lemma EarnedMore(calls: seq<Call>, more: seq<Call>, place: map<string, Place>, p: string, to: Place)
    requires Earned(calls, place)
    requires to == Unrecorded || to == Succeeded ==> Fulfilled(calls, p) || Fulfilled(more, p)
    ensures Earned(calls + more, place) && Earned(calls + more, place[p := to])
  {
    hide Fulfilled;
    FulfilledMore(calls, more);
  }

  /** The jobs start in order, and the progress file holds exactly the entries of `before` and the succeeded paths. */
  ghost predicate Orderly(pending: seq<Job>, s: Sys, place: map<string, Place>, started: seq<string>,
                          order: seq<string>, before: seq<string>, progress: string)
  {
    && Paths(pending) == s.pending && started + s.pending == order && Distinct(order)
    && (forall p :: p in place <==> p in order)
    && (forall p :: p in order ==> Clean(p) && p !in before)
    && Closed(progress) && Entries(progress) == before + s.succeeded
  }

  lemma OrderlySize(pending: seq<Job>, s: Sys, place: map<string, Place>, started: seq<string>,
                    order: seq<string>, before: seq<string>, progress: string)
    requires Orderly(pending, s, place, started, order, before, progress)
    ensures |pending| == |s.pending|
    ensures pending != [] ==> pending[0].inputPath == s.pending[0]
  {
    hide Clean, Closed, Entries, Distinct;
    assert pending != [] ==> Paths(pending)[0] == pending[0].inputPath;
  }

  /** A path that is pending or at a worker is not recorded. */
  lemma NotRecorded(pending: seq<Job>, s: Sys, place: map<string, Place>, started: seq<string>,
                    order: seq<string>, before: seq<string>, progress: string, p: string)
    requires Conserved(s, place) && Orderly(pending, s, place, started, order, before, progress)
    requires p in place && (place[p].Pending? || place[p].At?)
    ensures p !in Entries(progress)
  {
    hide Clean, Closed, Entries, Distinct, Tallied;
  }

  lemma OrderlyTake(pending: seq<Job>, s: Sys, place: map<string, Place>, started: seq<string>,
                    order: seq<string>, before: seq<string>, progress: string, i: nat, patience: nat)
    requires Orderly(pending, s, place, started, order, before, progress)
    requires pending != [] && s.pending != [] && i < |s.workers| && pending[0].inputPath in place
    ensures Orderly(pending[1..], Take(s, i, patience), place[pending[0].inputPath := At(i)],
                    started + [pending[0].inputPath], order, before, progress)
  {
    hide Clean, Closed, Entries, Distinct;
    var p := pending[0].inputPath;
    assert Paths(pending)[0] == p && Paths(pending[1..]) == s.pending[1..];
    assert s.pending == [p] + s.pending[1..];
  }

  /** A path that moves on, but is neither started nor recorded by that, leaves the order as it is. */
  lemma OrderlyMove(pending: seq<Job>, s: Sys, place: map<string, Place>, started: seq<string>,
                    order: seq<string>, before: seq<string>, progress: string, t: Sys, p: string, to: Place)
    requires Orderly(pending, s, place, started, order, before, progress) && p in place
    requires t.pending == s.pending && t.succeeded == s.succeeded
    ensures Orderly(pending, t, place, started, order, before, progress)
    ensures Orderly(pending, t, place[p := to], started, order, before, progress)
  {
    hide Clean, Closed, Entries, Distinct;
  }

  lemma OrderlyRecord(pending: seq<Job>, s: Sys, place: map<string, Place>, started: seq<string>,
                      order: seq<string>, before: seq<string>, progress: string, p: string)
    requires Orderly(pending, s, place, started, order, before, progress) && p in place
    ensures Orderly(pending, s.(succeeded := s.succeeded + [p]), place[p := Succeeded], started, order, before,
                    Record(progress, p))
  {
    hide Clean, Closed, Entries, Distinct;
    RecordAppends(progress, p);
  }

  /** One process of the driver: it starts with the recorded entries `before` and the pending paths `order`. */
  class Driver {
    const service: Service
    const workers: seq<Worker>
    ghost const before: seq<string>
    ghost const order: seq<string>
    ghost const sentBefore: seq<Command>
    var pending: seq<Job>
    var progress: string
    ghost var sys: Sys
    ghost var place: map<string, Place>
    ghost var started: seq<string>
    ghost var calls: seq<Call>  // the launches and polls so far

    /** The calls account for the commands sent and for the launches, and successes are earned. */
    ghost predicate Accounted()
      reads this, service
    {
      && service.commands == sentBefore + AllCommands(calls)
      && Accounts(calls, sys.launches) && Earned(calls, place)
    }

    /** Holds throughout a run, between any two of its steps. */
    ghost predicate Consistent()
      reads this, service
    {
      && Conserved(sys, place) && Accounted()
      && Orderly(pending, sys, place, started, order, before, progress)
    }

    /** No exception has been raised. */
    ghost predicate Valid()
      reads this, workers, service
    {
      Consistent() && NoAlias(workers) && Shows(workers, sys.workers, true) && Quiet(calls)
    }

    constructor (service: Service, inputs: seq<(string, string)>, text: string, workerCount: nat)
      requires Closed(text) && forall i :: 0 <= i < |inputs| ==> Clean(inputs[i].0)
      ensures this.service == service && sentBefore == service.commands
      ensures Valid() && fresh(workers) && |workers| == workerCount
      ensures progress == text && before == Entries(text) && sys.succeeded == [] && started == [] && calls == []
      ensures sys.launches == multiset{} && forall p :: p in place ==> place[p] == Pending
      ensures order == FirstOccurrences(inputs, |inputs|, set p | p in Entries(text))
      ensures forall k :: 0 <= k < |pending| ==> pending[k] == LastEntry(inputs, |inputs|, pending[k].inputPath)
    {
      hide Conserved, Clean, Closed, Entries, FirstOccurrences, LastEntry, Distinct, Shows, Accounts, AllCommands, Quiet, Fulfilled;
      var jobs, finished := BuildInputList(inputs, text);
      var pool := MakeWorkers(workerCount);
      assert finished == set p | p in Entries(text);
      ghost var paths := Paths(jobs);
      ToBeDone(inputs, text, finished);
      ghost var states := seq(workerCount, _ => Idle);
      InitiallyConserved(paths, states);
      AccountsNone();
      this.service, sentBefore := service, service.commands;
      workers, before, order := pool, Entries(text), paths;
      pending, progress, calls := jobs, text, [];
      sys, place, started := Sys(paths, states, [], multiset{}), map p | p in paths :: Pending, [];
    }

    /** Nothing has succeeded without being recorded. */
    ghost predicate AllRecorded()
      reads this
    {
      forall p :: p in place ==> place[p] != Unrecorded
    }

    /** The run has come nearer to its end. */
    ghost predicate Nearer(was: Sys)
      reads this
    {
      || |sys.pending| < |was.pending|
      || (|sys.pending| == |was.pending| && (
            || LaunchesLeft(sys.workers) < LaunchesLeft(was.workers)
            || (LaunchesLeft(sys.workers) == LaunchesLeft(was.workers) && PatienceLeft(sys.workers) < PatienceLeft(was.workers))))
    }

    /** Books the calls of one step, after which path `p` is at `to`. */
    ghost method Book(more: seq<Call>, launched: multiset<string>, p: string, to: Place)
      requires Accounts(calls, sys.launches) && Earned(calls, place) && Quiet(calls)
      requires Accounts(more, launched) && (to == Unrecorded || to == Succeeded ==> Fulfilled(more, p))
      modifies this`calls
      ensures calls == old(calls) + more && AllCommands(calls) == AllCommands(old(calls)) + AllCommands(more)
      ensures Accounts(calls, sys.launches + launched) && Earned(calls, place) && Earned(calls, place[p := to])
      ensures Quiet(more) ==> Quiet(calls)
      ensures EndsRaising(more) ==> EndsRaising(calls)
    {
      hide Accounts, AllCommands, Quiet, EndsRaising, Fulfilled, Earned;
      AccountsMore(calls, sys.launches, more, launched);
      EarnedMore(calls, more, place, p, to);
      QuietMore(calls, more);
      calls := calls + more;
    }

    /** Gives the oldest pending job to the idle worker `i`; false is a raised exception. */
    method StartJob(i: nat) returns (ok: bool)
      requires Valid() && AllRecorded() && i < |workers| && sys.workers[i].Idle? && pending != []
      modifies this, workers[i], service
      ensures Consistent() && AllRecorded() && (if ok then Valid() else EndsRaising(calls))
      ensures pending == old(pending)[1..] && started == old(started) + [old(pending)[0].inputPath]
      ensures progress == old(progress) && |sys.workers| == |old(sys).workers|
      ensures old(pending)[0].inputPath in place && place == old(place)[old(pending)[0].inputPath := At(i)]
      ensures Nearer(old(sys))
    {
      hide Conserved, Shows, Orderly, Accounts, AllCommands, Quiet, EndsRaising, Earned, Launches, LaunchesLeft, PatienceLeft;
      ShowsAt(workers, sys.workers, i);
      Movable(sys, place, i);
      var job := pending[0];
      OrderlySize(pending, sys, place, started, order, before, progress);
      NotRecorded(pending, sys, place, started, order, before, progress, job.inputPath);
      ghost var patience, more;
      ok, patience, more := AddAt(service, workers, sys.workers, i, job, Entries(progress));
      TakeConserves(sys, place, i, patience);
      OrderlyTake(pending, sys, place, started, order, before, progress, i, patience);
      Book(more, multiset{job.inputPath}, job.inputPath, At(i));
      pending := pending[1..];
      started := started + [job.inputPath];
      place := place[job.inputPath := At(i)];
      sys := Take(sys, i, patience);
    }

    /** Appends a succeeded path to the progress file, unless the process crashes first (false). */
    method RecordSuccess(path: string) returns (recorded: bool)
      requires Valid() && path in place && place[path] == Unrecorded
      requires forall p :: p in place && p != path ==> place[p] != Unrecorded
      modifies this`progress, this`place, this`sys
      ensures Valid() && (recorded ==> AllRecorded())
      ensures sys.workers == old(sys).workers && sys.pending == old(sys).pending
      ensures progress == if recorded then Record(old(progress), path) else old(progress)
      ensures sys.succeeded == old(sys).succeeded + if recorded then [path] else []
    {
      hide Conserved, Shows, Orderly, Accounts, AllCommands, Quiet, Fulfilled;
      recorded := *;
      if recorded {
        OrderlyRecord(pending, sys, place, started, order, before, progress, path);
        RecordConserves(sys, place, path);
        progress := Record(progress, path);
        place := place[path := Succeeded];
        sys := sys.(succeeded := sys.succeeded + [path]);
      }
    }

    /** Polls the busy worker `i`; its job is left unrecorded when the service says that it is fulfilled. */
    method PollOnce(i: nat) returns (status: Option<JobState>, path: string)
      requires Valid() && AllRecorded() && i < |workers| && sys.workers[i].Busy?
      modifies this`sys, this`place, this`calls, workers[i], service
      ensures Consistent() && (if status.Some? then Valid() else EndsRaising(calls))
      ensures |sys.workers| == |old(sys).workers| && sys.pending == old(sys).pending && sys.succeeded == old(sys).succeeded
      ensures path == old(sys).workers[i].path
      ensures if status == Some(Finished) then path in place && place[path] == Unrecorded else AllRecorded()
      ensures forall p :: p in place && p != path ==> place[p] != Unrecorded
      ensures status.Some? ==> Nearer(old(sys))
    {
      hide Conserved, Shows, Orderly, LaunchesLeft, PatienceLeft, Accounts, AllCommands, Quiet, EndsRaising, Earned, Fulfilled, Launches;
      ShowsAt(workers, sys.workers, i);
      Movable(sys, place, i);
      NotRecorded(pending, sys, place, started, order, before, progress, sys.workers[i].path);
      var launched;
      ghost var w, more;
      status, path, launched, w, more := PollAt(service, workers, sys.workers, i, Entries(progress));
      assert status.Some? ==> status.value.InProgress? || status.value.Finished? || status.value.Failed?;
      Book(more, if launched then multiset{path} else multiset{}, path,
           if status == Some(Finished) then Unrecorded else if status == Some(Failed) then GivenUp else At(i));
      assert sys.launches + multiset{} == sys.launches;
      if status == Some(Finished) || status == Some(Failed) {
        Closer(sys.workers, i, w);
        ReleaseConserves(sys, place, i, status == Some(Finished));
        OrderlyMove(pending, sys, place, started, order, before, progress, Release(sys, i), path,
                    if status == Some(Finished) then Unrecorded else GivenUp);
        place := place[path := if status == Some(Finished) then Unrecorded else GivenUp];
        sys := Release(sys, i);
      } else if launched {
        Closer(sys.workers, i, w);
        RelaunchConserves(sys, place, i, w.patience);
        OrderlyMove(pending, sys, place, started, order, before, progress, Relaunch(sys, i, w.patience), path, At(i));
        sys := Relaunch(sys, i, w.patience);
      } else if status == Some(InProgress) {
        Closer(sys.workers, i, w);
        WaitConserves(sys, place, i, w.patience);
        OrderlyMove(pending, sys, place, started, order, before, progress, Wait(sys, i, w.patience), path, At(i));
        sys := Wait(sys, i, w.patience);
      }
    }

    /** Polls the busy worker `i` and, when its job has succeeded, appends its path to the progress file. The
        process may also crash between the two. */
    method PollWorker(i: nat) returns (outcome: Outcome)
      requires Valid() && AllRecorded() && i < |workers| && sys.workers[i].Busy?
      modifies this`sys, this`place, this`calls, this`progress, workers[i], service
      ensures Consistent() && (outcome != Crashed ==> AllRecorded())
      ensures if outcome == Raised then EndsRaising(calls) else Valid()
      ensures sys.pending == old(sys).pending && |sys.workers| == |old(sys).workers|
      ensures (sys.succeeded == old(sys).succeeded && progress == old(progress)) ||
              (sys.succeeded == old(sys).succeeded + [old(sys).workers[i].path]
               && progress == Record(old(progress), old(sys).workers[i].path))
      ensures outcome == Completed ==> Nearer(old(sys))
    {
      hide Conserved, Shows, Orderly, Accounted, Quiet, EndsRaising, LaunchesLeft, PatienceLeft;
      var status, path := PollOnce(i);
      if status == Some(Finished) {
        var recorded := RecordSuccess(path);
        return if recorded then Completed else Crashed;
      }
      outcome := if status.Some? then Completed else Raised;
    }

    /** One worker's turn: an idle one takes a pending job if there is any, a busy one is polled. */
    method VisitWorker(i: nat) returns (outcome: Outcome)
      requires Valid() && AllRecorded() && i < |workers|
      modifies this, workers[i], service
      ensures Consistent() && (outcome != Crashed ==> AllRecorded())
      ensures if outcome == Raised then EndsRaising(calls) else Valid()
      ensures |sys.workers| == |old(sys).workers|
      ensures outcome == Completed ==>
                if old(sys).workers[i].Idle? && old(sys).pending == [] then sys == old(sys) else Nearer(old(sys))
    {
      hide Conserved, Orderly, Accounted, Quiet, EndsRaising, LaunchesLeft, PatienceLeft;
      OrderlySize(pending, sys, place, started, order, before, progress);
      ShowsAt(workers, sys.workers, i);
      if workers[i].index.None? {
        outcome := Completed;
        if pending != [] {
          var ok := StartJob(i);
          outcome := if ok then Completed else Raised;
        }
      } else {
        outcome := PollWorker(i);
      }
    }

    /** Visits all the workers in turn; the process may crash before any turn. */
    method Round() returns (outcome: Outcome)
      requires Valid() && AllRecorded() && |workers| >= 1
      modifies this, workers, service
      ensures Consistent() && (outcome != Crashed ==> AllRecorded())
      ensures if outcome == Raised then EndsRaising(calls) else Valid()
      ensures outcome == Completed ==>
                || Nearer(old(sys))
                || (old(sys).pending == [] && AllWorkersIdle(old(sys).workers))
    {
      hide Conserved, Orderly, Accounted, Quiet, EndsRaising, Shows, LaunchesLeft, PatienceLeft;
      ShowsAt(workers, sys.workers, 0);
      for i := 0 to |workers|
        invariant Valid() && AllRecorded() && |sys.workers| == |workers| == |old(sys).workers|
        invariant Nearer(old(sys)) ||
                  (sys == old(sys) && forall j :: 0 <= j < i ==> old(sys).workers[j].Idle? && old(sys).pending == [])
      {
        var crash: bool := *;
        if crash {
          return Crashed;
        }
        outcome := VisitWorker(i);
        if outcome != Completed {
          return;
        }
      }
      outcome := Completed;
    }

    /** Whether every worker's `index` is unset. */
    method AllIdle() returns (idle: bool)
      requires Valid()
      ensures idle <==> AllWorkersIdle(sys.workers)
      ensures |pending| == |sys.pending|
    {
      hide Conserved, Orderly, Accounted, Quiet;
      OrderlySize(pending, sys, place, started, order, before, progress);
      ShowsLength(workers, sys.workers);
      idle := true;
      for i := 0 to |workers|
        invariant idle <==> forall j :: 0 <= j < i ==> sys.workers[j].Idle?
      {
        ShowsAt(workers, sys.workers, i);
        idle := idle && workers[i].index.None?;
      }
    }

    /** The main loop. However it ends, the books are consistent; a crash can leave a success unrecorded; an
        exception is raised exactly when a launch or a poll has failed six times in a row; and it ends by itself
        only when every job has succeeded or been given up after five launches. */
    method Run() returns (outcome: Outcome)
      requires Valid() && AllRecorded() && |workers| >= 1
      modifies this, workers, service
      ensures Consistent() && (outcome != Crashed ==> AllRecorded())
      ensures if outcome == Raised then EndsRaising(calls) else Quiet(calls)
      ensures outcome == Completed ==> forall p :: p in place ==> place[p] == Succeeded || place[p] == GivenUp
    {
      hide Conserved, Orderly, Accounted, Quiet, EndsRaising, Shows, LaunchesLeft, PatienceLeft;
      var idle := AllIdle();
      while pending != [] || !idle
        invariant Valid() && AllRecorded()
        invariant (idle <==> AllWorkersIdle(sys.workers)) && |pending| == |sys.pending|
        decreases |sys.pending|, LaunchesLeft(sys.workers), PatienceLeft(sys.workers)
      {
        outcome := Round();
        if outcome != Completed {
          return;
        }
        idle := AllIdle();
      }
      AllSettled(sys, place);
      outcome := Completed;
    }
  }

  /** What one run did: the entries it found recorded, the paths whose jobs it started, in order, those it was to
      do, those that succeeded and were recorded, how often each was launched, and the calls it made. */
  datatype RunLog = RunLog(before: seq<string>, order: seq<string>, started: seq<string>, succeeded: seq<string>,
                           launches: multiset<string>, calls: seq<Call>)

  /** No recorded path is to be done or launched, none is launched more than five times, jobs start in the order of
      the input, only paths that the service said are fulfilled succeed, and the calls, of at most six commands
      each, account for the launches. */
  ghost predicate WellBehaved(log: RunLog) {
    && log.started <= log.order && Distinct(log.order)
    && (forall p :: p in log.order ==> p !in log.before)
    && (forall p :: log.launches[p] > 0 ==> p in log.started)
    && (forall p :: log.launches[p] <= 5)
    && (forall p :: p in log.succeeded ==> p in log.started && Fulfilled(log.calls, p)) && Distinct(log.succeeded)
    && Accounts(log.calls, log.launches)
  }

  lemma ConservedIsWellBehaved(s: Sys, place: map<string, Place>, log: RunLog)
    requires Conserved(s, place) && Distinct(log.order) && log.started + s.pending == log.order
    requires forall p :: p in place <==> p in log.order
    requires forall p :: p in log.order ==> p !in log.before
    requires log.succeeded == s.succeeded && log.launches == s.launches
    requires Accounts(log.calls, log.launches) && Earned(log.calls, place)
    ensures WellBehaved(log)
  {
    hide Accounts, Fulfilled;
    forall p ensures log.launches[p] <= NUM_RETRIES && (log.launches[p] > 0 ==> p in log.started) {
      if p in place {
        assert Launched(s, place, p);
        assert p in log.started + s.pending;
      }
    }
    forall p | p in log.succeeded ensures p in log.started {
      assert p in place && p in log.started + s.pending;
    }
  }

  lemma SettledByLaunches(s: Sys, place: map<string, Place>, p: string)
    requires Conserved(s, place) && p in place && (place[p] == Succeeded || place[p] == GivenUp)
    ensures p in s.succeeded || s.launches[p] == NUM_RETRIES
  {
    assert Launched(s, place, p);
  }

  /** One process, from reading the progress file to its end, its exception or its crash. */
  method RunOnce(service: Service, inputs: seq<(string, string)>, text0: string, workerCount: nat)
      returns (outcome: Outcome, text: string, ghost log: RunLog)
    requires Closed(text0) && workerCount >= 1 && forall i :: 0 <= i < |inputs| ==> Clean(inputs[i].0)
    modifies service
    ensures Closed(text) && Entries(text) == Entries(text0) + log.succeeded
    ensures log.before == Entries(text0) && WellBehaved(log)
    ensures log.order == FirstOccurrences(inputs, |inputs|, set p | p in log.before)
    ensures service.commands == old(service.commands) + AllCommands(log.calls)
    ensures if outcome == Raised then EndsRaising(log.calls) else Quiet(log.calls)
    ensures outcome == Completed ==> forall p :: p in log.order ==>
              p in log.succeeded || log.launches[p] == NUM_RETRIES
  {
    hide Entries, Closed, Clean, Conserved, Shows, Distinct, WellBehaved, FirstOccurrences,
         Accounts, AllCommands, Quiet, EndsRaising, Earned, LastEntry;
    var driver := new Driver(service, inputs, text0, workerCount);
    outcome := driver.Run();
    text := driver.progress;
    log := RunLog(driver.before, driver.order, driver.started, driver.sys.succeeded, driver.sys.launches, driver.calls);
    ConservedIsWellBehaved(driver.sys, driver.place, log);
    if outcome == Completed {
      forall p | p in log.order ensures p in log.succeeded || log.launches[p] == NUM_RETRIES {
        SettledByLaunches(driver.sys, driver.place, p);
      }
    }
  }

  lemma NewlyRecorded(log: RunLog)
    requires WellBehaved(log) && Distinct(log.before)
    ensures Distinct(log.before + log.succeeded)
  {
    hide Accounts, Fulfilled;
    var a, b := log.before, log.succeeded;
    forall i, j | 0 <= i < |a| && 0 <= j < |b| ensures a[i] != b[j] {
      assert b[j] in log.started && log.started == log.order[..|log.started|];
      assert b[j] in log.order && a[i] in a;
    }
    forall i, j | 0 <= i < j < |a + b| ensures (a + b)[i] != (a + b)[j] {
      if i < |a| <= j {
        assert (a + b)[i] == a[i] && (a + b)[j] == b[j - |a|];
      } else if |a| <= i {
        assert (a + b)[i] == b[i - |a|] && (a + b)[j] == b[j - |a|];
      }
    }
  }

  /** A run launches nothing that was recorded when it began. */
  lemma RecordedNotLaunched(log: RunLog)
    requires WellBehaved(log)
    ensures forall p :: p in log.before ==> log.launches[p] == 0
  {
    hide Accounts, Fulfilled;
    forall p | log.launches[p] > 0 ensures p !in log.before {
      assert p in log.order[..|log.started|];
    }
  }

  function AllCalls(logs: seq<RunLog>): seq<Call> {
    if logs == [] then [] else AllCalls(logs[..|logs| - 1]) + logs[|logs| - 1].calls
  }

  /** Run `b` did the jobs of `batch`, the unrecorded paths in first-occurrence order. */
  ghost predicate DoesBatch(log: RunLog, batch: seq<(string, string)>) {
    WellBehaved(log) && log.order == FirstOccurrences(batch, |batch|, set p | p in log.before)
  }

  /** What run `b` found recorded and added is there when run `c` begins, and run `c` does not launch it. */
  ghost predicate Precedes(b: RunLog, c: RunLog) {
    b.before + b.succeeded <= c.before && forall p :: p in b.before + b.succeeded ==> c.launches[p] == 0
  }

  lemma PrecedesNext(b: RunLog, c: RunLog)
    requires WellBehaved(c) && b.before + b.succeeded <= c.before
    ensures Precedes(b, c)
  {
    hide WellBehaved;
    RecordedNotLaunched(c);
    assert forall p :: p in b.before + b.succeeded ==> p in c.before;
  }

  /** The runs so far, over a file that held `entries0` at first and holds `entries` now. */
  ghost predicate Chained(logs: seq<RunLog>, batches: seq<seq<(string, string)>>, entries0: seq<string>, entries: seq<string>)
    requires |logs| <= |batches|
  {
    && entries0 <= entries && Distinct(entries)
    && (forall b :: 0 <= b < |logs| ==> DoesBatch(logs[b], batches[b]))
    && (forall b :: 0 <= b < |logs| ==> entries0 <= logs[b].before)
    && (forall b :: 0 <= b < |logs| ==> forall p :: p in entries0 ==> logs[b].launches[p] == 0)
    && (forall b, c :: 0 <= b < c < |logs| ==> Precedes(logs[b], logs[c]))
    && (forall b :: 0 <= b < |logs| ==> logs[b].before + logs[b].succeeded <= entries)
  }

  lemma ChainedNext(logs: seq<RunLog>, batches: seq<seq<(string, string)>>, entries0: seq<string>, entries: seq<string>, log: RunLog)
    requires |logs| < |batches| && Chained(logs, batches, entries0, entries)
    requires DoesBatch(log, batches[|logs|]) && log.before == entries
    ensures Chained(logs + [log], batches, entries0, entries + log.succeeded)
  {
    NewlyRecorded(log);
    RecordedNotLaunched(log);
    hide WellBehaved, Distinct;
    forall b | 0 <= b < |logs| ensures Precedes(logs[b], log) {
      PrecedesNext(logs[b], log);
    }
    hide Precedes, DoesBatch;
    assert forall p :: p in entries0 ==> p in log.before;
  }

  /** Any sequence of runs over the same progress file, each ending, raising or crashing as it may: the file never
      loses an entry or holds a path twice, run `b` does the jobs of the `b`-th input list, it finds recorded
      everything that was in the file and everything that earlier runs have added, and it launches none of
      that again. */
  method Sessions(service: Service, batches: seq<seq<(string, string)>>, text0: string, workerCount: nat)
      returns (text: string, ghost logs: seq<RunLog>)
    requires Closed(text0) && Distinct(Entries(text0)) && workerCount >= 1
    requires forall b, i :: 0 <= b < |batches| && 0 <= i < |batches[b]| ==> Clean(batches[b][i].0)
    modifies service
    ensures Entries(text0) <= Entries(text) && Distinct(Entries(text))
    ensures |logs| == |batches| && forall b :: 0 <= b < |logs| ==> DoesBatch(logs[b], batches[b])
    ensures forall b :: 0 <= b < |logs| ==> Entries(text0) <= logs[b].before
    ensures forall b :: 0 <= b < |logs| ==> forall p :: p in Entries(text0) ==> logs[b].launches[p] == 0
    ensures forall b, c :: 0 <= b < c < |logs| ==> Precedes(logs[b], logs[c])
    ensures forall b :: 0 <= b < |logs| ==> logs[b].before + logs[b].succeeded <= Entries(text)
    ensures service.commands == old(service.commands) + AllCommands(AllCalls(logs))
  {
    hide Entries, Closed, Clean, WellBehaved, FirstOccurrences, Distinct, Precedes, AllCommands, Quiet, EndsRaising;
    text, logs := text0, [];
    AccountsNone();
    for b := 0 to |batches|
      invariant |logs| == b && Closed(text) && Chained(logs, batches, Entries(text0), Entries(text))
      invariant service.commands == old(service.commands) + AllCommands(AllCalls(logs))
    {
      hide Chained;
      var outcome;
      ghost var log;
      ghost var entries := Entries(text);
      outcome, text, log := RunOnce(service, batches[b], text, workerCount);
      ChainedNext(logs, batches, Entries(text0), entries, log);
      AllCommandsConcat(AllCalls(logs), log.calls);
      assert (logs + [log])[..|logs|] == logs;
      logs := logs + [log];
    }
  }
}
