/** The progress thread in file mode, as a state machine over its atomic actions, interleaved with the
    producer, the pipeline, the stop event and a termination request. */
module ProgressLog {
  /** The thread's next action. */
  datatype Pc =
    | NotStarted
    | Loop            // the outer loop tests the stop event
    | OuterStatus     // reads the request status
    | InnerLoop       // the inner loop tests the stop event
    | InnerStatus     // reads the request status
    | Get             // takes a line from the queue, or finds it empty
    | Flush           // is it time to write, or to stop?
    | Fetch           // rewrites the progress file; fetching the metrics may raise
    | Append          // appends the buffer to the log file
    | Clear           // clears the buffer
    | Drain           // the final drain
    | FinalAppend     // the last write, without fetching metrics
    | Mark            // drops the done or failed file
    | Exited

  datatype Status = NotFound | Running | Done | Failed

  /** The files whose existence gives the request status. */
  datatype Files = Files(progress: bool, done: bool, failed: bool)

  /** The lines on their way: `put` are all that the producer has put, and `drained` those that had been put when
      the final drain found the queue empty. */
  datatype Lines = Lines(queue: seq<string>, buffer: seq<string>, log: seq<string>, put: seq<string>, drained: seq<string>) {
    function Put(line: string): Lines {
      this.(queue := queue + [line], put := put + [line])
    }

    function Get(): Lines
      requires queue != []
    {
      this.(buffer := buffer + [queue[0]], queue := queue[1..])
    }

    function Append(): Lines {
      this.(log := log + buffer)
    }
  }

  datatype State = State(pc: Pc, stop: bool, files: Files, pipelineOk: bool, lines: Lines, producerDone: bool)

  /** `Tick(choice)` is the thread's next action; where it can go two ways for reasons outside the model (the status
      cannot be read, the update is due, fetching raises), `choice` decides. */
  datatype Event = Tick(choice: bool) | Setup | Put(line: string) | FinishProducer | FailPipeline | SetStop | Terminate

  const INITIAL := State(NotStarted, false, Files(false, false, false), false, Lines([], [], [], [], []), false)

  function StatusOf(f: Files): Status {
    if f.failed then Failed
    else if f.done then Done
    else if f.progress then Running
    else NotFound
  }

  function Rank(st: Status): nat {
    match st
    case NotFound => 0
    case Running => 1
    case Done => 2
    case Failed => 3
  }

  /** The stop event after reading the status, which may silently fail. */
  function StopAfterStatus(s: State, unreadable: bool): bool {
    s.stop || (!unreadable && StatusOf(s.files) != Running)
  }

  function TickOf(s: State, choice: bool): State {
    match s.pc
    case NotStarted => s
    case Loop => s.(pc := if s.stop then Drain else OuterStatus)
    case OuterStatus => s.(pc := InnerLoop, stop := StopAfterStatus(s, choice))
    case InnerLoop => s.(pc := if s.stop then Flush else InnerStatus)
    case InnerStatus => s.(pc := Get, stop := StopAfterStatus(s, choice))
    case Get => if s.lines.queue == [] then s.(pc := Flush) else s.(pc := InnerLoop, lines := s.lines.Get())
    case Flush => s.(pc := if choice || s.stop then Fetch else Loop)
    case Fetch => s.(pc := if choice then Loop else Append, files := s.files.(progress := true))
    case Append => s.(pc := Clear, lines := s.lines.Append())
    case Clear => s.(pc := Loop, lines := s.lines.(buffer := []))
    case Drain =>
      if s.lines.queue == [] then s.(pc := FinalAppend, lines := s.lines.(drained := s.lines.put))
      else s.(lines := s.lines.Get())
    case FinalAppend => s.(pc := Mark, lines := s.lines.Append())
    case Mark =>
      s.(pc := Exited,
         files := if s.files.failed then s.files
                  else if s.pipelineOk then s.files.(done := true)
                  else s.files.(failed := true))
    case Exited => s
  }

  function Step(s: State, e: Event): State {
    match e
    case Tick(choice) => TickOf(s, choice)
    case Setup =>
      if s.pc == NotStarted then s.(pc := Loop, files := s.files.(progress := true), pipelineOk := true, stop := false) else s
    case Put(line) => if s.producerDone then s else s.(lines := s.lines.Put(line))
    case FinishProducer => s.(producerDone := true)
    case FailPipeline => s.(pipelineOk := false)
    case SetStop => s.(stop := true)
    case Terminate => s.(files := s.files.(failed := true))
  }

  function Run(s: State, es: seq<Event>): State {
    if es == [] then s else Step(Run(s, es[..|es| - 1]), es[|es| - 1])
  }

  /** The buffered lines that are not in the log file yet. */
  function Unwritten(pc: Pc, l: Lines): seq<string> {
    if pc.Clear? || pc.Mark? || pc.Exited? then [] else l.buffer
  }

  /** Past the final drain. */
  predicate AfterDrain(pc: Pc) {
    pc.FinalAppend? || pc.Mark? || pc.Exited?
  }

  ghost predicate LinesKept(pc: Pc, l: Lines) {
    && l.log + Unwritten(pc, l) + l.queue == l.put
    && (pc.NotStarted? ==> l.buffer == [] && l.log == [])
    && (AfterDrain(pc) ==> l.log + Unwritten(pc, l) == l.drained)
  }

  ghost predicate FilesKept(pc: Pc, f: Files) {
    (!pc.NotStarted? ==> f.progress) && (pc.Exited? ==> f.done || f.failed)
  }

  ghost predicate Inv(s: State) {
    LinesKept(s.pc, s.lines) && FilesKept(s.pc, s.files)
  }

  lemma PutKeeps(pc: Pc, l: Lines, line: string)
    requires LinesKept(pc, l)
    ensures LinesKept(pc, l.Put(line))
  {
    assert l.log + Unwritten(pc, l) + (l.queue + [line]) == l.put + [line];
  }

  lemma GetKeeps(pc: Pc, l: Lines, pc': Pc)
    requires LinesKept(pc, l) && l.queue != [] && ((pc.Get? && pc'.InnerLoop?) || (pc.Drain? && pc'.Drain?))
    ensures LinesKept(pc', l.Get())
  {
    assert l.queue == [l.queue[0]] + l.queue[1..];
    assert l.log + (l.buffer + [l.queue[0]]) + l.queue[1..] == l.log + l.buffer + l.queue;
  }

  lemma AppendKeeps(pc: Pc, l: Lines, pc': Pc)
    requires LinesKept(pc, l) && ((pc.Append? && pc'.Clear?) || (pc.FinalAppend? && pc'.Mark?))
    ensures LinesKept(pc', l.Append())
  {
    assert l.log + l.buffer + [] == l.log + l.buffer;
  }

  lemma TickKeepsLines(s: State, choice: bool)
    requires LinesKept(s.pc, s.lines)
    ensures LinesKept(TickOf(s, choice).pc, TickOf(s, choice).lines)
  {
    var t := TickOf(s, choice);
    match s.pc
    case Get => if s.lines.queue != [] { GetKeeps(s.pc, s.lines, t.pc); }
    case Drain => if s.lines.queue != [] { GetKeeps(s.pc, s.lines, t.pc); }
    case Append => AppendKeeps(s.pc, s.lines, t.pc);
    case FinalAppend => AppendKeeps(s.pc, s.lines, t.pc);
    case Clear => assert t.lines.log + Unwritten(t.pc, t.lines) == s.lines.log + Unwritten(s.pc, s.lines);
    case _ =>
  }

  lemma TickKeepsFiles(s: State, choice: bool)
    requires FilesKept(s.pc, s.files)
    ensures FilesKept(TickOf(s, choice).pc, TickOf(s, choice).files)
  {
    match s.pc case _ =>
  }

  lemma StepKeepsInv(s: State, e: Event)
    requires Inv(s)
    ensures Inv(Step(s, e))
  {
    match e
    case Tick(choice) =>
      TickKeepsLines(s, choice);
      TickKeepsFiles(s, choice);
    case Put(line) => PutKeeps(s.pc, s.lines, line);
    case Setup =>
    case _ => assert Step(s, e).pc == s.pc && Step(s, e).lines == s.lines;
  }

  /** At every interleaving, whatever raises, nothing is lost, duplicated or reordered: the log file, the
      unwritten buffer and the queue are together all the lines put. */
  lemma {:induction false} LogConservation(es: seq<Event>)
    ensures Inv(Run(INITIAL, es))
  {
    if es != [] {
      LogConservation(es[..|es| - 1]);
      StepKeepsInv(Run(INITIAL, es[..|es| - 1]), es[|es| - 1]);
    }
  }

  lemma StepKeepsPut(s: State, e: Event)
    ensures s.producerDone ==> Step(s, e).producerDone && Step(s, e).lines.put == s.lines.put
    ensures AfterDrain(Step(s, e).pc) ==>
              if AfterDrain(s.pc) then Step(s, e).lines.drained == s.lines.drained
              else Step(s, e).lines.drained == s.lines.put
  {
    if e.Tick? {
      match s.pc case _ =>
    }
  }

  /** Once the producer is done, what has been put and the queue's contents can only be drained. */
  lemma {:induction false} ProducerDoneForGood(s: State, es: seq<Event>)
    requires s.producerDone
    ensures Run(s, es).producerDone && Run(s, es).lines.put == s.lines.put
  {
    if es != [] {
      ProducerDoneForGood(s, es[..|es| - 1]);
      StepKeepsPut(Run(s, es[..|es| - 1]), es[|es| - 1]);
    }
  }

  lemma {:induction false} RunAppend(s: State, es: seq<Event>, fs: seq<Event>)
    ensures Run(s, es + fs) == Run(Run(s, es), fs)
  {
    if fs == [] {
      assert es + fs == es;
    } else {
      assert (es + fs)[..|es + fs| - 1] == es + fs[..|fs| - 1];
      RunAppend(s, es, fs[..|fs| - 1]);
    }
  }

  /** Before the final drain has found the queue empty, what it will find is still open. */
  lemma {:induction false} DrainedLater(s: State, es: seq<Event>)
    requires s.producerDone && !AfterDrain(s.pc)
    ensures AfterDrain(Run(s, es).pc) ==> Run(s, es).lines.drained == s.lines.put
  {
    if es != [] {
      DrainedLater(s, es[..|es| - 1]);
      ProducerDoneForGood(s, es[..|es| - 1]);
      StepKeepsPut(Run(s, es[..|es| - 1]), es[|es| - 1]);
    }
  }

  /** When the thread has exited, the log file holds exactly the lines put before the final drain found the queue
      empty; so if the producer finished before that, the file is complete. */
  lemma CompleteLog(es: seq<Event>, fs: seq<Event>)
    requires Run(INITIAL, es + fs).pc.Exited?
    ensures Run(INITIAL, es + fs).lines.log == Run(INITIAL, es + fs).lines.drained
    ensures Run(INITIAL, es).producerDone && !AfterDrain(Run(INITIAL, es).pc) ==>
              Run(INITIAL, es + fs).lines.log == Run(INITIAL, es + fs).lines.put
  {
    LogConservation(es + fs);
    var s, t := Run(INITIAL, es), Run(INITIAL, es + fs);
    assert t.lines.log + [] == t.lines.log;
    RunAppend(INITIAL, es, fs);
    if s.producerDone && !AfterDrain(s.pc) {
      DrainedLater(s, fs);
      ProducerDoneForGood(s, fs);
    }
  }

  lemma StepStatus(s: State, e: Event)
    ensures Rank(StatusOf(s.files)) <= Rank(StatusOf(Step(s, e).files))
  {
    if e.Tick? {
      match s.pc case _ =>
    }
  }

  /** The status only moves up; failed is for good. */
  lemma {:induction false} StatusMonotone(s: State, es: seq<Event>)
    ensures Rank(StatusOf(s.files)) <= Rank(StatusOf(Run(s, es).files))
    ensures StatusOf(s.files) == Failed ==> StatusOf(Run(s, es).files) == Failed
  {
    if es != [] {
      StatusMonotone(s, es[..|es| - 1]);
      StepStatus(Run(s, es[..|es| - 1]), es[|es| - 1]);
    }
  }

  lemma TerminateFails(es: seq<Event>, k: nat)
    requires k < |es| && es[k] == Terminate
    ensures StatusOf(Run(INITIAL, es).files) == Failed
  {
    var before := es[..k + 1];
    assert es == before + es[k + 1..] && before[..k] == es[..k];
    assert StatusOf(Run(INITIAL, before).files) == Failed;
    hide Step, Run;
    RunAppend(INITIAL, before, es[k + 1..]);
    StatusMonotone(Run(INITIAL, before), es[k + 1..]);
  }

  /** When the thread has exited, the request is done or failed; it is failed when it was terminated before. */
  lemma ExitStatus(es: seq<Event>)
    requires Run(INITIAL, es).pc.Exited?
    ensures StatusOf(Run(INITIAL, es).files) == Done || StatusOf(Run(INITIAL, es).files) == Failed
    ensures Terminate in es ==> StatusOf(Run(INITIAL, es).files) == Failed
  {
    hide Run, LinesKept;
    LogConservation(es);
    if Terminate in es {
      var k :| 0 <= k < |es| && es[k] == Terminate;
      TerminateFails(es, k);
    }
  }

  /** The number of actions the thread still has to take once it is stopping and nothing more is put. */
  function ActionsLeft(s: State): nat {
    |s.lines.queue| + match s.pc {
      case NotStarted => 13
      case OuterStatus => 12
      case InnerStatus => 11
      case Get => 10
      case InnerLoop => 9
      case Flush => 8
      case Fetch => 7
      case Append => 6
      case Clear => 5
      case Loop => 4
      case Drain => 3
      case FinalAppend => 2
      case Mark => 1
      case Exited => 0
    }
  }

  /** A started thread that has been told to stop, with the producer done, reaches its end in as many of its
      own actions as `ActionsLeft` says, whatever else goes on in between. */
  lemma StoppingProgresses(s: State, e: Event)
    requires s.stop && s.producerDone && !s.pc.NotStarted?
    ensures Step(s, e).stop && Step(s, e).producerDone && !Step(s, e).pc.NotStarted?
    ensures if e.Tick? && !s.pc.Exited? then ActionsLeft(Step(s, e)) < ActionsLeft(s)
            else ActionsLeft(Step(s, e)) == ActionsLeft(s)
  {
  }

  function Ticks(es: seq<Event>): nat {
    if es == [] then 0 else Ticks(es[..|es| - 1]) + if es[|es| - 1].Tick? then 1 else 0
  }

  lemma {:induction false} StoppingTerminates(s: State, es: seq<Event>)
    requires s.stop && s.producerDone && !s.pc.NotStarted?
    ensures var t := Run(s, es);
            && t.stop && t.producerDone && !t.pc.NotStarted?
            && (t.pc.Exited? || ActionsLeft(t) + Ticks(es) <= ActionsLeft(s))
    ensures Ticks(es) >= ActionsLeft(s) ==> Run(s, es).pc.Exited?
  {
    if es != [] {
      StoppingTerminates(s, es[..|es| - 1]);
      StoppingProgresses(Run(s, es[..|es| - 1]), es[|es| - 1]);
    }
  }

  /** Still in the main loop. */
  predicate InLoop(pc: Pc) {
    !pc.NotStarted? && !pc.Drain? && !AfterDrain(pc)
  }

  /** How many of the thread's own actions it takes at most until it reads the status. */
  function ActionsToStop(pc: Pc): nat {
    match pc
    case Get => 7
    case Flush => 6
    case Fetch => 5
    case Append => 4
    case Clear => 3
    case Loop => 2
    case InnerLoop => 2
    case _ => 1
  }

  /** Every attempt to read the status succeeds. */
  ghost predicate Readable(s: State, es: seq<Event>) {
    forall k :: 0 <= k < |es| && es[k] == Tick(true) ==>
      !Run(s, es[..k]).pc.OuterStatus? && !Run(s, es[..k]).pc.InnerStatus?
  }

  lemma FailedTick(s: State, choice: bool)
    requires s.files.failed && !s.pc.NotStarted? && (s.stop || InLoop(s.pc))
    requires choice ==> !s.pc.OuterStatus? && !s.pc.InnerStatus?
    ensures var t := TickOf(s, choice);
            && t.files.failed && !t.pc.NotStarted? && (s.stop ==> t.stop)
            && (t.stop || (InLoop(t.pc) && ActionsToStop(t.pc) + 1 <= ActionsToStop(s.pc)))
  {
    match s.pc case _ =>
  }

  lemma FailedStep(s: State, e: Event)
    requires s.files.failed && !s.pc.NotStarted? && (s.stop || InLoop(s.pc))
    requires e == Tick(true) ==> !s.pc.OuterStatus? && !s.pc.InnerStatus?
    ensures var t := Step(s, e);
            && t.files.failed && !t.pc.NotStarted? && (s.stop ==> t.stop)
            && (t.stop || (InLoop(t.pc) && ActionsToStop(t.pc) + (if e.Tick? then 1 else 0) <= ActionsToStop(s.pc)))
  {
    match e
    case Tick(choice) => FailedTick(s, choice);
    case Setup =>
    case _ => assert Step(s, e).pc == s.pc;
  }

  /** A thread whose request has been marked failed notices within seven of its own actions. */
  lemma {:induction false} FailedStops(s: State, es: seq<Event>)
    requires s.files.failed && !s.pc.NotStarted? && (s.stop || InLoop(s.pc)) && Readable(s, es)
    ensures var t := Run(s, es);
            && t.files.failed && !t.pc.NotStarted?
            && (t.stop || (InLoop(t.pc) && ActionsToStop(t.pc) + Ticks(es) <= ActionsToStop(s.pc)))
    ensures Ticks(es) >= 7 ==> Run(s, es).stop
  {
    if es != [] {
      var before := es[..|es| - 1];
      assert forall k :: 0 <= k <= |before| ==> before[..k] == es[..k];
      FailedStops(s, before);
      assert Run(s, es[..|before|]) == Run(s, before);
      hide Run;
      FailedStep(Run(s, before), es[|es| - 1]);
    }
  }

  /** A termination takes effect: once it is recorded and the producer is done, the thread exits after a number of
      its own actions, whatever else happens in between, and the request is failed. */
  lemma TerminationTakesEffect(s: State, es: seq<Event>, fs: seq<Event>)
    requires s.files.failed && s.producerDone && InLoop(s.pc) && Readable(s, es)
    requires Ticks(es) >= 7 && Ticks(fs) >= ActionsLeft(Run(s, es))
    ensures Run(s, es + fs).pc.Exited? && StatusOf(Run(s, es + fs).files) == Failed
  {
    hide Run, Ticks;
    FailedStops(s, es);
    ProducerDoneForGood(s, es);
    StoppingTerminates(Run(s, es), fs);
    RunAppend(s, es, fs);
    StatusMonotone(s, es + fs);
  }

  /** The pipeline is going well and nothing has been marked failed. */
  ghost predicate Healthy(s: State) {
    s.pipelineOk && !s.files.failed && !s.pc.NotStarted? && (s.pc.Exited? ==> s.files.done)
  }

  lemma HealthyTick(s: State, choice: bool)
    requires Healthy(s)
    ensures Healthy(TickOf(s, choice))
  {
    match s.pc case _ =>
  }

  lemma {:induction false} HealthyRun(s: State, es: seq<Event>)
    requires Healthy(s) && FailPipeline !in es && Terminate !in es
    ensures Healthy(Run(s, es))
  {
    if es != [] {
      var before, e := es[..|es| - 1], es[|es| - 1];
      HealthyRun(s, before);
      if e.Tick? {
        HealthyTick(Run(s, before), e.choice);
      }
    }
  }

  /** The pipeline has failed in this run, and if the thread has exited, it has said so. */
  ghost predicate Broken(s: State) {
    !s.pipelineOk && !s.pc.NotStarted? && (s.pc.Exited? ==> s.files.failed)
  }

  lemma BrokenTick(s: State, choice: bool)
    requires Broken(s)
    ensures Broken(TickOf(s, choice))
  {
    match s.pc case _ =>
  }

  lemma {:induction false} BrokenRun(s: State, es: seq<Event>)
    requires Broken(s)
    ensures Broken(Run(s, es))
  {
    if es != [] {
      var before, e := es[..|es| - 1], es[|es| - 1];
      BrokenRun(s, before);
      if e.Tick? {
        BrokenTick(Run(s, before), e.choice);
      }
    }
  }

  lemma {:induction false} NotStartedYet(es: seq<Event>)
    requires Setup !in es
    ensures Run(INITIAL, es).pc.NotStarted?
    ensures Terminate !in es ==> !Run(INITIAL, es).files.failed
  {
    if es != [] {
      NotStartedYet(es[..|es| - 1]);
    }
  }

  lemma {:induction false} StartedForGood(es: seq<Event>)
    requires Setup in es
    ensures !Run(INITIAL, es).pc.NotStarted?
  {
    var before, e := es[..|es| - 1], es[|es| - 1];
    assert es == before + [e];
    if Setup in before {
      StartedForGood(before);
      if e.Tick? {
        match Run(INITIAL, before).pc case _ =>
      }
    }
  }

  /** The pipeline failed at no time after event `k`, the first Setup, and nothing was terminated. */
  ghost predicate GoesWell(es: seq<Event>, k: nat) {
    && k < |es| && es[k] == Setup && Setup !in es[..k]
    && FailPipeline !in es[k..] && Terminate !in es
  }

  /** Event `k` is a failure of the pipeline after a Setup and before the thread has exited. */
  ghost predicate GoesWrong(es: seq<Event>, k: nat) {
    k < |es| && es[k] == FailPipeline && Setup in es[..k] && !Run(INITIAL, es[..k]).pc.Exited?
  }

  lemma SetupMakesHealthy(es: seq<Event>, k: nat)
    requires GoesWell(es, k)
    ensures Healthy(Run(INITIAL, es[..k + 1]))
  {
    NotStartedYet(es[..k]);
    assert es[..k + 1][..k] == es[..k];
  }

  lemma FailureBreaks(es: seq<Event>, k: nat)
    requires GoesWrong(es, k)
    ensures Broken(Run(INITIAL, es[..k + 1]))
  {
    StartedForGood(es[..k]);
    assert es[..k + 1][..k] == es[..k];
  }

  /** The final status says whether the pipeline succeeded. */
  lemma FinalStatus(es: seq<Event>, k: nat)
    requires Run(INITIAL, es).pc.Exited?
    ensures GoesWell(es, k) ==> StatusOf(Run(INITIAL, es).files) == Done
    ensures GoesWrong(es, k) ==> StatusOf(Run(INITIAL, es).files) == Failed
  {
    if GoesWell(es, k) {
      SetupMakesHealthy(es, k);
      assert es == es[..k + 1] + es[k + 1..];
      RunAppend(INITIAL, es[..k + 1], es[k + 1..]);
      HealthyRun(Run(INITIAL, es[..k + 1]), es[k + 1..]);
    }
    if GoesWrong(es, k) {
      FailureBreaks(es, k);
      assert es == es[..k + 1] + es[k + 1..];
      RunAppend(INITIAL, es[..k + 1], es[k + 1..]);
      BrokenRun(Run(INITIAL, es[..k + 1]), es[k + 1..]);
    }
  }

  /** The stop event is set exactly when asked for, or when the thread reads that the request is failed, done or not
      found. */
  lemma StopsForAReason(s: State, e: Event)
    requires !s.stop
    ensures Step(s, e).stop <==>
            || e == SetStop
            || (e == Tick(false) && (s.pc.OuterStatus? || s.pc.InnerStatus?)
                && (s.files.failed || s.files.done || !s.files.progress))
  {
    match s.pc case _ =>
  }

  /** A write that is due and does not raise brings the log file up to date with everything taken off the queue, and
      a write that raises keeps the lines for the next one. */
  lemma WritesWhatIsDue(s: State)
    requires s.pc.Flush?
    ensures var due := Run(s, [Tick(true), Tick(false), Tick(false)]);
            due.lines.log == s.lines.log + s.lines.buffer && due.pc == Clear
    ensures var raised := Run(s, [Tick(true), Tick(true)]);
            raised.lines == s.lines && raised.pc == Loop
  {
    var a, b := Tick(true), Tick(false);
    assert [a, b, b][..2] == [a, b] && [a, b][..1] == [a] && [a, a][..1] == [a] && [a][..0] == [];
    assert Run(s, [a]) == Step(s, a);
    assert Run(s, [a, b]) == Step(Step(s, a), b);
    assert Run(s, [a, b, b]) == Step(Step(Step(s, a), b), b);
    assert Run(s, [a, a]) == Step(Step(s, a), a);
  }
}
