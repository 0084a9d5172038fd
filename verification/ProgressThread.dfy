/** The progress thread and what it shares, updated in place one action at a time. */
module ProgressThread {
  import opened ProgressLog

  class Monitor {
    var pc: Pc
    var stopEvent: bool
    var progressFile: bool
    var doneFile: bool
    var failedFile: bool
    var ipcStatus: bool
    var queue: seq<string>
    var buffer: seq<string>
    var logFile: seq<string>
    ghost var put: seq<string>
    ghost var drained: seq<string>
    var producerDone: bool

    ghost function View(): State
      reads this
    {
      State(pc, stopEvent, Files(progressFile, doneFile, failedFile), ipcStatus,
            Lines(queue, buffer, logFile, put, drained), producerDone)
    }

    constructor ()
      ensures View() == INITIAL
    {
      pc, stopEvent, progressFile, doneFile, failedFile := NotStarted, false, false, false, false;
      ipcStatus, producerDone := false, false;
      queue, buffer, logFile, put, drained := [], [], [], [], [];
    }

    method GetRequestStatus() returns (status: Status)
      ensures status == StatusOf(View().files)
    {
      if failedFile {
        return Failed;
      }
      if doneFile {
        return Done;
      }
      status := if progressFile then Running else NotFound;
    }

    /** Reads the status and sets the stop event when the request is not running. */
    method CheckStatus(unreadable: bool)
      modifies this`stopEvent
      ensures stopEvent == StopAfterStatus(old(View()), unreadable)
    {
      if !unreadable {
        var status := GetRequestStatus();
        if status != Running {
          stopEvent := true;
        }
      }
    }

    /** Takes the oldest line off the queue; false when it is empty. */
    method GetNoWait() returns (got: bool)
      modifies this`queue, this`buffer
      ensures got == (old(queue) != [])
      ensures if got then View() == old(View()).(lines := old(View()).lines.Get()) else View() == old(View())
    {
      got := queue != [];
      if got {
        buffer := buffer + [queue[0]];
        queue := queue[1..];
      }
    }

    /** The thread's next action. */
    method Act(choice: bool)
      modifies this
      ensures View() == Step(old(View()), Tick(choice))
    {
      match pc {
        case NotStarted =>
        case Loop => pc := if stopEvent then Drain else OuterStatus;
        case OuterStatus =>
          CheckStatus(choice);
          pc := InnerLoop;
        case InnerLoop => pc := if stopEvent then Flush else InnerStatus;
        case InnerStatus =>
          CheckStatus(choice);
          pc := Get;
        case Get =>
          var got := GetNoWait();
          pc := if got then InnerLoop else Flush;
        case Flush => pc := if choice || stopEvent then Fetch else Loop;
        case Fetch =>
          progressFile := true;
          pc := if choice then Loop else Append;
        case Append =>
          logFile := logFile + buffer;
          pc := Clear;
        case Clear =>
          buffer := [];
          pc := Loop;
        case _ => Conclude();
      }
    }

    /** The actions after the main loop: drain the queue, write what is left, mark the request. */
    method Conclude()
      requires pc.Drain? || pc.FinalAppend? || pc.Mark? || pc.Exited?
      modifies this
      ensures View() == Step(old(View()), Tick(false)) == Step(old(View()), Tick(true))
    {
      if pc == Drain {
        var got := GetNoWait();
        if !got {
          drained := put;
          pc := FinalAppend;
        }
      } else if pc == FinalAppend {
        logFile := logFile + buffer;
        pc := Mark;
      } else if pc == Mark {
        if !failedFile {
          if ipcStatus {
            doneFile := true;
          } else {
            failedFile := true;
          }
        }
        pc := Exited;
      }
    }

    /** One event, of whichever party. */
    method Happen(e: Event)
      modifies this
      ensures View() == Step(old(View()), e)
    {
      match e {
        case Tick(choice) => Act(choice);
        case Setup =>
          if pc == NotStarted {
            ipcStatus, progressFile, stopEvent, pc := true, true, false, Loop;
          }
        case Put(line) =>
          if !producerDone {
            queue, put := queue + [line], put + [line];
          }
        case FinishProducer => producerDone := true;
        case FailPipeline => ipcStatus := false;
        case SetStop => stopEvent := true;
        case Terminate => failedFile := true;
      }
    }

    /** Any interleaving from the start: the log file, the unwritten buffer and the queue are together all the lines
        put; and once the thread has exited, the request is done or failed, and the log file is everything that
        was put before the final drain found the queue empty. */
    method Live(es: seq<Event>)
      requires View() == INITIAL
      modifies this
      ensures View() == Run(INITIAL, es)
      ensures logFile + Unwritten(pc, View().lines) + queue == put
      ensures pc == Exited ==> logFile == drained && (doneFile || failedFile)
      ensures pc == Exited && (exists k: nat :: GoesWell(es, k)) ==> doneFile && !failedFile
      ensures pc == Exited && (exists k: nat :: GoesWrong(es, k)) ==> failedFile
    {
      for k := 0 to |es|
        invariant View() == Run(INITIAL, es[..k])
      {
        assert es[..k + 1][..k] == es[..k];
        Happen(es[k]);
      }
      assert es[..|es|] == es;
      LogConservation(es);
      assert logFile + [] == logFile;
      if pc == Exited {
        forall k: nat ensures GoesWell(es, k) ==> StatusOf(View().files) == Done
                      ensures GoesWrong(es, k) ==> StatusOf(View().files) == Failed
        {
          FinalStatus(es, k);
        }
      }
    }
  }
}
