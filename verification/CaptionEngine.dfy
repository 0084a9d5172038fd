/** The engine as the synchronous drivers see it. */
module CaptionEngine {
  import opened Base
  import opened CaptionSpec
  import opened CaptionRequests

  ghost function FinishedIds(outs: seq<EngineOutput>): set<nat> {
    set o | o in outs && o.finished :: o.requestId
  }

  /** The inputs under which the engine was running the finished requests `f`. */
  ghost function InputsOf(f: seq<EngineOutput>, running: map<nat, Inputs>): seq<Inputs> {
    seq(|f|, k requires 0 <= k < |f| => if f[k].requestId in running then running[f[k].requestId] else map[])
  }

  function Remaining(running: map<nat, Inputs>, outs: seq<EngineOutput>): map<nat, Inputs> {
    map id | id in running && forall o | o in outs :: o.finished ==> o.requestId != id :: running[id]
  }

  lemma RemainingUnfinished(running: map<nat, Inputs>, outs: seq<EngineOutput>)
    ensures Remaining(running, outs) == running - FinishedIds(outs)
  {
  }

  /** An engine whose outputs are a function of the inputs, finishing any subset of its requests in
      any order. `patience` bounds how many steps it may take before it finishes something. */
  class Engine {
    const m: Model
    var running: map<nat, Inputs>
    var patience: nat
    var peak: nat  // the most requests that have been running at once
    ghost var completed: seq<Inputs>  // the inputs of all the requests finished so far

    constructor (m: Model)
      ensures this.m == m && running == map[] && peak == 0 && completed == []
    {
      this.m := m;
      running, patience, peak, completed := map[], 0, 0, [];
    }

    method AddRequest(id: nat, inputs: Inputs)
      requires id !in running
      modifies this
      ensures running == old(running)[id := inputs]
      ensures peak == if |running| > old(peak) then |running| else old(peak)
      ensures completed == old(completed)
    {
      running := running[id := inputs];
      patience := *;
      peak := if |running| > peak then |running| else peak;
    }

    /** A step is only ever taken with something in flight; it finishes a request or uses up patience. */
    method Step() returns (outs: seq<EngineOutput>)
      requires running != map[]
      modifies this
      ensures DistinctIds(outs)
      ensures forall o :: o in outs ==>
                o.requestId in old(running) && o.generation == m.generate(old(running)[o.requestId])
      ensures running == old(running) - FinishedIds(outs)
      ensures FinishedIds(outs) == {} ==> patience < old(patience)
      ensures peak == old(peak)
      ensures completed == old(completed) + InputsOf(Finished(outs, |outs|), old(running))
    {
      hide Finished, InputsOf, Remaining;
      outs := [];
      var rest := running.Keys;
      while rest != {}
        invariant rest <= running.Keys
        invariant DistinctIds(outs)
        invariant forall o :: o in outs ==>
                    && o.requestId in running && o.requestId !in rest
                    && o.generation == m.generate(running[o.requestId])
        decreases rest
      {
        var id :| id in rest;
        rest := rest - {id};
        var reported, finished: bool := *, *;
        if reported {
          outs := outs + [EngineOutput(id, finished, m.generate(running[id]))];
        }
      }
      if patience == 0 && forall o | o in outs :: !o.finished {
        var id :| id in running.Keys;
        outs := [EngineOutput(id, true, m.generate(running[id]))];
        assert outs[0] in outs && outs[0].requestId in FinishedIds(outs);
      }
      if exists o | o in outs :: o.finished {
        assert FinishedIds(outs) != {} by {
          var o :| o in outs && o.finished;
          assert o.requestId in FinishedIds(outs);
        }
        patience := *;
      } else {
        patience := patience - 1;
      }
      completed := completed + InputsOf(Finished(outs, |outs|), running);
      RemainingUnfinished(running, outs);
      running := Remaining(running, outs);
    }

    /** Answers a whole batch, in its order. */
    method Generate(batch: seq<Inputs>) returns (gs: seq<Generation>)
      modifies this`completed
      ensures |gs| == |batch| && forall k :: 0 <= k < |gs| ==> gs[k] == m.generate(batch[k])
      ensures completed == old(completed) + batch
    {
      gs := seq(|batch|, k requires 0 <= k < |batch| => m.generate(batch[k]));
      completed := completed + batch;
    }
  }
}
