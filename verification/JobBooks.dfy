/** The bookkeeping of one run of the job driver, as values: where each input path is and how often its
    job has been launched. */
module JobBooks {
  const NUM_RETRIES: nat := 5

  datatype Job = Job(index: nat, inputPath: string, outputPath: string)

  ghost predicate Distinct<T>(s: seq<T>) {
    forall i, j :: 0 <= i < j < |s| ==> s[i] != s[j]
  }

  function Paths(jobs: seq<Job>): (ps: seq<string>)
    ensures |ps| == |jobs| && forall k :: 0 <= k < |jobs| ==> ps[k] == jobs[k].inputPath
  {
    seq(|jobs|, k requires 0 <= k < |jobs| => jobs[k].inputPath)
  }

  /** The paths of the first `n` entries that are not excluded, each once, in the order of their first
      occurrences. */
  function FirstOccurrences(inputs: seq<(string, string)>, n: nat, excluded: set<string>): (r: seq<string>)
    requires n <= |inputs|
    ensures forall p :: p in r ==> p !in excluded
  {
    if n == 0 then []
    else
      var r := FirstOccurrences(inputs, n - 1, excluded);
      if inputs[n - 1].0 in excluded || inputs[n - 1].0 in r then r else r + [inputs[n - 1].0]
  }

  /** Exactly the input paths that are not excluded are among them. */
  lemma {:induction false} FirstOccurrencesMembers(inputs: seq<(string, string)>, n: nat, excluded: set<string>, p: string)
    requires n <= |inputs|
    ensures p in FirstOccurrences(inputs, n, excluded) <==> p !in excluded && exists i :: 0 <= i < n && inputs[i].0 == p
  {
    if n > 0 {
      FirstOccurrencesMembers(inputs, n - 1, excluded, p);
    }
  }

  /** The job of the last of the first `n` entries for a path, numbered from 1. */
  function LastEntry(inputs: seq<(string, string)>, n: nat, path: string): Job
    requires n <= |inputs|
  {
    if n == 0 then Job(0, path, "")
    else if inputs[n - 1].0 == path then Job(n, path, inputs[n - 1].1)
    else LastEntry(inputs, n - 1, path)
  }

  /** An entry that no later one for the same path follows gives the path its number, counted from 1, and its output. */
  lemma {:induction false} LastEntryIs(inputs: seq<(string, string)>, n: nat, i: nat)
    requires i < n <= |inputs| && forall j :: i < j < n ==> inputs[j].0 != inputs[i].0
    ensures LastEntry(inputs, n, inputs[i].0) == Job(i + 1, inputs[i].0, inputs[i].1)
  {
    if i < n - 1 {
      LastEntryIs(inputs, n - 1, i);
    }
  }

  /** Paths stand in the order of their first occurrences: before any entry for a path there is one for each path
      that stands before it. */
  lemma {:induction false} FirstOccurrencesOrder(inputs: seq<(string, string)>, n: nat, excluded: set<string>, a: nat, b: nat, j: nat)
    requires n <= |inputs| && a < b < |FirstOccurrences(inputs, n, excluded)|
    requires j < n && inputs[j].0 == FirstOccurrences(inputs, n, excluded)[b]
    ensures exists i :: 0 <= i < j && inputs[i].0 == FirstOccurrences(inputs, n, excluded)[a]
  {
    var r := FirstOccurrences(inputs, n - 1, excluded);
    if b < |r| {
      if j < n - 1 {
        FirstOccurrencesOrder(inputs, n - 1, excluded, a, b, j);
      } else {
        FirstOccurrencesMembers(inputs, n - 1, excluded, r[b]);
        var k :| 0 <= k < n - 1 && inputs[k].0 == r[b];
        FirstOccurrencesOrder(inputs, n - 1, excluded, a, b, k);
      }
    } else {
      FirstOccurrencesMembers(inputs, n - 1, excluded, inputs[n - 1].0);
      FirstOccurrencesMembers(inputs, n - 1, excluded, r[a]);
    }
  }

  /** What a worker is doing; `patience` bounds the in-progress answers still to come for this launch. */
  datatype WorkerState = Idle | Busy(path: string, reruns: nat, patience: nat)

  /** Where a path's job is; `Unrecorded` is between its success and the line in the progress file. */
  datatype Place = Pending | At(worker: nat) | Unrecorded | Succeeded | GivenUp

  datatype Sys = Sys(pending: seq<string>, workers: seq<WorkerState>, succeeded: seq<string>, launches: multiset<string>)

  /** How often a path's job has been launched, by where it is: never while pending, once more than it was
      rerun while at a worker, and never more than five times. */
  ghost predicate Launched(s: Sys, place: map<string, Place>, p: string)
    requires p in place
  {
    match place[p]
    case Pending => s.launches[p] == 0
    case At(i) => i < |s.workers| && s.workers[i].Busy? && s.launches[p] == s.workers[i].reruns + 1 <= NUM_RETRIES
    case GivenUp => s.launches[p] == NUM_RETRIES
    case _ => 1 <= s.launches[p] <= NUM_RETRIES
  }

  /** The pending, the busy and the succeeded are where `place` says, and nowhere else. */
  ghost predicate Located(s: Sys, place: map<string, Place>) {
    && Distinct(s.pending) && Distinct(s.succeeded)
    && (forall p :: p in s.pending <==> p in place && place[p] == Pending)
    && (forall p :: p in s.succeeded <==> p in place && place[p] == Succeeded)
    && (forall i: nat :: i < |s.workers| && s.workers[i].Busy? ==>
          s.workers[i].path in place && place[s.workers[i].path] == At(i))
    && (forall p :: p in place && place[p].At? ==>
          place[p].worker < |s.workers| && s.workers[place[p].worker].Busy? && s.workers[place[p].worker].path == p)
  }

  /** Every path's launches add up, and nothing else was ever launched. */
  ghost predicate Tallied(s: Sys, place: map<string, Place>) {
    && (forall p :: p in place ==> Launched(s, place, p))
    && (forall p :: p !in place ==> s.launches[p] == 0)
  }

  /** Every path is in exactly one place, its launches add up there, and nothing else was ever launched. */
  ghost predicate Conserved(s: Sys, place: map<string, Place>) {
    Located(s, place) && Tallied(s, place)
  }

  /** Worker `i` takes the oldest pending job and launches it. */
  function Take(s: Sys, i: nat, patience: nat): Sys
    requires i < |s.workers| && s.pending != []
  {
    Sys(s.pending[1..], s.workers[i := Busy(s.pending[0], 0, patience)], s.succeeded,
        s.launches + multiset{s.pending[0]})
  }

  /** Worker `i` is told that its job is still in progress. */
  function Wait(s: Sys, i: nat, patience: nat): Sys
    requires i < |s.workers| && s.workers[i].Busy?
  {
    s.(workers := s.workers[i := s.workers[i].(patience := patience)])
  }

  /** Worker `i` launches its failed job again. */
  function Relaunch(s: Sys, i: nat, patience: nat): Sys
    requires i < |s.workers| && s.workers[i].Busy?
  {
    var w := s.workers[i];
    s.(workers := s.workers[i := Busy(w.path, w.reruns + 1, patience)], launches := s.launches + multiset{w.path})
  }

  /** Worker `i` is done with its job. */
  function Release(s: Sys, i: nat): Sys
    requires i < |s.workers|
  {
    s.(workers := s.workers[i := Idle])
  }

  /** The oldest pending path is not among the others. */
  lemma PendingApart(pending: seq<string>)
    requires Distinct(pending) && pending != []
    ensures Distinct(pending[1..])
    ensures forall p :: p in pending[1..] <==> p in pending && p != pending[0]
  {
  }

  lemma TakeLocates(s: Sys, place: map<string, Place>, i: nat, patience: nat)
    requires Located(s, place) && i < |s.workers| && s.workers[i].Idle? && s.pending != []
    ensures Located(Take(s, i, patience), place[s.pending[0] := At(i)])
  {
    PendingApart(s.pending);
    hide Distinct;
  }

  lemma TakeTallies(s: Sys, place: map<string, Place>, i: nat, patience: nat)
    requires Tallied(s, place) && i < |s.workers| && s.workers[i].Idle? && s.pending != []
    requires s.pending[0] in place && place[s.pending[0]] == Pending
    ensures Tallied(Take(s, i, patience), place[s.pending[0] := At(i)])
  {
    var place' := place[s.pending[0] := At(i)];
    forall q | q in place' ensures Launched(Take(s, i, patience), place', q) {
      assert q in place && Launched(s, place, q);
    }
  }

  lemma TakeConserves(s: Sys, place: map<string, Place>, i: nat, patience: nat)
    requires Conserved(s, place) && i < |s.workers| && s.workers[i].Idle? && s.pending != []
    ensures Conserved(Take(s, i, patience), place[s.pending[0] := At(i)])
  {
    hide Tallied, Distinct, Take;
    assert s.pending[0] in s.pending;
    TakeTallies(s, place, i, patience);
    TakeLocates(s, place, i, patience);
  }

  /** A worker that keeps its job leaves everything where it is. */
  lemma KeepsLocated(s: Sys, place: map<string, Place>, t: Sys, i: nat)
    requires Located(s, place) && i < |s.workers| && s.workers[i].Busy?
    requires t.pending == s.pending && t.succeeded == s.succeeded
    requires exists w: WorkerState :: w.Busy? && w.path == s.workers[i].path && t.workers == s.workers[i := w]
    ensures Located(t, place)
  {
    hide Distinct;
  }

  lemma WaitConserves(s: Sys, place: map<string, Place>, i: nat, patience: nat)
    requires Conserved(s, place) && i < |s.workers| && s.workers[i].Busy?
    ensures Conserved(Wait(s, i, patience), place)
  {
    hide Located;
    KeepsLocated(s, place, Wait(s, i, patience), i);
    forall q | q in place ensures Launched(Wait(s, i, patience), place, q) {
      assert Launched(s, place, q);
    }
  }

  lemma RelaunchTallies(s: Sys, place: map<string, Place>, i: nat, patience: nat)
    requires Tallied(s, place) && i < |s.workers| && s.workers[i].Busy? && s.workers[i].reruns + 1 < NUM_RETRIES
    requires s.workers[i].path in place && place[s.workers[i].path] == At(i)
    requires forall q :: q in place && place[q] == At(i) ==> q == s.workers[i].path
    ensures Tallied(Relaunch(s, i, patience), place)
  {
    forall q | q in place ensures Launched(Relaunch(s, i, patience), place, q) {
      assert Launched(s, place, q);
    }
  }

  lemma RelaunchConserves(s: Sys, place: map<string, Place>, i: nat, patience: nat)
    requires Conserved(s, place) && i < |s.workers| && s.workers[i].Busy?
    requires s.workers[i].reruns + 1 < NUM_RETRIES
    ensures Conserved(Relaunch(s, i, patience), place)
  {
    hide Tallied, Distinct;
    RelaunchTallies(s, place, i, patience);
    KeepsLocated(s, place, Relaunch(s, i, patience), i);
  }

  lemma ReleaseLocates(s: Sys, place: map<string, Place>, i: nat, to: Place)
    requires Located(s, place) && i < |s.workers| && s.workers[i].Busy? && (to == Unrecorded || to == GivenUp)
    ensures s.workers[i].path in place && place[s.workers[i].path] == At(i)
    ensures Located(Release(s, i), place[s.workers[i].path := to])
  {
    hide Distinct;
  }

  lemma ReleaseTallies(s: Sys, place: map<string, Place>, i: nat, to: Place)
    requires Tallied(s, place) && i < |s.workers| && s.workers[i].Busy?
    requires s.workers[i].path in place && place[s.workers[i].path] == At(i)
    requires forall q :: q in place && place[q] == At(i) ==> q == s.workers[i].path
    requires to == Unrecorded || (to == GivenUp && s.workers[i].reruns + 1 == NUM_RETRIES)
    ensures Tallied(Release(s, i), place[s.workers[i].path := to])
  {
    var place' := place[s.workers[i].path := to];
    assert Launched(s, place, s.workers[i].path);
    forall q | q in place' ensures Launched(Release(s, i), place', q) {
      assert Launched(s, place, q);
    }
  }

  /** The job at worker `i` has succeeded, or has failed for the fifth time. */
  lemma ReleaseConserves(s: Sys, place: map<string, Place>, i: nat, success: bool)
    requires Conserved(s, place) && i < |s.workers| && s.workers[i].Busy?
    requires success || s.workers[i].reruns + 1 == NUM_RETRIES
    ensures s.workers[i].path in place
    ensures Conserved(Release(s, i), place[s.workers[i].path := if success then Unrecorded else GivenUp])
  {
    hide Tallied, Distinct, Release;
    ReleaseLocates(s, place, i, if success then Unrecorded else GivenUp);
    ReleaseTallies(s, place, i, if success then Unrecorded else GivenUp);
  }

  lemma RecordTallies(s: Sys, place: map<string, Place>, p: string)
    requires Tallied(s, place) && p in place && place[p] == Unrecorded
    ensures Tallied(s.(succeeded := s.succeeded + [p]), place[p := Succeeded])
  {
    var t, place' := s.(succeeded := s.succeeded + [p]), place[p := Succeeded];
    forall q | q in place' ensures Launched(t, place', q) {
      assert Launched(s, place, q);
    }
  }

  lemma RecordConserves(s: Sys, place: map<string, Place>, p: string)
    requires Conserved(s, place) && p in place && place[p] == Unrecorded
    ensures Conserved(s.(succeeded := s.succeeded + [p]), place[p := Succeeded])
  {
    RecordTallies(s, place, p);
    hide Tallied;
  }

  lemma InitiallyConserved(pending: seq<string>, workers: seq<WorkerState>)
    requires Distinct(pending) && forall i :: 0 <= i < |workers| ==> workers[i].Idle?
    ensures Conserved(Sys(pending, workers, [], multiset{}), map p | p in pending :: Pending)
  {
  }

  /** When nothing is pending and no worker is busy, every job has succeeded or been given up. */
  lemma AllSettled(s: Sys, place: map<string, Place>)
    requires Conserved(s, place) && s.pending == [] && forall i :: 0 <= i < |s.workers| ==> s.workers[i].Idle?
    requires forall p :: p in place ==> place[p] != Unrecorded
    ensures forall p :: p in place ==> place[p] == Succeeded || place[p] == GivenUp
  {
    forall p | p in place ensures place[p] == Succeeded || place[p] == GivenUp {
      assert p in s.pending <==> place[p] == Pending;
    }
  }

  /** Launches still possible for the jobs at the workers. */
  ghost function LaunchesLeft(ws: seq<WorkerState>): nat {
    if ws == [] then 0
    else LaunchesLeft(ws[..|ws| - 1]) +
         match ws[|ws| - 1] { case Idle => 0 case Busy(_, r, _) => if r < NUM_RETRIES then NUM_RETRIES - r else 0 }
  }

  /** In-progress answers still possible for the present launches. */
  ghost function PatienceLeft(ws: seq<WorkerState>): nat {
    if ws == [] then 0
    else PatienceLeft(ws[..|ws| - 1]) + match ws[|ws| - 1] { case Idle => 0 case Busy(_, _, p) => p }
  }

  /** Changing worker `i` changes the totals by what it contributes. */
  lemma {:induction false} TotalsChange(ws: seq<WorkerState>, i: nat, w: WorkerState)
    requires i < |ws|
    ensures LaunchesLeft(ws[i := w]) - LaunchesLeft([w]) == LaunchesLeft(ws) - LaunchesLeft([ws[i]])
    ensures PatienceLeft(ws[i := w]) - PatienceLeft([w]) == PatienceLeft(ws) - PatienceLeft([ws[i]])
  {
    var last := |ws| - 1;
    assert LaunchesLeft([]) == 0 && PatienceLeft([]) == 0;
    if i == last {
      assert ws[i := w][..last] == ws[..last];
    } else {
      assert ws[i := w][..last] == ws[..last][i := w];
      TotalsChange(ws[..last], i, w);
    }
  }
}
