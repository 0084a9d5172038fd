/** The detector itself, which updates its tracks in place, proved against the pure tracker. */
module StableTextDetector {
  import opened Arith
  import opened BoxOverlap
  import opened TextTracks

  class TextTrack {
    var history: seq<Box>
    var frameNumbers: seq<int>
    var timestamps: seq<real>
    var lastSeenFrame: int

    ghost predicate Valid()
      reads this
    {
      && |history| == |frameNumbers| == |timestamps| >= 1
      && lastSeenFrame == frameNumbers[|frameNumbers| - 1]
    }

    /** The sightings so far. */
    ghost function View(): (t: Track)
      requires Valid()
      reads this
      ensures |t| == |history|
      ensures forall i :: 0 <= i < |t| ==> t[i] == Sighting(history[i], frameNumbers[i], timestamps[i])
    {
      var h, f, s := history, frameNumbers, timestamps;
      seq(|h|, i requires 0 <= i < |h| == |f| == |s| => Sighting(h[i], f[i], s[i]))
    }

    constructor (points: seq<Point>, frame: int, time: real)
      ensures Valid() && View() == [Sighting(Corners(points), frame, time)]
    {
      history, frameNumbers, timestamps := [Corners(points)], [frame], [time];
      lastSeenFrame := frame;
    }

    method Update(points: seq<Point>, frame: int, time: real)
      requires Valid()
      modifies this
      ensures Valid() && View() == old(View()) + [Sighting(Corners(points), frame, time)]
    {
      history := history + [Corners(points)];
      frameNumbers := frameNumbers + [frame];
      timestamps := timestamps + [time];
      lastSeenFrame := frame;
    }

    method AverageStability() returns (average: real)
      requires Valid()
      ensures average == AverageOverlap(View())
    {
      if |history| < 2 {
        return 1.0;
      }
      var sum := 0.0;
      for i := 1 to |history|
        invariant sum == OverlapSum(View(), i - 1)
      {
        sum := sum + Iou(history[i - 1], history[i]);
      }
      average := sum / (|history| - 1) as real;
    }

    method CheckIfStable(interval: nat, minDuration: int, threshold: real) returns (stable: bool)
      requires Valid() && interval >= 1
      ensures stable == Confirmed(View(), AdjustedMin(minDuration, interval), threshold)
    {
      if |frameNumbers| < Max(1, minDuration / interval) {
        return false;
      }
      var average := AverageStability();
      stable := average >= threshold;
    }

    method ToSegment() returns (s: Segment)
      requires Valid()
      ensures s == SegmentOf(View())
    {
      s := Segment(frameNumbers[0], frameNumbers[|frameNumbers| - 1],
                   timestamps[0], timestamps[|timestamps| - 1], |frameNumbers|);
    }
  }

  ghost predicate NoAlias(ts: seq<TextTrack>) {
    forall i, j :: 0 <= i < j < |ts| ==> ts[i] != ts[j]
  }

  /** The track objects `ts` hold the tracks `vs`. */
  ghost predicate Shows(ts: seq<TextTrack>, vs: seq<Track>)
    reads ts
  {
    |ts| == |vs| && forall i :: 0 <= i < |ts| ==> ts[i].Valid() && ts[i].View() == vs[i]
  }

  lemma ShowsLength(ts: seq<TextTrack>, vs: seq<Track>)
    requires Shows(ts, vs)
    ensures |ts| == |vs|
  {
  }

  lemma ShowsAt(ts: seq<TextTrack>, vs: seq<Track>, i: nat)
    requires Shows(ts, vs) && i < |ts|
    ensures |ts| == |vs| && ts[i].Valid() && ts[i].View() == vs[i]
  {
  }

  lemma ShowsOneMore(ts: seq<TextTrack>, vs: seq<Track>, t: TextTrack)
    requires Shows(ts, vs) && t.Valid()
    ensures Shows(ts + [t], vs + [t.View()])
  {
  }

  /** The next track goes to those that are alive or to the others. */
  lemma SiftNext(tracks: seq<Track>, k: nat, number: int, gap: int)
    requires k < |tracks|
    ensures var alive := Alive(tracks[k], number, gap);
            && Sift(tracks[..k + 1], number, gap, alive) == Sift(tracks[..k], number, gap, alive) + [tracks[k]]
            && Sift(tracks[..k + 1], number, gap, !alive) == Sift(tracks[..k], number, gap, !alive)
  {
    assert tracks[..k + 1] == tracks[..k] + [tracks[k]];
    SiftLast(tracks[..k], tracks[k], number, gap);
  }

  /** The index of the first track whose last box overlaps `box` enough. */
  method FindMatch(ts: seq<TextTrack>, ghost vs: seq<Track>, box: Box) returns (i: nat)
    requires Shows(ts, vs)
    ensures |ts| == |vs| && i == FirstMatch(vs, box, 0)
  {
    i := 0;
    while i < |ts|
      invariant i <= |ts| && FirstMatch(vs, box, 0) == FirstMatch(vs, box, i)
    {
      if Iou(box, ts[i].history[|ts[i].history| - 1]) >= IOU_MATCH_THRESHOLD {
        break;
      }
      i := i + 1;
    }
  }

  /** Extends track `i` and leaves the others as they are. */
  method UpdateAt(ts: seq<TextTrack>, ghost vs: seq<Track>, i: nat, points: seq<Point>, number: int, time: real)
    requires Shows(ts, vs) && NoAlias(ts) && i < |ts| == |vs|
    modifies ts[i]
    ensures Shows(ts, vs[i := vs[i] + [Sighting(Corners(points), number, time)]])
  {
    ts[i].Update(points, number, time);
  }

  lemma NothingShown()
    ensures Shows([], [])
  {
  }

  lemma ReportOneMore(tracks: seq<Track>, t: Track, minimum: int, stability: real)
    ensures Report(tracks + [t], minimum, stability)
         == Report(tracks, minimum, stability) + if Confirmed(t, minimum, stability) then [SegmentOf(t)] else []
  {
    assert (tracks + [t])[..|tracks|] == tracks;
  }

  class Detector {
    const frameInterval: nat
    const minDurationFrames: int
    const stabilityThreshold: real
    var activeTracks: seq<TextTrack>
    var confirmedSegments: seq<Segment>
    ghost var state: Tracker        // all the tracks so far: the retired ones, and those that activeTracks holds
    ghost var mine: set<TextTrack>  // the track objects made so far

    constructor (frameInterval: nat, minDurationFrames: int, stabilityThreshold: real)
      requires frameInterval >= 1
      ensures this.frameInterval == frameInterval && this.minDurationFrames == minDurationFrames
      ensures this.stabilityThreshold == stabilityThreshold
      ensures Valid() && state == Tracker([], []) && mine == {}
    {
      this.frameInterval, this.minDurationFrames := frameInterval, minDurationFrames;
      this.stabilityThreshold := stabilityThreshold;
      activeTracks, confirmedSegments, state, mine := [], [], Tracker([], []), {};
    }

    ghost predicate Valid()
      reads this, mine
    {
      && frameInterval >= 1 && NoAlias(activeTracks)
      && (forall t :: t in activeTracks ==> t in mine)
      && Shows(activeTracks, state.active)
      && confirmedSegments == Reported(state.retired)
    }

    function Gap(): nat {
      MAX_FRAME_GAP * frameInterval
    }

    ghost function Reported(tracks: seq<Track>): seq<Segment>
      requires frameInterval >= 1
    {
      Report(tracks, AdjustedMin(minDurationFrames, frameInterval), stabilityThreshold)
    }

    /** The segment of a track that is to be reported, if it is. */
    method SegmentIfStable(track: TextTrack, ghost before: seq<Track>) returns (segments: seq<Segment>)
      requires frameInterval >= 1 && track.Valid()
      ensures Reported(before + [track.View()]) == Reported(before) + segments
    {
      ReportOneMore(before, track.View(), AdjustedMin(minDurationFrames, frameInterval), stabilityThreshold);
      var stable := track.CheckIfStable(frameInterval, minDurationFrames, stabilityThreshold);
      segments := [];
      if stable {
        var segment := track.ToSegment();
        segments := [segment];
      }
    }

    /** Drops the tracks not seen for too long, reporting those that are stable. */
    method RetireTracks(number: int)
      requires Valid()
      modifies this`activeTracks, this`confirmedSegments, this`state
      ensures Valid()
      ensures state == Tracker(old(state).retired + Sift(old(state).active, number, Gap(), false),
                               Sift(old(state).active, number, Gap(), true))
    {
      hide Reported, Shows, Sift;
      NothingShown();
      SiftNone(number, Gap());
      ShowsLength(activeTracks, state.active);
      var updated: seq<TextTrack> := [];
      ghost var all, retired := state.active, state.retired;
      for k := 0 to |activeTracks|
        invariant activeTracks == old(activeTracks) && Shows(activeTracks, all)
        invariant NoAlias(updated) && forall i :: 0 <= i < |updated| ==> updated[i] in activeTracks[..k]
        invariant Shows(updated, Sift(all[..k], number, Gap(), true))
        invariant retired == old(state).retired + Sift(all[..k], number, Gap(), false)
        invariant confirmedSegments == Reported(retired)
      {
        var track := activeTracks[k];
        ShowsAt(activeTracks, all, k);
        ShowsOneMore(updated, Sift(all[..k], number, Gap(), true), track);
        SiftNext(all, k, number, Gap());
        assert activeTracks[..k + 1] == activeTracks[..k] + [track];
        if number - track.lastSeenFrame > Gap() {
          var segments := SegmentIfStable(track, retired);
          confirmedSegments := confirmedSegments + segments;
          retired := retired + [track.View()];
        } else {
          updated := updated + [track];
        }
      }
      assert all[..|activeTracks|] == all;
      activeTracks := updated;
      state := Tracker(retired, Sift(all, number, Gap(), true));
    }

    /** Extends the first active track that matches the detection, or starts a new one. */
    method DetectOne(points: seq<Point>, number: int, time: real)
      requires Valid()
      modifies this`activeTracks, this`state, this`mine, mine
      ensures Valid() && fresh(mine - old(mine))
      ensures state == old(state).(active := Detect(old(state).active, Sighting(Corners(points), number, time)))
    {
      hide Reported, Shows;
      ghost var all := state.active;
      var i := FindMatch(activeTracks, all, Corners(points));
      if i < |activeTracks| {
        assert activeTracks[i] in activeTracks;
        UpdateAt(activeTracks, all, i, points, number, time);
      } else {
        var track := new TextTrack(points, number, time);
        ShowsOneMore(activeTracks, all, track);
        activeTracks, mine := activeTracks + [track], mine + {track};
      }
      state := state.(active := Detect(all, Sighting(Corners(points), number, time)));
    }

    method ProcessFrame(frame: Frame)
      requires Valid()
      modifies this, mine
      ensures Valid() && fresh(mine - old(mine))
      ensures state == old(state).Process(frame, Gap())
    {
      hide Reported, Shows, NoAlias, Detect, Sift, Corners;
      RetireTracks(frame.number);
      ghost var kept := state;
      for k := 0 to |frame.detections|
        invariant Valid() && fresh(mine - old(mine))
        invariant state == kept.(active := DetectAll(kept.active, frame, k))
      {
        DetectOne(frame.detections[k], frame.number, frame.time);
      }
    }

    /** Reports the tracks that are still active. */
    method Finalize() returns (segments: seq<Segment>)
      requires Valid()
      modifies this`confirmedSegments
      ensures segments == confirmedSegments == Reported(state.All())
    {
      hide Reported, Shows;
      ghost var all := state.active;
      ShowsLength(activeTracks, all);
      assert state.retired + all[..0] == state.retired;
      for k := 0 to |activeTracks|
        invariant Shows(activeTracks, all)
        invariant confirmedSegments == Reported(state.retired + all[..k])
      {
        ShowsAt(activeTracks, all, k);
        var newSegments := SegmentIfStable(activeTracks[k], state.retired + all[..k]);
        assert state.retired + all[..k + 1] == state.retired + all[..k] + [all[k]];
        confirmedSegments := confirmedSegments + newSegments;
      }
      assert all[..|all|] == all;
      segments := confirmedSegments;
    }

    /** Reports the confirmed ones among the tracks of the pure tracker, in the order in which they retire.
        With the stability threshold no higher than the matching one, as by default, those are exactly the
        tracks with enough sightings. */
    method Analyze(frames: seq<Frame>) returns (segments: seq<Segment>)
      requires frameInterval >= 1
      modifies this
      ensures segments == Reported(TrackAll(frames, 5 * frameInterval).All())
      ensures stabilityThreshold <= 0.9 ==>
                segments == ReportLong(TrackAll(frames, 5 * frameInterval).All(),
                                       AdjustedMin(minDurationFrames, frameInterval))
    {
      hide Shows;
      activeTracks, confirmedSegments, state, mine := [], [], Tracker([], []), {};
      assert Valid() by {
        NothingShown();
      }
      for k := 0 to |frames|
        invariant Valid() && fresh(mine)
        invariant state == TrackAll(frames[..k], Gap())
      {
        assert frames[..k + 1][..k] == frames[..k];
        ProcessFrame(frames[k]);
      }
      assert frames[..|frames|] == frames;
      segments := Finalize();
      if stabilityThreshold <= IOU_MATCH_THRESHOLD {
        StabilityNeverRejects(frames, Gap(), AdjustedMin(minDurationFrames, frameInterval), stabilityThreshold);
      }
    }
  }
}
