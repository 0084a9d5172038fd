/** The tracks of text that stays in place across frames, and which of them are reported, as values. */
module TextTracks {
  import opened Arith
  import opened BoxOverlap

  const IOU_MATCH_THRESHOLD: real := 0.9
  const MAX_FRAME_GAP: nat := 5

  datatype Sighting = Sighting(box: Box, frame: int, time: real)

  type Track = t: seq<Sighting> | |t| >= 1 witness [Sighting(Box(0, 0, 0, 0), 0, 0.0)]

  datatype Frame = Frame(number: int, time: real, detections: seq<seq<Point>>)

  datatype Segment = Segment(startFrame: int, endFrame: int, startTime: real, endTime: real, sightings: nat)

  function Last(t: Track): Sighting {
    t[|t| - 1]
  }

  /** The first active track that overlaps `box` enough, or `|active|`. */
  function FirstMatch(active: seq<Track>, box: Box, from: nat): (i: nat)
    requires from <= |active|
    ensures from <= i <= |active|
    ensures i < |active| ==> Iou(box, Last(active[i]).box) >= IOU_MATCH_THRESHOLD
    ensures forall j :: from <= j < i ==> Iou(box, Last(active[j]).box) < IOU_MATCH_THRESHOLD
    decreases |active| - from
  {
    if from == |active| || Iou(box, Last(active[from]).box) >= IOU_MATCH_THRESHOLD then from
    else FirstMatch(active, box, from + 1)
  }

  /** A detection extends the first matching track or starts a new one. */
  function Detect(active: seq<Track>, s: Sighting): seq<Track> {
    var i := FirstMatch(active, s.box, 0);
    if i < |active| then active[i := active[i] + [s]] else active + [[s]]
  }

  function SightingOf(frame: Frame, k: nat): Sighting
    requires k < |frame.detections|
  {
    Sighting(Corners(frame.detections[k]), frame.number, frame.time)
  }

  /** The active tracks after the first `k` detections of `frame`. */
  function DetectAll(active: seq<Track>, frame: Frame, k: nat): seq<Track>
    requires k <= |frame.detections|
  {
    if k == 0 then active else Detect(DetectAll(active, frame, k - 1), SightingOf(frame, k - 1))
  }

  predicate Alive(t: Track, number: int, gap: int) {
    number - Last(t).frame <= gap
  }

  /** The tracks that are still alive at frame `number`, or those that are not, in order. */
  function Sift(tracks: seq<Track>, number: int, gap: int, alive: bool): seq<Track> {
    if tracks == [] then []
    else
      Sift(tracks[..|tracks| - 1], number, gap, alive)
      + if Alive(tracks[|tracks| - 1], number, gap) == alive then [tracks[|tracks| - 1]] else []
  }

  /** All the tracks there are after some frames, whether or not anything is reported for them. */
  datatype Tracker = Tracker(retired: seq<Track>, active: seq<Track>) {
    function Process(frame: Frame, gap: int): Tracker {
      Tracker(retired + Sift(active, frame.number, gap, false),
              DetectAll(Sift(active, frame.number, gap, true), frame, |frame.detections|))
    }

    function All(): seq<Track> {
      retired + active
    }
  }

  function TrackAll(frames: seq<Frame>, gap: int): Tracker {
    if frames == [] then Tracker([], [])
    else TrackAll(frames[..|frames| - 1], gap).Process(frames[|frames| - 1], gap)
  }

  /** The sum of the overlaps of the first `n` consecutive pairs. */
  function OverlapSum(t: seq<Sighting>, n: nat): real
    requires n < |t| || n == 0
  {
    if n == 0 then 0.0 else OverlapSum(t, n - 1) + Iou(t[n - 1].box, t[n].box)
  }

  function AverageOverlap(t: Track): real {
    if |t| < 2 then 1.0 else OverlapSum(t, |t| - 1) / (|t| - 1) as real
  }

  /** How many sightings a track needs; Python floors the division. */
  function AdjustedMin(minDuration: int, interval: nat): int
    requires interval >= 1
  {
    Max(1, minDuration / interval)
  }

  predicate Confirmed(t: Track, minimum: int, stability: real) {
    |t| >= minimum && AverageOverlap(t) >= stability
  }

  function SegmentOf(t: Track): Segment {
    Segment(t[0].frame, Last(t).frame, t[0].time, Last(t).time, |t|)
  }

  function Report(tracks: seq<Track>, minimum: int, stability: real): seq<Segment> {
    if tracks == [] then []
    else
      Report(tracks[..|tracks| - 1], minimum, stability)
      + if Confirmed(tracks[|tracks| - 1], minimum, stability) then [SegmentOf(tracks[|tracks| - 1])] else []
  }

  /** One segment for each track with enough sightings, and no others. */
  function ReportLong(tracks: seq<Track>, minimum: int): seq<Segment> {
    if tracks == [] then []
    else
      ReportLong(tracks[..|tracks| - 1], minimum)
      + if |tracks[|tracks| - 1]| >= minimum then [SegmentOf(tracks[|tracks| - 1])] else []
  }

  /** Consecutive sightings of a track match, and are never further apart than the allowed gap. */
  ghost predicate Coherent(t: Track, gap: int) {
    forall i :: 0 < i < |t| ==>
      Iou(t[i].box, t[i - 1].box) >= IOU_MATCH_THRESHOLD && t[i].frame - t[i - 1].frame <= gap
  }

  /** A track stays active exactly while its last sighting is no more than `gap` frames ago. */
  lemma {:induction false} SiftMembers(tracks: seq<Track>, number: int, gap: int, alive: bool)
    ensures forall t: Track :: t in Sift(tracks, number, gap, alive) <==> t in tracks && (number - t[|t| - 1].frame <= gap) == alive
  {
    if tracks != [] {
      SiftMembers(tracks[..|tracks| - 1], number, gap, alive);
      assert tracks == tracks[..|tracks| - 1] + [tracks[|tracks| - 1]];
    }
  }

  lemma DetectCoherent(active: seq<Track>, s: Sighting, gap: int)
    requires gap >= 0 && forall t :: t in active ==> Coherent(t, gap) && Alive(t, s.frame, gap)
    ensures forall t :: t in Detect(active, s) ==> Coherent(t, gap) && Alive(t, s.frame, gap)
  {
    hide Iou;
    var i := FirstMatch(active, s.box, 0);
    if i < |active| {
      assert active[i] in active;
      assert Coherent(active[i] + [s], gap);
      assert forall t :: t in Detect(active, s) ==> t in active || t == active[i] + [s];
    }
  }

  lemma {:induction false} DetectAllCoherent(active: seq<Track>, frame: Frame, k: nat, gap: int)
    requires k <= |frame.detections| && gap >= 0
    requires forall t :: t in active ==> Coherent(t, gap) && Alive(t, frame.number, gap)
    ensures forall t :: t in DetectAll(active, frame, k) ==> Coherent(t, gap) && Alive(t, frame.number, gap)
  {
    hide Coherent, Detect;
    if k > 0 {
      DetectAllCoherent(active, frame, k - 1, gap);
      DetectCoherent(DetectAll(active, frame, k - 1), SightingOf(frame, k - 1), gap);
    }
  }

  /** Matching keeps every track coherent, over any frames. */
  lemma {:induction false} TracksCoherent(frames: seq<Frame>, gap: int)
    requires gap >= 0
    ensures forall t :: t in TrackAll(frames, gap).All() ==> Coherent(t, gap)
  {
    if frames != [] {
      var before, frame := TrackAll(frames[..|frames| - 1], gap), frames[|frames| - 1];
      TracksCoherent(frames[..|frames| - 1], gap);
      SiftMembers(before.active, frame.number, gap, true);
      SiftMembers(before.active, frame.number, gap, false);
      DetectAllCoherent(Sift(before.active, frame.number, gap, true), frame, |frame.detections|, gap);
    }
  }

  lemma {:induction false} OverlapSumAtLeast(t: Track, gap: int, n: nat)
    requires Coherent(t, gap) && (n < |t| || n == 0)
    ensures OverlapSum(t, n) >= IOU_MATCH_THRESHOLD * n as real
  {
    if n > 0 {
      OverlapSumAtLeast(t, gap, n - 1);
      IouSymmetric(t[n].box, t[n - 1].box);
    }
  }

  lemma QuotientAtLeast(sum: real, n: real, bound: real)
    requires n > 0.0 && sum >= bound * n
    ensures sum / n >= bound
  {
    var q := sum / n;
    assert q * n == sum;
    if q < bound {
      assert (bound - q) * n > 0.0;
    }
  }

  lemma AverageAtLeast(t: Track, gap: int)
    requires Coherent(t, gap)
    ensures AverageOverlap(t) >= IOU_MATCH_THRESHOLD
  {
    hide OverlapSum, Coherent, Iou;
    if |t| >= 2 {
      var sum, n := OverlapSum(t, |t| - 1), (|t| - 1) as real;
      assert sum >= IOU_MATCH_THRESHOLD * n by {
        OverlapSumAtLeast(t, gap, |t| - 1);
      }
      assert sum / n >= IOU_MATCH_THRESHOLD by {
        QuotientAtLeast(sum, n, IOU_MATCH_THRESHOLD);
      }
    }
  }

  /** The number of sightings that is enough is one, or the number of sampled frames in the shortest duration. */
  lemma AdjustedMinMeans(minDuration: int, interval: nat, n: int)
    requires interval >= 1
    ensures n >= AdjustedMin(minDuration, interval) <==> n >= 1 && (n + 1) * interval > minDuration
  {
    var q := minDuration / interval;
    assert q * interval <= minDuration < (q + 1) * interval;
    if n >= q {
      MulMonotone(q + 1, n + 1, interval);
    } else {
      MulMonotone(n + 1, q, interval);
    }
  }

  lemma Divided(x: real, n: real)
    requires n > 0.0
    ensures x / n * n == x
  {
  }

  lemma {:induction false} OverlapSumPrefix(t: Track, s: Sighting, n: nat)
    requires n < |t|
    ensures OverlapSum(t + [s], n) == OverlapSum(t, n)
  {
    if n > 0 {
      OverlapSumPrefix(t, s, n - 1);
    }
  }

  /** The average is that of the overlaps of the consecutive pairs: one more sighting adds one overlap to it. */
  lemma AverageExtends(t: Track, s: Sighting)
    ensures AverageOverlap([t[0]]) == 1.0
    ensures AverageOverlap(t + [s]) * |t| as real
         == (if |t| == 1 then 0.0 else AverageOverlap(t) * (|t| - 1) as real) + Iou(Last(t).box, s.box)
  {
    hide Iou;
    OverlapSumPrefix(t, s, |t| - 1);
    Divided(OverlapSum(t + [s], |t|), |t| as real);
    if |t| > 1 {
      Divided(OverlapSum(t, |t| - 1), (|t| - 1) as real);
    }
  }

  /** Exactly the tracks that are long and steady enough are reported, each by where it begins and ends and how often
      it was seen. */
  lemma {:induction false} ReportMembers(tracks: seq<Track>, minimum: int, stability: real, g: Segment)
    ensures g in Report(tracks, minimum, stability) <==>
            exists t: Track :: t in tracks && |t| >= minimum && AverageOverlap(t) >= stability
                        && g.startFrame == t[0].frame && g.endFrame == t[|t| - 1].frame
                        && g.startTime == t[0].time && g.endTime == t[|t| - 1].time && g.sightings == |t|
  {
    hide AverageOverlap;
    if tracks != [] {
      var rest, last := tracks[..|tracks| - 1], tracks[|tracks| - 1];
      ReportMembers(rest, minimum, stability, g);
      assert tracks == rest + [last];
      if g in Report(tracks, minimum, stability) && g !in Report(rest, minimum, stability) {
        assert last in tracks && g == SegmentOf(last);
      }
    }
  }

  lemma {:induction false} ReportIsReportLong(tracks: seq<Track>, gap: int, minimum: int, stability: real)
    requires stability <= IOU_MATCH_THRESHOLD
    requires forall t :: t in tracks ==> Coherent(t, gap)
    ensures Report(tracks, minimum, stability) == ReportLong(tracks, minimum)
  {
    if tracks != [] {
      ReportIsReportLong(tracks[..|tracks| - 1], gap, minimum, stability);
      AverageAtLeast(tracks[|tracks| - 1], gap);
    }
  }

  /** With a stability threshold no higher than the matching one, the stability test never rejects a track
      that is long enough: the tracks reported are exactly those with enough sightings. */
  lemma StabilityNeverRejects(frames: seq<Frame>, gap: int, minimum: int, stability: real)
    requires gap >= 0 && stability <= IOU_MATCH_THRESHOLD
    ensures Report(TrackAll(frames, gap).All(), minimum, stability) == ReportLong(TrackAll(frames, gap).All(), minimum)
  {
    TracksCoherent(frames, gap);
    ReportIsReportLong(TrackAll(frames, gap).All(), gap, minimum, stability);
  }

  /** A still text whose box is `width` by 1. */
  function Caption(number: int, width: int): Frame {
    Frame(number, 0.0, [[Point(0.0, 0.0), Point(width as real, 0.0), Point(width as real, 1.0), Point(0.0, 1.0)]])
  }

  lemma BarelyMatchingBoxes(number: int)
    ensures SightingOf(Caption(number, 10), 0) == Sighting(Box(0, 0, 10, 1), number, 0.0)
    ensures SightingOf(Caption(number, 9), 0) == Sighting(Box(0, 0, 9, 1), number, 0.0)
    ensures Iou(Box(0, 0, 9, 1), Box(0, 0, 10, 1)) == Iou(Box(0, 0, 10, 1), Box(0, 0, 9, 1)) == 0.9
  {
  }

  /** A frame with one detection makes one step, on the tracks still alive. */
  lemma OneDetection(before: Tracker, frame: Frame, gap: int)
    requires |frame.detections| == 1
    ensures before.Process(frame, gap).active == Detect(Sift(before.active, frame.number, gap, true), SightingOf(frame, 0))
    ensures before.Process(frame, gap).retired == before.retired + Sift(before.active, frame.number, gap, false)
  {
    assert DetectAll(Sift(before.active, frame.number, gap, true), frame, 0) == Sift(before.active, frame.number, gap, true);
  }

  /** A sighting that matches the only track, still alive, extends it. */
  lemma OnlyTrack(t: Track, s: Sighting, gap: int)
    requires Alive(t, s.frame, gap) && Iou(s.box, Last(t).box) >= IOU_MATCH_THRESHOLD
    ensures Sift([t], s.frame, gap, true) == [t] && Sift([t], s.frame, gap, false) == []
    ensures Detect([t], s) == [t + [s]]
  {
    var tracks := [t];
    assert tracks[..0] == [];
    assert FirstMatch(tracks, s.box, 0) == 0;
  }

  /** Two boxes that match with nothing to spare form one track of two sightings. */
  lemma BarelyMatching(gap: int)
    requires gap >= 1
    ensures TrackAll([Caption(0, 10), Caption(1, 9)], gap).All()
         == [[Sighting(Box(0, 0, 10, 1), 0, 0.0), Sighting(Box(0, 0, 9, 1), 1, 0.0)]]
  {
    hide DetectAll, SightingOf, Iou, Tracker.Process, FirstMatch;
    var f, g := Caption(0, 10), Caption(1, 9);
    var first, second := Sighting(Box(0, 0, 10, 1), 0, 0.0), Sighting(Box(0, 0, 9, 1), 1, 0.0);
    BarelyMatchingBoxes(0);
    BarelyMatchingBoxes(1);
    var none: seq<Track> := [];
    var one: seq<Track> := [[first]];
    assert [f][..0] == [] && [f, g][..1] == [f];
    OneDetection(Tracker([], []), f, gap);
    assert TrackAll([f], gap) == Tracker(none, one);
    OneDetection(Tracker(none, one), g, gap);
    OnlyTrack([first], second, gap);
    assert [first] + [second] == [first, second];
  }

  lemma BarelyMatchingRejected(t: Track, stability: real)
    requires t == [Sighting(Box(0, 0, 10, 1), 0, 0.0), Sighting(Box(0, 0, 9, 1), 1, 0.0)]
    requires stability > IOU_MATCH_THRESHOLD
    ensures Report([t], 2, stability) == [] && ReportLong([t], 2) == [SegmentOf(t)]
  {
    assert Iou(t[0].box, t[1].box) == 0.9;
    assert OverlapSum(t, 1) == OverlapSum(t, 0) + Iou(t[0].box, t[1].box) == 0.9;
    assert [t][..0] == [];
  }

  /** The matching threshold is exactly where the stability test starts to matter. */
  lemma StabilityNeverRejectsIff(gap: int, stability: real)
    requires gap >= 1
    ensures stability <= IOU_MATCH_THRESHOLD <==>
            forall frames: seq<Frame>, minimum: int ::
              Report(TrackAll(frames, gap).All(), minimum, stability) == ReportLong(TrackAll(frames, gap).All(), minimum)
  {
    hide Report, ReportLong, TrackAll;
    if stability <= IOU_MATCH_THRESHOLD {
      forall frames: seq<Frame>, minimum: int
        ensures Report(TrackAll(frames, gap).All(), minimum, stability) == ReportLong(TrackAll(frames, gap).All(), minimum)
      {
        StabilityNeverRejects(frames, gap, minimum, stability);
      }
    } else {
      BarelyMatching(gap);
      var tracks := TrackAll([Caption(0, 10), Caption(1, 9)], gap).All();
      BarelyMatchingRejected(tracks[0], stability);
      assert Report(tracks, 2, stability) != ReportLong(tracks, 2);
    }
  }

  /** All the sightings of some tracks, as often as they occur there. */
  ghost function Sightings(tracks: seq<Track>): multiset<Sighting> {
    if tracks == [] then multiset{} else Sightings(tracks[..|tracks| - 1]) + multiset(tracks[|tracks| - 1])
  }

  /** The sightings that the first `k` detections of a frame make: their bounding boxes, at its number and time. */
  ghost function SightingsIn(frame: Frame, k: nat): multiset<Sighting>
    requires k <= |frame.detections|
  {
    if k == 0 then multiset{}
    else SightingsIn(frame, k - 1) + multiset{Sighting(Corners(frame.detections[k - 1]), frame.number, frame.time)}
  }

  ghost function Detections(frames: seq<Frame>): multiset<Sighting> {
    if frames == [] then multiset{}
    else Detections(frames[..|frames| - 1]) + SightingsIn(frames[|frames| - 1], |frames[|frames| - 1].detections|)
  }

  lemma {:induction false} SightingsConcat(a: seq<Track>, b: seq<Track>)
    ensures Sightings(a + b) == Sightings(a) + Sightings(b)
  {
    if b == [] {
      assert a + b == a;
    } else {
      SightingsConcat(a, b[..|b| - 1]);
      assert (a + b)[..|a + b| - 1] == a + b[..|b| - 1];
    }
  }

  lemma OneTrack(t: Track)
    ensures Sightings([t]) == multiset(t)
  {
    assert [t][..0] == [];
  }

  lemma SightingsExtend(tracks: seq<Track>, i: nat, s: Sighting)
    requires i < |tracks|
    ensures Sightings(tracks[i := tracks[i] + [s]]) == Sightings(tracks) + multiset{s}
  {
    hide Sightings;
    var before, rest, longer: Track := tracks[..i], tracks[i + 1..], tracks[i] + [s];
    assert tracks == before + [tracks[i]] + rest;
    assert tracks[i := longer] == before + [longer] + rest;
    SightingsConcat(before + [tracks[i]], rest);
    SightingsConcat(before + [longer], rest);
    SightingsConcat(before, [tracks[i]]);
    SightingsConcat(before, [longer]);
    OneTrack(tracks[i]);
    OneTrack(longer);
  }

  lemma SightingsStep(active: seq<Track>, s: Sighting)
    ensures Sightings(Detect(active, s)) == Sightings(active) + multiset{s}
  {
    hide Sightings;
    var i := FirstMatch(active, s.box, 0);
    if i < |active| {
      SightingsExtend(active, i, s);
    } else {
      SightingsConcat(active, [[s]]);
      OneTrack([s]);
    }
  }

  lemma {:induction false} SightingsDetect(active: seq<Track>, frame: Frame, k: nat)
    requires k <= |frame.detections|
    ensures Sightings(DetectAll(active, frame, k)) == Sightings(active) + SightingsIn(frame, k)
  {
    hide Detect, Corners, Sightings;
    if k > 0 {
      SightingsDetect(active, frame, k - 1);
      SightingsStep(DetectAll(active, frame, k - 1), SightingOf(frame, k - 1));
    }
  }

  lemma SiftNone(number: int, gap: int)
    ensures Sift([], number, gap, true) == Sift([], number, gap, false) == []
    ensures Sightings([]) == multiset{}
  {
  }

  /** The last track goes to those that are alive or to the others. */
  lemma SiftLast(rest: seq<Track>, last: Track, number: int, gap: int)
    ensures var alive := Alive(last, number, gap);
            && Sift(rest + [last], number, gap, alive) == Sift(rest, number, gap, alive) + [last]
            && Sift(rest + [last], number, gap, !alive) == Sift(rest, number, gap, !alive)
  {
    assert (rest + [last])[..|rest|] == rest;
    assert Sift(rest, number, gap, !Alive(last, number, gap)) + [] == Sift(rest, number, gap, !Alive(last, number, gap));
  }

  lemma {:induction false} SightingsSplit(tracks: seq<Track>, number: int, gap: int)
    ensures Sightings(Sift(tracks, number, gap, true)) + Sightings(Sift(tracks, number, gap, false)) == Sightings(tracks)
  {
    hide Sift, Sightings, Alive;
    if tracks == [] {
      SiftNone(number, gap);
    } else {
      var rest, last := tracks[..|tracks| - 1], tracks[|tracks| - 1];
      SightingsSplit(rest, number, gap);
      SiftLast(rest, last, number, gap);
      assert tracks == rest + [last];
      SightingsConcat(Sift(rest, number, gap, Alive(last, number, gap)), [last]);
      SightingsConcat(rest, [last]);
    }
  }

  /** Every detection is a sighting of exactly one track, and there are no other sightings. */
  lemma {:induction false} DetectionsConserved(frames: seq<Frame>, gap: int)
    ensures Sightings(TrackAll(frames, gap).All()) == Detections(frames)
  {
    hide Sightings, SightingsIn, Sift, DetectAll;
    if frames != [] {
      var before, frame := TrackAll(frames[..|frames| - 1], gap), frames[|frames| - 1];
      var kept := Sift(before.active, frame.number, gap, true);
      var gone := Sift(before.active, frame.number, gap, false);
      DetectionsConserved(frames[..|frames| - 1], gap);
      SightingsConcat(before.retired, before.active);
      SightingsSplit(before.active, frame.number, gap);
      SightingsDetect(kept, frame, |frame.detections|);
      SightingsConcat(before.retired, gone);
      SightingsConcat(before.retired + gone, DetectAll(kept, frame, |frame.detections|));
    } else {
      assert TrackAll(frames, gap).All() == [];
      SiftNone(0, gap);
    }
  }
}
