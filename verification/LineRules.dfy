/**
  * The line-crossing evaluators (src/rules/evaluators/counting_evaluator.cc and cross_line_evaluator.cc) over
  * unbounded runs of frames.
  */
module LineRules {
  import opened Detections
  import opened Options
  import opened Sequences
  import opened IouTracker
  import opened Rules
  import Tracking = IouTracker

  datatype Direction = AtoB | BtoA
  datatype Crossing = Crossing(id: int, det: Detection, direction: Direction, time: int)
  datatype CountEvent = CountEvent(crossing: Crossing, countValue: int)
  type Sides = map<int, int>

  // ---------- one frame ----------

  /** The side of the line a track is on; None for tracks that are skipped and for points on the line. */
  function Observed(rule: Rule, size: Size, track: Track): (s: Option<int>)
    ensures s.Some? ==> s.value == 1 || s.value == -1
  {
    if !track.active || |track.trajectory| < 2 then None
    else
      var p := Normalize(track.trajectory[|track.trajectory| - 1], size.width, size.height);
      var side := Sign(CrossProduct(rule.start, rule.end, p));
      if side == 0 then None else Some(side)
  }

  function DirectionOf(previous: int, side: int): Direction {
    if previous > 0 && side < 0 then AtoB else BtoA
  }

  predicate Crosses(sides: Sides, id: int, side: int) {
    id in sides && sides[id] != 0 && sides[id] != side
  }

  /** The sides recorded and the crossings found by one pass over the tracks. */
  function Scan(rule: Rule, ctx: Context, tracks: seq<Track>, sides: Sides): (Sides, seq<Crossing>) {
    if tracks == [] then (sides, [])
    else
      var (m, cs) := Scan(rule, ctx, tracks[..|tracks| - 1], sides);
      var track := tracks[|tracks| - 1];
      match Observed(rule, ctx.size, track)
      case None => (m, cs)
      case Some(side) =>
        (m[track.id := side],
         if Crosses(m, track.id, side)
         then cs + [Crossing(track.id, track.last, DirectionOf(m[track.id], side), ctx.timestamp)] else cs)
  }

  function CountOf(cs: seq<Crossing>, direction: Direction): nat {
    if cs == [] then 0
    else CountOf(cs[..|cs| - 1], direction) + (if cs[|cs| - 1].direction == direction then 1 else 0)
  }

  function Net(cs: seq<Crossing>): int {
    CountOf(cs, AtoB) - CountOf(cs, BtoA)
  }

  /** Events of consecutive crossings, each carrying the net count including itself. */
  function WithCounts(base: int, cs: seq<Crossing>): (es: seq<CountEvent>)
    ensures |es| == |cs|
  {
    seq(|cs|, k requires 0 <= k < |cs| => CountEvent(cs[k], base + Net(cs[..k + 1])))
  }

  datatype Counting = Counting(tracker: Tracker, sides: Sides, aToB: int, bToA: int)
  datatype CrossLine = CrossLine(tracker: Tracker, sides: Sides)

  function EvaluateCounting(rule: Rule, st: Counting, dets: seq<Detection>, ctx: Context, order: seq<Pair>)
    : (Counting, seq<CountEvent>)
  {
    var tracker := Updated(TRACKING, st.tracker, Filtered(rule, dets), order);
    var (m, cs) := Scan(rule, ctx, tracker.tracks, st.sides);
    (Counting(tracker, Prune(m, tracker.tracks), st.aToB + CountOf(cs, AtoB), st.bToA + CountOf(cs, BtoA)),
     WithCounts(st.aToB - st.bToA, cs))
  }

  /** A one-way line reports only A to B. */
  function Reported(rule: Rule, cs: seq<Crossing>): seq<Crossing> {
    Filter(cs, (c: Crossing) => rule.bidirectional || c.direction == AtoB)
  }

  function EvaluateCrossLine(rule: Rule, st: CrossLine, dets: seq<Detection>, ctx: Context, order: seq<Pair>)
    : (CrossLine, seq<Crossing>)
  {
    var tracker := Updated(TRACKING, st.tracker, Filtered(rule, dets), order);
    if Filtered(rule, dets) == [] then (CrossLine(tracker, st.sides), [])
    else
      var (m, cs) := Scan(rule, ctx, tracker.tracks, st.sides);
      (CrossLine(tracker, Prune(m, tracker.tracks)), Reported(rule, cs))
  }

  // ---------- both evaluators over a run ----------

  datatype Frame = Frame(dets: seq<Detection>, time: int, size: Size, order: seq<Pair>)

  /** `first` is the side each track was first recorded on, `log` all crossings, `reported` what cross-line raised. */
  datatype Run = Run(counting: Counting, crossLine: CrossLine, first: Sides,
                     log: seq<Crossing>, events: seq<CountEvent>, reported: seq<Crossing>)

  const START := Run(Counting(FRESH, map[], 0, 0), CrossLine(FRESH, map[]), map[], [], [], [])

  function FirstSides(first: Sides, sides: Sides): Sides {
    map id | id in sides :: if id in first then first[id] else sides[id]
  }

  function Step(rule: Rule, r: Run, f: Frame): Run {
    var ctx := Context(f.time, f.size);
    var (counting, events) := EvaluateCounting(rule, r.counting, f.dets, ctx, f.order);
    var (crossLine, reported) := EvaluateCrossLine(rule, r.crossLine, f.dets, ctx, f.order);
    var cs := Scan(rule, ctx, counting.tracker.tracks, r.counting.sides).1;
    Run(counting, crossLine, FirstSides(r.first, counting.sides), r.log + cs, r.events + events, r.reported + reported)
  }

  /** Runs with one rule and frames of any size; both trackers sort the same pairs the same way. */
  ghost predicate Reaches(rule: Rule, frames: seq<Frame>, r: Run)
    decreases |frames|
  {
    if frames == [] then r == START
    else
      var f := frames[|frames| - 1];
      exists before ::
        && Reaches(rule, frames[..|frames| - 1], before)
        && ValidOrder(TRACKING, before.counting.tracker.tracks, Filtered(rule, f.dets), f.order)
        && r == Step(rule, before, f)
  }

  // ---------- agreement of the two evaluators ----------

  /** A track whose side needs no update. */
  ghost predicate Settled(rule: Rule, size: Size, track: Track, sides: Sides) {
    var side := Observed(rule, size, track);
    side.Some? ==> track.id in sides && sides[track.id] == side.value
  }

  ghost predicate AllSettled(rule: Rule, size: Size, tracks: seq<Track>, sides: Sides) {
    forall i :: 0 <= i < |tracks| ==> Settled(rule, size, tracks[i], sides)
  }

  ghost predicate DistinctIds(tracks: seq<Track>) {
    forall i, j :: 0 <= i < j < |tracks| ==> tracks[i].id != tracks[j].id
  }

  lemma {:induction false} ScanOfSettled(rule: Rule, ctx: Context, tracks: seq<Track>, sides: Sides)
    requires AllSettled(rule, ctx.size, tracks, sides)
    ensures Scan(rule, ctx, tracks, sides) == (sides, [])
  {
    hide Observed;
    if tracks != [] {
      ScanOfSettled(rule, ctx, tracks[..|tracks| - 1], sides);
      var track := tracks[|tracks| - 1];
      assert Settled(rule, ctx.size, track, sides);
      if Observed(rule, ctx.size, track).Some? {
        assert sides[track.id := sides[track.id]] == sides;
      }
    }
  }

  lemma {:induction false} ScanSettles(rule: Rule, ctx: Context, tracks: seq<Track>, sides: Sides)
    requires DistinctIds(tracks)
    ensures AllSettled(rule, ctx.size, tracks, Scan(rule, ctx, tracks, sides).0)
    ensures forall id :: id in Scan(rule, ctx, tracks, sides).0 ==> id in sides || HasTrack(tracks, id)
  {
    hide Observed;
    if tracks != [] {
      var init, track := tracks[..|tracks| - 1], tracks[|tracks| - 1];
      ScanSettles(rule, ctx, init, sides);
      var m, after := Scan(rule, ctx, init, sides).0, Scan(rule, ctx, tracks, sides).0;
      forall i | 0 <= i < |tracks| ensures Settled(rule, ctx.size, tracks[i], after) {
        if i < |init| {
          assert Settled(rule, ctx.size, init[i], m);
        }
      }
      forall id | id in after ensures id in sides || HasTrack(tracks, id) {
        if id in m && HasTrack(init, id) {
          var i :| 0 <= i < |init| && init[i].id == id;
          assert tracks[i].id == id;
        } else if id !in m {
          assert tracks[|init|].id == id;
        }
      }
    }
  }

  lemma EmptyOrMember(ps: seq<Pair>)
    ensures ps == [] || exists p :: p in ps
  {
    if ps != [] {
      assert ps[0] in ps;
    }
  }

  /** A frame without detections ages the tracks and changes nothing the evaluators look at. */
  lemma EmptyUpdate(st: Tracker, order: seq<Pair>)
    requires Invariant(TRACKING, st) && ValidOrder(TRACKING, st.tracks, [], order)
    ensures
      var after := Updated(TRACKING, st, [], order);
      && |after.tracks| == |st.tracks| && after.nextId == st.nextId
      && forall i :: 0 <= i < |st.tracks| ==>
           && after.tracks[i].id == st.tracks[i].id && after.tracks[i].trajectory == st.tracks[i].trajectory
           && (after.tracks[i].active ==> st.tracks[i].active)
  {
    EmptyOrMember(order);
    var grown := Grown(TRACKING, st, [], []);
    GrownOk(TRACKING, st, [], []);
    forall x | x in grown ensures Stays(TRACKING, x) {
      CleanUpReach(TRACKING, x);
    }
    SurvivingShape(TRACKING, grown);
    hide TrackOk, Ascending, Complete, Stays, Surviving, ValidOrder, Qualifies;
    assert Created([], [], st.nextId, 0) == [];
    assert grown == TouchedAll(TRACKING, st.tracks, [], []);
    forall i | 0 <= i < |st.tracks| ensures grown[i] == Aged(TRACKING, st.tracks[i]) {
      assert MatchOf([], i) == None;
    }
  }

  /** What both evaluators keep, besides being equal. */
  ghost predicate Agreement(rule: Rule, size: Size, r: Run) {
    && r.crossLine.tracker == r.counting.tracker && r.crossLine.sides == r.counting.sides
    && Invariant(TRACKING, r.counting.tracker)
    && AllSettled(rule, size, r.counting.tracker.tracks, r.counting.sides)
    && (forall id :: id in r.counting.sides ==> HasTrack(r.counting.tracker.tracks, id))
    && r.reported == Reported(rule, r.log)
  }

  lemma NoneReported(rule: Rule)
    ensures Reported(rule, []) == []
  {
  }

  lemma ReportedSnoc(rule: Rule, cs: seq<Crossing>, c: Crossing)
    ensures Reported(rule, cs + [c]) ==
            if rule.bidirectional || c.direction == AtoB then Reported(rule, cs) + [c] else Reported(rule, cs)
  {
    FilterSnoc(cs, c, (c: Crossing) => rule.bidirectional || c.direction == AtoB);
    assert Reported(rule, cs) + [] == Reported(rule, cs);
  }

  lemma ReportedAppend(rule: Rule, a: seq<Crossing>, b: seq<Crossing>)
    ensures Reported(rule, a + b) == Reported(rule, a) + Reported(rule, b)
  {
    FilterAppend(a, b, (c: Crossing) => rule.bidirectional || c.direction == AtoB);
  }

  lemma InvariantDistinct(st: Tracker)
    requires Invariant(TRACKING, st)
    ensures DistinctIds(st.tracks)
  {
  }

  /** The scan of a frame: recorded sides settle, and pruning drops nothing. */
  lemma ScanFrame(rule: Rule, ctx: Context, st: Tracker, sides: Sides, dets: seq<Detection>, order: seq<Pair>)
    requires Invariant(TRACKING, st) && ValidOrder(TRACKING, st.tracks, dets, order)
    requires forall id :: id in sides ==> HasTrack(st.tracks, id)
    ensures
      var tracks := Updated(TRACKING, st, dets, order).tracks;
      var m := Scan(rule, ctx, tracks, sides).0;
      && Prune(m, tracks) == m && AllSettled(rule, ctx.size, tracks, m)
      && forall id :: id in m ==> HasTrack(tracks, id)
  {
    var after := Updated(TRACKING, st, dets, order);
    UpdateKeepsInvariant(TRACKING, st, dets, order);
    InvariantDistinct(after);
    ScanSettles(rule, ctx, after.tracks, sides);
    var m := Scan(rule, ctx, after.tracks, sides).0;
    hide Updated, Scan, Settled, Invariant, ValidOrder;
    forall id | id in m ensures HasTrack(after.tracks, id) {
      if id in sides {
        TracksStay(st, dets, order, id);
      }
    }
    PruneKeepsAll(m, after.tracks);
  }

  /** On a frame without detections the counting pass finds nothing to do. */
  lemma EmptyScan(rule: Rule, ctx: Context, st: Tracker, sides: Sides, order: seq<Pair>)
    requires Invariant(TRACKING, st) && ValidOrder(TRACKING, st.tracks, [], order)
    requires AllSettled(rule, ctx.size, st.tracks, sides)
    ensures Scan(rule, ctx, Updated(TRACKING, st, [], order).tracks, sides) == (sides, [])
  {
    EmptyUpdate(st, order);
    var after := Updated(TRACKING, st, [], order);
    hide Updated, Invariant, ValidOrder;
    forall i | 0 <= i < |after.tracks| ensures Settled(rule, ctx.size, after.tracks[i], sides) {
      assert Settled(rule, ctx.size, st.tracks[i], sides);
    }
    ScanOfSettled(rule, ctx, after.tracks, sides);
  }

  lemma StepKeepsAgreement(rule: Rule, size: Size, r: Run, f: Frame)
    requires Agreement(rule, size, r) && (Filtered(rule, f.dets) == [] ==> f.size == size)
    requires ValidOrder(TRACKING, r.counting.tracker.tracks, Filtered(rule, f.dets), f.order)
    ensures Agreement(rule, f.size, Step(rule, r, f))
  {
    var ctx, dets, st := Context(f.time, f.size), Filtered(rule, f.dets), r.counting.tracker;
    var after := Step(rule, r, f);
    ScanFrame(rule, ctx, st, r.counting.sides, dets, f.order);
    UpdateKeepsInvariant(TRACKING, st, dets, f.order);
    var cs := Scan(rule, ctx, Updated(TRACKING, st, dets, f.order).tracks, r.counting.sides).1;
    ReportedAppend(rule, r.log, cs);
    if dets == [] {
      EmptyScan(rule, ctx, st, r.counting.sides, f.order);
    }
  }

  /** A frame on which nothing passes the filter has the size of the frame before it. */
  ghost predicate SizesKept(rule: Rule, frames: seq<Frame>) {
    forall i :: 0 < i < |frames| && Filtered(rule, frames[i].dets) == [] ==> frames[i].size == frames[i - 1].size
  }

  function LastSize(frames: seq<Frame>): Size {
    if frames == [] then Size(0, 0) else frames[|frames| - 1].size
  }

  lemma StartAgrees(rule: Rule, size: Size)
    ensures Agreement(rule, size, START)
  {
  }

  /**
    * Every run in which the frame size changes only with detections: the counting evaluator and the cross-line
    * evaluator hold the same tracks and sides, and cross-line reports exactly the counted crossings (only A to B when
    * the line is one-way), in order, despite its early return on frames without detections.
    */
  lemma {:induction false} EvaluatorsAgree(rule: Rule, frames: seq<Frame>, r: Run)
    requires Reaches(rule, frames, r) && SizesKept(rule, frames)
    ensures Agreement(rule, LastSize(frames), r)
    decreases |frames|
  {
    hide Agreement, Step, ValidOrder;
    if frames == [] {
      StartAgrees(rule, LastSize(frames));
    } else {
      var n := |frames| - 1;
      var f := frames[n];
      var before :|
        && Reaches(rule, frames[..n], before)
        && ValidOrder(TRACKING, before.counting.tracker.tracks, Filtered(rule, f.dets), f.order)
        && r == Step(rule, before, f);
      if n == 0 {
        StartAgrees(rule, f.size);
        StepKeepsAgreement(rule, f.size, before, f);
      } else {
        assert SizesKept(rule, frames[..n]);
        EvaluatorsAgree(rule, frames[..n], before);
        StepKeepsAgreement(rule, frames[n - 1].size, before, f);
      }
    }
  }

  // ---------- a run on which they part ----------

  lemma ScanOne(rule: Rule, ctx: Context, track: Track, sides: Sides)
    ensures Scan(rule, ctx, [track], sides) ==
            match Observed(rule, ctx.size, track)
            case None => (sides, [])
            case Some(side) =>
              (sides[track.id := side],
               if Crosses(sides, track.id, side)
               then [Crossing(track.id, track.last, DirectionOf(sides[track.id], side), ctx.timestamp)] else [])
  {
    hide Observed;
    var tracks := [track];
    var none: seq<Track> := [];
    assert tracks[..|tracks| - 1] == none && tracks[|tracks| - 1] == track;
    assert Scan(rule, ctx, none, sides) == (sides, []);
    var side := Observed(rule, ctx.size, track);
    if side.Some? && Crosses(sides, track.id, side.value) {
      var c := Crossing(track.id, track.last, DirectionOf(sides[track.id], side.value), ctx.timestamp);
      var nothing: seq<Crossing> := [];
      assert nothing + [c] == [c];
    }
  }

  /** A horizontal line, a box above it whose center scaled to a large frame is below it, and the two frame sizes. */
  ghost predicate Divided(rule: Rule, d: Detection, small: Size, large: Size) {
    && rule.start == Point(0.0, 0.5) && rule.end == Point(1.0, 0.5) && rule.bidirectional && Passes(rule, d)
    && Center(d) == Point(1.0, 1.0) && Iou(d, d) >= TRACKING.threshold && small == Size(0, 0) && large == Size(100, 100)
  }

  lemma SidesDiffer(rule: Rule, d: Detection, small: Size, large: Size, track: Track)
    requires Divided(rule, d, small, large) && track.active && |track.trajectory| >= 2
    requires track.trajectory[|track.trajectory| - 1] == Center(d)
    ensures Observed(rule, small, track) == Some(1) && Observed(rule, large, track) == Some(-1)
  {
    hide Iou;
  }

  /** One frame for a single track: what both evaluators do. */
  lemma OneTrackStep(rule: Rule, r: Run, f: Frame, after: Track)
    requires r.counting.tracker == r.crossLine.tracker && r.counting.sides == r.crossLine.sides
    requires Updated(TRACKING, r.counting.tracker, Filtered(rule, f.dets), f.order) == Tracker([after], 2)
    requires forall id :: id in r.counting.sides ==> id == after.id
    ensures
      var (m, cs) := Scan(rule, Context(f.time, f.size), [after], r.counting.sides);
      var next := Step(rule, r, f);
      && next.counting.tracker == Tracker([after], 2) && next.counting.sides == m && next.log == r.log + cs
      && next.crossLine.tracker == Tracker([after], 2)
      && (Filtered(rule, f.dets) == [] ==> next.crossLine.sides == r.crossLine.sides && next.reported == r.reported)
      && (Filtered(rule, f.dets) != [] ==>
            next.crossLine.sides == m && next.reported == r.reported + Reported(rule, cs))
  {
    hide Updated, Filtered, Observed, Reported, CountOf, WithCounts;
    var ctx := Context(f.time, f.size);
    ScanOne(rule, ctx, after, r.counting.sides);
    var m := Scan(rule, ctx, [after], r.counting.sides).0;
    assert HasTrack([after], after.id) by {
      assert [after][0].id == after.id;
    }
    hide Scan;
    PruneKeepsAll(m, [after]);
    assert r.reported + [] == r.reported;
  }

  lemma NothingPasses(rule: Rule)
    ensures Filtered(rule, []) == []
  {
  }

  /** A frame without detections but of another size: the counting evaluator sees a crossing that cross-line skips. */
  lemma PartOnEmptyFrame(rule: Rule, d: Detection, small: Size, large: Size, p: Pair)
    requires Divided(rule, d, small, large) && p == Pair(0, 0, Iou(d, d))
    ensures
      var f1, f2, f3 := Frame.Frame([d], 0, small, []), Frame.Frame([d], 1, small, [p]), Frame.Frame([], 2, large, []);
      var r := Step(rule, Step(rule, Step(rule, START, f1), f2), f3);
      && ValidOrder(TRACKING, FRESH.tracks, Filtered(rule, f1.dets), f1.order)
      && ValidOrder(TRACKING, Step(rule, START, f1).counting.tracker.tracks, Filtered(rule, f2.dets), f2.order)
      && ValidOrder(TRACKING, Step(rule, Step(rule, START, f1), f2).counting.tracker.tracks, Filtered(rule, f3.dets),
                    f3.order)
      && |r.log| == 1 && r.reported == []
  {
    hide Step, Updated, ValidOrder, Filtered, Iou, Observed, Scan, Reported;
    var f1, f2, f3 := Frame.Frame([d], 0, small, []), Frame.Frame([d], 1, small, [p]), Frame.Frame([], 2, large, []);
    FilteredOne(rule, d);
    NothingPasses(rule);
    NoneReported(rule);
    var c := Center(d);
    var t1 := NewTrack(1, d);
    NewcomerTracked(FRESH, d);
    OneTrackStep(rule, START, f1, t1);
    ScanOne(rule, Context(0, small), t1, map[]);
    TooShortToSee(rule, small, t1);
    var r1 := Step(rule, START, f1);
    var t2 := Matched(TRACKING, t1, d);
    assert t2.trajectory == [c, c];
    SeenAgain(t1, 2, d, p);
    OneTrackStep(rule, r1, f2, t2);
    SidesDiffer(rule, d, small, large, t2);
    ScanOne(rule, Context(1, small), t2, map[]);
    var r2 := Step(rule, r1, f2);
    var t3 := t2.(missing := 1);
    UnseenOnce(t2, 2);
    OneTrackStep(rule, r2, f3, t3);
    SidesDiffer(rule, d, small, large, t3);
    ScanOne(rule, Context(2, large), t3, map[1 := 1]);
  }

  lemma TooShortToSee(rule: Rule, size: Size, track: Track)
    requires |track.trajectory| < 2
    ensures Observed(rule, size, track) == None
  {
  }

  /** When the frame size changes on a frame without detections, the two evaluators can disagree. */
  lemma SizeChangeSeparates() returns (rule: Rule, frames: seq<Frame>, r: Run)
    ensures Reaches(rule, frames, r) && !SizesKept(rule, frames)
    ensures |r.log| == 1 && r.reported == [] && r.reported != Reported(rule, r.log)
  {
    rule := Rule(Point(0.0, 0.5), Point(1.0, 0.5), true, [], 0, 0, 0.0, []);
    var d := Detection(0.0, 0.0, 2.0, 2.0, 1.0, 0, "");
    var p := Pair(0, 0, Iou(d, d));
    var small, large := Size(0, 0), Size(100, 100);
    assert Divided(rule, d, small, large);
    var f1, f2, f3 := Frame.Frame([d], 0, small, []), Frame.Frame([d], 1, small, [p]), Frame.Frame([], 2, large, []);
    frames := [f1, f2, f3];
    r := Step(rule, Step(rule, Step(rule, START, f1), f2), f3);
    hide *;
    PartOnEmptyFrame(rule, d, small, large, p);
    ReachesThree(rule, f1, f2, f3);
    AllReported(rule, r.log);
    SizesDiffer(rule, frames);
  }

  lemma SizesDiffer(rule: Rule, frames: seq<Frame>)
    requires |frames| == 3 && frames[2].dets == [] && frames[2].size != frames[1].size
    ensures !SizesKept(rule, frames)
  {
    NothingPasses(rule);
  }

  lemma ReachesThree(rule: Rule, f1: Frame, f2: Frame, f3: Frame)
    requires
      var r1 := Step(rule, START, f1);
      var r2 := Step(rule, r1, f2);
      && ValidOrder(TRACKING, FRESH.tracks, Filtered(rule, f1.dets), f1.order)
      && ValidOrder(TRACKING, r1.counting.tracker.tracks, Filtered(rule, f2.dets), f2.order)
      && ValidOrder(TRACKING, r2.counting.tracker.tracks, Filtered(rule, f3.dets), f3.order)
    ensures Reaches(rule, [f1, f2, f3], Step(rule, Step(rule, Step(rule, START, f1), f2), f3))
  {
    hide Step, ValidOrder, Filtered;
    var frames := [f1, f2, f3];
    assert frames[..2] == [f1, f2] && [f1, f2][..1] == [f1] && [f1][..0] == [];
    assert Reaches(rule, [], START);
    assert Reaches(rule, [f1], Step(rule, START, f1));
    assert Reaches(rule, [f1, f2], Step(rule, Step(rule, START, f1), f2));
  }

  lemma AllReported(rule: Rule, cs: seq<Crossing>)
    requires rule.bidirectional
    ensures cs != [] ==> Reported(rule, cs) != []
  {
    if cs != [] {
      assert cs[0] in Reported(rule, cs);
    }
  }

  // ---------- the counting laws ----------

  function Flipped(side: int, times: nat): int {
    if times % 2 == 0 then side else -side
  }

  function CrossingsOf(log: seq<Crossing>, id: int): nat {
    if log == [] then 0 else CrossingsOf(log[..|log| - 1], id) + (if log[|log| - 1].id == id then 1 else 0)
  }

  /** Sum over ids 1..n of first side minus last side. */
  function SideSum(first: Sides, sides: Sides, n: nat): int {
    if n == 0 then 0
    else SideSum(first, sides, n - 1) + (if n in first && n in sides then first[n] - sides[n] else 0)
  }

  predicate IsSide(s: int) {
    s == 1 || s == -1
  }

  /** A track is on its first side, flipped once per crossing. */
  ghost predicate SidesTold(first: Sides, sides: Sides, log: seq<Crossing>) {
    && sides.Keys == first.Keys
    && (forall id :: id in sides ==> IsSide(first[id]) && sides[id] == Flipped(first[id], CrossingsOf(log, id)))
  }

  /** Each crossing leaves the side its track was on, so a track's crossings strictly alternate. */
  ghost predicate Alternating(first: Sides, log: seq<Crossing>) {
    forall k :: 0 <= k < |log| ==>
      && log[k].id in first
      && (log[k].direction == AtoB <==> Flipped(first[log[k].id], CrossingsOf(log[..k], log[k].id)) == 1)
  }

  ghost predicate Law(first: Sides, sides: Sides, log: seq<Crossing>, n: nat) {
    && (forall id :: id in sides ==> 1 <= id <= n)
    && SidesTold(first, sides, log) && Alternating(first, log)
    && 2 * Net(log) == SideSum(first, sides, n)
  }

  lemma {:induction false} NoCrossings(log: seq<Crossing>, id: int)
    requires forall k :: 0 <= k < |log| ==> log[k].id != id
    ensures CrossingsOf(log, id) == 0
  {
    if log != [] {
      NoCrossings(log[..|log| - 1], id);
    }
  }

  lemma {:induction false} SideSumUpdate(first: Sides, sides: Sides, n: nat, id: int, side: int)
    requires id in first && id in sides
    ensures SideSum(first, sides[id := side], n) ==
            SideSum(first, sides, n) + (if 1 <= id <= n then sides[id] - side else 0)
  {
    if n > 0 {
      SideSumUpdate(first, sides, n - 1, id, side);
    }
  }

  lemma {:induction false} SideSumRecord(first: Sides, sides: Sides, n: nat, id: int, side: int)
    requires id !in first && id !in sides
    ensures SideSum(first[id := side], sides[id := side], n) == SideSum(first, sides, n)
  {
    if n > 0 {
      SideSumRecord(first, sides, n - 1, id, side);
    }
  }

  lemma {:induction false} SideSumGrow(first: Sides, sides: Sides, n: nat, m: nat)
    requires n <= m && forall id :: id in sides ==> 1 <= id <= n
    ensures SideSum(first, sides, m) == SideSum(first, sides, n)
  {
    if n < m {
      SideSumGrow(first, sides, n, m - 1);
    }
  }

  /** A track recorded for the first time. */
  lemma LawRecord(first: Sides, sides: Sides, log: seq<Crossing>, n: nat, id: int, side: int)
    requires Law(first, sides, log, n) && id !in sides && 1 <= id <= n && IsSide(side)
    ensures Law(first[id := side], sides[id := side], log, n)
  {
    assert forall k :: 0 <= k < |log| ==> log[k].id != id;
    NoCrossings(log, id);
    SideSumRecord(first, sides, n, id, side);
    hide SideSum, CrossingsOf, Net;
  }

  lemma CrossingsSnoc(log: seq<Crossing>, c: Crossing, id: int)
    ensures CrossingsOf(log + [c], id) == CrossingsOf(log, id) + (if c.id == id then 1 else 0)
  {
    assert (log + [c])[..|log|] == log;
  }

  lemma SidesToldCross(first: Sides, sides: Sides, log: seq<Crossing>, c: Crossing, side: int)
    requires SidesTold(first, sides, log) && c.id in sides && IsSide(side) && side != sides[c.id]
    ensures SidesTold(first, sides[c.id := side], log + [c])
  {
    hide CrossingsOf;
    var after := sides[c.id := side];
    forall id | id in after ensures IsSide(first[id]) && after[id] == Flipped(first[id], CrossingsOf(log + [c], id)) {
      CrossingsSnoc(log, c, id);
    }
  }

  lemma AlternatingCross(first: Sides, sides: Sides, log: seq<Crossing>, c: Crossing, side: int)
    requires SidesTold(first, sides, log) && Alternating(first, log)
    requires c.id in sides && IsSide(side) && side != sides[c.id] && c.direction == DirectionOf(sides[c.id], side)
    ensures Alternating(first, log + [c])
  {
    hide CrossingsOf;
    var longer := log + [c];
    forall k | 0 <= k < |longer|
      ensures longer[k].id in first
      ensures longer[k].direction == AtoB <==> Flipped(first[longer[k].id], CrossingsOf(longer[..k], longer[k].id)) == 1
    {
      if k < |log| {
        assert longer[k] == log[k] && longer[..k] == log[..k];
      } else {
        assert longer[..k] == log;
      }
    }
  }

  lemma NetSnoc(log: seq<Crossing>, c: Crossing)
    ensures Net(log + [c]) == Net(log) + (if c.direction == AtoB then 1 else -1)
  {
    assert (log + [c])[..|log|] == log;
  }

  /** A track seen on the other side. */
  lemma LawCross(first: Sides, sides: Sides, log: seq<Crossing>, n: nat, c: Crossing, side: int)
    requires Law(first, sides, log, n) && c.id in sides && IsSide(side) && side != sides[c.id]
    requires c.direction == DirectionOf(sides[c.id], side)
    ensures Law(first, sides[c.id := side], log + [c], n)
  {
    LawKeys(first, sides, log, n);
    SidesToldCross(first, sides, log, c, side);
    AlternatingCross(first, sides, log, c, side);
    hide SidesTold, Alternating, Net;
    NetSnoc(log, c);
    SideSumUpdate(first, sides, n, c.id, side);
  }

  /** First sides known before or recorded by a scan of `tracks`. */
  lemma {:induction false} LawScan(rule: Rule, ctx: Context, tracks: seq<Track>, first: Sides, sides: Sides,
                                   log: seq<Crossing>, n: nat)
    requires Law(first, sides, log, n) && DistinctIds(tracks)
    requires forall i :: 0 <= i < |tracks| ==> 1 <= tracks[i].id <= n
    ensures var (m, cs) := Scan(rule, ctx, tracks, sides); Law(FirstSides(first, m), m, log + cs, n)
  {
    hide Observed, Law, Net;
    if tracks == [] {
      LawKeys(first, sides, log, n);
      assert FirstSides(first, sides) == first && log + [] == log;
    } else {
      var init, track := tracks[..|tracks| - 1], tracks[|tracks| - 1];
      assert tracks == init + [track];
      LawScan(rule, ctx, init, first, sides, log, n);
      LawKeys(first, sides, log, n);
      match Observed(rule, ctx.size, track)
      case None =>
      case Some(side) => LawScanOne(rule, ctx, init, track, first, sides, log, n, side);
    }
  }

  lemma {:induction false} ScanKeeps(rule: Rule, ctx: Context, tracks: seq<Track>, sides: Sides)
    ensures forall id :: id in sides ==> id in Scan(rule, ctx, tracks, sides).0
  {
    hide Observed;
    if tracks != [] {
      ScanKeeps(rule, ctx, tracks[..|tracks| - 1], sides);
    }
  }

  /** One more track in the scan. */
  lemma LawScanOne(rule: Rule, ctx: Context, init: seq<Track>, track: Track, first: Sides, sides: Sides,
                   log: seq<Crossing>, n: nat, side: int)
    requires sides.Keys == first.Keys && DistinctIds(init + [track]) && 1 <= track.id <= n && IsSide(side)
    requires var (m, cs) := Scan(rule, ctx, init, sides); Law(FirstSides(first, m), m, log + cs, n)
    ensures
      var (m, cs) := Scan(rule, ctx, init, sides);
      var m' := m[track.id := side];
      var cs' := if Crosses(m, track.id, side)
                 then cs + [Crossing(track.id, track.last, DirectionOf(m[track.id], side), ctx.timestamp)] else cs;
      Law(FirstSides(first, m'), m', log + cs', n)
  {
    hide Law, Scan, AllSettled, Crosses, DirectionOf;
    ScanKeeps(rule, ctx, init, sides);
    DistinctSnoc(init, track);
    ScanSettles(rule, ctx, init, sides);
    hide DistinctIds, HasTrack;
    var (m, cs) := Scan(rule, ctx, init, sides);
    var m' := m[track.id := side];
    LawKeys(FirstSides(first, m), m, log + cs, n);
    CrossesIffOther(m, track.id, side);
    if track.id !in m {
      assert FirstSides(first, m') == FirstSides(first, m)[track.id := side];
      LawRecord(FirstSides(first, m), m, log + cs, n, track.id, side);
    } else {
      assert track.id in first;
      assert FirstSides(first, m') == FirstSides(first, m);
      if m[track.id] != side {
        var c := Crossing(track.id, track.last, DirectionOf(m[track.id], side), ctx.timestamp);
        LawCross(FirstSides(first, m), m, log + cs, n, c, side);
        assert log + cs + [c] == log + (cs + [c]);
      } else {
        assert m' == m;
      }
    }
  }

  lemma CrossesIffOther(sides: Sides, id: int, side: int)
    requires id in sides ==> IsSide(sides[id])
    ensures Crosses(sides, id, side) <==> id in sides && sides[id] != side
  {
  }

  lemma DistinctSnoc(init: seq<Track>, track: Track)
    requires DistinctIds(init + [track])
    ensures DistinctIds(init) && !HasTrack(init, track.id)
  {
    var all := init + [track];
    assert forall i :: 0 <= i < |init| ==> all[i] == init[i] && all[i].id != all[|init|].id;
  }

  lemma LawKeys(first: Sides, sides: Sides, log: seq<Crossing>, n: nat)
    requires Law(first, sides, log, n)
    ensures sides.Keys == first.Keys && forall id :: id in sides ==> IsSide(sides[id])
  {
  }

  /** Counters and event values are those of the log. */
  ghost predicate Counted(r: Run) {
    && r.counting.aToB == CountOf(r.log, AtoB) && r.counting.bToA == CountOf(r.log, BtoA)
    && |r.events| == |r.log|
    && forall k :: 0 <= k < |r.log| ==> r.events[k] == CountEvent(r.log[k], Net(r.log[..k + 1]))
  }

  lemma {:induction false} CountOfAppend(a: seq<Crossing>, b: seq<Crossing>, d: Direction)
    ensures CountOf(a + b, d) == CountOf(a, d) + CountOf(b, d)
  {
    if b == [] {
      assert a + b == a;
    } else {
      assert (a + b)[..|a + b| - 1] == a + b[..|b| - 1];
      CountOfAppend(a, b[..|b| - 1], d);
    }
  }

  lemma NetAppend(a: seq<Crossing>, b: seq<Crossing>)
    ensures Net(a + b) == Net(a) + Net(b)
  {
    CountOfAppend(a, b, AtoB);
    CountOfAppend(a, b, BtoA);
  }

  lemma CountedStep(rule: Rule, r: Run, f: Frame)
    requires Counted(r)
    ensures Counted(Step(rule, r, f))
  {
    hide Updated, Filtered, Scan, Reported, Prune, FirstSides, Net, WithCounts, CountOf;
    var after := Step(rule, r, f);
    var cs := Scan(rule, Context(f.time, f.size), after.counting.tracker.tracks, r.counting.sides).1;
    CountOfAppend(r.log, cs, AtoB);
    CountOfAppend(r.log, cs, BtoA);
    var base := r.counting.aToB - r.counting.bToA;
    assert after.log == r.log + cs && after.events == r.events + WithCounts(base, cs);
    assert after.counting.aToB == r.counting.aToB + CountOf(cs, AtoB);
    assert after.counting.bToA == r.counting.bToA + CountOf(cs, BtoA);
    NetIs(r.log);
    hide Step;
    CountedValues(base, r.log, r.events, cs);
  }

  lemma CountedValues(base: int, log: seq<Crossing>, events: seq<CountEvent>, cs: seq<Crossing>)
    requires base == Net(log) && |events| == |log|
    requires forall k :: 0 <= k < |log| ==> events[k] == CountEvent(log[k], Net(log[..k + 1]))
    ensures
      var after, all := log + cs, events + WithCounts(base, cs);
      forall k :: 0 <= k < |after| ==> all[k] == CountEvent(after[k], Net(after[..k + 1]))
  {
    hide Net;
    var after, all := log + cs, events + WithCounts(base, cs);
    forall k | 0 <= k < |after| ensures all[k] == CountEvent(after[k], Net(after[..k + 1])) {
      if k < |log| {
        assert after[..k + 1] == log[..k + 1];
      } else {
        var j := k - |log|;
        assert after[..k + 1] == log + cs[..j + 1];
        NetAppend(log, cs[..j + 1]);
      }
    }
  }

  lemma NetIs(cs: seq<Crossing>)
    ensures Net(cs) == CountOf(cs, AtoB) - CountOf(cs, BtoA)
  {
  }

  function Seen(r: Run): nat
    requires r.counting.tracker.nextId >= 1
  {
    r.counting.tracker.nextId - 1
  }

  /** What the counting evaluator keeps on frames of any size. */
  ghost predicate Tracked(r: Run) {
    && Invariant(TRACKING, r.counting.tracker)
    && forall id :: id in r.counting.sides ==> HasTrack(r.counting.tracker.tracks, id)
  }

  lemma StepKeepsTracked(rule: Rule, r: Run, f: Frame)
    requires Tracked(r) && ValidOrder(TRACKING, r.counting.tracker.tracks, Filtered(rule, f.dets), f.order)
    ensures Tracked(Step(rule, r, f))
  {
    hide Invariant, ValidOrder, Updated, Filtered, Scan, HasTrack, WithCounts, CountOf, AllSettled, Reported;
    var ctx, dets, st := Context(f.time, f.size), Filtered(rule, f.dets), r.counting.tracker;
    ScanFrame(rule, ctx, st, r.counting.sides, dets, f.order);
    UpdateKeepsInvariant(TRACKING, st, dets, f.order);
  }

  lemma LawStep(rule: Rule, r: Run, f: Frame)
    requires Tracked(r)
    requires ValidOrder(TRACKING, r.counting.tracker.tracks, Filtered(rule, f.dets), f.order)
    requires Law(r.first, r.counting.sides, r.log, Seen(r))
    ensures
      var after := Step(rule, r, f);
      after.counting.tracker.nextId >= 1 && Law(after.first, after.counting.sides, after.log, Seen(after))
  {
    var ctx, dets, st := Context(f.time, f.size), Filtered(rule, f.dets), r.counting.tracker;
    hide Updated, Filtered, ValidOrder, Reported, WithCounts, CountOf, AllSettled, Law, Scan, Invariant;
    var tracker := Updated(TRACKING, st, dets, f.order);
    ScanFrame(rule, ctx, st, r.counting.sides, dets, f.order);
    UpdateKeepsInvariant(TRACKING, st, dets, f.order);
    InvariantDistinct(tracker);
    NextIdGrows(st, dets, f.order);
    LawGrow(r.first, r.counting.sides, r.log, Seen(r), tracker.nextId - 1);
    IdsSeen(tracker);
    LawScan(rule, ctx, tracker.tracks, r.first, r.counting.sides, r.log, tracker.nextId - 1);
  }

  lemma IdsSeen(st: Tracker)
    requires Invariant(TRACKING, st)
    ensures st.nextId >= 1 && forall i :: 0 <= i < |st.tracks| ==> 1 <= st.tracks[i].id <= st.nextId - 1
  {
  }

  lemma NextIdGrows(st: Tracker, dets: seq<Detection>, order: seq<Pair>)
    ensures Updated(TRACKING, st, dets, order).nextId >= st.nextId
  {
  }

  lemma LawGrow(first: Sides, sides: Sides, log: seq<Crossing>, n: nat, m: nat)
    requires Law(first, sides, log, n) && n <= m
    ensures Law(first, sides, log, m)
  {
    SideSumGrow(first, sides, n, m);
  }

  /**
    * Every run between resets, with frames of any size: twice the net count is the sum over all tracks ever seen of
    * first side minus last side, every track's crossings strictly alternate starting from its first side, and each
    * event carries the net count at that event.
    */
  lemma {:induction false} CountingLaws(rule: Rule, frames: seq<Frame>, r: Run)
    requires Reaches(rule, frames, r)
    ensures Tracked(r) && r.counting.tracker.nextId >= 1
    ensures Law(r.first, r.counting.sides, r.log, Seen(r)) && Counted(r)
    ensures 2 * (r.counting.aToB - r.counting.bToA) == SideSum(r.first, r.counting.sides, Seen(r))
    decreases |frames|
  {
    if frames == [] {
      assert START.first.Keys == START.counting.sides.Keys;
    } else {
      hide Step, Law, Counted, Filtered, ValidOrder, Tracked;
      var f := frames[|frames| - 1];
      var before :|
        && Reaches(rule, frames[..|frames| - 1], before)
        && ValidOrder(TRACKING, before.counting.tracker.tracks, Filtered(rule, f.dets), f.order)
        && r == Step(rule, before, f);
      CountingLaws(rule, frames[..|frames| - 1], before);
      StepKeepsTracked(rule, before, f);
      LawStep(rule, before, f);
      CountedStep(rule, before, f);
      NetLaw(r);
    }
  }

  lemma NetLaw(r: Run)
    requires r.counting.tracker.nextId >= 1 && Law(r.first, r.counting.sides, r.log, Seen(r)) && Counted(r)
    ensures 2 * (r.counting.aToB - r.counting.bToA) == SideSum(r.first, r.counting.sides, Seen(r))
  {
    NetIs(r.log);
  }

  // ---------- what is observed and what is reported ----------

  /** The side on which a track is seen is that of the middle of its last detection, in shares of the frame. */
  lemma SideObserved(rule: Rule, size: Size, track: Track, along: real, off: real)
    requires TrackOk(TRACKING, track) && rule.start != rule.end
    requires Normalize(Center(track.last), size.width, size.height) == Reached(rule.start, rule.end, along, off)
    ensures Observed(rule, size, track) ==
            if !track.active || |track.trajectory| < 2 || off == 0.0 then None else Some(if off > 0.0 then 1 else -1)
  {
    SideOfLine(rule.start, rule.end, along, off);
    hide CrossProduct, Reached, Normalize, Center;
  }

  lemma {:induction false} ReportedCount(rule: Rule, cs: seq<Crossing>)
    ensures |Reported(rule, cs)| == CountOf(cs, AtoB) + (if rule.bidirectional then CountOf(cs, BtoA) else 0)
  {
    hide Reported, CountOf;
    if cs == [] {
      NoneReported(rule);
      CountNone();
    } else {
      var init, c := cs[..|cs| - 1], cs[|cs| - 1];
      assert cs == init + [c];
      ReportedCount(rule, init);
      ReportedSnoc(rule, init, c);
      CountSnoc(init, c);
    }
  }

  /**
    * On every run in which the frame size changes only with detections, what cross-line has reported is counted by the
    * counting evaluator: for a one-way line its A-to-B count, for a two-way line the sum of both. A one-way line
    * reports A to B only.
    */
  lemma ReportsAreCounted(rule: Rule, frames: seq<Frame>, r: Run)
    requires Reaches(rule, frames, r) && SizesKept(rule, frames)
    ensures |r.reported| == r.counting.aToB + (if rule.bidirectional then r.counting.bToA else 0)
    ensures Subsequence(r.reported, r.log)
    ensures forall c :: c in r.reported ==> rule.bidirectional || c.direction == AtoB
  {
    EvaluatorsAgree(rule, frames, r);
    CountingLaws(rule, frames, r);
    ReportedCount(rule, r.log);
    FilterSubsequence(r.log, (c: Crossing) => rule.bidirectional || c.direction == AtoB);
    hide Reaches, Law, Invariant, AllSettled, HasTrack, Subsequence;
  }

  // ---------- the evaluator objects ----------

  lemma CountNone()
    ensures CountOf([], AtoB) == 0 && CountOf([], BtoA) == 0
  {
  }

  lemma CountSnoc(cs: seq<Crossing>, c: Crossing)
    ensures (cs + [c])[..|cs|] == cs
    ensures CountOf(cs + [c], AtoB) == CountOf(cs, AtoB) + (if c.direction == AtoB then 1 else 0)
    ensures CountOf(cs + [c], BtoA) == CountOf(cs, BtoA) + (if c.direction == BtoA then 1 else 0)
  {
    assert (cs + [c])[..|cs|] == cs;
  }

  lemma WithCountsSnoc(base: int, cs: seq<Crossing>, c: Crossing)
    ensures WithCounts(base, cs + [c]) == WithCounts(base, cs) + [CountEvent(c, base + Net(cs + [c]))]
  {
    hide Net;
    var longer := cs + [c];
    var es := WithCounts(base, longer);
    forall k | 0 <= k < |cs| ensures es[k] == WithCounts(base, cs)[k] {
      assert longer[..k + 1] == cs[..k + 1];
    }
    assert longer[..|cs| + 1] == longer;
  }

  class CountingEvaluator {
    const rule: Rule
    const tracker: Tracking.IouTracker
    var lastSide: Sides
    var aToB: int
    var bToA: int

    ghost function View(): Counting
      reads this, tracker
    {
      Counting(tracker.View(), lastSide, aToB, bToA)
    }

    ghost predicate Valid()
      reads this, tracker
    {
      tracker.config == TRACKING
    }

    constructor (r: Rule)
      ensures rule == r && Valid() && fresh(tracker) && View() == START.counting
    {
      rule, lastSide, aToB, bToA := r, map[], 0, 0;
      tracker := new Tracking.IouTracker(TRACKING);
    }

    method Reset()
      requires Valid()
      modifies this, tracker
      ensures Valid() && View() == START.counting
    {
      tracker.Reset();
      lastSide, aToB, bToA := map[], 0, 0;
    }

    /** One track of the pass: records its side, and counts it when the side has changed. */
    method Visit(track: Track, ctx: Context) returns (found: Option<Crossing>)
      modifies this`lastSide, this`aToB, this`bToA
      ensures var side := Observed(rule, ctx.size, track);
              && lastSide == (if side.Some? then old(lastSide)[track.id := side.value] else old(lastSide))
              && found == (if side.Some? && Crosses(old(lastSide), track.id, side.value)
                           then Some(Crossing(track.id, track.last, DirectionOf(old(lastSide)[track.id], side.value),
                                              ctx.timestamp))
                           else None)
      ensures aToB == old(aToB) + (if found.Some? && found.value.direction == AtoB then 1 else 0)
      ensures bToA == old(bToA) + (if found.Some? && found.value.direction == BtoA then 1 else 0)
    {
      found := None;
      var side := Observed(rule, ctx.size, track);
      if side.Some? {
        if track.id in lastSide && lastSide[track.id] != 0 && lastSide[track.id] != side.value {
          var direction := DirectionOf(lastSide[track.id], side.value);
          if direction == AtoB {
            aToB := aToB + 1;
          } else {
            bToA := bToA + 1;
          }
          found := Some(Crossing(track.id, track.last, direction, ctx.timestamp));
        }
        lastSide := lastSide[track.id := side.value];
      }
    }

    /** The pass over the tracks. */
    method ScanTracks(tracks: seq<Track>, ctx: Context) returns (events: seq<CountEvent>, ghost cs: seq<Crossing>)
      modifies this`lastSide, this`aToB, this`bToA
      ensures (lastSide, cs) == Scan(rule, ctx, tracks, old(lastSide))
      ensures aToB == old(aToB) + CountOf(cs, AtoB) && bToA == old(bToA) + CountOf(cs, BtoA)
      ensures events == WithCounts(old(aToB) - old(bToA), cs)
    {
      hide Observed, Net, WithCounts, Crosses, DirectionOf, CountOf;
      events, cs := [], [];
      CountNone();
      assert |WithCounts(aToB - bToA, cs)| == 0;
      for i := 0 to |tracks|
        invariant (lastSide, cs) == Scan(rule, ctx, tracks[..i], old(lastSide))
        invariant aToB == old(aToB) + CountOf(cs, AtoB) && bToA == old(bToA) + CountOf(cs, BtoA)
        invariant events == WithCounts(old(aToB) - old(bToA), cs)
      {
        assert tracks[..i + 1][..i] == tracks[..i];
        var found := Visit(tracks[i], ctx);
        if found.Some? {
          CountSnoc(cs, found.value);
          WithCountsSnoc(old(aToB) - old(bToA), cs, found.value);
          cs := cs + [found.value];
          NetIs(cs);
          events := events + [CountEvent(found.value, aToB - bToA)];
        }
      }
      assert tracks[..|tracks|] == tracks;
    }

    method Evaluate(dets: seq<Detection>, ctx: Context) returns (events: seq<CountEvent>, ghost order: seq<Pair>)
      requires Valid()
      modifies this, tracker
      ensures Valid()
      ensures ValidOrder(TRACKING, old(tracker.tracks), Filtered(rule, dets), order)
      ensures (View(), events) == EvaluateCounting(rule, old(View()), dets, ctx, order)
    {
      hide Updated, ValidOrder, Filtered, Scan, WithCounts, CountOf, Prune;
      var filtered := FilterDetections(rule, dets);
      order := tracker.Update(filtered);
      ghost var cs;
      events, cs := ScanTracks(tracker.tracks, ctx);
      lastSide := EraseStale(lastSide, tracker.tracks);
    }
  }

  class CrossLineEvaluator {
    const rule: Rule
    const tracker: Tracking.IouTracker
    var lastSide: Sides

    ghost function View(): CrossLine
      reads this, tracker
    {
      CrossLine(tracker.View(), lastSide)
    }

    ghost predicate Valid()
      reads this, tracker
    {
      tracker.config == TRACKING
    }

    constructor (r: Rule)
      ensures rule == r && Valid() && fresh(tracker) && View() == START.crossLine
    {
      rule, lastSide := r, map[];
      tracker := new Tracking.IouTracker(TRACKING);
    }

    method Evaluate(dets: seq<Detection>, ctx: Context) returns (events: seq<Crossing>, ghost order: seq<Pair>)
      requires Valid()
      modifies this, tracker
      ensures Valid()
      ensures ValidOrder(TRACKING, old(tracker.tracks), Filtered(rule, dets), order)
      ensures (View(), events) == EvaluateCrossLine(rule, old(View()), dets, ctx, order)
    {
      NoneReported(rule);
      hide Updated, ValidOrder, Observed, Filtered, Reported, Prune;
      var filtered := FilterDetections(rule, dets);
      order := tracker.Update(filtered);
      events := [];
      if filtered == [] {
        return;
      }
      ghost var cs: seq<Crossing> := [];
      for i := 0 to |tracker.tracks|
        invariant Valid() && tracker.View() == Updated(TRACKING, old(tracker.View()), filtered, order)
        invariant (lastSide, cs) == Scan(rule, ctx, tracker.tracks[..i], old(lastSide))
        invariant events == Reported(rule, cs)
      {
        var track := tracker.tracks[i];
        assert tracker.tracks[..i + 1][..i] == tracker.tracks[..i];
        var side := Observed(rule, ctx.size, track);
        if side.Some? {
          if track.id in lastSide && lastSide[track.id] != 0 && lastSide[track.id] != side.value {
            var direction := DirectionOf(lastSide[track.id], side.value);
            var c := Crossing(track.id, track.last, direction, ctx.timestamp);
            ReportedSnoc(rule, cs, c);
            cs := cs + [c];
            if rule.bidirectional || direction == AtoB {
              events := events + [c];
            }
          }
          lastSide := lastSide[track.id := side.value];
        }
      }
      assert tracker.tracks[..|tracker.tracks|] == tracker.tracks;
      lastSide := EraseStale(lastSide, tracker.tracks);
    }
  }
}
