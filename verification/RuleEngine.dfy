/** The rule engine's evaluation with per-rule cooldown (src/rules/rule_engine/rule_engine.cc). */
module RuleEngine {
  import opened Detections
  import opened Options
  import opened Sequences
  import opened IouTracker
  import opened Rules
  import Polygon
  import LineRules
  import RegionRules

  datatype Evaluator =
    | NoEvaluator
    | CountingRule(counting: LineRules.Counting)
    | CrossLineRule(crossLine: LineRules.CrossLine)
    | IntrusionRule(intrusion: RegionRules.Intrusion)
    | LoiteringRule(loitering: RegionRules.Loitering)

  datatype RuleEvent = Counted(count: LineRules.CountEvent) | Crossed(crossing: LineRules.Crossing)
                     | InRegion(entry: RegionRules.Entry)

  /** A rule's evaluator on a channel, with the time of its last event. */
  datatype Slot = Slot(rule: Rule, evaluator: Evaluator, lastEvent: int, cooldown: int)

  type Frame = RegionRules.Frame

  function TimeOf(e: RuleEvent): int {
    match e
    case Counted(c) => c.crossing.time
    case Crossed(c) => c.time
    case InRegion(entry) => entry.time
  }

  function TrackerOf(ev: Evaluator): Option<Tracker> {
    match ev
    case NoEvaluator => None
    case CountingRule(st) => Some(st.tracker)
    case CrossLineRule(st) => Some(st.tracker)
    case IntrusionRule(st) => Some(st.tracker)
    case LoiteringRule(st) => Some(st.tracker)
  }

  /** What an evaluator makes of a frame. */
  function Judge(rule: Rule, ev: Evaluator, f: Frame): (Evaluator, seq<RuleEvent>) {
    match ev
    case NoEvaluator => (ev, [])
    case CountingRule(st) =>
      var (after, events) := LineRules.EvaluateCounting(rule, st, f.dets, f.ctx, f.order);
      (CountingRule(after), seq(|events|, i requires 0 <= i < |events| => Counted(events[i])))
    case CrossLineRule(st) =>
      var (after, events) := LineRules.EvaluateCrossLine(rule, st, f.dets, f.ctx, f.order);
      (CrossLineRule(after), seq(|events|, i requires 0 <= i < |events| => Crossed(events[i])))
    case IntrusionRule(st) =>
      var (after, entries) := RegionRules.EvaluateIntrusion(rule, st, f.dets, f.ctx, f.order);
      (IntrusionRule(after), RegionEvents(RegionRules.Raised(entries)))
    case LoiteringRule(st) =>
      var (after, entries) := RegionRules.EvaluateLoitering(rule, st, f.dets, f.ctx, f.order);
      (LoiteringRule(after), RegionEvents(RegionRules.Raised(entries)))
  }

  function RegionEvents(entries: seq<RegionRules.Entry>): (r: seq<RuleEvent>)
    ensures |r| == |entries|
  {
    seq(|entries|, i requires 0 <= i < |entries| => InRegion(entries[i]))
  }

  /** The guard that skips a rule: its last event was too recent. */
  predicate Cooling(slot: Slot, t: int) {
    slot.lastEvent > 0 && t - slot.lastEvent < slot.cooldown
  }

  function EvaluateSlot(slot: Slot, f: Frame): (Slot, seq<RuleEvent>) {
    if Cooling(slot, f.ctx.timestamp) then (slot, [])
    else
      var (ev, events) := Judge(slot.rule, slot.evaluator, f);
      (slot.(evaluator := ev, lastEvent := if events == [] then slot.lastEvent else TimeOf(events[|events| - 1])),
       events)
  }

  // ---------- events carry the time of their frame ----------

  lemma {:induction false} CrossingTimes(rule: Rule, ctx: Context, tracks: seq<Track>, sides: LineRules.Sides)
    ensures forall c :: c in LineRules.Scan(rule, ctx, tracks, sides).1 ==> c.time == ctx.timestamp
    decreases |tracks|
  {
    hide LineRules.Observed;
    if tracks != [] {
      CrossingTimes(rule, ctx, tracks[..|tracks| - 1], sides);
    }
  }

  lemma {:induction false} LoiterTimes(rule: Rule, ctx: Context, tracks: seq<Track>, stays: RegionRules.Stays)
    ensures forall e :: e in RegionRules.Scan(rule, ctx, tracks, stays).1 ==> e.time == ctx.timestamp
    decreases |tracks|
  {
    hide RegionRules.Where, RegionRules.Look, RegionRules.Report;
    if tracks != [] {
      LoiterTimes(rule, ctx, tracks[..|tracks| - 1], stays);
    }
  }

  lemma {:induction false} IntrusionTimes(rule: Rule, ctx: Context, tracks: seq<Track>, was: map<int, bool>)
    ensures forall e :: e in RegionRules.ScanIntrusion(rule, ctx, tracks, was).1 ==> e.time == ctx.timestamp
    decreases |tracks|
  {
    hide RegionRules.Where;
    if tracks != [] {
      IntrusionTimes(rule, ctx, tracks[..|tracks| - 1], was);
    }
  }

  /** Whichever evaluator raised it, an event is stamped with the time of the frame. */
  lemma EventsCarryFrameTime(rule: Rule, ev: Evaluator, f: Frame)
    ensures forall i :: 0 <= i < |Judge(rule, ev, f).1| ==> TimeOf(Judge(rule, ev, f).1[i]) == f.ctx.timestamp
  {
    hide Updated, Filtered, Prune, LineRules.Scan, LineRules.CountOf, Filter, LineRules.Net;
    hide RegionRules.Scan, RegionRules.ScanIntrusion, RegionRules.Raised;
    match ev
    case NoEvaluator =>
    case CountingRule(st) =>
      CrossingTimes(rule, f.ctx, Updated(TRACKING, st.tracker, Filtered(rule, f.dets), f.order).tracks, st.sides);
    case CrossLineRule(st) =>
      var tracks := Updated(TRACKING, st.tracker, Filtered(rule, f.dets), f.order).tracks;
      CrossingTimes(rule, f.ctx, tracks, st.sides);
    case IntrusionRule(st) =>
      IntrusionTimes(rule, f.ctx, Updated(TRACKING, st.tracker, Filtered(rule, f.dets), f.order).tracks, st.was);
    case LoiteringRule(st) =>
      LoiterTimes(rule, f.ctx, Updated(TRACKING, st.tracker, Filtered(rule, f.dets), f.order).tracks, st.stays);
  }

  // ---------- runs of one rule ----------

  /** `fired` are the times of the frames on which the rule fired, `seen` the frames its evaluator was given. */
  datatype Run = Run(slot: Slot, fired: seq<int>, seen: seq<Frame>)

  function Step(r: Run, f: Frame): Run {
    if Cooling(r.slot, f.ctx.timestamp) then r
    else
      var (slot, events) := EvaluateSlot(r.slot, f);
      Run(slot, if events == [] then r.fired else r.fired + [f.ctx.timestamp], r.seen + [f])
  }

  function Execute(slot: Slot, frames: seq<Frame>): Run
    decreases |frames|
  {
    if frames == [] then Run(slot, [], [])
    else Step(Execute(slot, frames[..|frames| - 1]), frames[|frames| - 1])
  }

  /** Firings in a row are the cooldown apart, unless the earlier frame had no positive time. */
  ghost predicate Spaced(fired: seq<int>, cooldown: int) {
    forall i :: 0 <= i < |fired| - 1 && fired[i] > 0 ==> fired[i + 1] - fired[i] >= cooldown
  }

  ghost predicate SlotInvariant(initial: Slot, r: Run) {
    && r.slot.rule == initial.rule && r.slot.cooldown == initial.cooldown
    && r.slot.lastEvent == (if r.fired == [] then initial.lastEvent else r.fired[|r.fired| - 1])
    && Spaced(r.fired, initial.cooldown)
  }

  lemma StepKeepsInvariant(initial: Slot, r: Run, f: Frame)
    requires SlotInvariant(initial, r)
    ensures SlotInvariant(initial, Step(r, f))
  {
    EventsCarryFrameTime(r.slot.rule, r.slot.evaluator, f);
    hide Judge;
  }

  /** Every run of a rule keeps its cooldown between consecutive firings. */
  lemma {:induction false} RunInvariant(slot: Slot, frames: seq<Frame>)
    ensures SlotInvariant(slot, Execute(slot, frames))
    decreases |frames|
  {
    hide SlotInvariant, Step;
    if frames == [] {
      NothingFired(slot);
    } else {
      RunInvariant(slot, frames[..|frames| - 1]);
      StepKeepsInvariant(slot, Execute(slot, frames[..|frames| - 1]), frames[|frames| - 1]);
    }
  }

  lemma NothingFired(slot: Slot)
    ensures SlotInvariant(slot, Run(slot, [], []))
  {
  }

  lemma {:induction false} SpacedPairs(fired: seq<int>, cooldown: int, i: nat, j: nat)
    requires Spaced(fired, cooldown) && cooldown >= 0 && i < j < |fired|
             && forall k :: 0 <= k < |fired| ==> fired[k] > 0
    ensures fired[j] - fired[i] >= cooldown
    decreases j
  {
    if i < j - 1 {
      SpacedPairs(fired, cooldown, i, j - 1);
    }
  }

  ghost predicate TimesFrom(frames: seq<Frame>, least: int) {
    forall i :: 0 <= i < |frames| ==> frames[i].ctx.timestamp >= least
  }

  lemma {:induction false} FiredFrom(slot: Slot, frames: seq<Frame>, least: int)
    requires TimesFrom(frames, least)
    ensures forall k :: 0 <= k < |Execute(slot, frames).fired| ==> Execute(slot, frames).fired[k] >= least
    decreases |frames|
  {
    hide EvaluateSlot;
    if frames != [] {
      FiredFrom(slot, frames[..|frames| - 1], least);
    }
  }

  /** With positive times, any two frames on which a rule fires are at least its cooldown apart. */
  lemma FiresCooldownApart(slot: Slot, frames: seq<Frame>, i: nat, j: nat)
    requires slot.cooldown >= 0 && forall i :: 0 <= i < |frames| ==> frames[i].ctx.timestamp > 0
    requires i < j < |Execute(slot, frames).fired|
    ensures Execute(slot, frames).fired[j] - Execute(slot, frames).fired[i] >= slot.cooldown
  {
    RunInvariant(slot, frames);
    FiredFrom(slot, frames, 1);
    hide Execute, Spaced;
    SpacedPairs(Execute(slot, frames).fired, slot.cooldown, i, j);
  }

  /** The order in which the slot's tracker, if it is called, sorts its pairs. */
  ghost predicate SlotSorted(slot: Slot, dets: seq<Detection>, ctx: Context, order: seq<Pair>) {
    var tracker := TrackerOf(slot.evaluator);
    !Cooling(slot, ctx.timestamp) && tracker.Some? ==>
      ValidOrder(TRACKING, tracker.value.tracks, Filtered(slot.rule, dets), order)
  }

  /** On every frame of the run that is not skipped, the rule's tracker sorts its pairs. */
  ghost predicate RunSorted(slot: Slot, frames: seq<Frame>)
    decreases |frames|
  {
    frames != [] ==>
      var n := |frames| - 1;
      && RunSorted(slot, frames[..n])
      && SlotSorted(Execute(slot, frames[..n]).slot, frames[n].dets, frames[n].ctx, frames[n].order)
  }

  /** A slot as it is built from a rule. */
  ghost predicate Built(slot: Slot, seconds: int) {
    slot.rule.cooldownSeconds == seconds && slot.cooldown == seconds * 1000 && slot.lastEvent == 0
  }

  ghost predicate CooldownKept(fired: seq<int>, cooldown: int) {
    forall i :: 0 <= i < |fired| - 1 ==> fired[i + 1] - fired[i] >= cooldown
  }

  /**
    * Every rule with this cooldown keeps it between consecutive firings, on every run of frames with times from
    * `least` on, exactly when those times are positive or none of them is below the cooldown itself.
    */
  lemma CooldownKeptIff(seconds: int, least: int)
    ensures (forall slot, frames :: Built(slot, seconds) && RunSorted(slot, frames) && TimesFrom(frames, least) ==>
               CooldownKept(Execute(slot, frames).fired, seconds * 1000))
            <==> least > 0 || seconds * 1000 <= least
  {
    hide RunSorted, Execute;
    if least > 0 || seconds * 1000 <= least {
      forall slot, frames | Built(slot, seconds) && RunSorted(slot, frames) && TimesFrom(frames, least)
        ensures CooldownKept(Execute(slot, frames).fired, seconds * 1000)
      {
        RunInvariant(slot, frames);
        FiredFrom(slot, frames, least);
      }
    } else {
      var slot, frames := FiresWithin(seconds, if seconds > 0 then least else 0, least);
      assert TimesFrom(frames, least);
      var fired := Execute(slot, frames).fired;
      assert fired[1] - fired[0] < seconds * 1000;
    }
  }

  // ---------- a run that fires inside its cooldown ----------

  /** The lower left half of a square, and two boxes in it that do not overlap. */
  const HALF: seq<Point> := [Point(0.0, 0.0), Point(8.0, 0.0), Point(0.0, 8.0)]
  const LEFT := Detection(0.0, 0.0, 2.0, 2.0, 1.0, 0, "")
  const RIGHT := Detection(4.0, 0.0, 6.0, 2.0, 1.0, 0, "")
  const UNSIZED := Size(0, 0)

  function HalfRule(seconds: int): Rule {
    Rule(Point(0.0, 0.0), Point(0.0, 0.0), true, HALF, 0, seconds, 0.0, [])
  }

  /** A box of side 2 on the lower edge, between the corners. */
  predicate OnEdge(d: Detection, x: real) {
    d.x1 == x && d.y1 == 0.0 && d.x2 == x + 2.0 && d.y2 == 2.0
  }

  lemma EdgeBoxInside(d: Detection, x: real, half: seq<Point>)
    requires OnEdge(d, x) && 0.0 <= x <= 4.0 && half == HALF
    ensures Polygon.Inside(Center(d), half)
  {
    HalfHolds(Center(d), half);
  }

  lemma EdgeBoxesApart(a: Detection, b: Detection)
    requires OnEdge(a, 0.0) && OnEdge(b, 4.0)
    ensures Iou(a, b) == 0.0
  {
    assert Intersection(a, b) == 0.0;
  }

  lemma HalfHolds(p: Point, half: seq<Point>)
    requires half == HALF && p.y == 1.0 && 0.0 < p.x < 7.0
    ensures Polygon.Inside(p, half)
  {
    assert !Polygon.Meets(p, half[1], half[0]) && Polygon.Meets(p, half[2], half[1])
           && !Polygon.Meets(p, half[0], half[2]);
    hide Polygon.Meets;
    assert half[..2][..1] == half[..1] && |half[..1]| == 1;
    assert Polygon.Chain(p, half[..2]) == false;
    assert Polygon.Chain(p, half) == true;
  }

  /** Inside the region, it raises an intrusion. */
  lemma NewcomerRaises(rule: Rule, st: RegionRules.Intrusion, d: Detection, ctx: Context)
    requires |rule.vertices| >= 3 && Passes(rule, d) && ctx.size == UNSIZED && Polygon.Inside(Center(d), rule.vertices)
    requires Invariant(TRACKING, st.tracker) && forall id :: id in st.was ==> HasTrack(st.tracker.tracks, id)
    requires forall t :: 0 <= t < |st.tracker.tracks| ==> Iou(st.tracker.tracks[t].last, d) < TRACKING.threshold
    ensures Filtered(rule, [d]) == [d]
    ensures RegionRules.Raised(RegionRules.EvaluateIntrusion(rule, st, [d], ctx, []).1) != []
  {
    hide Polygon.Inside, Iou, Updated, Filtered, ValidOrder;
    FilteredOne(rule, d);
    NewcomerTracked(st.tracker, d);
    UpdateKeepsInvariant(TRACKING, st.tracker, [d], []);
    var after := Updated(TRACKING, st.tracker, [d], []);
    var n := |after.tracks| - 1;
    assert after.tracks[n].id !in st.was;
    assert !HasTrack(after.tracks[..n], after.tracks[n].id);
    hide Invariant;
    LastIntruderRaises(rule, ctx, after.tracks, st.was);
  }

  /** The last track of a pass raises an event if it is inside and neither it nor an earlier one has its id recorded. */
  lemma LastIntruderRaises(rule: Rule, ctx: Context, tracks: seq<Track>, was: map<int, bool>)
    requires tracks != [] && RegionRules.Where(rule, ctx.size, tracks[|tracks| - 1]) == Some(true)
    requires tracks[|tracks| - 1].id !in was && !HasTrack(tracks[..|tracks| - 1], tracks[|tracks| - 1].id)
    ensures RegionRules.Raised(RegionRules.ScanIntrusion(rule, ctx, tracks, was).1) != []
  {
    hide RegionRules.Where, HasTrack;
    var init, last := tracks[..|tracks| - 1], tracks[|tracks| - 1];
    RegionRules.ScanIntrusionKeys(rule, ctx, init, was);
    var log := RegionRules.ScanIntrusion(rule, ctx, init, was).1;
    RegionRules.RaisedSnoc(log, RegionRules.Entry(last.id, last.last, true, ctx.timestamp, true, 0));
    hide RegionRules.Raised;
  }

  /** A frame on which the rule fires. */
  lemma FireOnce(r: Run, f: Frame)
    requires r.slot.evaluator.IntrusionRule? && !Cooling(r.slot, f.ctx.timestamp)
    requires RegionRules.Raised(RegionRules.EvaluateIntrusion(r.slot.rule, r.slot.evaluator.intrusion, f.dets, f.ctx,
                                                              f.order).1) != []
    ensures
      var after := RegionRules.EvaluateIntrusion(r.slot.rule, r.slot.evaluator.intrusion, f.dets, f.ctx, f.order).0;
      && Step(r, f).fired == r.fired + [f.ctx.timestamp]
      && Step(r, f).slot == r.slot.(evaluator := IntrusionRule(after), lastEvent := f.ctx.timestamp)
  {
    EventsCarryFrameTime(r.slot.rule, r.slot.evaluator, f);
    hide RegionRules.EvaluateIntrusion, RegionRules.Raised;
  }

  /** The state after the first box was seen. */
  lemma AfterFirst(rule: Rule, d: Detection, ctx: Context)
    requires |rule.vertices| >= 3 && Passes(rule, d)
    ensures
      var st := RegionRules.EvaluateIntrusion(rule, RegionRules.Intrusion(FRESH, map[]), [d], ctx, []).0;
      && st.tracker == Tracker([NewTrack(1, d)], 2) && Invariant(TRACKING, st.tracker)
      && forall id :: id in st.was ==> HasTrack(st.tracker.tracks, id)
  {
    FilteredOne(rule, d);
    NewcomerTracked(FRESH, d);
    FreshInvariant();
    UpdateKeepsInvariant(TRACKING, FRESH, [d], []);
    hide Updated, Filtered, ValidOrder, RegionRules.ScanIntrusion, Invariant;
  }

  /** Two intruders, the first at a time that is not positive: the rule fires twice, whatever its cooldown. */
  lemma FiresWithin(seconds: int, t1: int, t2: int) returns (slot: Slot, frames: seq<Frame>)
    requires t1 <= 0
    ensures Built(slot, seconds) && RunSorted(slot, frames) && |frames| == 2
    ensures frames[0].ctx.timestamp == t1 && frames[1].ctx.timestamp == t2
    ensures Execute(slot, frames).fired == [t1, t2]
  {
    var rule := HalfRule(seconds);
    var nobody := RegionRules.Intrusion(FRESH, map[]);
    slot := Slot(rule, IntrusionRule(nobody), 0, seconds * 1000);
    var f1 := RegionRules.Frame([LEFT], Context(t1, UNSIZED), []);
    var f2 := RegionRules.Frame([RIGHT], Context(t2, UNSIZED), []);
    frames := [f1, f2];
    TwoIntruders(slot, rule, nobody, LEFT, RIGHT, f1, f2);
  }

  lemma TwoIntruders(slot: Slot, rule: Rule, nobody: RegionRules.Intrusion, a: Detection, b: Detection, f1: Frame,
                     f2: Frame)
    requires rule.vertices == HALF && Passes(rule, a) && Passes(rule, b) && OnEdge(a, 0.0) && OnEdge(b, 4.0)
    requires nobody == RegionRules.Intrusion(FRESH, map[]) && slot.rule == rule
             && slot.evaluator == IntrusionRule(nobody)
    requires slot.lastEvent == 0 && f1.ctx.timestamp <= 0 && f1.ctx.size == UNSIZED && f2.ctx.size == UNSIZED
    requires f1.dets == [a] && f2.dets == [b] && f1.order == [] && f2.order == []
    ensures RunSorted(slot, [f1, f2]) && Execute(slot, [f1, f2]).fired == [f1.ctx.timestamp, f2.ctx.timestamp]
  {
    hide Updated, Filtered, Invariant, Polygon.Inside, Iou, RegionRules.EvaluateIntrusion, RegionRules.Raised;
    EdgeBoxInside(a, 0.0, rule.vertices);
    EdgeBoxInside(b, 4.0, rule.vertices);
    EdgeBoxesApart(a, b);
    FreshInvariant();
    NewcomerRaises(rule, nobody, a, f1.ctx);
    NewcomerTracked(FRESH, a);
    AfterFirst(rule, a, f1.ctx);
    var one := RegionRules.EvaluateIntrusion(rule, nobody, [a], f1.ctx, []).0;
    NewcomerRaises(rule, one, b, f2.ctx);
    NewcomerTracked(one.tracker, b);
    TwoFirings(slot, f1, f2, one);
  }

  lemma FreshInvariant()
    ensures Invariant(TRACKING, FRESH)
  {
  }

  lemma TwoFirings(slot: Slot, f1: Frame, f2: Frame, one: RegionRules.Intrusion)
    requires slot.evaluator.IntrusionRule? && slot.lastEvent == 0 && f1.ctx.timestamp <= 0
    requires SlotSorted(slot, f1.dets, f1.ctx, f1.order)
    requires
      var (after, entries) :=
          RegionRules.EvaluateIntrusion(slot.rule, slot.evaluator.intrusion, f1.dets, f1.ctx, f1.order);
      after == one && RegionRules.Raised(entries) != []
    requires SlotSorted(slot.(evaluator := IntrusionRule(one), lastEvent := f1.ctx.timestamp), f2.dets, f2.ctx,
                        f2.order)
    requires RegionRules.Raised(RegionRules.EvaluateIntrusion(slot.rule, one, f2.dets, f2.ctx, f2.order).1) != []
    ensures RunSorted(slot, [f1, f2]) && Execute(slot, [f1, f2]).fired == [f1.ctx.timestamp, f2.ctx.timestamp]
  {
    hide SlotSorted, RegionRules.EvaluateIntrusion, RegionRules.Raised, Judge, EvaluateSlot;
    var r0 := Run(slot, [], []);
    FireOnce(r0, f1);
    var r1 := Step(r0, f1);
    FireOnce(r1, f2);
    hide Step;
    var frames := [f1, f2];
    assert frames[..1] == [f1] && [f1][..0] == [];
    assert Execute(slot, []) == r0;
    assert Execute(slot, [f1]) == r1;
    assert Execute(slot, frames) == Step(r1, f2);
    assert RunSorted(slot, []) && RunSorted(slot, [f1]);
  }

  // ---------- what the evaluators see ----------

  /** The evaluator is given a subsequence of the frames. */
  lemma {:induction false} SeenIsSubsequence(slot: Slot, frames: seq<Frame>)
    ensures Subsequence(Execute(slot, frames).seen, frames)
    decreases |frames|
  {
    hide Subsequence, EvaluateSlot;
    if frames == [] {
      SubsequenceEmpty<Frame>(frames);
    } else {
      var n := |frames| - 1;
      var before := Execute(slot, frames[..n]);
      SeenIsSubsequence(slot, frames[..n]);
      SubsequenceRefl([frames[n]]);
      SubsequenceEmpty([frames[n]]);
      SubsequenceConcat(before.seen, frames[..n], [frames[n]], [frames[n]]);
      SubsequenceConcat(before.seen, frames[..n], [], [frames[n]]);
      assert before.seen + [] == before.seen;
      assert frames[..n] + [frames[n]] == frames;
    }
  }

  /** On every frame that is not skipped, the loitering evaluator's tracker sorts its pairs. */
  ghost predicate LoiteringSorted(slot: Slot, frames: seq<Frame>)
    decreases |frames|
  {
    frames != [] ==>
      var n := |frames| - 1;
      var r := Execute(slot, frames[..n]);
      && LoiteringSorted(slot, frames[..n])
      && (Cooling(r.slot, frames[n].ctx.timestamp)
          || (r.slot.evaluator.LoiteringRule?
              && RegionRules.Sorted(r.slot.rule, r.slot.evaluator.loitering.tracker.tracks, frames[n].dets,
                                    frames[n].order)))
  }

  /**
    * A loitering rule under the engine behaves as the evaluator alone on the frames that were not skipped, so
    * that its events keep all guarantees of such a run.
    */
  lemma {:induction false} LoiteringUnderEngine(slot: Slot, frames: seq<Frame>) returns (log: seq<RegionRules.Entry>)
    requires slot.evaluator == LoiteringRule(RegionRules.Loitering(FRESH, map[])) && LoiteringSorted(slot, frames)
    ensures
      var r := Execute(slot, frames);
      && r.slot.rule == slot.rule && r.slot.evaluator.LoiteringRule?
      && RegionRules.Reaches(slot.rule, r.seen, RegionRules.LoiterRun(r.slot.evaluator.loitering, log))
      && (forall k :: 0 <= k < |log| && log[k].alert ==> log[k].time in r.fired)
    decreases |frames|
  {
    log := [];
    if frames != [] {
      var n, f := |frames| - 1, frames[|frames| - 1];
      var before := Execute(slot, frames[..n]);
      log := LoiteringUnderEngine(slot, frames[..n]);
      if !Cooling(before.slot, f.ctx.timestamp) {
        var st := before.slot.evaluator.loitering;
        var run := RegionRules.LoiterRun(st, log);
        var next := RegionRules.StepLoitering(slot.rule, run, f);
        LoiteringStep(before.slot, f);
        hide RegionRules.EvaluateLoitering, RegionRules.Sorted, Judge;
        var longer := before.seen + [f];
        assert longer[..|longer| - 1] == before.seen;
        assert RegionRules.Reaches(slot.rule, longer, next);
        log := next.log;
      }
    }
  }

  /** One frame of a loitering rule: its entries raise an event of the slot exactly when one of them alerts. */
  lemma LoiteringStep(slot: Slot, f: Frame)
    requires slot.evaluator.LoiteringRule? && !Cooling(slot, f.ctx.timestamp)
    ensures
      var (after, entries) :=
          RegionRules.EvaluateLoitering(slot.rule, slot.evaluator.loitering, f.dets, f.ctx, f.order);
      var (next, events) := EvaluateSlot(slot, f);
      && next.evaluator == LoiteringRule(after) && next.rule == slot.rule
      && forall e :: e in entries && e.alert ==> events != [] && e.time == f.ctx.timestamp
  {
    var (after, entries) := RegionRules.EvaluateLoitering(slot.rule, slot.evaluator.loitering, f.dets, f.ctx, f.order);
    if |slot.rule.vertices| >= 3 {
      var st := slot.evaluator.loitering;
      LoiterTimes(slot.rule, f.ctx, Updated(TRACKING, st.tracker, Filtered(slot.rule, f.dets), f.order).tracks,
                  st.stays);
    }
    hide RegionRules.Raised, RegionRules.Scan;
  }

  /** The time of the last firing lies too close: it is positive and the cooldown has not passed. */
  predicate TooSoon(fired: seq<int>, cooldown: int, t: int) {
    fired != [] && fired[|fired| - 1] > 0 && t - fired[|fired| - 1] < cooldown
  }

  /** On every run the evaluator is given a frame exactly when the rule's last firing is not too close. */
  lemma SeenIff(slot: Slot, frames: seq<Frame>)
    requires frames != [] && slot.lastEvent == 0
    ensures
      var n := |frames| - 1;
      var r := Execute(slot, frames[..n]);
      Execute(slot, frames).seen == r.seen + (if TooSoon(r.fired, slot.cooldown, frames[n].ctx.timestamp) then []
                                              else [frames[n]])
  {
    var r := Execute(slot, frames[..|frames| - 1]);
    RunInvariant(slot, frames[..|frames| - 1]);
    StepSees(r, frames[|frames| - 1]);
    hide Step, Spaced;
  }

  lemma StepSees(r: Run, f: Frame)
    ensures Step(r, f).seen == r.seen + (if Cooling(r.slot, f.ctx.timestamp) then [] else [f])
  {
    hide EvaluateSlot;
    assert r.seen + [] == r.seen;
  }

  /** All events a rule raises on a run. */
  function RaisedBy(slot: Slot, frames: seq<Frame>): seq<RuleEvent>
    decreases |frames|
  {
    if frames == [] then []
    else
      var n := |frames| - 1;
      RaisedBy(slot, frames[..n]) + EvaluateSlot(Execute(slot, frames[..n]).slot, frames[n]).1
  }

  function LineFrames(frames: seq<Frame>): (r: seq<LineRules.Frame>)
    ensures |r| == |frames|
  {
    seq(|frames|, i requires 0 <= i < |frames| =>
      LineRules.Frame(frames[i].dets, frames[i].ctx.timestamp, frames[i].ctx.size, frames[i].order))
  }

  function CountedAll(events: seq<LineRules.CountEvent>): seq<RuleEvent> {
    seq(|events|, i requires 0 <= i < |events| => Counted(events[i]))
  }

  function CrossedAll(events: seq<LineRules.Crossing>): seq<RuleEvent> {
    seq(|events|, i requires 0 <= i < |events| => Crossed(events[i]))
  }

  /** Evaluators as they are built. */
  predicate IsNew(ev: Evaluator) {
    match ev
    case NoEvaluator => true
    case CountingRule(st) => st == LineRules.START.counting
    case CrossLineRule(st) => st == LineRules.START.crossLine
    case IntrusionRule(st) => st == RegionRules.Intrusion(FRESH, map[])
    case LoiteringRule(st) => st == RegionRules.Loitering(FRESH, map[])
  }

  /** State and events are those of the evaluator of this kind alone, run on these frames. */
  ghost predicate IsRunOf(kind: Evaluator, rule: Rule, seen: seq<Frame>, ev: Evaluator, events: seq<RuleEvent>) {
    match kind
    case NoEvaluator => ev.NoEvaluator? && events == []
    case CountingRule(_) =>
      ev.CountingRule? && exists r :: LineRules.Reaches(rule, LineFrames(seen), r)
                                      && r.counting == ev.counting && events == CountedAll(r.events)
    case CrossLineRule(_) =>
      ev.CrossLineRule? && exists r :: LineRules.Reaches(rule, LineFrames(seen), r)
                                       && r.crossLine == ev.crossLine && events == CrossedAll(r.reported)
    case IntrusionRule(_) =>
      ev.IntrusionRule? && exists log :: RegionRules.IntrusionReaches(rule, seen,
                                                                      RegionRules.IntrusionRun(ev.intrusion, log))
                                         && events == RegionEvents(RegionRules.Raised(log))
    case LoiteringRule(_) =>
      ev.LoiteringRule? && exists log :: RegionRules.Reaches(rule, seen, RegionRules.LoiterRun(ev.loitering, log))
                                         && events == RegionEvents(RegionRules.Raised(log))
  }

  lemma LineFramesSnoc(seen: seq<Frame>, f: Frame)
    ensures
      var longer := LineFrames(seen + [f]);
      var line := LineRules.Frame(f.dets, f.ctx.timestamp, f.ctx.size, f.order);
      longer[|seen|] == line && longer[..|seen|] == LineFrames(seen)
  {
  }

  /** One more frame for a line evaluator: both see the same tracks. */
  lemma LineRunOn(rule: Rule, seen: seq<Frame>, f: Frame, r: LineRules.Run)
    requires LineRules.Reaches(rule, LineFrames(seen), r)
    requires ValidOrder(TRACKING, r.counting.tracker.tracks, Filtered(rule, f.dets), f.order)
    ensures
      var line := LineRules.Frame(f.dets, f.ctx.timestamp, f.ctx.size, f.order);
      LineRules.Reaches(rule, LineFrames(seen + [f]), LineRules.Step(rule, r, line))
  {
    LineFramesSnoc(seen, f);
    hide LineRules.Step, ValidOrder;
  }

  lemma {:induction false} SameTracks(rule: Rule, frames: seq<LineRules.Frame>, r: LineRules.Run)
    requires LineRules.Reaches(rule, frames, r)
    ensures r.crossLine.tracker == r.counting.tracker
    decreases |frames|
  {
    if frames != [] {
      var f := frames[|frames| - 1];
      var before :| LineRules.Reaches(rule, frames[..|frames| - 1], before)
                    && ValidOrder(TRACKING, before.counting.tracker.tracks, Filtered(rule, f.dets), f.order)
                    && r == LineRules.Step(rule, before, f);
      SameTracks(rule, frames[..|frames| - 1], before);
      hide ValidOrder, Updated, LineRules.Scan, Filtered;
    }
  }

  lemma RaisedAppend(a: seq<RegionRules.Entry>, b: seq<RegionRules.Entry>)
    ensures RegionEvents(RegionRules.Raised(a + b)) ==
            RegionEvents(RegionRules.Raised(a)) + RegionEvents(RegionRules.Raised(b))
  {
    FilterAppend(a, b, (e: RegionRules.Entry) => e.alert);
    hide Filter;
  }

  lemma RegionRunOn(rule: Rule, seen: seq<Frame>, f: Frame, st: RegionRules.Loitering, log: seq<RegionRules.Entry>)
    requires RegionRules.Reaches(rule, seen, RegionRules.LoiterRun(st, log))
    requires RegionRules.Sorted(rule, st.tracker.tracks, f.dets, f.order)
    ensures
      var (after, entries) := RegionRules.EvaluateLoitering(rule, st, f.dets, f.ctx, f.order);
      RegionRules.Reaches(rule, seen + [f], RegionRules.LoiterRun(after, log + entries))
  {
    var longer := seen + [f];
    assert longer[..|longer| - 1] == seen;
    hide RegionRules.EvaluateLoitering, RegionRules.Sorted;
  }

  lemma IntrusionRunOn(rule: Rule, seen: seq<Frame>, f: Frame, st: RegionRules.Intrusion, log: seq<RegionRules.Entry>)
    requires RegionRules.IntrusionReaches(rule, seen, RegionRules.IntrusionRun(st, log))
    requires RegionRules.Sorted(rule, st.tracker.tracks, f.dets, f.order)
    ensures
      var (after, entries) := RegionRules.EvaluateIntrusion(rule, st, f.dets, f.ctx, f.order);
      RegionRules.IntrusionReaches(rule, seen + [f], RegionRules.IntrusionRun(after, log + entries))
  {
    var longer := seen + [f];
    assert longer[..|longer| - 1] == seen;
    hide RegionRules.EvaluateIntrusion, RegionRules.Sorted;
  }

  /** One frame that is not skipped adds one frame to the evaluator's own run. */
  lemma JudgeRunsOn(kind: Evaluator, rule: Rule, seen: seq<Frame>, ev: Evaluator, events: seq<RuleEvent>, f: Frame)
    requires IsRunOf(kind, rule, seen, ev, events)
    requires TrackerOf(ev).Some? ==>
               ValidOrder(TRACKING, TrackerOf(ev).value.tracks, Filtered(rule, f.dets), f.order)
    ensures var (after, more) := Judge(rule, ev, f); IsRunOf(kind, rule, seen + [f], after, events + more)
  {
    hide ValidOrder, Filtered, LineRules.EvaluateCounting, LineRules.EvaluateCrossLine;
    hide RegionRules.EvaluateIntrusion, RegionRules.EvaluateLoitering, RegionRules.Raised, RegionEvents;
    hide LineRules.Reaches, RegionRules.Reaches, RegionRules.IntrusionReaches, LineFrames;
    var line := LineRules.Frame(f.dets, f.ctx.timestamp, f.ctx.size, f.order);
    match kind
    case NoEvaluator =>
    case CountingRule(_) =>
      var r :| LineRules.Reaches(rule, LineFrames(seen), r)
               && r.counting == ev.counting && events == CountedAll(r.events);
      LineRunOn(rule, seen, f, r);
      var next := LineRules.Step(rule, r, line);
      assert events + Judge(rule, ev, f).1 == CountedAll(next.events);
    case CrossLineRule(_) =>
      var r :| LineRules.Reaches(rule, LineFrames(seen), r)
               && r.crossLine == ev.crossLine && events == CrossedAll(r.reported);
      SameTracks(rule, LineFrames(seen), r);
      LineRunOn(rule, seen, f, r);
      var next := LineRules.Step(rule, r, line);
      assert events + Judge(rule, ev, f).1 == CrossedAll(next.reported);
    case IntrusionRule(_) =>
      var log :| RegionRules.IntrusionReaches(rule, seen, RegionRules.IntrusionRun(ev.intrusion, log))
                 && events == RegionEvents(RegionRules.Raised(log));
      IntrusionRunOn(rule, seen, f, ev.intrusion, log);
      RaisedAppend(log, RegionRules.EvaluateIntrusion(rule, ev.intrusion, f.dets, f.ctx, f.order).1);
    case LoiteringRule(_) =>
      var log :| RegionRules.Reaches(rule, seen, RegionRules.LoiterRun(ev.loitering, log))
                 && events == RegionEvents(RegionRules.Raised(log));
      RegionRunOn(rule, seen, f, ev.loitering, log);
      RaisedAppend(log, RegionRules.EvaluateLoitering(rule, ev.loitering, f.dets, f.ctx, f.order).1);
  }

  lemma NewRun(ev: Evaluator, rule: Rule)
    requires IsNew(ev)
    ensures IsRunOf(ev, rule, [], ev, [])
  {
    match ev
    case NoEvaluator =>
    case CountingRule(_) =>
      assert LineRules.Reaches(rule, LineFrames([]), LineRules.START);
    case CrossLineRule(_) =>
      assert LineRules.Reaches(rule, LineFrames([]), LineRules.START);
    case IntrusionRule(st) =>
      assert RegionRules.IntrusionReaches(rule, [], RegionRules.IntrusionRun(st, []));
      RegionRules.NoneRaised();
    case LoiteringRule(st) =>
      assert RegionRules.Reaches(rule, [], RegionRules.LoiterRun(st, []));
      RegionRules.NoneRaised();
  }

  /**
    * Under the engine every rule, of whichever kind, has the state and raises the events of its evaluator alone, run on
    * the frames that were not skipped.
    */
  lemma {:induction false} EvaluatorUnderEngine(slot: Slot, frames: seq<Frame>)
    requires IsNew(slot.evaluator) && RunSorted(slot, frames)
    ensures
      var r := Execute(slot, frames);
      r.slot.rule == slot.rule
      && IsRunOf(slot.evaluator, slot.rule, r.seen, r.slot.evaluator, RaisedBy(slot, frames))
    decreases |frames|
  {
    hide IsRunOf, Judge, IsNew;
    if frames == [] {
      NewRun(slot.evaluator, slot.rule);
    } else {
      var n := |frames| - 1;
      var r := Execute(slot, frames[..n]);
      EvaluatorUnderEngine(slot, frames[..n]);
      var events := RaisedBy(slot, frames[..n]);
      if Cooling(r.slot, frames[n].ctx.timestamp) {
        assert events + [] == events;
      } else {
        JudgeRunsOn(slot.evaluator, slot.rule, r.seen, r.slot.evaluator, events, frames[n]);
        hide ValidOrder;
      }
    }
  }

  // ---------- the engine ----------

  function EvaluateAll(slots: seq<Slot>, dets: seq<Detection>, ctx: Context, orders: seq<seq<Pair>>)
    : (seq<Slot>, seq<RuleEvent>)
    requires |orders| == |slots|
    decreases |slots|
  {
    if slots == [] then ([], [])
    else
      var n := |slots| - 1;
      var (after, events) := EvaluateAll(slots[..n], dets, ctx, orders[..n]);
      var (slot, more) := EvaluateSlot(slots[n], RegionRules.Frame(dets, ctx, orders[n]));
      (after + [slot], events + more)
  }

  lemma NoSlots(slots: seq<Slot>, dets: seq<Detection>, ctx: Context)
    ensures EvaluateAll(slots[..0], dets, ctx, []) == ([], [])
  {
  }

  lemma EvaluateAllNext(slots: seq<Slot>, i: nat, dets: seq<Detection>, ctx: Context, orders: seq<seq<Pair>>,
                        order: seq<Pair>)
    requires i < |slots| && |orders| == i
    ensures
      var (after, events) := EvaluateAll(slots[..i], dets, ctx, orders);
      var (slot, more) := EvaluateSlot(slots[i], RegionRules.Frame(dets, ctx, order));
      EvaluateAll(slots[..i + 1], dets, ctx, orders + [order]) == (after + [slot], events + more)
  {
    hide EvaluateSlot;
    assert slots[..i + 1][..i] == slots[..i] && (orders + [order])[..i] == orders;
  }

  /** What each slot makes of the frame on its own. */
  function EvaluateEach(slots: seq<Slot>, dets: seq<Detection>, ctx: Context, orders: seq<seq<Pair>>)
    : (r: seq<(Slot, seq<RuleEvent>)>)
    requires |orders| == |slots|
    ensures |r| == |slots|
  {
    seq(|slots|, k requires 0 <= k < |slots| => EvaluateSlot(slots[k], RegionRules.Frame(dets, ctx, orders[k])))
  }

  /** Rules of a channel do not influence each other: each slot's state is its own, events are concatenated in order. */
  lemma {:induction false} SlotsIndependent(slots: seq<Slot>, dets: seq<Detection>, ctx: Context,
                                            orders: seq<seq<Pair>>)
    requires |orders| == |slots|
    ensures
      var (after, events) := EvaluateAll(slots, dets, ctx, orders);
      var each := EvaluateEach(slots, dets, ctx, orders);
      && |after| == |slots| && (forall k :: 0 <= k < |slots| ==> after[k] == each[k].0)
      && events == Flatten(seq(|slots|, k requires 0 <= k < |slots| => each[k].1))
    decreases |slots|
  {
    hide EvaluateSlot;
    if slots != [] {
      var n := |slots| - 1;
      SlotsIndependent(slots[..n], dets, ctx, orders[..n]);
      var each, before := EvaluateEach(slots, dets, ctx, orders), EvaluateEach(slots[..n], dets, ctx, orders[..n]);
      var lists := seq(n, k requires 0 <= k < n => before[k].1);
      FlattenSnoc(lists, each[n].1);
      assert seq(n + 1, k requires 0 <= k < n + 1 => each[k].1) == lists + [each[n].1];
    }
  }

  class RuleEngine {
    var evaluators: map<int, seq<Slot>>

    constructor (slots: map<int, seq<Slot>>)
      ensures evaluators == slots
    {
      evaluators := slots;
    }

    /** Evaluates one rule, sorting with the tracker's own sort. */
    method EvaluateOne(slot: Slot, dets: seq<Detection>, ctx: Context)
      returns (after: Slot, events: seq<RuleEvent>)
      ensures exists order ::
                && SlotSorted(slot, dets, ctx, order)
                && (after, events) == EvaluateSlot(slot, RegionRules.Frame(dets, ctx, order))
    {
      hide Judge, ValidOrder, Filtered;
      after, events := slot, [];
      if slot.lastEvent > 0 && ctx.timestamp - slot.lastEvent < slot.cooldown {
        assert SlotSorted(slot, dets, ctx, []);
        return;
      }
      var sorted: seq<Pair> := [];
      var tracker := TrackerOf(slot.evaluator);
      if tracker.Some? {
        var filtered := FilterDetections(slot.rule, dets);
        sorted := SortedPairs(TRACKING, tracker.value.tracks, filtered);
      }
      assert SlotSorted(slot, dets, ctx, sorted);
      var (ev, found) := Judge(slot.rule, slot.evaluator, RegionRules.Frame(dets, ctx, sorted));
      after := after.(evaluator := ev);
      for i := 0 to |found|
        invariant events == found[..i]
        invariant after == slot.(evaluator := ev, lastEvent := if i == 0 then slot.lastEvent else TimeOf(found[i - 1]))
      {
        after := after.(lastEvent := TimeOf(found[i]));
        events := events + [found[i]];
      }
      assert found[..|found|] == found;
    }

    method Evaluate(channel: int, dets: seq<Detection>, ctx: Context)
      returns (events: seq<RuleEvent>, ghost orders: seq<seq<Pair>>)
      modifies this
      ensures channel !in old(evaluators) ==> evaluators == old(evaluators) && events == []
      ensures channel in old(evaluators) ==>
                var slots := old(evaluators)[channel];
                && |orders| == |slots| && (forall k :: 0 <= k < |slots| ==> SlotSorted(slots[k], dets, ctx, orders[k]))
                && evaluators == old(evaluators)[channel := EvaluateAll(slots, dets, ctx, orders).0]
                && events == EvaluateAll(slots, dets, ctx, orders).1
    {
      events, orders := [], [];
      if channel !in evaluators {
        return;
      }
      hide EvaluateSlot, SlotSorted, EvaluateAll;
      var slots := evaluators[channel];
      var done: seq<Slot> := [];
      NoSlots(slots, dets, ctx);
      for i := 0 to |slots|
        invariant evaluators == old(evaluators)
        invariant |orders| == i && (forall k :: 0 <= k < i ==> SlotSorted(slots[k], dets, ctx, orders[k]))
        invariant (done, events) == EvaluateAll(slots[..i], dets, ctx, orders)
      {
        var slot, more;
        slot, more := EvaluateOne(slots[i], dets, ctx);
        ghost var order :|
          && SlotSorted(slots[i], dets, ctx, order)
          && (slot, more) == EvaluateSlot(slots[i], RegionRules.Frame(dets, ctx, order));
        EvaluateAllNext(slots, i, dets, ctx, orders, order);
        done, events, orders := done + [slot], events + more, orders + [order];
      }
      assert slots[..|slots|] == slots;
      evaluators := evaluators[channel := done];
    }
  }
}
