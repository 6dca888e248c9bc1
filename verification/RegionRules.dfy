/**
  * The evaluators for polygonal regions (src/rules/evaluators/loitering_evaluator.cc and
  * region_intrusion_evaluator.cc), explained by the history of sightings alone.
  */
module RegionRules {
  import Bytes
  import opened Detections
  import opened Options
  import opened Sequences
  import opened Polygon
  import opened IouTracker
  import opened Rules
  import Tracking = IouTracker

  /** What the loitering evaluator remembers of a track. */
  datatype Stay = Stay(inside: bool, entered: int, alerted: bool, lastAlert: int)
  type Stays = map<int, Stay>

  /** A track looked at on a frame: where it was, and whether an event was raised for it. */
  datatype Entry = Entry(id: int, det: Detection, inside: bool, time: int, alert: bool, dwell: int)

  const NOWHERE := Stay(false, 0, false, 0)

  // ---------- one frame ----------

  /** Whether a track is inside the region; None for tracks that are skipped. */
  function Where(rule: Rule, size: Size, track: Track): Option<bool> {
    if !track.active || track.trajectory == [] then None
    else Some(Inside(Normalize(track.trajectory[|track.trajectory| - 1], size.width, size.height), rule.vertices))
  }

  function StayOf(stays: Stays, id: int): Stay {
    if id in stays then stays[id] else NOWHERE
  }

  /** Milliseconds to seconds, rounding toward zero. */
  function Seconds(ms: int): int {
    Bytes.TruncDiv(ms, 1000)
  }

  /** So many whole seconds, on the side of zero. */
  predicate IsSeconds(ms: int, s: int) {
    if ms >= 0 then s * 1000 <= ms < (s + 1) * 1000 else (s - 1) * 1000 < ms <= s * 1000
  }

  /** A track seen inside begins a stay unless one is going on. */
  function Arrived(stay: Stay, t: int): Stay {
    if stay.inside then stay else Stay(true, t, false, stay.lastAlert)
  }

  predicate Alerts(rule: Rule, stay: Stay, t: int) {
    && t - stay.entered >= rule.loiterSeconds * 1000
    && (!stay.alerted || (rule.cooldownSeconds * 1000 > 0 && t - stay.lastAlert >= rule.cooldownSeconds * 1000))
  }

  function Look(rule: Rule, stay: Stay, inside: bool, t: int): Stay {
    if inside then
      var here := Arrived(stay, t);
      if Alerts(rule, here, t) then here.(alerted := true, lastAlert := t) else here
    else if stay.inside then Stay(false, 0, false, stay.lastAlert)
    else stay
  }

  function Report(rule: Rule, stay: Stay, track: Track, inside: bool, t: int): (e: Entry)
    ensures e.id == track.id && e.inside == inside && e.time == t
  {
    var here := Arrived(stay, t);
    var alert := inside && Alerts(rule, here, t);
    Entry(track.id, track.last, inside, t, alert, if alert then Seconds(t - here.entered) else 0)
  }

  function Scan(rule: Rule, ctx: Context, tracks: seq<Track>, stays: Stays): (Stays, seq<Entry>) {
    if tracks == [] then (stays, [])
    else
      var (m, log) := Scan(rule, ctx, tracks[..|tracks| - 1], stays);
      var track := tracks[|tracks| - 1];
      match Where(rule, ctx.size, track)
      case None => (m, log)
      case Some(inside) =>
        var stay := StayOf(m, track.id);
        (m[track.id := Look(rule, stay, inside, ctx.timestamp)],
         log + [Report(rule, stay, track, inside, ctx.timestamp)])
  }

  /** The events among the entries. */
  function Raised(log: seq<Entry>): (r: seq<Entry>)
    ensures forall e :: e in r <==> e in log && e.alert
  {
    Filter(log, (e: Entry) => e.alert)
  }

  lemma NoneRaised()
    ensures Raised([]) == []
  {
  }

  lemma RaisedSnoc(log: seq<Entry>, e: Entry)
    ensures Raised(log + [e]) == if e.alert then Raised(log) + [e] else Raised(log)
  {
    FilterSnoc(log, e, (e: Entry) => e.alert);
    assert Raised(log) + [] == Raised(log);
  }

  datatype Loitering = Loitering(tracker: Tracker, stays: Stays)

  /** New state and all entries of the frame; the events are the raised ones. */
  function EvaluateLoitering(rule: Rule, st: Loitering, dets: seq<Detection>, ctx: Context, order: seq<Pair>)
    : (Loitering, seq<Entry>)
  {
    if |rule.vertices| < 3 then (st, [])
    else
      var tracker := Updated(TRACKING, st.tracker, Filtered(rule, dets), order);
      var (m, log) := Scan(rule, ctx, tracker.tracks, st.stays);
      (Loitering(tracker, Prune(m, tracker.tracks)), log)
  }

  /** The intrusion evaluator's pass: an event for a track seen inside and not inside when last seen. */
  function ScanIntrusion(rule: Rule, ctx: Context, tracks: seq<Track>, was: map<int, bool>)
    : (map<int, bool>, seq<Entry>)
  {
    if tracks == [] then (was, [])
    else
      var (m, log) := ScanIntrusion(rule, ctx, tracks[..|tracks| - 1], was);
      var track := tracks[|tracks| - 1];
      match Where(rule, ctx.size, track)
      case None => (m, log)
      case Some(inside) =>
        (m[track.id := inside],
         log + [Entry(track.id, track.last, inside, ctx.timestamp, inside && !(track.id in m && m[track.id]), 0)])
  }

  datatype Intrusion = Intrusion(tracker: Tracker, was: map<int, bool>)

  function EvaluateIntrusion(rule: Rule, st: Intrusion, dets: seq<Detection>, ctx: Context, order: seq<Pair>)
    : (Intrusion, seq<Entry>)
  {
    if |rule.vertices| < 3 then (st, [])
    else
      var tracker := Updated(TRACKING, st.tracker, Filtered(rule, dets), order);
      var (m, log) := ScanIntrusion(rule, ctx, tracker.tracks, st.was);
      (Intrusion(tracker, Prune(m, tracker.tracks)), log)
  }

  // ---------- the reference: stays read off the history ----------

  /** Where the stay of `id` that is going on after `log` began. */
  function StayStart(log: seq<Entry>, id: int): (s: Option<nat>)
    ensures s.Some? ==> s.value < |log| && log[s.value].id == id
  {
    if log == [] then None
    else
      var n := |log| - 1;
      var before := StayStart(log[..n], id);
      if log[n].id != id then before
      else if !log[n].inside then None
      else if before.None? then Some(n)
      else before
  }

  /** The last event raised during the stay of `id` that is going on after `log`. */
  function StayAlert(log: seq<Entry>, id: int): (s: Option<nat>)
    ensures s.Some? ==> s.value < |log| && log[s.value].id == id && log[s.value].alert
  {
    if log == [] then None
    else
      var n := |log| - 1;
      if log[n].id != id then StayAlert(log[..n], id)
      else if !log[n].inside then None
      else if log[n].alert then Some(n)
      else StayAlert(log[..n], id)
  }

  function DwellAt(before: seq<Entry>, e: Entry): int {
    match StayStart(before, e.id)
    case None => 0
    case Some(s) => e.time - before[s].time
  }

  /** When an event is due, by the history before it. */
  predicate Due(rule: Rule, before: seq<Entry>, e: Entry) {
    && e.inside
    && DwellAt(before, e) >= rule.loiterSeconds * 1000
    && match StayAlert(before, e.id)
       case None => true
       case Some(a) => rule.cooldownSeconds * 1000 > 0 && e.time - before[a].time >= rule.cooldownSeconds * 1000
  }

  ghost predicate ExplainedAt(rule: Rule, before: seq<Entry>, e: Entry) {
    && (e.alert <==> Due(rule, before, e))
    && (e.alert ==> e.dwell == Seconds(DwellAt(before, e)))
  }

  ghost predicate Explained(rule: Rule, log: seq<Entry>) {
    forall k :: 0 <= k < |log| ==> ExplainedAt(rule, log[..k], log[k])
  }

  /** The remembered state of a track is what its history says. */
  ghost predicate Remembers(stay: Stay, log: seq<Entry>, id: int) {
    var start, alert := StayStart(log, id), StayAlert(log, id);
    && (stay.inside <==> start.Some?) && (stay.alerted <==> alert.Some?)
    && (start.Some? ==> stay.entered == log[start.value].time)
    && (alert.Some? ==> start.Some? && stay.lastAlert == log[alert.value].time)
  }

  ghost predicate AllRemembered(stays: Stays, log: seq<Entry>) {
    forall id :: Remembers(StayOf(stays, id), log, id)
  }

  lemma StaySnoc(log: seq<Entry>, e: Entry, id: int)
    ensures StayStart(log + [e], id) ==
            (if e.id != id then StayStart(log, id) else if !e.inside then None
             else if StayStart(log, id).None? then Some(|log|) else StayStart(log, id))
    ensures StayAlert(log + [e], id) ==
            (if e.id != id then StayAlert(log, id) else if !e.inside then None
             else if e.alert then Some(|log|) else StayAlert(log, id))
  {
    assert (log + [e])[..|log|] == log;
  }

  lemma ExplainedSnoc(rule: Rule, log: seq<Entry>, e: Entry)
    requires Explained(rule, log) && ExplainedAt(rule, log, e)
    ensures Explained(rule, log + [e])
  {
    hide ExplainedAt;
    var longer := log + [e];
    forall k | 0 <= k < |longer| ensures ExplainedAt(rule, longer[..k], longer[k]) {
      if k < |log| {
        assert longer[..k] == log[..k];
      } else {
        assert longer[..k] == log;
      }
    }
  }

  /** One look keeps state and history in step, and raises an event exactly when one is due. */
  lemma LookRemembers(rule: Rule, stay: Stay, log: seq<Entry>, track: Track, inside: bool, t: int)
    requires Remembers(stay, log, track.id)
    ensures
      var e := Report(rule, stay, track, inside, t);
      ExplainedAt(rule, log, e) && Remembers(Look(rule, stay, inside, t), log + [e], track.id)
  {
    StaySnoc(log, Report(rule, stay, track, inside, t), track.id);
    hide StayStart, StayAlert;
  }

  lemma OthersRemember(stay: Stay, log: seq<Entry>, e: Entry, id: int)
    requires Remembers(stay, log, id) && e.id != id
    ensures Remembers(stay, log + [e], id)
  {
    StaySnoc(log, e, id);
    hide StayStart, StayAlert;
  }

  lemma {:induction false} ScanRemembers(rule: Rule, ctx: Context, tracks: seq<Track>, stays: Stays, log: seq<Entry>)
    requires AllRemembered(stays, log) && Explained(rule, log)
    ensures var (m, entries) := Scan(rule, ctx, tracks, stays);
            AllRemembered(m, log + entries) && Explained(rule, log + entries)
    decreases |tracks|
  {
    hide Remembers, Explained, Look, Report, Where;
    if tracks == [] {
      assert log + [] == log;
    } else {
      var init, track := tracks[..|tracks| - 1], tracks[|tracks| - 1];
      ScanRemembers(rule, ctx, init, stays, log);
      var (m, entries) := Scan(rule, ctx, init, stays);
      var place := Where(rule, ctx.size, track);
      if place.Some? {
        var stay := StayOf(m, track.id);
        var e := Report(rule, stay, track, place.value, ctx.timestamp);
        assert log + (entries + [e]) == (log + entries) + [e];
        assert Remembers(stay, log + entries, track.id);
        LookRemembers(rule, stay, log + entries, track, place.value, ctx.timestamp);
        ExplainedSnoc(rule, log + entries, e);
        var after := m[track.id := Look(rule, stay, place.value, ctx.timestamp)];
        forall id ensures Remembers(StayOf(after, id), (log + entries) + [e], id) {
          if id != track.id {
            assert StayOf(after, id) == StayOf(m, id);
            OthersRemember(StayOf(m, id), log + entries, e, id);
          }
        }
      }
    }
  }

  /** Pruning drops nothing: the tracker's limit keeps every track. */
  lemma PruneIsIdle(st: Tracker, dets: seq<Detection>, order: seq<Pair>, before: set<int>, after: set<int>)
    requires Invariant(TRACKING, st) && ValidOrder(TRACKING, st.tracks, dets, order)
    requires forall id :: id in before ==> HasTrack(st.tracks, id)
    requires forall id :: id in after ==> id in before || HasTrack(Updated(TRACKING, st, dets, order).tracks, id)
    ensures forall id :: id in after ==> HasTrack(Updated(TRACKING, st, dets, order).tracks, id)
  {
    hide Updated, ValidOrder, HasTrack, Invariant;
    forall id | id in after ensures HasTrack(Updated(TRACKING, st, dets, order).tracks, id) {
      if id in before {
        TracksStay(st, dets, order, id);
      }
    }
  }

  lemma {:induction false} ScanKeys(rule: Rule, ctx: Context, tracks: seq<Track>, stays: Stays)
    ensures forall id :: id in Scan(rule, ctx, tracks, stays).0 ==> id in stays || HasTrack(tracks, id)
  {
    hide Where, Look, Report;
    if tracks != [] {
      ScanKeys(rule, ctx, tracks[..|tracks| - 1], stays);
      HasTrackSnoc(tracks);
    }
  }

  lemma {:induction false} ScanIntrusionKeys(rule: Rule, ctx: Context, tracks: seq<Track>, was: map<int, bool>)
    ensures forall id :: id in ScanIntrusion(rule, ctx, tracks, was).0 ==> id in was || HasTrack(tracks, id)
  {
    hide Where;
    if tracks != [] {
      ScanIntrusionKeys(rule, ctx, tracks[..|tracks| - 1], was);
      HasTrackSnoc(tracks);
    }
  }

  lemma HasTrackSnoc(tracks: seq<Track>)
    requires tracks != []
    ensures HasTrack(tracks, tracks[|tracks| - 1].id)
    ensures forall id :: HasTrack(tracks[..|tracks| - 1], id) ==> HasTrack(tracks, id)
  {
    var init := tracks[..|tracks| - 1];
    forall id | HasTrack(init, id) ensures HasTrack(tracks, id) {
      var i :| 0 <= i < |init| && init[i].id == id;
      assert tracks[i].id == id;
    }
  }

  // ---------- runs ----------

  /** The order in which the tracker sorts its pairs; without a region the tracker is not called. */
  ghost predicate Sorted(rule: Rule, tracks: seq<Track>, dets: seq<Detection>, order: seq<Pair>) {
    |rule.vertices| >= 3 ==> ValidOrder(TRACKING, tracks, Filtered(rule, dets), order)
  }

  datatype Frame = Frame(dets: seq<Detection>, ctx: Context, order: seq<Pair>)
  datatype LoiterRun = LoiterRun(state: Loitering, log: seq<Entry>)

  function StepLoitering(rule: Rule, r: LoiterRun, f: Frame): LoiterRun {
    var (state, entries) := EvaluateLoitering(rule, r.state, f.dets, f.ctx, f.order);
    LoiterRun(state, r.log + entries)
  }

  /** Runs of frames of any size and time, in any order of time. */
  ghost predicate Reaches(rule: Rule, frames: seq<Frame>, r: LoiterRun)
    decreases |frames|
  {
    if frames == [] then r == LoiterRun(Loitering(FRESH, map[]), [])
    else
      var f := frames[|frames| - 1];
      exists before ::
        && Reaches(rule, frames[..|frames| - 1], before)
        && Sorted(rule, before.state.tracker.tracks, f.dets, f.order)
        && r == StepLoitering(rule, before, f)
  }

  ghost predicate LoiterInvariant(rule: Rule, r: LoiterRun) {
    && Invariant(TRACKING, r.state.tracker)
    && (forall id :: id in r.state.stays.Keys ==> HasTrack(r.state.tracker.tracks, id))
    && AllRemembered(r.state.stays, r.log) && Explained(rule, r.log)
  }

  lemma StepKeepsInvariant(rule: Rule, r: LoiterRun, f: Frame)
    requires LoiterInvariant(rule, r)
    requires Sorted(rule, r.state.tracker.tracks, f.dets, f.order)
    ensures LoiterInvariant(rule, StepLoitering(rule, r, f))
  {
    hide Invariant, ValidOrder, Updated, Filtered, HasTrack, Remembers, Explained, Scan;
    if |rule.vertices| < 3 {
      assert r.log + [] == r.log;
    } else {
      var st, dets := r.state.tracker, Filtered(rule, f.dets);
      UpdateKeepsInvariant(TRACKING, st, dets, f.order);
      var tracks := Updated(TRACKING, st, dets, f.order).tracks;
      ScanRemembers(rule, f.ctx, tracks, r.state.stays, r.log);
      ScanKeys(rule, f.ctx, tracks, r.state.stays);
      var m := Scan(rule, f.ctx, tracks, r.state.stays).0;
      PruneIsIdle(st, dets, f.order, r.state.stays.Keys, m.Keys);
      PruneKeepsAll(m, tracks);
    }
  }

  /** On every run, an event is raised at exactly the entries at which the history says one is due. */
  lemma {:induction false} EventsExactlyWhenDue(rule: Rule, frames: seq<Frame>, r: LoiterRun)
    requires Reaches(rule, frames, r)
    ensures LoiterInvariant(rule, r)
    decreases |frames|
  {
    hide LoiterInvariant, StepLoitering, Sorted;
    if frames == [] {
      InitialInvariant(rule);
    } else {
      var f := frames[|frames| - 1];
      var before :|
        && Reaches(rule, frames[..|frames| - 1], before)
        && Sorted(rule, before.state.tracker.tracks, f.dets, f.order)
        && r == StepLoitering(rule, before, f);
      EventsExactlyWhenDue(rule, frames[..|frames| - 1], before);
      StepKeepsInvariant(rule, before, f);
    }
  }

  lemma InitialInvariant(rule: Rule)
    ensures LoiterInvariant(rule, LoiterRun(Loitering(FRESH, map[]), []))
  {
  }

  // ---------- where tracks are looked at ----------

  /** Tracks with a last detection where their trajectory ends. */
  ghost predicate Sound(tracks: seq<Track>) {
    forall i :: 0 <= i < |tracks| ==> TrackOk(TRACKING, tracks[i])
  }

  function ActiveOf(tracks: seq<Track>): seq<Track> {
    Filter(tracks, (track: Track) => track.active)
  }

  /** One entry for each of these tracks, in order, inside if the middle of its last detection is in the region. */
  ghost predicate Placed(rule: Rule, ctx: Context, tracks: seq<Track>, log: seq<Entry>) {
    && |log| == |tracks|
    && forall k :: 0 <= k < |log| ==>
         && log[k].id == tracks[k].id && log[k].det == tracks[k].last && log[k].time == ctx.timestamp
         && (log[k].inside <==>
             Inside(Normalize(Center(tracks[k].last), ctx.size.width, ctx.size.height), rule.vertices))
  }

  lemma PlacedSnoc(rule: Rule, ctx: Context, tracks: seq<Track>, log: seq<Entry>, track: Track, e: Entry)
    requires Placed(rule, ctx, tracks, log) && e.id == track.id && e.det == track.last && e.time == ctx.timestamp
    requires track.active && TrackOk(TRACKING, track) && Where(rule, ctx.size, track) == Some(e.inside)
    ensures Placed(rule, ctx, tracks + [track], log + [e])
  {
    hide Inside, Normalize, Center;
  }

  lemma {:induction false} ScanPlaces(rule: Rule, ctx: Context, tracks: seq<Track>, stays: Stays, was: map<int, bool>)
    requires Sound(tracks)
    ensures Placed(rule, ctx, ActiveOf(tracks), Scan(rule, ctx, tracks, stays).1)
    ensures Placed(rule, ctx, ActiveOf(tracks), ScanIntrusion(rule, ctx, tracks, was).1)
    decreases |tracks|
  {
    if tracks != [] {
      var init, track := tracks[..|tracks| - 1], tracks[|tracks| - 1];
      assert Sound(init);
      ScanPlaces(rule, ctx, init, stays, was);
      FilterSnoc(init, track, (track: Track) => track.active);
      assert tracks == init + [track];
      assert track.active <==> Where(rule, ctx.size, track).Some?;
      hide Placed, Filter, Where, TrackOk, Look;
      if track.active {
        var place := Where(rule, ctx.size, track).value;
        var (m, log) := Scan(rule, ctx, init, stays);
        PlacedSnoc(rule, ctx, ActiveOf(init), log, track,
                   Report(rule, StayOf(m, track.id), track, place, ctx.timestamp));
        var (w, entries) := ScanIntrusion(rule, ctx, init, was);
        PlacedSnoc(rule, ctx, ActiveOf(init), entries, track,
                   Entry(track.id, track.last, place, ctx.timestamp, place && !(track.id in w && w[track.id]), 0));
      } else {
        assert ActiveOf(init) + [] == ActiveOf(init);
      }
    }
  }

  /** On every frame both evaluators look at each active track once, where its last detection was. */
  lemma EveryActiveTrackPlaced(rule: Rule, st: Loitering, q: Intrusion, dets: seq<Detection>, ctx: Context,
                               order: seq<Pair>)
    requires |rule.vertices| >= 3 && q.tracker == st.tracker && Invariant(TRACKING, st.tracker)
    requires ValidOrder(TRACKING, st.tracker.tracks, Filtered(rule, dets), order)
    ensures
      var (after, log) := EvaluateLoitering(rule, st, dets, ctx, order);
      Placed(rule, ctx, ActiveOf(after.tracker.tracks), log)
    ensures
      var (after, log) := EvaluateIntrusion(rule, q, dets, ctx, order);
      Placed(rule, ctx, ActiveOf(after.tracker.tracks), log)
  {
    UpdateKeepsInvariant(TRACKING, st.tracker, Filtered(rule, dets), order);
    var tracks := Updated(TRACKING, st.tracker, Filtered(rule, dets), order).tracks;
    assert Sound(tracks);
    hide Updated, Filtered, ValidOrder, Placed, Scan, ScanIntrusion, TrackOk;
    ScanPlaces(rule, ctx, tracks, st.stays, q.was);
  }

  // ---------- what the reference means ----------

  /** Every sighting of `id` from `a` up to `b` is inside. */
  ghost predicate InsideThroughout(log: seq<Entry>, id: int, a: nat, b: nat)
    requires b <= |log|
  {
    forall k :: a <= k < b && log[k].id == id ==> log[k].inside
  }

  /** The sighting of `id` before position `a`, if any, is outside. */
  ghost predicate OutsideBefore(log: seq<Entry>, id: int, a: nat)
    requires a <= |log|
  {
    forall k :: 0 <= k < a && log[k].id == id && log[k].inside ==> exists m :: k < m < a && log[m].id == id
  }

  lemma {:induction false} StayStartMeans(log: seq<Entry>, id: int)
    ensures
      match StayStart(log, id)
      case Some(s) => log[s].inside && InsideThroughout(log, id, s, |log|) && OutsideBefore(log, id, s)
      case None => OutsideBefore(log, id, |log|)
  {
    if log != [] {
      var n := |log| - 1;
      StayStartMeans(log[..n], id);
      assert log[..n] + [log[n]] == log;
    }
  }

  lemma {:induction false} StayAlertMeans(log: seq<Entry>, id: int)
    ensures
      match StayAlert(log, id)
      case Some(a) =>
        InsideThroughout(log, id, a, |log|) && forall k :: a < k < |log| && log[k].id == id ==> !log[k].alert
      case None => forall k :: 0 <= k < |log| && log[k].id == id && log[k].alert ==>
                     !InsideThroughout(log, id, k, |log|)
  {
    if log != [] {
      var n := |log| - 1;
      StayAlertMeans(log[..n], id);
      assert log[..n] + [log[n]] == log;
    }
  }

  /**
    * An event's track entered the region at `s`, was inside at every sighting since, and had been there for the
    * threshold and for the dwell time the event carries.
    */
  lemma LoiteringEvent(rule: Rule, log: seq<Entry>, k: nat) returns (s: nat)
    requires Explained(rule, log) && k < |log| && log[k].alert
    ensures s <= k && log[s].id == log[k].id && OutsideBefore(log, log[k].id, s)
    ensures InsideThroughout(log, log[k].id, s, k + 1) && log[k].time - log[s].time >= rule.loiterSeconds * 1000
    ensures IsSeconds(log[k].time - log[s].time, log[k].dwell)
  {
    var before, id := log[..k], log[k].id;
    assert ExplainedAt(rule, before, log[k]);
    assert log[k].inside;
    StayStartMeans(before, id);
    PrefixViews(log, k, id);
    hide StayStart, StayAlert, OutsideBefore, InsideThroughout, Explained;
    match StayStart(before, id)
    case None =>
      s := k;
      InsideLonger(log, id, k, k);
    case Some(start) =>
      s := start;
      InsideLonger(log, id, start, k);
  }

  lemma InsideLonger(log: seq<Entry>, id: int, a: nat, b: nat)
    requires a <= b < |log| && log[b].inside && (a < b ==> InsideThroughout(log, id, a, b))
    ensures InsideThroughout(log, id, a, b + 1)
  {
  }

  /** Two events of one stay are at least the cooldown apart; without a cooldown there is only one. */
  lemma {:induction false} EventsOfStayApart(rule: Rule, log: seq<Entry>, i: nat, j: nat)
    requires Explained(rule, log) && i < j < |log| && log[i].alert && log[j].alert && log[i].id == log[j].id
    requires InsideThroughout(log, log[j].id, i, j + 1)
    ensures rule.cooldownSeconds > 0 && log[j].time - log[i].time >= rule.cooldownSeconds * 1000
    decreases j
  {
    var before, id := log[..j], log[j].id;
    assert ExplainedAt(rule, before, log[j]);
    StayAlertMeans(before, id);
    hide StayStart, StayAlert;
    assert before[i] == log[i] && InsideThroughout(before, id, i, j);
    var a := StayAlert(before, id);
    if a.Some? && a.value != i {
      assert before[a.value] == log[a.value];
      EventsOfStayApart(rule, log, i, a.value);
    }
  }

  /** A stay does not run across a position before which the track was outside. */
  lemma {:induction false} StayBroken(log: seq<Entry>, id: int, a: nat, b: nat)
    requires a < b <= |log| && log[a].id == id && OutsideBefore(log, id, b)
    ensures !InsideThroughout(log, id, a, b)
    decreases b - a
  {
    if log[a].inside {
      var m :| a < m < b && log[m].id == id;
      StayBroken(log, id, m, b);
    }
  }

  lemma PrefixViews(log: seq<Entry>, k: nat, id: int)
    requires k <= |log|
    ensures forall a: nat, b: nat :: b <= k ==> InsideThroughout(log[..k], id, a, b) == InsideThroughout(log, id, a, b)
    ensures forall a: nat :: a <= k ==> OutsideBefore(log[..k], id, a) == OutsideBefore(log, id, a)
  {
    forall a: nat | a <= k ensures OutsideBefore(log[..k], id, a) == OutsideBefore(log, id, a) {
      assert forall m :: 0 <= m < a ==> log[..k][m] == log[m];
    }
  }

  /** The history finds the beginning of the stay a track is in. */
  lemma StartFound(log: seq<Entry>, id: int, s: nat, k: nat)
    requires s < k <= |log| && log[s].id == id && OutsideBefore(log, id, s) && InsideThroughout(log, id, s, k)
    ensures StayStart(log[..k], id) == Some(s)
  {
    StayStartMeans(log[..k], id);
    PrefixViews(log, k, id);
    hide StayStart, OutsideBefore, InsideThroughout;
    match StayStart(log[..k], id)
    case None => StayBroken(log, id, s, k);
    case Some(x) =>
      assert log[x].id == id;
      if x < s {
        InsideShorter(log, id, x, s, k);
        StayBroken(log, id, x, s);
      } else if s < x {
        InsideShorter(log, id, s, x, k);
        StayBroken(log, id, s, x);
      }
  }

  lemma InsideShorter(log: seq<Entry>, id: int, a: nat, b: nat, c: nat)
    requires b <= c <= |log| && InsideThroughout(log, id, a, c)
    ensures InsideThroughout(log, id, a, b)
  {
  }

  /** A track that stays for the threshold is reported, then or earlier in the same stay. */
  lemma LoitererIsReported(rule: Rule, log: seq<Entry>, s: nat, k: nat) returns (a: nat)
    requires Explained(rule, log) && s <= k < |log| && log[s].id == log[k].id
    requires OutsideBefore(log, log[k].id, s) && InsideThroughout(log, log[k].id, s, k + 1)
    requires log[k].time - log[s].time >= rule.loiterSeconds * 1000
    ensures s <= a <= k && log[a].id == log[k].id && log[a].alert
  {
    var before, id := log[..k], log[k].id;
    assert ExplainedAt(rule, before, log[k]) && log[k].inside;
    InsideShorter(log, id, s, k, k + 1);
    StayAlertMeans(before, id);
    PrefixViews(log, k, id);
    hide StayStart, StayAlert, OutsideBefore, InsideThroughout, Explained;
    var last := StayAlert(before, id);
    if last.Some? {
      a := last.value;
      assert before[a] == log[a];
      if a < s {
        InsideShorter(log, id, a, s, k);
        StayBroken(log, id, a, s);
      }
    } else {
      a := k;
      if s < k {
        StartFound(log, id, s, k);
      } else {
        StayStartHere(log, id, k);
      }
    }
  }

  lemma StayStartHere(log: seq<Entry>, id: int, k: nat)
    requires k <= |log| && OutsideBefore(log, id, k)
    ensures StayStart(log[..k], id) == None
  {
    StayStartMeans(log[..k], id);
    PrefixViews(log, k, id);
    hide StayStart, OutsideBefore, InsideThroughout;
    var start := StayStart(log[..k], id);
    if start.Some? {
      assert log[start.value].id == id;
      StayBroken(log, id, start.value, k);
    }
  }

  // ---------- intrusion ----------

  datatype IntrusionRun = IntrusionRun(state: Intrusion, log: seq<Entry>)

  function StepIntrusion(rule: Rule, r: IntrusionRun, f: Frame): IntrusionRun {
    var (state, entries) := EvaluateIntrusion(rule, r.state, f.dets, f.ctx, f.order);
    IntrusionRun(state, r.log + entries)
  }

  ghost predicate IntrusionReaches(rule: Rule, frames: seq<Frame>, r: IntrusionRun)
    decreases |frames|
  {
    if frames == [] then r == IntrusionRun(Intrusion(FRESH, map[]), [])
    else
      var f := frames[|frames| - 1];
      exists before ::
        && IntrusionReaches(rule, frames[..|frames| - 1], before)
        && Sorted(rule, before.state.tracker.tracks, f.dets, f.order)
        && r == StepIntrusion(rule, before, f)
  }

  predicate WasInside(was: map<int, bool>, id: int) {
    id in was && was[id]
  }

  ghost predicate EntryExplained(before: seq<Entry>, e: Entry) {
    e.alert <==> e.inside && StayStart(before, e.id).None?
  }

  /** Events mark exactly the entries that begin a stay. */
  ghost predicate EntriesExplained(log: seq<Entry>) {
    forall k :: 0 <= k < |log| ==> EntryExplained(log[..k], log[k])
  }

  ghost predicate WasRemembered(was: map<int, bool>, log: seq<Entry>) {
    forall id :: WasInside(was, id) <==> StayStart(log, id).Some?
  }

  lemma EntriesSnoc(log: seq<Entry>, e: Entry)
    requires EntriesExplained(log) && EntryExplained(log, e)
    ensures EntriesExplained(log + [e])
  {
    hide EntryExplained;
    var longer := log + [e];
    forall k | 0 <= k < |longer| ensures EntryExplained(longer[..k], longer[k]) {
      if k < |log| {
        assert longer[..k] == log[..k];
      } else {
        assert longer[..k] == log;
      }
    }
  }

  lemma WasSnoc(was: map<int, bool>, log: seq<Entry>, e: Entry)
    requires WasRemembered(was, log)
    ensures WasRemembered(was[e.id := e.inside], log + [e])
  {
    forall id ensures WasInside(was[e.id := e.inside], id) <==> StayStart(log + [e], id).Some? {
      StaySnoc(log, e, id);
      assert WasInside(was, id) <==> StayStart(log, id).Some?;
    }
  }

  lemma {:induction false} ScanIntrusionExplained(rule: Rule, ctx: Context, tracks: seq<Track>, was: map<int, bool>,
                                                  log: seq<Entry>)
    requires WasRemembered(was, log) && EntriesExplained(log)
    ensures var (m, entries) := ScanIntrusion(rule, ctx, tracks, was);
            && WasRemembered(m, log + entries) && EntriesExplained(log + entries)
            && forall id :: id in m.Keys ==> id in was.Keys || HasTrack(tracks, id)
    decreases |tracks|
  {
    hide WasRemembered, EntriesExplained, Where, HasTrack;
    if tracks == [] {
      assert log + [] == log;
    } else {
      var init, track := tracks[..|tracks| - 1], tracks[|tracks| - 1];
      ScanIntrusionExplained(rule, ctx, init, was, log);
      HasTrackSnoc(tracks);
      var (m, entries) := ScanIntrusion(rule, ctx, init, was);
      var place := Where(rule, ctx.size, track);
      if place.Some? {
        var e := Entry(track.id, track.last, place.value, ctx.timestamp, place.value && !WasInside(m, track.id), 0);
        assert log + (entries + [e]) == (log + entries) + [e];
        WasSnoc(m, log + entries, e);
        WasAt(m, log + entries, track.id);
        EntriesSnoc(log + entries, e);
      }
    }
  }

  lemma WasAt(was: map<int, bool>, log: seq<Entry>, id: int)
    requires WasRemembered(was, log)
    ensures WasInside(was, id) <==> StayStart(log, id).Some?
  {
  }

  ghost predicate IntrusionInvariant(r: IntrusionRun) {
    && Invariant(TRACKING, r.state.tracker)
    && (forall id :: id in r.state.was.Keys ==> HasTrack(r.state.tracker.tracks, id))
    && WasRemembered(r.state.was, r.log) && EntriesExplained(r.log)
  }

  lemma StepKeepsIntrusion(rule: Rule, r: IntrusionRun, f: Frame)
    requires IntrusionInvariant(r)
    requires Sorted(rule, r.state.tracker.tracks, f.dets, f.order)
    ensures IntrusionInvariant(StepIntrusion(rule, r, f))
  {
    hide Invariant, ValidOrder, Updated, Filtered, HasTrack, WasRemembered, EntriesExplained, ScanIntrusion;
    if |rule.vertices| < 3 {
      assert r.log + [] == r.log;
    } else {
      var st, dets := r.state.tracker, Filtered(rule, f.dets);
      UpdateKeepsInvariant(TRACKING, st, dets, f.order);
      var tracks := Updated(TRACKING, st, dets, f.order).tracks;
      ScanIntrusionExplained(rule, f.ctx, tracks, r.state.was, r.log);
      var m := ScanIntrusion(rule, f.ctx, tracks, r.state.was).0;
      PruneIsIdle(st, dets, f.order, r.state.was.Keys, m.Keys);
      PruneKeepsAll(m, tracks);
    }
  }

  lemma {:induction false} IntrusionRunInvariant(rule: Rule, frames: seq<Frame>, r: IntrusionRun)
    requires IntrusionReaches(rule, frames, r)
    ensures IntrusionInvariant(r)
    decreases |frames|
  {
    if frames != [] {
      hide IntrusionInvariant, StepIntrusion, Sorted;
      var f := frames[|frames| - 1];
      var before :|
        && IntrusionReaches(rule, frames[..|frames| - 1], before)
        && Sorted(rule, before.state.tracker.tracks, f.dets, f.order)
        && r == StepIntrusion(rule, before, f);
      IntrusionRunInvariant(rule, frames[..|frames| - 1], before);
      StepKeepsIntrusion(rule, before, f);
    }
  }

  /** On every run, an intrusion is raised exactly where a track is seen inside and was not inside when last seen. */
  lemma IntrusionExactlyOnEntry(rule: Rule, frames: seq<Frame>, r: IntrusionRun, k: nat)
    requires IntrusionReaches(rule, frames, r) && k < |r.log|
    ensures r.log[k].alert <==> r.log[k].inside && OutsideBefore(r.log, r.log[k].id, k)
  {
    IntrusionRunInvariant(rule, frames, r);
    var id := r.log[k].id;
    assert EntryExplained(r.log[..k], r.log[k]);
    hide IntrusionInvariant, EntriesExplained, StayStart, OutsideBefore, InsideThroughout, IntrusionReaches;
    if OutsideBefore(r.log, id, k) {
      StayStartHere(r.log, id, k);
    } else {
      StayStartMeans(r.log[..k], id);
      PrefixViews(r.log, k, id);
    }
  }

  // ---------- intrusion is loitering without threshold and cooldown ----------

  ghost predicate Alike(stays: Stays, was: map<int, bool>) {
    forall id :: StayOf(stays, id).inside == WasInside(was, id)
      && (StayOf(stays, id).inside ==> StayOf(stays, id).alerted)
  }

  lemma {:induction false} ScansAlike(rule: Rule, ctx: Context, tracks: seq<Track>, stays: Stays, was: map<int, bool>)
    requires rule.loiterSeconds <= 0 && rule.cooldownSeconds <= 0 && Alike(stays, was)
    ensures Scan(rule, ctx, tracks, stays).1 == ScanIntrusion(rule, ctx, tracks, was).1
    ensures Alike(Scan(rule, ctx, tracks, stays).0, ScanIntrusion(rule, ctx, tracks, was).0)
    decreases |tracks|
  {
    hide Where;
    if tracks != [] {
      var init, track := tracks[..|tracks| - 1], tracks[|tracks| - 1];
      ScansAlike(rule, ctx, init, stays, was);
      var m, w := Scan(rule, ctx, init, stays).0, ScanIntrusion(rule, ctx, init, was).0;
      var place := Where(rule, ctx.size, track);
      if place.Some? {
        LooksAlike(rule, m, w, track, place.value, ctx.timestamp);
      }
    }
  }

  lemma LooksAlike(rule: Rule, m: Stays, w: map<int, bool>, track: Track, inside: bool, t: int)
    requires rule.loiterSeconds <= 0 && rule.cooldownSeconds <= 0 && Alike(m, w)
    ensures Report(rule, StayOf(m, track.id), track, inside, t) ==
            Entry(track.id, track.last, inside, t, inside && !WasInside(w, track.id), 0)
    ensures Alike(m[track.id := Look(rule, StayOf(m, track.id), inside, t)], w[track.id := inside])
  {
    var stay := StayOf(m, track.id);
    var m', w' := m[track.id := Look(rule, stay, inside, t)], w[track.id := inside];
    assert stay.inside == WasInside(w, track.id);
    forall id ensures StayOf(m', id).inside == WasInside(w', id) && (StayOf(m', id).inside ==> StayOf(m', id).alerted) {
      if id != track.id {
        assert StayOf(m', id) == StayOf(m, id) && WasInside(w', id) == WasInside(w, id);
      }
    }
  }

  lemma PruneAlike(stays: Stays, was: map<int, bool>, tracks: seq<Track>)
    requires Alike(stays, was)
    ensures Alike(Prune(stays, tracks), Prune(was, tracks))
  {
    hide HasTrack;
    forall id
      ensures var s := StayOf(Prune(stays, tracks), id);
              s.inside == WasInside(Prune(was, tracks), id) && (s.inside ==> s.alerted)
    {
      assert StayOf(stays, id).inside == WasInside(was, id);
    }
  }

  /** With threshold and cooldown at zero, the two evaluators raise the same events on every run. */
  lemma {:induction false} IntrusionIsLoitering(rule: Rule, frames: seq<Frame>, r: LoiterRun, q: IntrusionRun)
    requires rule.loiterSeconds <= 0 && rule.cooldownSeconds <= 0
    requires Reaches(rule, frames, r) && IntrusionReaches(rule, frames, q)
    ensures r.log == q.log && r.state.tracker == q.state.tracker && Alike(r.state.stays, q.state.was)
    decreases |frames|
  {
    if frames != [] {
      hide Sorted, Alike, StepLoitering, StepIntrusion;
      var f := frames[|frames| - 1];
      var r0 :| Reaches(rule, frames[..|frames| - 1], r0) && r == StepLoitering(rule, r0, f);
      var q0 :| IntrusionReaches(rule, frames[..|frames| - 1], q0) && q == StepIntrusion(rule, q0, f);
      IntrusionIsLoitering(rule, frames[..|frames| - 1], r0, q0);
      hide Reaches, IntrusionReaches;
      StepsAlike(rule, r0, q0, f);
    }
  }

  lemma StepsAlike(rule: Rule, r: LoiterRun, q: IntrusionRun, f: Frame)
    requires rule.loiterSeconds <= 0 && rule.cooldownSeconds <= 0
    requires r.log == q.log && r.state.tracker == q.state.tracker && Alike(r.state.stays, q.state.was)
    ensures var r', q' := StepLoitering(rule, r, f), StepIntrusion(rule, q, f);
            r'.log == q'.log && r'.state.tracker == q'.state.tracker && Alike(r'.state.stays, q'.state.was)
  {
    hide Updated, Filtered, Alike, Prune, Scan, ScanIntrusion;
    if |rule.vertices| >= 3 {
      var tracks := Updated(TRACKING, r.state.tracker, Filtered(rule, f.dets), f.order).tracks;
      ScansAlike(rule, f.ctx, tracks, r.state.stays, q.state.was);
      PruneAlike(Scan(rule, f.ctx, tracks, r.state.stays).0, ScanIntrusion(rule, f.ctx, tracks, q.state.was).0, tracks);
    }
  }

  // ---------- the evaluator objects ----------

  class LoiteringEvaluator {
    const rule: Rule
    const tracker: Tracking.IouTracker
    var stays: Stays

    ghost function View(): Loitering
      reads this, tracker
    {
      Loitering(tracker.View(), stays)
    }

    ghost predicate Valid()
      reads this, tracker
    {
      tracker.config == TRACKING
    }

    constructor (r: Rule)
      ensures rule == r && Valid() && fresh(tracker) && View() == Loitering(FRESH, map[])
    {
      rule, stays := r, map[];
      tracker := new Tracking.IouTracker(TRACKING);
    }

    method Reset()
      requires Valid()
      modifies this, tracker
      ensures Valid() && View() == Loitering(FRESH, map[])
    {
      tracker.Reset();
      stays := map[];
    }

    /** One track of the pass: begins, goes on with or ends its stay, and says whether to alert. */
    method Visit(track: Track, inside: bool, t: int) returns (e: Entry)
      modifies this`stays
      ensures stays == old(stays)[track.id := Look(rule, StayOf(old(stays), track.id), inside, t)]
      ensures e == Report(rule, StayOf(old(stays), track.id), track, inside, t)
    {
      var stay := StayOf(stays, track.id);
      e := Entry(track.id, track.last, inside, t, false, 0);
      if inside {
        if !stay.inside {
          stay := stay.(inside := true, entered := t, alerted := false);
        }
        var dwell := t - stay.entered;
        if dwell >= rule.loiterSeconds * 1000 {
          var cooldown := rule.cooldownSeconds * 1000;
          var alert := false;
          if !stay.alerted {
            alert := true;
          } else if cooldown > 0 && t - stay.lastAlert >= cooldown {
            alert := true;
          }
          if alert {
            e := e.(alert := true, dwell := Seconds(dwell));
            stay := stay.(alerted := true, lastAlert := t);
          }
        }
      } else if stay.inside {
        stay := stay.(inside := false, alerted := false, entered := 0);
      }
      stays := stays[track.id := stay];
    }

    method Evaluate(dets: seq<Detection>, ctx: Context)
      returns (events: seq<Entry>, ghost entries: seq<Entry>, ghost order: seq<Pair>)
      requires Valid()
      modifies this, tracker
      ensures Valid()
      ensures Sorted(rule, old(tracker.tracks), dets, order)
      ensures (View(), entries) == EvaluateLoitering(rule, old(View()), dets, ctx, order)
      ensures events == Raised(entries)
    {
      NoneRaised();
      hide Updated, ValidOrder, Where, Filtered, Look, Report, Raised, Prune;
      events, entries := [], [];
      if |rule.vertices| < 3 {
        order := [];
        return;
      }
      var filtered := FilterDetections(rule, dets);
      order := tracker.Update(filtered);
      for i := 0 to |tracker.tracks|
        invariant Valid() && tracker.View() == Updated(TRACKING, old(tracker.View()), filtered, order)
        invariant (stays, entries) == Scan(rule, ctx, tracker.tracks[..i], old(stays))
        invariant events == Raised(entries)
      {
        var track := tracker.tracks[i];
        assert tracker.tracks[..i + 1][..i] == tracker.tracks[..i];
        var place := Where(rule, ctx.size, track);
        if place.Some? {
          var e := Visit(track, place.value, ctx.timestamp);
          RaisedSnoc(entries, e);
          entries := entries + [e];
          if e.alert {
            events := events + [e];
          }
        }
      }
      assert tracker.tracks[..|tracker.tracks|] == tracker.tracks;
      stays := EraseStale(stays, tracker.tracks);
    }
  }

  class RegionIntrusionEvaluator {
    const rule: Rule
    const tracker: Tracking.IouTracker
    var was: map<int, bool>

    ghost function View(): Intrusion
      reads this, tracker
    {
      Intrusion(tracker.View(), was)
    }

    ghost predicate Valid()
      reads this, tracker
    {
      tracker.config == TRACKING
    }

    constructor (r: Rule)
      ensures rule == r && Valid() && fresh(tracker) && View() == Intrusion(FRESH, map[])
    {
      rule, was := r, map[];
      tracker := new Tracking.IouTracker(TRACKING);
    }

    /** One track of the pass: an event on entry, then its place is recorded. */
    method Visit(track: Track, inside: bool, t: int) returns (e: Entry)
      modifies this`was
      ensures was == old(was)[track.id := inside]
      ensures e == Entry(track.id, track.last, inside, t, inside && !WasInside(old(was), track.id), 0)
    {
      e := Entry(track.id, track.last, inside, t, false, 0);
      if track.id !in was {
        e := e.(alert := inside);
      } else if !was[track.id] && inside {
        e := e.(alert := true);
      }
      was := was[track.id := inside];
    }

    method Evaluate(dets: seq<Detection>, ctx: Context)
      returns (events: seq<Entry>, ghost entries: seq<Entry>, ghost order: seq<Pair>)
      requires Valid()
      modifies this, tracker
      ensures Valid()
      ensures Sorted(rule, old(tracker.tracks), dets, order)
      ensures (View(), entries) == EvaluateIntrusion(rule, old(View()), dets, ctx, order)
      ensures events == Raised(entries)
    {
      NoneRaised();
      hide Updated, ValidOrder, Where, Filtered, Raised, Prune;
      events, entries := [], [];
      if |rule.vertices| < 3 {
        order := [];
        return;
      }
      var filtered := FilterDetections(rule, dets);
      order := tracker.Update(filtered);
      for i := 0 to |tracker.tracks|
        invariant Valid() && tracker.View() == Updated(TRACKING, old(tracker.View()), filtered, order)
        invariant (was, entries) == ScanIntrusion(rule, ctx, tracker.tracks[..i], old(was))
        invariant events == Raised(entries)
      {
        var track := tracker.tracks[i];
        assert tracker.tracks[..i + 1][..i] == tracker.tracks[..i];
        var place := Where(rule, ctx.size, track);
        if place.Some? {
          var e := Visit(track, place.value, ctx.timestamp);
          RaisedSnoc(entries, e);
          entries := entries + [e];
          if e.alert {
            events := events + [e];
          }
        }
      }
      assert tracker.tracks[..|tracker.tracks|] == tracker.tracks;
      was := EraseStale(was, tracker.tracks);
    }
  }
}
