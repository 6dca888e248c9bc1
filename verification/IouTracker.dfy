/** The greedy IoU tracker (src/rules/evaluators/iou_tracker.cc). Sorting is taken as any order of descending IoU. */
module IouTracker {
  import opened Detections
  import opened Options
  import opened Sequences

  datatype Config = Config(threshold: real, maxMissing: int, maxPoints: int)
  datatype Track = Track(id: int, last: Detection, trajectory: seq<Point>, age: int, missing: int, active: bool)
  datatype Tracker = Tracker(tracks: seq<Track>, nextId: int)
  datatype Pair = Pair(t: nat, d: nat, iou: real)

  const FRESH := Tracker([], 1)

  // ---------- matching ----------

  /** A pair the matching may use: an active track and a detection with enough overlap. */
  ghost predicate Qualifies(cfg: Config, tracks: seq<Track>, dets: seq<Detection>, p: Pair) {
    && p.t < |tracks| && p.d < |dets| && tracks[p.t].active
    && p.iou == Iou(tracks[p.t].last, dets[p.d]) && p.iou >= cfg.threshold
  }

  ghost predicate Descending(ps: seq<Pair>) {
    forall i, j :: 0 <= i < j < |ps| ==> ps[i].iou >= ps[j].iou
  }

  /** All qualifying pairs, in any order of descending IoU. */
  ghost predicate ValidOrder(cfg: Config, tracks: seq<Track>, dets: seq<Detection>, order: seq<Pair>) {
    Descending(order) && forall p :: p in order <==> Qualifies(cfg, tracks, dets, p)
  }

  predicate Conflict(p: Pair, q: Pair) {
    p.t == q.t || p.d == q.d
  }

  predicate Free(chosen: seq<Pair>, p: Pair) {
    forall i :: 0 <= i < |chosen| ==> !Conflict(chosen[i], p)
  }

  /** The pairs taken when going through the order once. */
  function Greedy(order: seq<Pair>): seq<Pair> {
    if order == [] then []
    else
      var chosen, p := Greedy(order[..|order| - 1]), order[|order| - 1];
      if Free(chosen, p) then chosen + [p] else chosen
  }

  ghost predicate OneToOne(chosen: seq<Pair>) {
    forall i, j :: 0 <= i < j < |chosen| ==> !Conflict(chosen[i], chosen[j])
  }

  /** Every pair passed over meets a chosen pair of at least its IoU; so the matching is maximal and stable. */
  ghost predicate Stable(order: seq<Pair>, chosen: seq<Pair>) {
    forall p :: p in order && p !in chosen ==> exists q :: q in chosen && Conflict(q, p) && q.iou >= p.iou
  }

  lemma {:induction false} GreedyOneToOne(order: seq<Pair>)
    ensures OneToOne(Greedy(order)) && forall p :: p in Greedy(order) ==> p in order
  {
    if order != [] {
      var init, p := order[..|order| - 1], order[|order| - 1];
      GreedyOneToOne(init);
      assert order == init + [p];
    }
  }

  /** Anything passed over met something chosen before it. */
  lemma {:induction false} GreedyBlocks(order: seq<Pair>, k: nat)
    requires k < |order| && order[k] !in Greedy(order)
    ensures exists j :: 0 <= j < k && order[j] in Greedy(order) && Conflict(order[j], order[k])
  {
    var init, p := order[..|order| - 1], order[|order| - 1];
    var before := Greedy(init);
    if k < |order| - 1 {
      GreedyBlocks(init, k);
      var j :| 0 <= j < k && init[j] in before && Conflict(init[j], init[k]);
      assert order[j] in Greedy(order);
    } else {
      assert !Free(before, p);
      var i :| 0 <= i < |before| && Conflict(before[i], p);
      GreedyOneToOne(init);
      assert before[i] in init;
      var j :| 0 <= j < |init| && init[j] == before[i];
      assert order[j] in Greedy(order) && Conflict(order[j], order[k]);
    }
  }

  lemma GreedyMatches(order: seq<Pair>)
    requires Descending(order)
    ensures OneToOne(Greedy(order)) && Stable(order, Greedy(order))
    ensures forall p :: p in Greedy(order) ==> p in order
  {
    GreedyOneToOne(order);
    hide Greedy, OneToOne;
    forall p | p in order && p !in Greedy(order)
      ensures exists q :: q in Greedy(order) && Conflict(q, p) && q.iou >= p.iou
    {
      var k :| 0 <= k < |order| && order[k] == p;
      GreedyBlocks(order, k);
    }
  }

  /**
    * The matching of one frame: one to one, above the threshold, and every qualifying pair left out shares its
    * track or its detection with a chosen pair of at least its IoU.
    */
  lemma MatchingIsStable(cfg: Config, tracks: seq<Track>, dets: seq<Detection>, order: seq<Pair>)
    requires ValidOrder(cfg, tracks, dets, order)
    ensures OneToOne(Greedy(order))
    ensures forall p :: p in Greedy(order) ==> Qualifies(cfg, tracks, dets, p)
    ensures forall p :: Qualifies(cfg, tracks, dets, p) && p !in Greedy(order) ==>
              exists q :: q in Greedy(order) && Conflict(q, p) && q.iou >= p.iou
  {
    GreedyMatches(order);
  }

  // ---------- update ----------

  /** The detection matched to track `t`. */
  function MatchOf(chosen: seq<Pair>, t: nat): Option<nat> {
    if chosen == [] then None
    else if chosen[|chosen| - 1].t == t then Some(chosen[|chosen| - 1].d)
    else MatchOf(chosen[..|chosen| - 1], t)
  }

  predicate DetMatched(chosen: seq<Pair>, d: nat) {
    exists i :: 0 <= i < |chosen| && chosen[i].d == d
  }

  function Extended(cfg: Config, trajectory: seq<Point>, p: Point): seq<Point> {
    var longer := trajectory + [p];
    if |longer| > cfg.maxPoints then longer[1..] else longer
  }

  function Matched(cfg: Config, track: Track, det: Detection): Track {
    track.(last := det, missing := 0, age := track.age + 1, trajectory := Extended(cfg, track.trajectory, Center(det)))
  }

  /** One more frame without a detection. */
  function Aged(cfg: Config, track: Track): Track {
    if !track.active then track
    else track.(missing := track.missing + 1, active := track.missing + 1 <= cfg.maxMissing)
  }

  /** A track after matching and ageing. */
  function Touched(cfg: Config, track: Track, dets: seq<Detection>, found: Option<nat>): Track {
    if found.Some? && found.value < |dets| then Matched(cfg, track, dets[found.value]) else Aged(cfg, track)
  }

  function NewTrack(id: int, det: Detection): Track {
    Track(id, det, [Center(det)], 1, 0, true)
  }

  /** Tracks for the unmatched among the first `n` detections, numbered on from `nextId`. */
  function Created(dets: seq<Detection>, chosen: seq<Pair>, nextId: int, n: nat): seq<Track>
    requires n <= |dets|
  {
    if n == 0 then []
    else
      var earlier := Created(dets, chosen, nextId, n - 1);
      if DetMatched(chosen, n - 1) then earlier else earlier + [NewTrack(nextId + |earlier|, dets[n - 1])]
  }

  predicate Stays(cfg: Config, track: Track) {
    track.active || track.missing <= cfg.maxMissing * 2
  }

  function Surviving(cfg: Config, tracks: seq<Track>): seq<Track> {
    Filter(tracks, (track: Track) => Stays(cfg, track))
  }

  function TouchedAll(cfg: Config, tracks: seq<Track>, dets: seq<Detection>, chosen: seq<Pair>): (r: seq<Track>)
    ensures |r| == |tracks|
  {
    seq(|tracks|, t requires 0 <= t < |tracks| => Touched(cfg, tracks[t], dets, MatchOf(chosen, t)))
  }

  /** All tracks before the clean-up. */
  function Grown(cfg: Config, st: Tracker, dets: seq<Detection>, chosen: seq<Pair>): seq<Track> {
    TouchedAll(cfg, st.tracks, dets, chosen) + Created(dets, chosen, st.nextId, |dets|)
  }

  function Updated(cfg: Config, st: Tracker, dets: seq<Detection>, order: seq<Pair>): Tracker {
    var chosen := Greedy(order);
    Tracker(Surviving(cfg, Grown(cfg, st, dets, chosen)),
            st.nextId + |Created(dets, chosen, st.nextId, |dets|)|)
  }

  // ---------- invariants over runs ----------

  function DeadAt(cfg: Config): int {
    (if cfg.maxMissing < 0 then 0 else cfg.maxMissing) + 1
  }

  ghost predicate TrackOk(cfg: Config, track: Track) {
    && track.age >= 1 && 0 <= track.missing
    && (track.active ==> track.missing < DeadAt(cfg))
    && (!track.active ==> track.missing == DeadAt(cfg))
    && track.trajectory != [] && track.trajectory[|track.trajectory| - 1] == Center(track.last)
    && (|track.trajectory| == 1 || |track.trajectory| <= cfg.maxPoints)
  }

  ghost predicate Ascending(tracks: seq<Track>, nextId: int) {
    && (forall i, j :: 0 <= i < j < |tracks| ==> tracks[i].id < tracks[j].id)
    && (forall i :: 0 <= i < |tracks| ==> 1 <= tracks[i].id < nextId)
  }

  /** Numbering without gaps: no track was ever removed. */
  ghost predicate Complete(tracks: seq<Track>, nextId: int) {
    nextId == |tracks| + 1 && forall i :: 0 <= i < |tracks| ==> tracks[i].id == i + 1
  }

  ghost predicate Invariant(cfg: Config, st: Tracker) {
    && st.nextId >= 1 && Ascending(st.tracks, st.nextId)
    && (forall i :: 0 <= i < |st.tracks| ==> TrackOk(cfg, st.tracks[i]))
    && (cfg.maxMissing >= 1 ==> Complete(st.tracks, st.nextId))
    && (cfg.maxMissing < 1 ==> forall i :: 0 <= i < |st.tracks| ==> st.tracks[i].active)
  }

  lemma {:induction false} MatchOfChosen(chosen: seq<Pair>, t: nat)
    ensures MatchOf(chosen, t).Some? ==>
            exists i :: 0 <= i < |chosen| && chosen[i].t == t && chosen[i].d == MatchOf(chosen, t).value
    ensures MatchOf(chosen, t).None? ==> forall i :: 0 <= i < |chosen| ==> chosen[i].t != t
  {
    if chosen != [] && chosen[|chosen| - 1].t != t {
      MatchOfChosen(chosen[..|chosen| - 1], t);
    }
  }

  /** How many of the first `n` detections are unmatched. */
  function Rank(chosen: seq<Pair>, n: nat): nat {
    if n == 0 then 0 else Rank(chosen, n - 1) + (if DetMatched(chosen, n - 1) then 0 else 1)
  }

  lemma {:induction false} CreatedLength(dets: seq<Detection>, chosen: seq<Pair>, nextId: int, n: nat)
    requires n <= |dets|
    ensures |Created(dets, chosen, nextId, n)| == Rank(chosen, n)
  {
    if n > 0 {
      CreatedLength(dets, chosen, nextId, n - 1);
    }
  }

  /** Each unmatched detection opens the track of its rank. */
  lemma {:induction false} CreatedAt(dets: seq<Detection>, chosen: seq<Pair>, nextId: int, n: nat, d: nat)
    requires d < n <= |dets| && !DetMatched(chosen, d)
    ensures Rank(chosen, d) < |Created(dets, chosen, nextId, n)|
    ensures Created(dets, chosen, nextId, n)[Rank(chosen, d)] == NewTrack(nextId + Rank(chosen, d), dets[d])
  {
    hide DetMatched, NewTrack;
    CreatedLength(dets, chosen, nextId, n - 1);
    if d < n - 1 {
      CreatedAt(dets, chosen, nextId, n - 1, d);
    }
  }

  /** And every created track comes from one. */
  lemma {:induction false} CreatedFrom(dets: seq<Detection>, chosen: seq<Pair>, nextId: int, n: nat, i: nat)
    returns (d: nat)
    requires n <= |dets| && i < |Created(dets, chosen, nextId, n)|
    ensures d < n && !DetMatched(chosen, d) && Rank(chosen, d) == i
    ensures Created(dets, chosen, nextId, n)[i] == NewTrack(nextId + i, dets[d])
  {
    hide DetMatched, NewTrack;
    CreatedLength(dets, chosen, nextId, n - 1);
    if i < |Created(dets, chosen, nextId, n - 1)| {
      d := CreatedFrom(dets, chosen, nextId, n - 1, i);
    } else {
      d := n - 1;
    }
  }

  lemma {:induction false} SurvivingShape(cfg: Config, tracks: seq<Track>)
    ensures forall x :: x in Surviving(cfg, tracks) <==> x in tracks && Stays(cfg, x)
    ensures (forall x :: x in tracks ==> Stays(cfg, x)) ==> Surviving(cfg, tracks) == tracks
  {
    if tracks != [] {
      SurvivingShape(cfg, tracks[..|tracks| - 1]);
      assert tracks == tracks[..|tracks| - 1] + [tracks[|tracks| - 1]];
    }
  }

  lemma AscendingSnoc(tracks: seq<Track>, x: Track, nextId: int)
    requires Ascending(tracks, nextId) && 1 <= x.id < nextId
    requires forall y :: y in tracks ==> y.id < x.id
    ensures Ascending(tracks + [x], nextId)
  {
  }

  lemma {:induction false} SurvivingAscending(cfg: Config, tracks: seq<Track>, nextId: int)
    requires Ascending(tracks, nextId)
    ensures Ascending(Surviving(cfg, tracks), nextId)
  {
    hide Ascending, Stays;
    if tracks == [] {
      assert Surviving(cfg, tracks) == tracks;
    } else {
      var init, last := tracks[..|tracks| - 1], tracks[|tracks| - 1];
      AscendingInit(tracks, nextId);
      SurvivingAscending(cfg, init, nextId);
      SurvivingShape(cfg, init);
      AscendingSnoc(Surviving(cfg, init), last, nextId);
    }
  }

  lemma AscendingInit(tracks: seq<Track>, nextId: int)
    requires tracks != [] && Ascending(tracks, nextId)
    ensures
      var init, last := tracks[..|tracks| - 1], tracks[|tracks| - 1];
      Ascending(init, nextId) && 1 <= last.id < nextId && forall y :: y in init ==> y.id < last.id
  {
  }

  lemma GrownAscending(cfg: Config, st: Tracker, dets: seq<Detection>, chosen: seq<Pair>)
    requires Invariant(cfg, st)
    ensures
      var nextId := st.nextId + Rank(chosen, |dets|);
      var grown := Grown(cfg, st, dets, chosen);
      && Ascending(grown, nextId)
      && (Complete(st.tracks, st.nextId) ==> Complete(grown, nextId))
  {
    var grown, n := Grown(cfg, st, dets, chosen), |st.tracks|;
    var created := Created(dets, chosen, st.nextId, |dets|);
    CreatedLength(dets, chosen, st.nextId, |dets|);
    forall i | 0 <= i < |grown| ensures grown[i].id == if i < n then st.tracks[i].id else st.nextId + (i - n) {
      if i < n {
        assert grown[i] == Touched(cfg, st.tracks[i], dets, MatchOf(chosen, i));
      } else {
        assert grown[i] == created[i - n];
        var d := CreatedFrom(dets, chosen, st.nextId, |dets|, i - n);
      }
    }
    hide Grown, Created;
  }

  lemma TouchedOk(cfg: Config, track: Track, dets: seq<Detection>, found: Option<nat>)
    requires TrackOk(cfg, track) && (found.Some? ==> track.active && found.value < |dets|)
    ensures TrackOk(cfg, Touched(cfg, track, dets, found))
    ensures found.None? && track.active ==> Touched(cfg, track, dets, found).missing >= 1
  {
  }

  /** Chosen pairs name active tracks and existing detections, each at most once. */
  ghost predicate Usable(tracks: seq<Track>, dets: seq<Detection>, chosen: seq<Pair>) {
    && OneToOne(chosen)
    && forall i :: 0 <= i < |chosen| ==> chosen[i].t < |tracks| && tracks[chosen[i].t].active && chosen[i].d < |dets|
  }

  lemma GreedyUsable(cfg: Config, tracks: seq<Track>, dets: seq<Detection>, order: seq<Pair>)
    requires ValidOrder(cfg, tracks, dets, order)
    ensures Usable(tracks, dets, Greedy(order))
  {
    GreedyMatches(order);
    var chosen := Greedy(order);
    forall i | 0 <= i < |chosen| ensures Qualifies(cfg, tracks, dets, chosen[i]) {
      assert chosen[i] in order;
    }
  }

  lemma GrownOk(cfg: Config, st: Tracker, dets: seq<Detection>, chosen: seq<Pair>)
    requires Invariant(cfg, st) && Usable(st.tracks, dets, chosen)
    ensures forall x :: x in Grown(cfg, st, dets, chosen) ==> TrackOk(cfg, x)
  {
    hide Touched, MatchOf, Created, Complete, Ascending;
    var grown, n := Grown(cfg, st, dets, chosen), |st.tracks|;
    forall x | x in grown ensures TrackOk(cfg, x) {
      var i :| 0 <= i < |grown| && grown[i] == x;
      if i < n {
        assert grown[i] == Touched(cfg, st.tracks[i], dets, MatchOf(chosen, i));
        MatchOfChosen(chosen, i);
        TouchedOk(cfg, st.tracks[i], dets, MatchOf(chosen, i));
      } else {
        var d := CreatedFrom(dets, chosen, st.nextId, |dets|, i - n);
        assert x == NewTrack(st.nextId + (i - n), dets[d]);
      }
    }
  }

  /** A dead track sits at one past the limit, so the clean-up at twice the limit fires exactly for limits below 1. */
  lemma CleanUpReach(cfg: Config, track: Track)
    requires TrackOk(cfg, track)
    ensures Stays(cfg, track) <==> track.active || cfg.maxMissing >= 1
  {
  }

  lemma CleanUpKeepsInvariant(cfg: Config, grown: seq<Track>, nextId: int)
    requires nextId >= 1 && Ascending(grown, nextId) && forall x :: x in grown ==> TrackOk(cfg, x)
    requires cfg.maxMissing >= 1 ==> Complete(grown, nextId)
    ensures Invariant(cfg, Tracker(Surviving(cfg, grown), nextId))
  {
    SurvivingAscending(cfg, grown, nextId);
    SurvivingShape(cfg, grown);
    hide Surviving, TrackOk, Stays, Ascending, Complete;
    forall x | x in grown ensures Stays(cfg, x) <==> x.active || cfg.maxMissing >= 1 {
      CleanUpReach(cfg, x);
    }
    var left := Surviving(cfg, grown);
    forall i | 0 <= i < |left| ensures TrackOk(cfg, left[i]) && (cfg.maxMissing < 1 ==> left[i].active) {
      assert left[i] in left;
    }
  }

  /**
    * One update keeps: ids strictly ascending, inactive tracks at exactly one past the limit, the trajectory
    * ending at the last detection, and, by the limit, either no removal at all or no inactive track left.
    */
  lemma UpdateKeepsInvariant(cfg: Config, st: Tracker, dets: seq<Detection>, order: seq<Pair>)
    requires Invariant(cfg, st) && ValidOrder(cfg, st.tracks, dets, order)
    ensures Invariant(cfg, Updated(cfg, st, dets, order))
  {
    var chosen := Greedy(order);
    GreedyUsable(cfg, st.tracks, dets, order);
    GrownAscending(cfg, st, dets, chosen);
    GrownOk(cfg, st, dets, chosen);
    CreatedLength(dets, chosen, st.nextId, |dets|);
    hide Grown, Surviving, TrackOk, Greedy, Rank, Created, Ascending, Complete;
    CleanUpKeepsInvariant(cfg, Grown(cfg, st, dets, chosen), st.nextId + Rank(chosen, |dets|));
  }

  datatype Frame = Frame(dets: seq<Detection>, order: seq<Pair>)

  /** Runs from a fresh tracker, with any valid sort order at every frame. */
  ghost predicate Reaches(cfg: Config, frames: seq<Frame>, st: Tracker)
    decreases |frames|
  {
    if frames == [] then st == FRESH
    else
      var f := frames[|frames| - 1];
      exists before :: Reaches(cfg, frames[..|frames| - 1], before)
                       && ValidOrder(cfg, before.tracks, f.dets, f.order) && st == Updated(cfg, before, f.dets, f.order)
  }

  lemma {:induction false} RunInvariant(cfg: Config, frames: seq<Frame>, st: Tracker)
    requires Reaches(cfg, frames, st)
    ensures Invariant(cfg, st)
    decreases |frames|
  {
    if frames != [] {
      var f := frames[|frames| - 1];
      var before :| Reaches(cfg, frames[..|frames| - 1], before)
                    && ValidOrder(cfg, before.tracks, f.dets, f.order) && st == Updated(cfg, before, f.dets, f.order);
      RunInvariant(cfg, frames[..|frames| - 1], before);
      UpdateKeepsInvariant(cfg, before, f.dets, f.order);
    }
  }

  // ---------- detections find their tracks ----------

  /** The track matched to detection `d`. */
  function TrackOf(chosen: seq<Pair>, d: nat): Option<nat> {
    if chosen == [] then None
    else if chosen[|chosen| - 1].d == d then Some(chosen[|chosen| - 1].t)
    else TrackOf(chosen[..|chosen| - 1], d)
  }

  lemma {:induction false} TrackOfChosen(chosen: seq<Pair>, d: nat)
    requires OneToOne(chosen)
    ensures TrackOf(chosen, d).Some? <==> DetMatched(chosen, d)
    ensures TrackOf(chosen, d).Some? ==> MatchOf(chosen, TrackOf(chosen, d).value) == Some(d)
    ensures TrackOf(chosen, d).Some? ==> exists i :: 0 <= i < |chosen| && chosen[i].t == TrackOf(chosen, d).value
  {
    if chosen != [] {
      var init, last := chosen[..|chosen| - 1], chosen[|chosen| - 1];
      TrackOfChosen(init, d);
      if last.d == d {
        assert DetMatched(chosen, d);
      } else if TrackOf(init, d).Some? {
        var i :| 0 <= i < |init| && init[i].t == TrackOf(init, d).value;
        assert chosen[i] == init[i] && !Conflict(chosen[i], chosen[|chosen| - 1]);
        assert DetMatched(init, d);
      }
    }
  }

  /** The track, by position before clean-up, that a detection belongs to. */
  function Owner(st: Tracker, chosen: seq<Pair>, d: nat): nat {
    match TrackOf(chosen, d)
    case Some(t) => t
    case None => |st.tracks| + Rank(chosen, d)
  }

  lemma {:induction false} RankStrict(chosen: seq<Pair>, d: nat, e: nat)
    requires d < e && !DetMatched(chosen, d)
    ensures Rank(chosen, d) < Rank(chosen, e)
  {
    if d < e - 1 {
      RankStrict(chosen, d, e - 1);
    }
  }

  /** The owner is an active track that ends at this detection. */
  lemma OwnerHolds(cfg: Config, st: Tracker, dets: seq<Detection>, chosen: seq<Pair>, d: nat)
    requires Usable(st.tracks, dets, chosen) && d < |dets|
    ensures
      var grown, o := Grown(cfg, st, dets, chosen), Owner(st, chosen, d);
      o < |grown| && grown[o].active && grown[o].missing == 0 && grown[o].last == dets[d]
  {
    TrackOfChosen(chosen, d);
    var grown, o := Grown(cfg, st, dets, chosen), Owner(st, chosen, d);
    if TrackOf(chosen, d).Some? {
      var i :| 0 <= i < |chosen| && chosen[i].t == o;
      assert grown[o] == Touched(cfg, st.tracks[o], dets, Some(d));
    } else {
      CreatedAt(dets, chosen, st.nextId, |dets|, d);
      assert grown[o] == NewTrack(st.nextId + Rank(chosen, d), dets[d]);
    }
  }

  lemma OwnerDistinct(st: Tracker, dets: seq<Detection>, chosen: seq<Pair>, d: nat, e: nat)
    requires Usable(st.tracks, dets, chosen) && d < e
    ensures Owner(st, chosen, d) != Owner(st, chosen, e)
  {
    TrackOfChosen(chosen, d);
    TrackOfChosen(chosen, e);
    if TrackOf(chosen, d).None? && TrackOf(chosen, e).None? {
      RankStrict(chosen, d, e);
    }
  }

  /** Conversely an active track that missed no frame is the owner of a detection. */
  lemma FreshTrackOwned(cfg: Config, st: Tracker, dets: seq<Detection>, chosen: seq<Pair>, o: nat) returns (d: nat)
    requires Invariant(cfg, st) && Usable(st.tracks, dets, chosen)
    requires o < |Grown(cfg, st, dets, chosen)|
    requires Grown(cfg, st, dets, chosen)[o].active && Grown(cfg, st, dets, chosen)[o].missing == 0
    ensures d < |dets| && Owner(st, chosen, d) == o
  {
    var grown := Grown(cfg, st, dets, chosen);
    if o < |st.tracks| {
      assert grown[o] == Touched(cfg, st.tracks[o], dets, MatchOf(chosen, o));
      MatchOfChosen(chosen, o);
      TouchedOk(cfg, st.tracks[o], dets, MatchOf(chosen, o));
      assert MatchOf(chosen, o).Some?;
      d := MatchOf(chosen, o).value;
      var i :| 0 <= i < |chosen| && chosen[i].t == o && chosen[i].d == d;
      assert DetMatched(chosen, d);
      TrackOfChosen(chosen, d);
      TrackOfUnique(chosen, d, i);
    } else {
      d := CreatedFrom(dets, chosen, st.nextId, |dets|, o - |st.tracks|);
      TrackOfChosen(chosen, d);
    }
  }

  lemma {:induction false} TrackOfUnique(chosen: seq<Pair>, d: nat, i: nat)
    requires OneToOne(chosen) && i < |chosen| && chosen[i].d == d
    ensures TrackOf(chosen, d) == Some(chosen[i].t)
  {
    if i < |chosen| - 1 {
      assert !Conflict(chosen[i], chosen[|chosen| - 1]);
      TrackOfUnique(chosen[..|chosen| - 1], d, i);
    }
  }

  /** `owners[d]` is the track of detection `d` before clean-up. */
  ghost predicate OwnersOf(cfg: Config, st: Tracker, dets: seq<Detection>, chosen: seq<Pair>, owners: seq<Track>) {
    && |owners| == |dets|
    && forall d :: 0 <= d < |dets| ==>
         && Owner(st, chosen, d) < |Grown(cfg, st, dets, chosen)|
         && owners[d] == Grown(cfg, st, dets, chosen)[Owner(st, chosen, d)]
  }

  lemma CollectOwners(cfg: Config, st: Tracker, dets: seq<Detection>, chosen: seq<Pair>) returns (owners: seq<Track>)
    requires Usable(st.tracks, dets, chosen)
    ensures OwnersOf(cfg, st, dets, chosen, owners)
    ensures forall d :: 0 <= d < |dets| ==> owners[d].active && owners[d].missing == 0 && owners[d].last == dets[d]
  {
    forall d | 0 <= d < |dets|
      ensures Owner(st, chosen, d) < |Grown(cfg, st, dets, chosen)|
      ensures var x := Grown(cfg, st, dets, chosen)[Owner(st, chosen, d)];
              x.active && x.missing == 0 && x.last == dets[d]
    {
      OwnerHolds(cfg, st, dets, chosen, d);
    }
    hide Grown, Owner, Usable;
    owners := seq(|dets|, d requires 0 <= d < |dets| => Grown(cfg, st, dets, chosen)[Owner(st, chosen, d)]);
  }

  lemma OwnersDistinct(cfg: Config, st: Tracker, dets: seq<Detection>, chosen: seq<Pair>, owners: seq<Track>)
    requires Invariant(cfg, st) && Usable(st.tracks, dets, chosen) && OwnersOf(cfg, st, dets, chosen, owners)
    ensures forall d, e :: 0 <= d < e < |owners| ==> owners[d].id != owners[e].id
  {
    GrownAscending(cfg, st, dets, chosen);
    hide Grown, Owner, Usable, Invariant;
    forall d, e | 0 <= d < e < |owners| ensures owners[d].id != owners[e].id {
      OwnerDistinct(st, dets, chosen, d, e);
    }
  }

  /**
    * After any update from a reachable state the detections and the active tracks seen in this frame correspond
    * one to one, each such track ending at its detection.
    */
  lemma DetectionsOwnTracks(cfg: Config, st: Tracker, dets: seq<Detection>, order: seq<Pair>)
    returns (owners: seq<Track>)
    requires Invariant(cfg, st) && ValidOrder(cfg, st.tracks, dets, order)
    ensures |owners| == |dets|
    ensures forall d :: 0 <= d < |dets| ==>
              owners[d] in Updated(cfg, st, dets, order).tracks
              && owners[d].active && owners[d].missing == 0 && owners[d].last == dets[d]
    ensures forall d, e :: 0 <= d < e < |owners| ==> owners[d].id != owners[e].id
    ensures forall x :: x in Updated(cfg, st, dets, order).tracks && x.active && x.missing == 0 ==> x in owners
  {
    var chosen, after := Greedy(order), Updated(cfg, st, dets, order);
    var grown := Grown(cfg, st, dets, chosen);
    GreedyUsable(cfg, st.tracks, dets, order);
    SurvivingShape(cfg, grown);
    owners := CollectOwners(cfg, st, dets, chosen);
    OwnersDistinct(cfg, st, dets, chosen, owners);
    hide Greedy, Grown, Surviving, Owner, Invariant, Usable, ValidOrder;
    forall d | 0 <= d < |dets| ensures owners[d] in after.tracks {
      assert owners[d] in grown;
    }
    forall x | x in after.tracks && x.active && x.missing == 0 ensures x in owners {
      assert x in grown;
      var o :| 0 <= o < |grown| && grown[o] == x;
      var d := FreshTrackOwned(cfg, st, dets, chosen, o);
      assert x == owners[d];
    }
  }

  // ---------- what a track remembers of its past ----------

  /** One entry a frame since the track was opened: the detection it was matched to, if any. */
  type Past = seq<Option<Detection>>

  /** The detections of a past, oldest first. */
  function Sightings(past: Past): seq<Detection> {
    if past == [] then []
    else
      var earlier, last := Sightings(past[..|past| - 1]), past[|past| - 1];
      if last.Some? then earlier + [last.value] else earlier
  }

  /** The frames in a row, at the end of a past, without a detection. */
  function Absent(past: Past): nat {
    if past == [] || past[|past| - 1].Some? then 0 else Absent(past[..|past| - 1]) + 1
  }

  function Centers(dets: seq<Detection>): (r: seq<Point>)
    ensures |r| == |dets|
  {
    seq(|dets|, i requires 0 <= i < |dets| => Center(dets[i]))
  }

  /** The last `n` elements, or all if there are fewer. */
  function Tail<T>(s: seq<T>, n: nat): (r: seq<T>) {
    if |s| <= n then s else s[|s| - n..]
  }

  function PointLimit(cfg: Config): nat {
    if cfg.maxPoints < 1 then 1 else cfg.maxPoints
  }

  /** The fields of a track, read off its past. */
  ghost predicate Tells(cfg: Config, track: Track, past: Past) {
    var seen := Sightings(past);
    && seen != [] && track.last == seen[|seen| - 1] && track.age == |seen|
    && track.trajectory == Tail(Centers(seen), PointLimit(cfg))
    && track.missing == (if Absent(past) < DeadAt(cfg) then Absent(past) else DeadAt(cfg))
    && (track.active <==> Absent(past) < DeadAt(cfg))
  }

  lemma PastSnoc(past: Past, e: Option<Detection>)
    ensures Sightings(past + [e]) == if e.Some? then Sightings(past) + [e.value] else Sightings(past)
    ensures Absent(past + [e]) == if e.Some? then 0 else Absent(past) + 1
  {
    assert (past + [e])[..|past|] == past;
  }

  lemma ExtendedIsTail(cfg: Config, all: seq<Point>, p: Point)
    requires all != []
    ensures Extended(cfg, Tail(all, PointLimit(cfg)), p) == Tail(all + [p], PointLimit(cfg))
  {
  }

  /** Matching and ageing keep a track in step with its past. */
  lemma TouchedTells(cfg: Config, track: Track, past: Past, dets: seq<Detection>, found: Option<nat>)
    requires Tells(cfg, track, past) && (found.Some? ==> track.active && found.value < |dets|)
    ensures Tells(cfg, Touched(cfg, track, dets, found),
                  past + [if found.Some? then Some(dets[found.value]) else None])
  {
    var seen := Sightings(past);
    PastSnoc(past, if found.Some? then Some(dets[found.value]) else None);
    hide Sightings, Absent;
    if found.Some? {
      var d := dets[found.value];
      ExtendedIsTail(cfg, Centers(seen), Center(d));
      assert Centers(seen + [d]) == Centers(seen) + [Center(d)];
    }
  }

  lemma NewTrackTells(cfg: Config, id: int, d: Detection)
    ensures Tells(cfg, NewTrack(id, d), [Some(d)])
  {
    var past: Past := [Some(d)];
    assert past[..0] == [] && Sightings([]) == [];
    assert Sightings(past) == [d] && Absent(past) == 0;
    hide Sightings, Absent;
    assert Centers([d]) == [Center(d)];
  }

  /** The position of a track. */
  function IndexOf(tracks: seq<Track>, id: int): (k: nat)
    ensures k <= |tracks| && (k < |tracks| ==> tracks[k].id == id)
    ensures forall i :: 0 <= i < k ==> tracks[i].id != id
  {
    if tracks == [] then 0 else if tracks[0].id == id then 0 else 1 + IndexOf(tracks[1..], id)
  }

  /** What a frame adds to the past of an old track: the detection the matching gives it. */
  function Entry(st: Tracker, dets: seq<Detection>, order: seq<Pair>, id: int): Option<Detection> {
    match MatchOf(Greedy(order), IndexOf(st.tracks, id))
    case None => None
    case Some(d) => if d < |dets| then Some(dets[d]) else None
  }

  function Numbers(from: int, n: nat): (r: set<int>)
    ensures forall id :: id in r <==> from <= id < from + n
  {
    if n == 0 then {} else Numbers(from, n - 1) + {from + n - 1}
  }

  /** Pasts after a frame: one more entry for old tracks, one entry for new ones. */
  ghost function NextPasts(st: Tracker, pasts: map<int, Past>, dets: seq<Detection>, order: seq<Pair>): map<int, Past> {
    var created := Created(dets, Greedy(order), st.nextId, |dets|);
    map id | id in pasts.Keys + Numbers(st.nextId, |created|) ::
      if id in pasts then pasts[id] + [Entry(st, dets, order, id)] else [Some(created[id - st.nextId].last)]
  }

  lemma NextPastsAt(st: Tracker, pasts: map<int, Past>, dets: seq<Detection>, order: seq<Pair>, id: int)
    ensures
      var created, next := Created(dets, Greedy(order), st.nextId, |dets|), NextPasts(st, pasts, dets, order);
      && (id in next <==> id in pasts || st.nextId <= id < st.nextId + |created|)
      && (id in pasts ==> next[id] == pasts[id] + [Entry(st, dets, order, id)])
      && (id !in pasts && id in next ==> next[id] == [Some(created[id - st.nextId].last)])
  {
    hide Created, Greedy, Entry;
  }

  /** Runs together with the past of every track opened. */
  ghost predicate ReachesWith(cfg: Config, frames: seq<Frame>, st: Tracker, pasts: map<int, Past>)
    decreases |frames|
  {
    if frames == [] then st == FRESH && pasts == map[]
    else
      var f := frames[|frames| - 1];
      exists before, earlier ::
        && ReachesWith(cfg, frames[..|frames| - 1], before, earlier)
        && ValidOrder(cfg, before.tracks, f.dets, f.order)
        && st == Updated(cfg, before, f.dets, f.order) && pasts == NextPasts(before, earlier, f.dets, f.order)
  }

  ghost predicate AllTell(cfg: Config, st: Tracker, pasts: map<int, Past>) {
    && (forall id :: id in pasts ==> id < st.nextId)
    && forall x :: x in st.tracks ==> x.id in pasts && Tells(cfg, x, pasts[x.id])
  }

  lemma OldTrackTells(cfg: Config, st: Tracker, pasts: map<int, Past>, dets: seq<Detection>, order: seq<Pair>, t: nat)
    requires Invariant(cfg, st) && ValidOrder(cfg, st.tracks, dets, order) && AllTell(cfg, st, pasts) && t < |st.tracks|
    ensures
      var x, next := Touched(cfg, st.tracks[t], dets, MatchOf(Greedy(order), t)), NextPasts(st, pasts, dets, order);
      x.id in next && Tells(cfg, x, next[x.id])
  {
    var chosen, track := Greedy(order), st.tracks[t];
    var k := IndexOf(st.tracks, track.id);
    assert track in st.tracks && k == t;
    GreedyUsable(cfg, st.tracks, dets, order);
    MatchOfChosen(chosen, t);
    assert MatchOf(chosen, t).Some? ==> track.active && MatchOf(chosen, t).value < |dets|;
    NextPastsAt(st, pasts, dets, order, track.id);
    hide Greedy, MatchOf, Tells, IndexOf, Invariant, ValidOrder, Usable, Created, NextPasts;
    TouchedTells(cfg, track, pasts[track.id], dets, MatchOf(chosen, t));
  }

  lemma NewTrackRemembered(cfg: Config, st: Tracker, pasts: map<int, Past>, dets: seq<Detection>, order: seq<Pair>,
                           k: nat)
    requires AllTell(cfg, st, pasts) && k < |Created(dets, Greedy(order), st.nextId, |dets|)|
    ensures
      var x, next := Created(dets, Greedy(order), st.nextId, |dets|)[k], NextPasts(st, pasts, dets, order);
      x.id == st.nextId + k && x.id in next && Tells(cfg, x, next[x.id])
  {
    var d := CreatedFrom(dets, Greedy(order), st.nextId, |dets|, k);
    NextPastsAt(st, pasts, dets, order, st.nextId + k);
    hide Created, Greedy, Tells, Entry, NextPasts;
    NewTrackTells(cfg, st.nextId + k, dets[d]);
  }

  lemma GrownTells(cfg: Config, st: Tracker, pasts: map<int, Past>, dets: seq<Detection>, order: seq<Pair>, i: nat)
    requires Invariant(cfg, st) && ValidOrder(cfg, st.tracks, dets, order) && AllTell(cfg, st, pasts)
    requires i < |Grown(cfg, st, dets, Greedy(order))|
    ensures
      var x, next := Grown(cfg, st, dets, Greedy(order))[i], NextPasts(st, pasts, dets, order);
      x.id in next && Tells(cfg, x, next[x.id])
  {
    hide Greedy, Touched, Created, Tells, ValidOrder, Invariant, MatchOf, NextPasts, AllTell;
    if i < |st.tracks| {
      OldTrackTells(cfg, st, pasts, dets, order, i);
    } else {
      NewTrackRemembered(cfg, st, pasts, dets, order, i - |st.tracks|);
    }
  }

  lemma PastsNumbered(cfg: Config, st: Tracker, pasts: map<int, Past>, dets: seq<Detection>, order: seq<Pair>, id: int)
    requires AllTell(cfg, st, pasts) && id in NextPasts(st, pasts, dets, order)
    ensures id < Updated(cfg, st, dets, order).nextId
  {
    NextPastsAt(st, pasts, dets, order, id);
    hide Greedy, Created, NextPasts, Surviving, Grown, Tells;
  }

  lemma SurvivorTells(cfg: Config, st: Tracker, pasts: map<int, Past>, dets: seq<Detection>, order: seq<Pair>, x: Track)
    requires Invariant(cfg, st) && ValidOrder(cfg, st.tracks, dets, order) && AllTell(cfg, st, pasts)
    requires x in Updated(cfg, st, dets, order).tracks
    ensures var next := NextPasts(st, pasts, dets, order); x.id in next && Tells(cfg, x, next[x.id])
  {
    var grown := Grown(cfg, st, dets, Greedy(order));
    SurvivingShape(cfg, grown);
    assert x in grown;
    hide Updated, Grown, Greedy, Created, Surviving, Stays, Tells, Invariant, ValidOrder, NextPasts, AllTell;
    var i :| 0 <= i < |grown| && grown[i] == x;
    GrownTells(cfg, st, pasts, dets, order, i);
  }

  lemma UpdateTells(cfg: Config, st: Tracker, pasts: map<int, Past>, dets: seq<Detection>, order: seq<Pair>)
    requires Invariant(cfg, st) && ValidOrder(cfg, st.tracks, dets, order) && AllTell(cfg, st, pasts)
    ensures AllTell(cfg, Updated(cfg, st, dets, order), NextPasts(st, pasts, dets, order))
  {
    hide Updated, Tells, Invariant, ValidOrder, NextPasts;
    var after, next := Updated(cfg, st, dets, order), NextPasts(st, pasts, dets, order);
    forall id | id in next ensures id < after.nextId {
      PastsNumbered(cfg, st, pasts, dets, order, id);
    }
    forall x | x in after.tracks ensures x.id in next && Tells(cfg, x, next[x.id]) {
      SurvivorTells(cfg, st, pasts, dets, order, x);
    }
  }

  /**
    * On every run each track is what its past says: it ends at its newest detection, its age counts its detections, its
    * trajectory holds the middles of the newest of them, and it is active, counting the frames without a detection,
    * until they are more than the limit.
    */
  lemma {:induction false} TracksTellTheirPast(cfg: Config, frames: seq<Frame>, st: Tracker, pasts: map<int, Past>)
    requires ReachesWith(cfg, frames, st, pasts)
    ensures Reaches(cfg, frames, st) && AllTell(cfg, st, pasts)
    decreases |frames|
  {
    hide AllTell, NextPasts, Updated, ValidOrder, Invariant;
    if frames == [] {
      NobodyTells(cfg);
    } else {
      var f := frames[|frames| - 1];
      var before, earlier :|
        && ReachesWith(cfg, frames[..|frames| - 1], before, earlier)
        && ValidOrder(cfg, before.tracks, f.dets, f.order)
        && st == Updated(cfg, before, f.dets, f.order) && pasts == NextPasts(before, earlier, f.dets, f.order);
      TracksTellTheirPast(cfg, frames[..|frames| - 1], before, earlier);
      RunInvariant(cfg, frames[..|frames| - 1], before);
      UpdateTells(cfg, before, earlier, f.dets, f.order);
    }
  }

  lemma NobodyTells(cfg: Config)
    ensures AllTell(cfg, FRESH, map[])
  {
  }

  // ---------- the tracker object ----------

  ghost predicate NoRepeats(ps: seq<Pair>) {
    forall p :: multiset(ps)[p] <= 1
  }

  lemma NoRepeatsSnoc(ps: seq<Pair>, p: Pair)
    requires NoRepeats(ps) && p !in ps
    ensures NoRepeats(ps + [p])
  {
    assert p !in multiset(ps);
  }

  /** Every active track against every detection. */
  method BuildPairs(cfg: Config, tracks: seq<Track>, dets: seq<Detection>) returns (pairs: seq<Pair>)
    ensures forall p :: p in pairs <==> Qualifies(cfg, tracks, dets, p)
    ensures NoRepeats(pairs)
  {
    pairs := [];
    assert NoRepeats(pairs);
    hide Iou, NoRepeats;
    for t := 0 to |tracks|
      invariant NoRepeats(pairs)
      invariant forall p :: p in pairs <==> p.t < t && Qualifies(cfg, tracks, dets, p)
    {
      if tracks[t].active {
        for d := 0 to |dets|
          invariant NoRepeats(pairs)
          invariant forall p :: p in pairs <==> (p.t < t || (p.t == t && p.d < d)) && Qualifies(cfg, tracks, dets, p)
        {
          var iou := Iou(tracks[t].last, dets[d]);
          if iou >= cfg.threshold {
            NoRepeatsSnoc(pairs, Pair(t, d, iou));
            pairs := pairs + [Pair(t, d, iou)];
          }
        }
      }
    }
  }

  /** Insertion into a descending list, behind equals. */
  method InsertPair(sorted: seq<Pair>, p: Pair) returns (r: seq<Pair>)
    requires Descending(sorted)
    ensures Descending(r) && multiset(r) == multiset(sorted) + multiset{p}
  {
    hide Descending;
    var k := 0;
    while k < |sorted| && sorted[k].iou >= p.iou
      invariant 0 <= k <= |sorted| && forall i :: 0 <= i < k ==> sorted[i].iou >= p.iou
    {
      k := k + 1;
    }
    r := sorted[..k] + [p] + sorted[k..];
    InsertedElements(sorted, k, p);
    InsertKeepsOrder(sorted, k, p);
  }

  lemma InsertKeepsOrder(s: seq<Pair>, k: nat, p: Pair)
    requires Descending(s) && k <= |s|
    requires (forall i :: 0 <= i < k ==> s[i].iou >= p.iou) && (k < |s| ==> s[k].iou < p.iou)
    ensures Descending(s[..k] + [p] + s[k..])
  {
    var r := s[..k] + [p] + s[k..];
    forall i, j | 0 <= i < j < |r| ensures r[i].iou >= r[j].iou {
      if k < j {
        assert r[j] == s[j - 1];
      }
      if k < i {
        assert r[i] == s[i - 1];
      }
    }
  }

  /** The library sort. */
  method SortPairs(pairs: seq<Pair>) returns (sorted: seq<Pair>)
    ensures Descending(sorted) && multiset(sorted) == multiset(pairs)
  {
    hide Descending;
    sorted := EmptyOrder();
    for i := 0 to |pairs|
      invariant Descending(sorted) && multiset(sorted) == multiset(pairs[..i])
    {
      sorted := InsertPair(sorted, pairs[i]);
      assert pairs[..i + 1] == pairs[..i] + [pairs[i]];
    }
    assert pairs[..|pairs|] == pairs;
  }

  method EmptyOrder() returns (sorted: seq<Pair>)
    ensures sorted == [] && Descending(sorted)
  {
    sorted := [];
  }

  /** The candidate pairs, best first. */
  method SortedPairs(cfg: Config, tracks: seq<Track>, dets: seq<Detection>) returns (sorted: seq<Pair>)
    ensures ValidOrder(cfg, tracks, dets, sorted) && NoRepeats(sorted)
    ensures forall k :: 0 <= k < |sorted| ==> sorted[k].t < |tracks| && sorted[k].d < |dets|
  {
    hide Iou;
    var pairs := BuildPairs(cfg, tracks, dets);
    sorted := SortPairs(pairs);
    SameElements(pairs, sorted);
    assert forall k :: 0 <= k < |sorted| ==> Qualifies(cfg, tracks, dets, sorted[k]) by {
      assert forall k :: 0 <= k < |sorted| ==> sorted[k] in sorted;
    }
  }

  class IouTracker {
    var config: Config
    var tracks: seq<Track>
    var nextId: int

    ghost function View(): Tracker
      reads this
    {
      Tracker(tracks, nextId)
    }

    constructor (cfg: Config)
      ensures config == cfg && View() == FRESH
    {
      config, tracks, nextId := cfg, [], 1;
    }

    method Reset()
      modifies this
      ensures config == old(config) && View() == FRESH
    {
      tracks, nextId := [], 1;
    }

    method Update(dets: seq<Detection>) returns (ghost order: seq<Pair>)
      modifies this
      ensures config == old(config)
      ensures ValidOrder(config, old(tracks), dets, order)
      ensures View() == Updated(config, old(View()), dets, order)
    {
      var trackMatched := new bool[|tracks|](_ => false);
      var detMatched := new bool[|dets|](_ => false);
      var sorted := SortedPairs(config, tracks, dets);
      order := sorted;
      GreedyUsable(config, tracks, dets, sorted);
      ghost var chosen := Greedy(sorted);
      hide ValidOrder, Greedy, Usable, Grown, Surviving, MatchOf, DetMatched, Touched, Created;
      MatchGreedily(sorted, dets, trackMatched, detMatched);
      AgeUnmatched(trackMatched, old(tracks), dets, chosen);
      CreateTracks(dets, detMatched, chosen);
      GrownIs(config, old(View()), dets, chosen, tracks, nextId);
      RemoveDead();
    }

    /** Goes through the sorted pairs once, taking each whose track and detection are still free. */
    method MatchGreedily(sorted: seq<Pair>, dets: seq<Detection>, trackMatched: array<bool>, detMatched: array<bool>)
      requires trackMatched != detMatched && trackMatched.Length == |tracks| && detMatched.Length == |dets|
      requires forall t :: 0 <= t < |tracks| ==> !trackMatched[t]
      requires forall d :: 0 <= d < |dets| ==> !detMatched[d]
      requires forall k :: 0 <= k < |sorted| ==> sorted[k].t < |tracks| && sorted[k].d < |dets|
      modifies this`tracks, trackMatched, detMatched
      ensures MatchState(config, old(tracks), dets, Greedy(sorted), tracks, trackMatched[..], detMatched[..])
    {
      hide MatchOf, DetMatched, Matched, Free;
      MatchStart(config, tracks, dets, trackMatched[..], detMatched[..]);
      for k := 0 to |sorted|
        invariant MatchState(config, old(tracks), dets, Greedy(sorted[..k]), tracks, trackMatched[..], detMatched[..])
      {
        var p := sorted[k];
        ghost var chosen := Greedy(sorted[..k]);
        assert sorted[..k + 1][..k] == sorted[..k];
        FreeIffUnmatched(chosen, p);
        if !trackMatched[p.t] && !detMatched[p.d] {
          MatchSnoc(chosen, p);
          trackMatched[p.t] := true;
          detMatched[p.d] := true;
          tracks := tracks[p.t := Matched(config, tracks[p.t], dets[p.d])];
        }
      }
      assert sorted[..|sorted|] == sorted;
    }

    method AgeUnmatched(trackMatched: array<bool>, ghost before: seq<Track>, ghost dets: seq<Detection>,
                        ghost chosen: seq<Pair>)
      requires Usable(before, dets, chosen) && |tracks| == |before| == trackMatched.Length
      requires forall t :: 0 <= t < |before| ==> trackMatched[t] == MatchOf(chosen, t).Some?
      requires forall t :: 0 <= t < |before| ==>
                 tracks[t] == match MatchOf(chosen, t)
                              case None => before[t]
                              case Some(d) => if d < |dets| then Matched(config, before[t], dets[d]) else before[t]
      modifies this`tracks
      ensures tracks == TouchedAll(config, before, dets, chosen)
    {
      hide MatchOf, Matched, Aged;
      forall t | 0 <= t < |before| && MatchOf(chosen, t).Some? ensures MatchOf(chosen, t).value < |dets| {
        MatchOfChosen(chosen, t);
      }
      for t := 0 to |tracks|
        invariant |tracks| == |before|
        invariant forall u :: t <= u < |tracks| ==> tracks[u] == old(tracks)[u]
        invariant forall u :: 0 <= u < t ==> tracks[u] == Touched(config, before[u], dets, MatchOf(chosen, u))
      {
        if !trackMatched[t] {
          tracks := tracks[t := Aged(config, tracks[t])];
        }
      }
    }

    method CreateTracks(dets: seq<Detection>, detMatched: array<bool>, ghost chosen: seq<Pair>)
      requires detMatched.Length == |dets|
      requires forall d :: 0 <= d < |dets| ==> detMatched[d] == DetMatched(chosen, d)
      modifies this`tracks, this`nextId
      ensures tracks == old(tracks) + Created(dets, chosen, old(nextId), |dets|)
      ensures nextId == old(nextId) + |Created(dets, chosen, old(nextId), |dets|)|
    {
      for d := 0 to |dets|
        invariant tracks == old(tracks) + Created(dets, chosen, old(nextId), d)
        invariant nextId == old(nextId) + |Created(dets, chosen, old(nextId), d)|
      {
        if !detMatched[d] {
          tracks := tracks + [NewTrack(nextId, dets[d])];
          nextId := nextId + 1;
        }
      }
    }

    method RemoveDead()
      modifies this`tracks
      ensures tracks == Surviving(config, old(tracks))
    {
      var left := [];
      for i := 0 to |tracks|
        invariant left == Surviving(config, tracks[..i])
      {
        assert tracks[..i + 1][..i] == tracks[..i];
        if tracks[i].active || tracks[i].missing <= config.maxMissing * 2 {
          left := left + [tracks[i]];
        }
      }
      assert tracks[..|tracks|] == tracks;
      tracks := left;
    }

    /** The track with this id, if there is one. */
    method GetTrack(id: int) returns (found: Option<Track>)
      ensures found.Some? ==> found.value in tracks && found.value.id == id
      ensures found.None? <==> forall x :: x in tracks ==> x.id != id
    {
      for i := 0 to |tracks|
        invariant forall j :: 0 <= j < i ==> tracks[j].id != id
      {
        if tracks[i].id == id {
          return Some(tracks[i]);
        }
      }
      return None;
    }
  }

  lemma SameElements(a: seq<Pair>, b: seq<Pair>)
    requires multiset(a) == multiset(b)
    ensures forall p :: p in a <==> p in b
  {
    assert forall p :: p in a <==> p in multiset(a);
    assert forall p :: p in b <==> p in multiset(b);
  }

  /** The tracks and flags after taking `chosen`. */
  ghost predicate MatchState(cfg: Config, before: seq<Track>, dets: seq<Detection>, chosen: seq<Pair>,
                             after: seq<Track>, trackMatched: seq<bool>, detMatched: seq<bool>) {
    && |after| == |before| == |trackMatched| && |detMatched| == |dets|
    && (forall t :: 0 <= t < |before| ==> trackMatched[t] == MatchOf(chosen, t).Some?)
    && (forall d :: 0 <= d < |dets| ==> detMatched[d] == DetMatched(chosen, d))
    && (forall t :: 0 <= t < |before| ==>
          after[t] == match MatchOf(chosen, t)
                      case None => before[t]
                      case Some(d) => if d < |dets| then Matched(cfg, before[t], dets[d]) else before[t])
  }

  lemma MatchStart(cfg: Config, tracks: seq<Track>, dets: seq<Detection>, trackMatched: seq<bool>,
                   detMatched: seq<bool>)
    requires |trackMatched| == |tracks| && |detMatched| == |dets|
    requires forall t :: 0 <= t < |tracks| ==> !trackMatched[t]
    requires forall d :: 0 <= d < |dets| ==> !detMatched[d]
    ensures MatchState(cfg, tracks, dets, Greedy([]), tracks, trackMatched, detMatched)
  {
  }

  lemma FreeIffUnmatched(chosen: seq<Pair>, p: Pair)
    ensures Free(chosen, p) <==> MatchOf(chosen, p.t).None? && !DetMatched(chosen, p.d)
  {
    MatchOfChosen(chosen, p.t);
  }

  lemma MatchSnoc(chosen: seq<Pair>, p: Pair)
    ensures forall t :: MatchOf(chosen + [p], t) == if p.t == t then Some(p.d) else MatchOf(chosen, t)
    ensures forall d :: DetMatched(chosen + [p], d) <==> p.d == d || DetMatched(chosen, d)
  {
    var longer := chosen + [p];
    assert longer[..|chosen|] == chosen;
    forall d ensures DetMatched(longer, d) <==> p.d == d || DetMatched(chosen, d) {
      if DetMatched(chosen, d) {
        var i :| 0 <= i < |chosen| && chosen[i].d == d;
        assert longer[i].d == d;
      }
      if p.d == d {
        assert longer[|chosen|].d == d;
      }
    }
  }

  lemma GrownIs(cfg: Config, st: Tracker, dets: seq<Detection>, chosen: seq<Pair>, tracks: seq<Track>, nextId: int)
    requires tracks == TouchedAll(cfg, st.tracks, dets, chosen) + Created(dets, chosen, st.nextId, |dets|)
    ensures tracks == Grown(cfg, st, dets, chosen)
  {
  }
}
