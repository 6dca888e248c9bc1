/** What the evaluators under src/rules/evaluators share: the rule, the frame context, filtering and stale entries. */
module Rules {
  import opened Detections
  import opened Sequences
  import opened IouTracker
  import opened Options

  datatype Rule = Rule(start: Point, end: Point, bidirectional: bool, vertices: seq<Point>, loiterSeconds: int,
                       cooldownSeconds: int, minConfidence: real, classes: seq<string>)
  datatype Size = Size(width: int, height: int)
  datatype Context = Context(timestamp: int, size: Size)

  /** The tracker settings every evaluator configures. */
  const TRACKING := Config(0.25, 10, 30)

  predicate Passes(rule: Rule, det: Detection) {
    det.confidence >= rule.minConfidence && (rule.classes == [] || det.className in rule.classes)
  }

  function Filtered(rule: Rule, dets: seq<Detection>): seq<Detection> {
    Filter(dets, (det: Detection) => Passes(rule, det))
  }

  predicate HasTrack(tracks: seq<Track>, id: int) {
    exists i :: 0 <= i < |tracks| && tracks[i].id == id
  }

  /** Entries of tracks that are gone are dropped. */
  function Prune<V>(m: map<int, V>, tracks: seq<Track>): map<int, V> {
    map id | id in m && HasTrack(tracks, id) :: m[id]
  }

  lemma PruneKeepsAll<V>(m: map<int, V>, tracks: seq<Track>)
    requires forall id :: id in m ==> HasTrack(tracks, id)
    ensures Prune(m, tracks) == m
  {
  }

  /** With this limit no track is removed, so ids seen before are still there. */
  lemma TracksStay(st: Tracker, dets: seq<Detection>, order: seq<Pair>, id: int)
    requires Invariant(TRACKING, st) && ValidOrder(TRACKING, st.tracks, dets, order) && HasTrack(st.tracks, id)
    ensures HasTrack(Updated(TRACKING, st, dets, order).tracks, id)
  {
    UpdateKeepsInvariant(TRACKING, st, dets, order);
    var after := Updated(TRACKING, st, dets, order);
    var i :| 0 <= i < |st.tracks| && st.tracks[i].id == id;
    assert Complete(st.tracks, st.nextId) && Complete(after.tracks, after.nextId);
    assert after.nextId >= st.nextId;
    assert after.tracks[i].id == id;
  }

  lemma FilteredOne(rule: Rule, d: Detection)
    requires Passes(rule, d)
    ensures Filtered(rule, [d]) == [d]
  {
    assert [d][..0] == [];
  }

  /** A detection that overlaps no track becomes the newest one. */
  lemma NewcomerTracked(st: Tracker, d: Detection)
    requires forall t :: 0 <= t < |st.tracks| ==> Iou(st.tracks[t].last, d) < TRACKING.threshold
    ensures ValidOrder(TRACKING, st.tracks, [d], [])
    ensures var tracks := Updated(TRACKING, st, [d], []).tracks;
            tracks != [] && tracks[|tracks| - 1] == NewTrack(st.nextId, d)
    ensures st.tracks == [] ==> Updated(TRACKING, st, [d], []) == Tracker([NewTrack(st.nextId, d)], st.nextId + 1)
  {
    hide Iou;
    var created := Created([d], [], st.nextId, 1);
    assert Created([d], [], st.nextId, 0) == [];
    assert created == [NewTrack(st.nextId, d)];
    var touched := TouchedAll(TRACKING, st.tracks, [d], []);
    var grown := touched + created;
    assert Grown(TRACKING, st, [d], []) == grown && grown[..|grown| - 1] == touched;
    assert Surviving(TRACKING, touched + created) == Surviving(TRACKING, touched) + created;
  }

  /** A detection on its own that overlaps the only track goes on with it. */
  lemma SeenAgain(t: Track, n: int, d: Detection, p: Pair)
    requires t.active && Iou(t.last, d) >= TRACKING.threshold && p == Pair(0, 0, Iou(t.last, d))
    ensures ValidOrder(TRACKING, [t], [d], [p])
    ensures Updated(TRACKING, Tracker([t], n), [d], [p]) == Tracker([Matched(TRACKING, t, d)], n)
  {
    hide Iou;
    var order := [p];
    assert order[..0] == [];
    assert Greedy(order[..0]) == [];
    assert Greedy(order) == [p];
    assert Created([d], order, n, 0) == [];
    assert DetMatched(order, 0);
    assert Created([d], order, n, 1) == [];
    assert MatchOf(order, 0) == Some(0);
    var after := Matched(TRACKING, t, d);
    assert TouchedAll(TRACKING, [t], [d], order) == [after];
    assert [after] + [] == [after];
    KeptAlone(after);
  }

  /** Without detections the only track ages. */
  lemma UnseenOnce(t: Track, n: int)
    requires t.active && t.missing == 0
    ensures ValidOrder(TRACKING, [t], [], [])
    ensures Updated(TRACKING, Tracker([t], n), [], []) == Tracker([t.(missing := 1)], n)
  {
    var after := t.(missing := 1);
    assert Greedy([]) == [] && Created([], [], n, 0) == [] && MatchOf([], 0) == None;
    assert TouchedAll(TRACKING, [t], [], []) == [after];
    assert [after] + [] == [after];
    KeptAlone(after);
  }

  lemma KeptAlone(t: Track)
    requires t.active
    ensures Surviving(TRACKING, [t]) == [t]
  {
    FilterOne(t, (track: Track) => Stays(TRACKING, track));
  }

  method FilterDetections(rule: Rule, dets: seq<Detection>) returns (result: seq<Detection>)
    ensures result == Filtered(rule, dets) && Subsequence(result, dets)
    ensures forall det :: det in result <==>
              && det in dets && det.confidence >= rule.minConfidence
              && (rule.classes == [] || det.className in rule.classes)
  {
    FilterSubsequence(dets, (det: Detection) => Passes(rule, det));
    result := [];
    for i := 0 to |dets|
      invariant result == Filtered(rule, dets[..i])
    {
      assert dets[..i + 1][..i] == dets[..i];
      if dets[i].confidence >= rule.minConfidence && (rule.classes == [] || dets[i].className in rule.classes) {
        result := result + [dets[i]];
      }
    }
    assert dets[..|dets|] == dets;
  }

  /** Walks over the recorded ids and erases those without a track. */
  method EraseStale<V>(m: map<int, V>, tracks: seq<Track>) returns (left: map<int, V>)
    ensures left == Prune(m, tracks)
  {
    left := m;
    var todo: set<int> := m.Keys;
    while todo != {}
      invariant todo <= m.Keys
      invariant forall id :: id in left.Keys <==> id in m.Keys && (id in todo || HasTrack(tracks, id))
      invariant forall id :: id in left.Keys ==> left[id] == m[id]
      decreases todo
    {
      SomeMember(todo);
      var id :| id in todo;
      if !HasTrack(tracks, id) {
        left := left - {id};
      }
      todo := todo - {id};
    }
    forall id ensures id in left.Keys <==> id in Prune(m, tracks).Keys {
      assert id in Prune(m, tracks).Keys <==> id in m && HasTrack(tracks, id);
    }
    assert left.Keys == Prune(m, tracks).Keys;
  }
}
