/**
  * Non-maximum suppression as in src/ai_engine/yolo_adapter/yolov8_adapter.cc, yolov5_adapter.cc and
  * src/ai_engine/face/face_detector_adapter.cc. Sorting is taken as any order of descending confidence.
  */
module Nms {
  import opened Detections
  import opened Sequences

  datatype Variant = YoloV8 | YoloV5 | Face

  /** Whether a kept box `a` suppresses a later box `b`, as each variant writes the test. */
  predicate Suppresses(v: Variant, threshold: real, a: Detection, b: Detection) {
    match v
    case YoloV8 =>
      a.classId == b.classId && UnionArea(a, b) > 0.0 && Intersection(a, b) / UnionArea(a, b) > threshold
    case YoloV5 =>
      a.classId == b.classId
      && (if UnionArea(a, b) > 0.0 then Intersection(a, b) / UnionArea(a, b) else 0.0) > threshold
    case Face =>
      (if UnionArea(a, b) > 0.0 then Intersection(a, b) / UnionArea(a, b) else 0.0) > threshold
  }

  ghost predicate Descending(ds: seq<Detection>) {
    forall i, j :: 0 <= i < j < |ds| ==> ds[i].confidence >= ds[j].confidence
  }

  /** Box `i` survives: no surviving box before it suppresses it. */
  predicate Alive(v: Variant, threshold: real, ds: seq<Detection>, i: nat)
    requires i < |ds|
    decreases i
  {
    forall k :: 0 <= k < i ==> !(Alive(v, threshold, ds, k) && Suppresses(v, threshold, ds[k], ds[i]))
  }

  /** The survivors among the first `n` boxes. */
  function Survivors(v: Variant, threshold: real, ds: seq<Detection>, n: nat): seq<Detection>
    requires n <= |ds|
  {
    if n == 0 then []
    else Survivors(v, threshold, ds, n - 1) + (if Alive(v, threshold, ds, n - 1) then [ds[n - 1]] else [])
  }

  // ---------- the loops ----------

  /** Some surviving box among the first `i` before `j` suppresses `j`. */
  ghost predicate Hit(v: Variant, threshold: real, ds: seq<Detection>, i: nat, j: nat)
    requires i <= |ds| && j < |ds|
  {
    exists k :: 0 <= k < i && k < j && Alive(v, threshold, ds, k) && Suppresses(v, threshold, ds[k], ds[j])
  }

  /** The double loop over an already sorted list, marking suppressed boxes. */
  method MarkSuppressed(v: Variant, threshold: real, ds: seq<Detection>) returns (suppressed: array<bool>)
    ensures fresh(suppressed) && suppressed.Length == |ds|
    ensures forall i :: 0 <= i < |ds| ==> suppressed[i] == !Alive(v, threshold, ds, i)
  {
    suppressed := new bool[|ds|](_ => false);
    for i := 0 to |ds|
      invariant forall j :: 0 <= j < |ds| ==> suppressed[j] == Hit(v, threshold, ds, i, j)
    {
      AliveIffNotHit(v, threshold, ds, i);
      HitStep(v, threshold, ds, i);
      hide Suppresses, Alive, Hit;
      if !suppressed[i] {
        SuppressFrom(v, threshold, ds, i, suppressed);
      }
    }
    forall i | 0 <= i < |ds| ensures suppressed[i] == !Alive(v, threshold, ds, i) {
      HitAll(v, threshold, ds, i);
    }
  }

  /** The inner loop for a surviving box `i`. */
  method SuppressFrom(v: Variant, threshold: real, ds: seq<Detection>, i: nat, suppressed: array<bool>)
    requires i < |ds| && suppressed.Length == |ds|
    modifies suppressed
    ensures forall j :: 0 <= j < |ds| ==>
              suppressed[j] == (old(suppressed[j]) || (i < j && Suppresses(v, threshold, ds[i], ds[j])))
  {
    hide Suppresses;
    for j := i + 1 to |ds|
      invariant forall m :: 0 <= m < |ds| ==>
                  suppressed[m] == (old(suppressed[m]) || (i < m < j && Suppresses(v, threshold, ds[i], ds[m])))
    {
      if !suppressed[j] {
        var overlaps := Suppresses(v, threshold, ds[i], ds[j]);
        if overlaps {
          suppressed[j] := true;
        }
      }
    }
  }

  lemma AliveIffNotHit(v: Variant, threshold: real, ds: seq<Detection>, i: nat)
    requires i < |ds|
    ensures Alive(v, threshold, ds, i) == !Hit(v, threshold, ds, i, i)
  {
    hide Suppresses;
  }

  lemma HitStep(v: Variant, threshold: real, ds: seq<Detection>, i: nat)
    requires i < |ds|
    ensures forall j :: 0 <= j < |ds| ==>
              Hit(v, threshold, ds, i + 1, j) ==
              (Hit(v, threshold, ds, i, j)
               || (Alive(v, threshold, ds, i) && i < j && Suppresses(v, threshold, ds[i], ds[j])))
  {
    hide Suppresses, Alive;
    forall j | 0 <= j < |ds|
      ensures Hit(v, threshold, ds, i + 1, j) ==
              (Hit(v, threshold, ds, i, j)
               || (Alive(v, threshold, ds, i) && i < j && Suppresses(v, threshold, ds[i], ds[j])))
    {
      if Hit(v, threshold, ds, i, j) {
        var k :| 0 <= k < i && k < j && Alive(v, threshold, ds, k) && Suppresses(v, threshold, ds[k], ds[j]);
        assert 0 <= k < i + 1;
      }
    }
  }

  lemma HitAll(v: Variant, threshold: real, ds: seq<Detection>, i: nat)
    requires i < |ds|
    ensures Hit(v, threshold, ds, |ds|, i) == !Alive(v, threshold, ds, i)
  {
    hide Suppresses;
  }

  /** Insertion by descending confidence. */
  method InsertByConfidence(sorted: seq<Detection>, d: Detection) returns (r: seq<Detection>)
    requires Descending(sorted)
    ensures Descending(r) && multiset(r) == multiset(sorted) + multiset{d}
  {
    var k := 0;
    while k < |sorted| && sorted[k].confidence >= d.confidence
      invariant 0 <= k <= |sorted| && forall i :: 0 <= i < k ==> sorted[i].confidence >= d.confidence
    {
      k := k + 1;
    }
    r := sorted[..k] + [d] + sorted[k..];
    InsertedElements(sorted, k, d);
    InsertedDescending(sorted, k, d);
  }

  lemma InsertedDescending(s: seq<Detection>, k: nat, d: Detection)
    requires Descending(s) && k <= |s|
    requires (forall i :: 0 <= i < k ==> s[i].confidence >= d.confidence)
             && (k < |s| ==> s[k].confidence < d.confidence)
    ensures Descending(s[..k] + [d] + s[k..])
  {
    var r := s[..k] + [d] + s[k..];
    forall i, j | 0 <= i < j < |r| ensures r[i].confidence >= r[j].confidence {
      if k < j {
        assert r[j] == s[j - 1];
      }
      if k < i {
        assert r[i] == s[i - 1];
      }
    }
  }

  method SortByConfidence(ds: seq<Detection>) returns (sorted: seq<Detection>)
    ensures Descending(sorted) && multiset(sorted) == multiset(ds)
  {
    sorted := [];
    for i := 0 to |ds|
      invariant Descending(sorted) && multiset(sorted) == multiset(ds[..i])
    {
      sorted := InsertByConfidence(sorted, ds[i]);
      assert ds[..i + 1] == ds[..i] + [ds[i]];
    }
    assert ds[..|ds|] == ds;
  }

  /** Sort, mark, collect. The face variant collects while marking, to the same list. */
  method ApplyNms(v: Variant, detections: seq<Detection>, threshold: real)
    returns (result: seq<Detection>)
    ensures exists sorted ::
              && Descending(sorted) && multiset(sorted) == multiset(detections)
              && result == Survivors(v, threshold, sorted, |sorted|)
  {
    var ds := SortByConfidence(detections);
    var suppressed := MarkSuppressed(v, threshold, ds);
    hide Alive, Descending;
    result := [];
    for i := 0 to |ds|
      invariant result == Survivors(v, threshold, ds, i)
    {
      if !suppressed[i] {
        result := result + [ds[i]];
      }
    }
  }

  // ---------- guarantees ----------

  ghost predicate PairwiseFree(v: Variant, threshold: real, ds: seq<Detection>) {
    forall i, j :: 0 <= i < j < |ds| ==> !Suppresses(v, threshold, ds[i], ds[j])
  }

  lemma SuppressesSymmetric(v: Variant, threshold: real, a: Detection, b: Detection)
    ensures Suppresses(v, threshold, a, b) == Suppresses(v, threshold, b, a)
  {
    IouSymmetric(a, b);
    hide Intersection, UnionArea;
  }

  /** The survivors are the boxes at some alive positions. */
  lemma {:induction false} SurvivorsMembers(v: Variant, threshold: real, ds: seq<Detection>, n: nat)
    requires n <= |ds|
    ensures forall x :: x in Survivors(v, threshold, ds, n) ==>
              exists i :: 0 <= i < n && ds[i] == x && Alive(v, threshold, ds, i)
    ensures forall i :: 0 <= i < n && Alive(v, threshold, ds, i) ==> ds[i] in Survivors(v, threshold, ds, n)
  {
    hide Alive;
    if n > 0 {
      SurvivorsMembers(v, threshold, ds, n - 1);
    }
  }

  lemma {:induction false} SurvivorsFree(v: Variant, threshold: real, ds: seq<Detection>, n: nat)
    requires n <= |ds|
    ensures PairwiseFree(v, threshold, Survivors(v, threshold, ds, n))
  {
    if n > 0 {
      SurvivorsFree(v, threshold, ds, n - 1);
      SurvivorsMembers(v, threshold, ds, n - 1);
      var before, last := Survivors(v, threshold, ds, n - 1), ds[n - 1];
      if Alive(v, threshold, ds, n - 1) {
        forall i | 0 <= i < |before| ensures !Suppresses(v, threshold, before[i], last) {
          var x := before[i];
          assert x in before;
          var k :| 0 <= k < n - 1 && ds[k] == x && Alive(v, threshold, ds, k);
        }
        hide Suppresses, Alive;
        FreeSnoc(v, threshold, before, last);
      } else {
        assert before + [] == before;
      }
    }
  }

  lemma FreeSnoc(v: Variant, threshold: real, ds: seq<Detection>, d: Detection)
    requires PairwiseFree(v, threshold, ds) && forall i :: 0 <= i < |ds| ==> !Suppresses(v, threshold, ds[i], d)
    ensures PairwiseFree(v, threshold, ds + [d])
  {
    hide Suppresses;
  }

  lemma {:induction false} SurvivorsSubsequence(v: Variant, threshold: real, ds: seq<Detection>, n: nat)
    requires n <= |ds|
    ensures Subsequence(Survivors(v, threshold, ds, n), ds[..n])
    ensures multiset(Survivors(v, threshold, ds, n)) <= multiset(ds[..n])
  {
    hide Alive, Subsequence;
    if n == 0 {
      SubsequenceRefl<Detection>([]);
      assert ds[..0] == [];
    } else {
      SurvivorsSubsequence(v, threshold, ds, n - 1);
      var before, last := Survivors(v, threshold, ds, n - 1), ds[n - 1];
      assert ds[..n] == ds[..n - 1] + [last];
      SubsequenceRefl([last]);
      SubsequenceEmpty([last]);
      SubsequenceConcat(before, ds[..n - 1], [last], [last]);
      SubsequenceConcat(before, ds[..n - 1], [], [last]);
      assert before + [] == before;
    }
  }

  lemma SubsequenceDescending(a: seq<Detection>, b: seq<Detection>)
    requires Subsequence(a, b) && Descending(b)
    ensures Descending(a)
  {
    var idx :| Embeds(a, b, idx);
  }

  /** For a threshold that is not negative, suppressing is overlapping by more than it, within a class or across. */
  lemma SuppressesIsOverlap(v: Variant, threshold: real, a: Detection, b: Detection)
    requires threshold >= 0.0
    ensures Suppresses(v, threshold, a, b) <==> (v == Face || a.classId == b.classId) && Iou(a, b) > threshold
  {
    hide UnionArea, Intersection;
  }

  lemma CountSnoc(s: seq<Detection>, x: Detection, d: Detection)
    ensures multiset(s + [x])[d] == multiset(s)[d] + (if x == d then 1 else 0)
  {
  }

  lemma SurvivorsCount(v: Variant, threshold: real, ds: seq<Detection>, n: nat, d: Detection)
    requires 0 < n <= |ds|
    ensures multiset(ds[..n])[d] == multiset(ds[..n - 1])[d] + (if ds[n - 1] == d then 1 else 0)
    ensures multiset(Survivors(v, threshold, ds, n))[d] ==
            multiset(Survivors(v, threshold, ds, n - 1))[d] +
            (if ds[n - 1] == d && Alive(v, threshold, ds, n - 1) then 1 else 0)
  {
    hide *;
    SurvivorsStep(v, threshold, ds, n);
    CountPrefix(ds, n, d);
    if Alive(v, threshold, ds, n - 1) {
      CountSnoc(Survivors(v, threshold, ds, n - 1), ds[n - 1], d);
    }
  }

  lemma CountPrefix(ds: seq<Detection>, n: nat, d: Detection)
    requires 0 < n <= |ds|
    ensures multiset(ds[..n])[d] == multiset(ds[..n - 1])[d] + (if ds[n - 1] == d then 1 else 0)
  {
    assert ds[..n] == ds[..n - 1] + [ds[n - 1]];
    CountSnoc(ds[..n - 1], ds[n - 1], d);
  }

  lemma SurvivorsStep(v: Variant, threshold: real, ds: seq<Detection>, n: nat)
    requires 0 < n <= |ds|
    ensures Survivors(v, threshold, ds, n) ==
            if Alive(v, threshold, ds, n - 1) then Survivors(v, threshold, ds, n - 1) + [ds[n - 1]]
            else Survivors(v, threshold, ds, n - 1)
  {
    hide Alive, Suppresses;
    var kept := Survivors(v, threshold, ds, n - 1);
    assert kept + [] == kept;
  }

  /** A box that occurs less often among the survivors was suppressed at one of its positions. */
  lemma {:induction false} DroppedPosition(v: Variant, threshold: real, ds: seq<Detection>, n: nat, d: Detection)
    returns (i: nat)
    requires n <= |ds| && multiset(Survivors(v, threshold, ds, n))[d] < multiset(ds[..n])[d]
    ensures i < n && ds[i] == d && !Alive(v, threshold, ds, i)
  {
    hide Alive, Suppresses, Survivors;
    if n == 0 {
      assert false;
    } else {
      SurvivorsCount(v, threshold, ds, n, d);
      if ds[n - 1] == d && !Alive(v, threshold, ds, n - 1) {
        i := n - 1;
      } else {
        i := DroppedPosition(v, threshold, ds, n - 1, d);
      }
    }
  }

  /**
    * What a caller gets: the boxes in order of confidence, no two of which suppress each other, and every box of
    * which a copy was dropped is suppressed by a kept one of at least its confidence.
    */
  lemma NmsGuarantees(v: Variant, threshold: real, detections: seq<Detection>, sorted: seq<Detection>)
    requires Descending(sorted) && multiset(sorted) == multiset(detections)
    ensures
      var kept := Survivors(v, threshold, sorted, |sorted|);
      && Descending(kept) && multiset(kept) <= multiset(detections) && PairwiseFree(v, threshold, kept)
      && forall d :: multiset(kept)[d] < multiset(detections)[d] ==>
           exists k :: k in kept && Suppresses(v, threshold, k, d) && k.confidence >= d.confidence
  {
    var n := |sorted|;
    var kept := Survivors(v, threshold, sorted, n);
    assert sorted[..n] == sorted;
    SurvivorsSubsequence(v, threshold, sorted, n);
    SubsequenceDescending(kept, sorted);
    SurvivorsFree(v, threshold, sorted, n);
    SurvivorsMembers(v, threshold, sorted, n);
    hide Suppresses, Survivors, PairwiseFree;
    forall d | multiset(kept)[d] < multiset(detections)[d]
      ensures exists k :: k in kept && Suppresses(v, threshold, k, d) && k.confidence >= d.confidence
    {
      var i := DroppedPosition(v, threshold, sorted, n, d);
      var k :| 0 <= k < i && Alive(v, threshold, sorted, k) && Suppresses(v, threshold, sorted[k], sorted[i]);
      assert sorted[k] in kept;
    }
  }

  // ---------- running it again ----------

  lemma {:induction false} FreeIsAlive(v: Variant, threshold: real, ds: seq<Detection>, n: nat)
    requires n <= |ds| && PairwiseFree(v, threshold, ds)
    ensures Survivors(v, threshold, ds, n) == ds[..n]
  {
    hide Suppresses;
    if n > 0 {
      FreeIsAlive(v, threshold, ds, n - 1);
      assert ds[..n] == ds[..n - 1] + [ds[n - 1]];
    }
  }

  /** Two positions holding the same box make it occur at least twice. */
  lemma TwiceAt(s: seq<Detection>, i: nat, j: nat)
    requires i < j < |s| && s[i] == s[j]
    ensures multiset(s)[s[i]] >= 2
  {
    assert s == s[..j] + ([s[j]] + s[j + 1..]);
    assert s[i] in s[..j];
  }

  lemma TwicePositions(s: seq<Detection>, x: Detection) returns (i: nat, j: nat)
    requires multiset(s)[x] >= 2
    ensures i < j < |s| && s[i] == x && s[j] == x
  {
    var n := |s| - 1;
    assert s == s[..n] + [s[n]];
    if s[n] == x {
      assert x in multiset(s[..n]);
      i :| 0 <= i < n && s[i] == x;
      j := n;
    } else {
      i, j := TwicePositions(s[..n], x);
    }
  }

  /** Being free of suppression does not depend on the order of the boxes. */
  lemma FreeUnderPermutation(v: Variant, threshold: real, a: seq<Detection>, b: seq<Detection>)
    requires multiset(a) == multiset(b) && PairwiseFree(v, threshold, a)
    ensures PairwiseFree(v, threshold, b)
  {
    hide Suppresses;
    forall i, j | 0 <= i < j < |b| ensures !Suppresses(v, threshold, b[i], b[j]) {
      var x, y := b[i], b[j];
      if x == y {
        TwiceAt(b, i, j);
        var p, q := TwicePositions(a, x);
      } else {
        assert x in multiset(b) && y in multiset(b);
        assert x in multiset(a) && y in multiset(a);
        var p :| 0 <= p < |a| && a[p] == x;
        var q :| 0 <= q < |a| && a[q] == y;
        SuppressesSymmetric(v, threshold, x, y);
        if p < q {
          assert !Suppresses(v, threshold, a[p], a[q]);
        } else {
          assert !Suppresses(v, threshold, a[q], a[p]);
        }
      }
    }
  }

  /** A second run, however it sorts, drops nothing. */
  lemma SecondRunDropsNothing(v: Variant, threshold: real, sorted: seq<Detection>, again: seq<Detection>)
    requires multiset(again) == multiset(Survivors(v, threshold, sorted, |sorted|))
    ensures Survivors(v, threshold, again, |again|) == again
  {
    SurvivorsFree(v, threshold, sorted, |sorted|);
    FreeUnderPermutation(v, threshold, Survivors(v, threshold, sorted, |sorted|), again);
    FreeIsAlive(v, threshold, again, |again|);
    assert again[..|again|] == again;
  }

  // ---------- v5 against v8 ----------

  /** The two tests differ exactly on boxes of one class without positive union under a negative threshold. */
  lemma TestsAgreeIff(threshold: real, a: Detection, b: Detection)
    ensures Suppresses(YoloV5, threshold, a, b) == Suppresses(YoloV8, threshold, a, b) <==>
            threshold >= 0.0 || a.classId != b.classId || UnionArea(a, b) > 0.0
  {
    hide UnionArea, Intersection;
  }

  lemma {:induction false} SameAlive(threshold: real, ds: seq<Detection>, i: nat)
    requires threshold >= 0.0 && i < |ds|
    ensures Alive(YoloV5, threshold, ds, i) == Alive(YoloV8, threshold, ds, i)
    decreases i
  {
    hide Suppresses;
    forall k | 0 <= k < i
      ensures Alive(YoloV5, threshold, ds, k) == Alive(YoloV8, threshold, ds, k)
      ensures Suppresses(YoloV5, threshold, ds[k], ds[i]) == Suppresses(YoloV8, threshold, ds[k], ds[i])
    {
      SameAlive(threshold, ds, k);
      TestsAgreeIff(threshold, ds[k], ds[i]);
    }
  }

  lemma {:induction false} SameSurvivors(threshold: real, ds: seq<Detection>, n: nat)
    requires threshold >= 0.0 && n <= |ds|
    ensures Survivors(YoloV5, threshold, ds, n) == Survivors(YoloV8, threshold, ds, n)
  {
    hide Alive;
    if n > 0 {
      SameSurvivors(threshold, ds, n - 1);
      SameAlive(threshold, ds, n - 1);
    }
  }

  /** The v5 and v8 loops agree on every sorted list exactly when the threshold is not negative. */
  lemma VariantsAgreeIff(threshold: real)
    ensures (forall ds :: Descending(ds) ==>
               Survivors(YoloV5, threshold, ds, |ds|) == Survivors(YoloV8, threshold, ds, |ds|))
            <==> threshold >= 0.0
  {
    hide *;
    if threshold >= 0.0 {
      forall ds | Descending(ds)
        ensures Survivors(YoloV5, threshold, ds, |ds|) == Survivors(YoloV8, threshold, ds, |ds|)
      {
        SameSurvivors(threshold, ds, |ds|);
      }
    } else {
      var ds := EmptyBoxes(threshold);
      assert Survivors(YoloV5, threshold, ds, |ds|) != Survivors(YoloV8, threshold, ds, |ds|);
    }
  }

  /** Two empty boxes: v5 takes their overlap as 0, above a negative threshold; v8 does not compare them. */
  lemma EmptyBoxes(threshold: real) returns (ds: seq<Detection>)
    requires threshold < 0.0
    ensures Descending(ds)
    ensures |Survivors(YoloV5, threshold, ds, |ds|)| != |Survivors(YoloV8, threshold, ds, |ds|)|
  {
    hide *;
    var d := Detection(0.0, 0.0, 0.0, 0.0, 1.0, 0, "");
    EmptyUnion(d);
    ds := [d, d];
    SameDescending(d);
    EmptyBoxSurvives(threshold, d, ds);
  }

  lemma SameDescending(d: Detection)
    ensures Descending([d, d])
  {
  }

  lemma EmptyUnion(d: Detection)
    requires d.x1 == d.x2 && d.y1 == d.y2
    ensures UnionArea(d, d) == 0.0
  {
  }

  lemma EmptyBoxSurvives(threshold: real, d: Detection, ds: seq<Detection>)
    requires threshold < 0.0 && UnionArea(d, d) == 0.0 && ds == [d, d]
    ensures |Survivors(YoloV5, threshold, ds, 2)| == 1 && |Survivors(YoloV8, threshold, ds, 2)| == 2
  {
    assert Suppresses(YoloV5, threshold, d, d) && !Suppresses(YoloV8, threshold, d, d) by {
      hide UnionArea, Intersection, Alive, Survivors;
    }
    hide Suppresses, UnionArea, Intersection;
    assert Alive(YoloV5, threshold, ds, 0) && Alive(YoloV8, threshold, ds, 0);
    assert !Alive(YoloV5, threshold, ds, 1) && Alive(YoloV8, threshold, ds, 1) by {
      assert ds[0] == d && ds[1] == d;
    }
    hide Alive;
    assert |Survivors(YoloV5, threshold, ds, 1)| == 1 && |Survivors(YoloV8, threshold, ds, 1)| == 1 by {
      assert Survivors(YoloV5, threshold, ds, 0) == [] && Survivors(YoloV8, threshold, ds, 0) == [];
    }
  }
}
