/** The ray-casting test of src/rules/evaluators/region_intrusion_evaluator.cc, over the reals. */
module Polygon {
  import opened Detections

  /** Whether the ray to the right of `p` meets the edge from `prev` to `cur`. */
  predicate Meets(p: Point, cur: Point, prev: Point) {
    && (cur.y > p.y) != (prev.y > p.y)
    && p.x < (prev.x - cur.x) * (p.y - cur.y) / (prev.y - cur.y) + cur.x
  }

  predicate Xor(a: bool, b: bool) {
    a != b
  }

  /** Parity of the edges met along an open chain of vertices. */
  predicate Chain(p: Point, vs: seq<Point>) {
    var n := |vs|;
    n >= 2 && Xor(Chain(p, vs[..n - 1]), Meets(p, vs[n - 1], vs[n - 2]))
  }

  /** Inside: an odd number of edges of the closed polygon is met. */
  predicate Inside(p: Point, poly: seq<Point>) {
    |poly| >= 3 && Xor(Chain(p, poly), Meets(p, poly[0], poly[|poly| - 1]))
  }

  method PointInPolygon(p: Point, poly: seq<Point>) returns (inside: bool)
    ensures inside == Inside(p, poly)
  {
    hide Meets;
    if |poly| < 3 {
      return false;
    }
    inside := false;
    var n := |poly|;
    var i, j := 0, n - 1;
    while i < n
      invariant 0 <= i <= n && j == (if i == 0 then n - 1 else i - 1)
      invariant inside == if i == 0 then false else Xor(Chain(p, poly[..i]), Meets(p, poly[0], poly[n - 1]))
    {
      var meets := Meets(p, poly[i], poly[j]);
      assert poly[..i + 1][..i] == poly[..i];
      if meets {
        inside := !inside;
      }
      j := i;
      i := i + 1;
    }
    assert poly[..n] == poly;
  }

  /** The same line seen from either end: the crossing of an edge with the ray's height is one point. */
  lemma CrossingSymmetric(p: Point, a: Point, b: Point)
    requires a.y != b.y
    ensures (b.x - a.x) * (p.y - a.y) / (b.y - a.y) + a.x == (a.x - b.x) * (p.y - b.y) / (a.y - b.y) + b.x
  {
    var h, w := b.y - a.y, b.x - a.x;
    var u, v := p.y - a.y, p.y - b.y;
    assert u == v + h;
    Quotient(w, u, h);
    assert (-w) * v / (-h) == w * v / h by {
      Negate(w * v, h);
    }
    assert w * u / h == w * v / h + w by {
      Spread(w, v, h);
    }
  }

  lemma Quotient(w: real, u: real, h: real)
    requires h != 0.0
    ensures w * u / h == w * (u / h)
  {
  }

  lemma Negate(x: real, h: real)
    requires h != 0.0
    ensures (-x) / (-h) == x / h
  {
  }

  lemma Spread(w: real, v: real, h: real)
    requires h != 0.0
    ensures w * (v + h) / h == w * v / h + w
  {
    assert w * (v + h) == w * v + w * h;
    assert (w * v + w * h) / h == w * v / h + w * h / h;
    assert w * h / h == w;
  }

  lemma MeetsSymmetric(p: Point, a: Point, b: Point)
    ensures Meets(p, a, b) == Meets(p, b, a)
  {
    if (a.y > p.y) != (b.y > p.y) {
      CrossingSymmetric(p, a, b);
    }
  }

  lemma ChainSnoc(p: Point, vs: seq<Point>, v: Point)
    requires vs != []
    ensures Chain(p, vs + [v]) == Xor(Chain(p, vs), Meets(p, v, vs[|vs| - 1]))
  {
    hide Meets;
    assert (vs + [v])[..|vs|] == vs;
  }

  /** A chain extended at its front. */
  lemma {:induction false} ChainCons(p: Point, v: Point, vs: seq<Point>)
    requires vs != []
    ensures Chain(p, [v] + vs) == Xor(Meets(p, vs[0], v), Chain(p, vs))
  {
    hide Meets;
    if |vs| == 1 {
      assert [v] + vs == [v] + [vs[0]];
      ChainSnoc(p, [v], vs[0]);
    } else {
      var init, last := vs[..|vs| - 1], vs[|vs| - 1];
      ChainCons(p, v, init);
      assert [v] + vs == ([v] + init) + [last] && vs == init + [last];
      ChainSnoc(p, [v] + init, last);
      ChainSnoc(p, init, last);
    }
  }

  function Reversed(vs: seq<Point>): (r: seq<Point>)
    ensures |r| == |vs|
    ensures vs != [] ==> r[0] == vs[|vs| - 1] && r[|r| - 1] == vs[0]
  {
    if vs == [] then [] else [vs[|vs| - 1]] + Reversed(vs[..|vs| - 1])
  }

  lemma {:induction false} ChainReversed(p: Point, vs: seq<Point>)
    ensures Chain(p, Reversed(vs)) == Chain(p, vs)
  {
    hide Meets;
    if |vs| >= 2 {
      var init, last := vs[..|vs| - 1], vs[|vs| - 1];
      ChainReversed(p, init);
      ChainCons(p, last, Reversed(init));
      MeetsSymmetric(p, last, vs[|vs| - 2]);
    }
  }

  /** Direction does not matter. */
  lemma InsideReversed(p: Point, poly: seq<Point>)
    ensures Inside(p, Reversed(poly)) == Inside(p, poly)
  {
    hide Meets, Chain;
    if |poly| >= 3 {
      ChainReversed(p, poly);
      MeetsSymmetric(p, poly[0], poly[|poly| - 1]);
    }
  }

  lemma InsideRotatedOnce(p: Point, poly: seq<Point>)
    requires poly != []
    ensures Inside(p, poly[1..] + [poly[0]]) == Inside(p, poly)
  {
    hide Meets, Chain;
    if |poly| >= 3 {
      var v, rest := poly[0], poly[1..];
      assert poly == [v] + rest;
      ChainCons(p, v, rest);
      ChainSnoc(p, rest, v);
    }
  }

  /** Nor does the starting vertex. */
  lemma {:induction false} InsideRotated(p: Point, poly: seq<Point>, k: nat)
    requires k <= |poly|
    ensures Inside(p, poly[k..] + poly[..k]) == Inside(p, poly)
  {
    hide Inside;
    if k == 0 {
      assert poly[0..] + poly[..0] == poly;
    } else {
      var once := poly[k - 1..] + poly[..k - 1];
      InsideRotated(p, poly, k - 1);
      InsideRotatedOnce(p, once);
      assert once[1..] + [once[0]] == poly[k..] + poly[..k];
    }
  }

  /** Parity over the triangles fanned out from the first vertex. */
  predicate Fan(p: Point, vs: seq<Point>) {
    var n := |vs|;
    n >= 3 && Xor(Fan(p, vs[..n - 1]), Inside(p, [vs[0], vs[n - 2], vs[n - 1]]))
  }

  lemma TriangleEdges(p: Point, a: Point, b: Point, c: Point)
    ensures Inside(p, [a, b, c]) == Xor(Xor(Meets(p, b, a), Meets(p, c, b)), Meets(p, a, c))
  {
    hide Meets;
    ChainSnoc(p, [a], b);
    ChainSnoc(p, [a, b], c);
    assert [a] + [b] == [a, b] && [a, b] + [c] == [a, b, c];
    assert !Chain(p, [a]);
  }

  /** The test is additive: a polygon counts as the exclusive-or of its fan triangles, convex or not. */
  lemma {:induction false} InsideIsFan(p: Point, poly: seq<Point>)
    ensures Inside(p, poly) == Fan(p, poly)
  {
    hide Meets;
    var n := |poly|;
    if n >= 3 {
      var init, a, b, c := poly[..n - 1], poly[0], poly[n - 2], poly[n - 1];
      InsideIsFan(p, init);
      TriangleEdges(p, a, b, c);
      MeetsSymmetric(p, a, b);
      assert poly == init + [c];
      ChainSnoc(p, init, c);
      if n == 3 {
        assert poly == [a, b, c];
      }
    }
  }

  // ---------- a triangle: the test is what inside means ----------

  /** On the edge between two vertices: on their line and between them. */
  predicate OnEdge(p: Point, a: Point, b: Point) {
    CrossProduct(a, b, p) == 0.0 && Min(a.x, b.x) <= p.x <= Max(a.x, b.x) && Min(a.y, b.y) <= p.y <= Max(a.y, b.y)
  }

  /** To the same side of all three edges, walking round. */
  predicate SameSide(p: Point, a: Point, b: Point, c: Point) {
    var s := Sign(CrossProduct(a, b, p));
    s != 0 && Sign(CrossProduct(b, c, p)) == s && Sign(CrossProduct(c, a, p)) == s
  }

  /** The crossing of an edge with the ray's height, as a side: `b` is the upper end. */
  lemma QuotientSide(x: real, w: real, u: real, h: real)
    requires h > 0.0
    ensures x < w * u / h <==> w * u - h * x > 0.0
  {
    var q := w * u / h;
    assert q * h == w * u;
    assert (q - x) * h == w * u - h * x;
    assert q - x > 0.0 ==> (q - x) * h > 0.0;
    assert q - x <= 0.0 ==> (q - x) * h <= 0.0;
  }

  lemma MeetsRising(p: Point, a: Point, b: Point)
    requires a.y <= p.y < b.y
    ensures Meets(p, a, b) <==> CrossProduct(a, b, p) > 0.0
  {
    QuotientSide(p.x - a.x, b.x - a.x, p.y - a.y, b.y - a.y);
  }

  lemma CrossProductFlips(p: Point, a: Point, b: Point)
    ensures CrossProduct(b, a, p) == -CrossProduct(a, b, p)
  {
  }

  /** An edge with ends at both heights is met exactly when the point is to its left, looking up. */
  lemma MeetsIsSide(p: Point, a: Point, b: Point)
    requires (a.y > p.y) != (b.y > p.y) && !OnEdge(p, a, b)
    ensures var s := Sign(CrossProduct(a, b, p)); s != 0 && (Meets(p, b, a) <==> (s > 0) == (b.y > p.y))
  {
    MeetsSymmetric(p, a, b);
    if a.y <= p.y {
      MeetsRising(p, a, b);
      if CrossProduct(a, b, p) == 0.0 {
        LineMeetsInside(p, a, b);
      }
    } else {
      MeetsRising(p, b, a);
      CrossProductFlips(p, a, b);
      if CrossProduct(b, a, p) == 0.0 {
        LineMeetsInside(p, b, a);
      }
    }
  }

  /** A point on the line of a rising edge and at a height between its ends is on the edge. */
  lemma LineMeetsInside(p: Point, a: Point, b: Point)
    requires a.y <= p.y < b.y && CrossProduct(a, b, p) == 0.0
    ensures OnEdge(p, a, b)
  {
  }

  function Weighted(r: real, u: real, s: real, v: real, t: real, w: real): real {
    r * u + s * v + t * w
  }

  /** The three sides, as areas, weigh the vertices so that they balance at the point. */
  lemma Balance(p: Point, a: Point, b: Point, c: Point)
    ensures Weighted(CrossProduct(a, b, p), c.y - p.y, CrossProduct(b, c, p), a.y - p.y,
                     CrossProduct(c, a, p), b.y - p.y) == 0.0
  {
  }

  predicate EdgeParity(p: Point, a: Point, b: Point, c: Point) {
    Xor(Xor(Meets(p, b, a), Meets(p, c, b)), Meets(p, a, c))
  }

  ghost predicate OnNoEdge(p: Point, a: Point, b: Point, c: Point) {
    !OnEdge(p, a, b) && !OnEdge(p, b, c) && !OnEdge(p, c, a)
  }

  /** Two weights of one sign, not both 0, on numbers of one sign are balanced by a third of the other on that sign. */
  lemma ThirdSign(r: real, u: real, s: real, v: real, t: real, w: real)
    requires Weighted(r, u, s, v, t, w) == 0.0 && Sign(r) == Sign(s) != 0
    requires (u <= 0.0 && v <= 0.0 && w >= 0.0 && (u < 0.0 || v < 0.0))
             || (u >= 0.0 && v >= 0.0 && w <= 0.0 && (u > 0.0 || v > 0.0))
    ensures Sign(t) == Sign(r)
  {
    SignOfTerm(r, u);
    SignOfTerm(s, v);
    SignOfTerm(t, w);
  }

  lemma SignOfTerm(x: real, k: real)
    ensures Sign(x * k) == Sign(x) * Sign(k)
  {
    assert x > 0.0 && k > 0.0 ==> x * k > 0.0;
    assert x > 0.0 && k < 0.0 ==> x * k < 0.0;
    assert x < 0.0 && k > 0.0 ==> x * k < 0.0;
    assert x < 0.0 && k < 0.0 ==> x * k > 0.0;
  }

  /** One vertex above the ray, two at its height: the point is between these if its other sides agree. */
  lemma BetweenLevel(p: Point, a: Point, b: Point, c: Point)
    requires a.y > p.y && b.y == p.y && c.y == p.y
    requires Sign(CrossProduct(a, b, p)) == Sign(CrossProduct(c, a, p)) != 0
    ensures OnEdge(p, b, c)
  {
    var h := a.y - p.y;
    assert CrossProduct(a, b, p) == h * (p.x - b.x);
    assert CrossProduct(c, a, p) == h * (c.x - p.x);
    SignOfProduct(p.x - b.x, h);
    SignOfProduct(c.x - p.x, h);
  }

  lemma OneAbove(p: Point, a: Point, b: Point, c: Point)
    requires a.y > p.y && b.y <= p.y && c.y <= p.y && OnNoEdge(p, a, b, c)
    ensures EdgeParity(p, a, b, c) == SameSide(p, a, b, c)
  {
    MeetsIsSide(p, a, b);
    MeetsIsSide(p, c, a);
    assert !Meets(p, c, b);
    if Sign(CrossProduct(a, b, p)) == Sign(CrossProduct(c, a, p)) {
      if b.y == p.y && c.y == p.y {
        BetweenLevel(p, a, b, c);
      } else {
        hide Meets, CrossProduct, Weighted, OnEdge;
        Balance(p, c, a, b);
        ThirdSign(CrossProduct(c, a, p), b.y - p.y, CrossProduct(a, b, p), c.y - p.y,
                  CrossProduct(b, c, p), a.y - p.y);
      }
    }
  }

  lemma TwoAbove(p: Point, a: Point, b: Point, c: Point)
    requires a.y > p.y && b.y > p.y && c.y <= p.y && OnNoEdge(p, a, b, c)
    ensures EdgeParity(p, a, b, c) == SameSide(p, a, b, c)
  {
    MeetsIsSide(p, b, c);
    MeetsIsSide(p, c, a);
    assert !Meets(p, b, a);
    hide Meets, CrossProduct, Weighted, OnEdge;
    if Sign(CrossProduct(b, c, p)) == Sign(CrossProduct(c, a, p)) {
      Balance(p, b, c, a);
      ThirdSign(CrossProduct(b, c, p), a.y - p.y, CrossProduct(c, a, p), b.y - p.y,
                CrossProduct(a, b, p), c.y - p.y);
    }
  }

  /** Weights of one sign do not balance numbers of one sign. */
  lemma NoBalance(r: real, u: real, s: real, v: real, t: real, w: real)
    requires Sign(r) == Sign(s) == Sign(t) != 0
    requires (u >= 0.0 && v >= 0.0 && w >= 0.0) || (u <= 0.0 && v <= 0.0 && w <= 0.0)
    requires u != 0.0 || v != 0.0 || w != 0.0
    ensures Weighted(r, u, s, v, t, w) != 0.0
  {
    SignOfTerm(r, u);
    SignOfTerm(s, v);
    SignOfTerm(t, w);
  }

  lemma LevelSide(p: Point, a: Point, b: Point)
    requires a.y == p.y == b.y
    ensures CrossProduct(a, b, p) == 0.0
  {
  }

  lemma NoneAcross(p: Point, a: Point, b: Point, c: Point)
    requires (a.y > p.y) == (b.y > p.y) == (c.y > p.y)
    ensures !EdgeParity(p, a, b, c) && !SameSide(p, a, b, c)
  {
    assert !EdgeParity(p, a, b, c);
    hide EdgeParity, CrossProduct, Weighted;
    if SameSide(p, a, b, c) {
      Balance(p, a, b, c);
      if a.y == p.y && b.y == p.y && c.y == p.y {
        LevelSide(p, a, b);
      } else {
        NoBalance(CrossProduct(a, b, p), c.y - p.y, CrossProduct(b, c, p), a.y - p.y,
                  CrossProduct(c, a, p), b.y - p.y);
      }
    }
  }

  /**
    * A point on no edge of a triangle is found inside exactly when it is to the same side of all three edges. With
    * `InsideIsFan` that says what the test is for every polygon.
    */
  lemma InsideTriangleIff(p: Point, a: Point, b: Point, c: Point)
    requires OnNoEdge(p, a, b, c)
    ensures Inside(p, [a, b, c]) <==> SameSide(p, a, b, c)
  {
    TriangleEdges(p, a, b, c);
    hide Inside, Meets, CrossProduct, OnEdge;
    var i, j, k := a.y > p.y, b.y > p.y, c.y > p.y;
    if i == j == k {
      NoneAcross(p, a, b, c);
    } else if j == k {
      if i {
        OneAbove(p, a, b, c);
      } else {
        TwoAbove(p, b, c, a);
      }
    } else if i == k {
      if j {
        OneAbove(p, b, c, a);
      } else {
        TwoAbove(p, c, a, b);
      }
    } else {
      if k {
        OneAbove(p, c, a, b);
      } else {
        TwoAbove(p, a, b, c);
      }
    }
  }
}
