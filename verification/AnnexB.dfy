/**
  * Annex B byte streams (section B.1 of ITU-T H.264): the scanners of the FLV muxer, the fMP4 muxer and the RTP
  * packetizer (src/network/flv_stream/flv_muxer.cc, src/network/media_stream/fmp4_muxer.cc,
  * src/network/rtsp_server/rtp_packetizer.cc), and the stream they are meant to take apart.
  */
module AnnexB {
  import opened Bytes
  import opened Sequences

  // ---------- what a stream means ----------

  /** Length of the start code at `i`, 0 if there is none. */
  function CodeLen(d: seq<byte>, i: nat): (n: nat)
    ensures n == 0 || (3 <= n <= 4 && i + n <= |d|)
  {
    if i + 2 < |d| && d[i] == 0 && d[i + 1] == 0 && d[i + 2] == 1 then 3
    else if i + 3 < |d| && d[i] == 0 && d[i + 1] == 0 && d[i + 2] == 0 && d[i + 3] == 1 then 4
    else 0
  }

  /** The first start code at or after `i`, or the end. */
  function Next(d: seq<byte>, i: nat): (j: nat)
    requires i <= |d|
    ensures i <= j <= |d|
    ensures j < |d| <==> j < |d| && CodeLen(d, j) > 0
    ensures forall k :: i <= k < j ==> CodeLen(d, k) == 0
    decreases |d| - i
  {
    if i == |d| then |d| else if CodeLen(d, i) > 0 then i else Next(d, i + 1)
  }

  /** The units from a position just behind a start code, empty ones included. */
  function UnitsFrom(d: seq<byte>, s: nat): seq<seq<byte>>
    requires s <= |d|
    decreases |d| - s
  {
    var j := Next(d, s);
    if j == |d| then [d[s..]] else [d[s..j]] + UnitsFrom(d, j + CodeLen(d, j))
  }

  function NonEmpty(us: seq<seq<byte>>): seq<seq<byte>> {
    Filter(us, (u: seq<byte>) => u != [])
  }

  /** The non-empty units of a stream; bytes before the first start code belong to none. */
  function Units(d: seq<byte>): seq<seq<byte>> {
    var j := Next(d, 0);
    if j == |d| then [] else NonEmpty(UnitsFrom(d, j + CodeLen(d, j)))
  }

  // ---------- the FLV and fMP4 scanners ----------

  lemma NonEmptyCons(u: seq<byte>, us: seq<seq<byte>>)
    ensures NonEmpty([u] + us) == (if u == [] then [] else [u]) + NonEmpty(us)
  {
    FilterAppend([u], us, (u: seq<byte>) => u != []);
    FilterOne(u, (u: seq<byte>) => u != []);
  }

  lemma NonEmptyNil()
    ensures NonEmpty([]) == []
  {
  }

  /** Streams shorter than a four-byte code are not looked at; they hold no unit. */
  lemma TooShort(d: seq<byte>)
    requires |d| < 4
    ensures Units(d) == []
  {
    var j := Next(d, 0);
    if j < |d| {
      var s := j + CodeLen(d, j);
      assert s == |d|;
      LastUnit(d, s);
      NonEmptyCons(d[s..], []);
    }
  }

  lemma LastUnit(d: seq<byte>, s: nat)
    requires s <= |d| && Next(d, s) == |d|
    ensures UnitsFrom(d, s) == [d[s..]] == [d[s..]] + []
  {
  }

  /** The test at the head of both loops. */
  method StartCodeAt(d: seq<byte>, i: nat) returns (n: nat)
    ensures n == CodeLen(d, i)
  {
    n := 0;
    if i + 2 < |d| && d[i] == 0 && d[i + 1] == 0 && d[i + 2] == 1 {
      n := 3;
    } else if i + 3 < |d| && d[i] == 0 && d[i + 1] == 0 && d[i + 2] == 0 && d[i + 3] == 1 {
      n := 4;
    }
  }

  lemma NextSkip(d: seq<byte>, i: nat)
    requires i < |d|
    ensures Next(d, i) == if CodeLen(d, i) > 0 then i else Next(d, i + 1)
  {
    hide CodeLen;
  }

  lemma NoUnits(d: seq<byte>)
    requires Next(d, 0) == |d|
    ensures Units(d) == []
  {
  }

  lemma UnitsStart(d: seq<byte>, i: nat)
    requires i < |d| && Next(d, 0) == i
    ensures Units(d) == NonEmpty(UnitsFrom(d, i + CodeLen(d, i)))
  {
    hide CodeLen, UnitsFrom, NonEmpty;
  }

  lemma UnitsStep(d: seq<byte>, s: nat, e: nat)
    requires s <= e < |d| && Next(d, s) == e
    ensures UnitsFrom(d, s) == [d[s..e]] + UnitsFrom(d, e + CodeLen(d, e))
  {
    hide CodeLen;
  }

  method ParseAnnexB(d: seq<byte>) returns (units: seq<seq<byte>>)
    ensures units == Units(d)
  {
    hide *;
    units := [];
    if |d| < 4 {
      TooShort(d);
      return;
    }
    var i: nat, nalStart: nat, foundStart := 0, 0, false;
    while i < |d|
      invariant nalStart <= i <= |d|
      invariant !foundStart ==> units == [] && Next(d, i) == Next(d, 0)
      invariant foundStart ==> Next(d, i) == Next(d, nalStart) && Units(d) == units + NonEmpty(UnitsFrom(d, nalStart))
      decreases |d| - i
    {
      var startCodeLen := StartCodeAt(d, i);
      NextSkip(d, i);
      if startCodeLen > 0 {
        if foundStart {
          UnitsStep(d, nalStart, i);
          NonEmptyCons(d[nalStart..i], UnitsFrom(d, i + startCodeLen));
          if i > nalStart {
            units := units + [d[nalStart..i]];
          }
        } else {
          UnitsStart(d, i);
        }
        i := i + startCodeLen;
        nalStart := i;
        foundStart := true;
      } else {
        i := i + 1;
      }
    }
    if foundStart {
      LastUnit(d, nalStart);
      NonEmptyCons(d[nalStart..], []);
      NonEmptyNil();
      if nalStart < |d| {
        units := units + [d[nalStart..]];
      }
    } else {
      NoUnits(d);
    }
  }

  // ---------- the RTP scanner ----------

  /** Where the RTP scanner starts its first unit. */
  function RtpStart(d: seq<byte>): (s: nat)
    ensures s <= |d|
  {
    var j := Next(d, 0);
    if j + 3 < |d| then j + CodeLen(d, j) else if |d| < 3 then 0 else |d| - 3
  }

  /** Like `UnitsFrom`, without an empty unit at the very end. */
  function RtpFrom(d: seq<byte>, s: nat): seq<seq<byte>>
    requires s <= |d|
    decreases |d| - s
  {
    var j := Next(d, s);
    if j == |d| then (if s < |d| then [d[s..]] else [])
    else [d[s..j]] + RtpFrom(d, j + CodeLen(d, j))
  }

  function RtpUnits(d: seq<byte>): seq<seq<byte>> {
    RtpFrom(d, RtpStart(d))
  }

  /** The first loop: skips to behind the first start code, or to the last three bytes. */
  method SkipToFirst(d: seq<byte>) returns (i: nat)
    ensures i == RtpStart(d)
  {
    i := 0;
    while i + 3 < |d|
      invariant i <= |d| && (i + 3 <= |d| || i == 0)
      invariant Next(d, i) == Next(d, 0)
      decreases |d| - i
    {
      if d[i] == 0 && d[i + 1] == 0 {
        if d[i + 2] == 1 {
          return i + 3;
        }
        if i + 3 < |d| && d[i + 2] == 0 && d[i + 3] == 1 {
          return i + 4;
        }
      }
      i := i + 1;
    }
  }

  /** The test inside the second loop. */
  method CodeInside(d: seq<byte>, i: nat) returns (n: nat)
    requires i + 3 <= |d|
    ensures n == CodeLen(d, i)
  {
    n := 0;
    if d[i] == 0 && d[i + 1] == 0 {
      if d[i + 2] == 1 {
        n := 3;
      } else if i + 3 < |d| && d[i + 2] == 0 && d[i + 3] == 1 {
        n := 4;
      }
    }
  }

  method FindNalUnits(d: seq<byte>) returns (nals: seq<seq<byte>>)
    ensures nals == RtpUnits(d)
  {
    hide *;
    nals := [];
    var i := SkipToFirst(d);
    RtpIs(d);
    if i >= |d| {
      return;
    }
    var nalStart: nat := i;
    while i + 3 <= |d|
      invariant nalStart <= i <= |d|
      invariant Next(d, i) == Next(d, nalStart)
      invariant RtpUnits(d) == nals + RtpFrom(d, nalStart)
      decreases |d| - i
    {
      var codeLen := CodeInside(d, i);
      NextSkip(d, i);
      if codeLen > 0 {
        RtpStep(d, nalStart, i);
        nals := nals + [d[nalStart..i]];
        nalStart := i + codeLen;
        i := nalStart;
      } else {
        i := i + 1;
      }
    }
    NoCodeNearEnd(d, i);
    RtpEnd(d, nalStart);
    if nalStart < |d| {
      nals := nals + [d[nalStart..]];
    }
  }

  lemma RtpIs(d: seq<byte>)
    ensures RtpUnits(d) == RtpFrom(d, RtpStart(d))
    ensures RtpStart(d) == |d| ==> RtpUnits(d) == []
  {
  }

  lemma RtpStep(d: seq<byte>, s: nat, e: nat)
    requires s <= e < |d| && Next(d, s) == e
    ensures RtpFrom(d, s) == [d[s..e]] + RtpFrom(d, e + CodeLen(d, e))
  {
    hide CodeLen;
  }

  lemma RtpEnd(d: seq<byte>, s: nat)
    requires s <= |d| && Next(d, s) == |d|
    ensures RtpFrom(d, s) == if s < |d| then [d[s..]] else []
  {
  }

  lemma NoCodeNearEnd(d: seq<byte>, i: nat)
    requires i <= |d| < i + 3
    ensures Next(d, i) == |d|
  {
  }

  lemma {:induction false} RtpSameNonEmpty(d: seq<byte>, s: nat)
    requires s <= |d|
    ensures NonEmpty(RtpFrom(d, s)) == NonEmpty(UnitsFrom(d, s))
    decreases |d| - s
  {
    var j := Next(d, s);
    if j == |d| {
      NonEmptyCons(d[s..], []);
    } else {
      var t := j + CodeLen(d, j);
      RtpSameNonEmpty(d, t);
      NonEmptyCons(d[s..j], UnitsFrom(d, t));
      NonEmptyCons(d[s..j], RtpFrom(d, t));
    }
  }

  /** A three-byte code at the very end opens no unit for either scanner. */
  lemma CodeAtEnd(d: seq<byte>, j: nat)
    requires j + 3 == |d| && CodeLen(d, j) == 3
    ensures NonEmpty(UnitsFrom(d, j)) == [] && NonEmpty(UnitsFrom(d, |d|)) == []
  {
    LastUnit(d, |d|);
    NonEmptyCons(d[|d|..], []);
    hide CodeLen;
    assert Next(d, j) == j;
    assert UnitsFrom(d, j) == [d[j..j]] + UnitsFrom(d, |d|);
    NonEmptyCons(d[j..j], UnitsFrom(d, |d|));
  }

  /**
    * The scanners agree on the non-empty units exactly when the input holds a start code or nothing at all;
    * without one the RTP scanner takes the last three bytes for a unit.
    */
  lemma ScannersAgreeIff(d: seq<byte>)
    ensures NonEmpty(RtpUnits(d)) == Units(d) <==> d == [] || Next(d, 0) < |d|
  {
    var j, s := Next(d, 0), RtpStart(d);
    RtpSameNonEmpty(d, s);
    if j < |d| && j + 3 >= |d| {
      assert j + 3 == |d| && CodeLen(d, j) == 3;
      CodeAtEnd(d, j);
    } else if j == |d| {
      hide CodeLen, NonEmpty, UnitsFrom;
      NextFromLater(d, s);
      LastUnit(d, s);
      NonEmptyCons(d[s..], []);
      NonEmptyNil();
    }
  }

  /** Three bytes without a start code: the RTP scanner alone takes them for a unit. */
  lemma NoCodeButUnit()
    ensures Units([1, 2, 3]) == [] && RtpUnits([1, 2, 3]) == [[1, 2, 3]]
  {
    NoCodeIn([1, 2, 3]);
  }

  lemma NoCodeIn(d: seq<byte>)
    requires d == [1, 2, 3]
    ensures Units(d) == [] && RtpUnits(d) == [[1, 2, 3]]
  {
    assert CodeLen(d, 0) == 0 && CodeLen(d, 1) == 0 && CodeLen(d, 2) == 0;
    hide CodeLen;
    assert Next(d, 3) == 3;
    assert Next(d, 2) == 3;
    assert Next(d, 1) == 3;
    assert Next(d, 0) == 3;
    assert RtpStart(d) == 0;
    RtpEnd(d, 0);
    assert d[0..] == d;
  }

  lemma NextFromLater(d: seq<byte>, s: nat)
    requires s <= |d| && Next(d, 0) == |d|
    ensures Next(d, s) == |d|
  {
  }

  // ---------- when the RTP scanner ends on an empty unit ----------

  predicate EndsWith(d: seq<byte>, tail: seq<byte>) {
    |tail| <= |d| && d[|d| - |tail|..] == tail
  }

  /** A start code directly behind another at the end, or a first start code that is the last three bytes. */
  predicate EndsInBareCode(d: seq<byte>) {
    EndsWith(d, [0, 0, 1, 0, 0, 1]) || EndsWith(d, [0, 0, 1, 0, 0, 0, 1]) || Next(d, 0) + 3 == |d|
  }

  predicate LastEmpty(us: seq<seq<byte>>) {
    us != [] && us[|us| - 1] == []
  }

  /** The code at `t` runs to the end of the input and stands at `s` or directly behind another code. */
  predicate BareAt(d: seq<byte>, s: nat, t: nat) {
    && s <= t < |d| && CodeLen(d, t) > 0 && t + CodeLen(d, t) == |d|
    && (t == s || (s + 3 <= t && CodeLen(d, t - 3) == 3))
  }

  ghost predicate Bare(d: seq<byte>, s: nat) {
    exists t: nat :: BareAt(d, s, t)
  }

  /** Codes do not overlap, except that a four-byte code holds a three-byte one. */
  lemma CodesApart(d: seq<byte>, i: nat, t: nat)
    requires CodeLen(d, i) > 0 && i < t && CodeLen(d, t) > 0
    ensures i + CodeLen(d, i) <= t || (t == i + 1 && CodeLen(d, i) == 4 && CodeLen(d, t) == 3)
  {
  }

  /** A code that ends at `u` has its three-byte form at `u - 3`. */
  lemma CodeBefore(d: seq<byte>, i: nat)
    requires CodeLen(d, i) > 0
    ensures var u := i + CodeLen(d, i); i <= u - 3 && CodeLen(d, u - 3) == 3
  {
  }

  /** Behind the code at `j`, the first from `s` on, the same codes are bare as from `s` on. */
  lemma BareBehind(d: seq<byte>, s: nat, j: nat)
    requires s <= j < |d| && Next(d, s) == j && j + CodeLen(d, j) < |d|
    ensures Bare(d, s) <==> Bare(d, j + CodeLen(d, j))
  {
    var u := j + CodeLen(d, j);
    CodeBefore(d, j);
    forall t: nat | BareAt(d, u, t) ensures BareAt(d, s, t) {
    }
    forall t: nat | BareAt(d, s, t) ensures BareAt(d, u, t) {
      assert j <= t;
      if j < t {
        CodesApart(d, j, t);
        if u < t {
          CodesApart(d, u - 3, t - 3);
        }
      }
    }
    if Bare(d, s) {
      var t: nat :| BareAt(d, s, t);
      assert BareAt(d, u, t);
    }
    if Bare(d, u) {
      var t: nat :| BareAt(d, u, t);
      assert BareAt(d, s, t);
    }
  }

  /** The code at `j` is the last thing in the input. */
  lemma BareLast(d: seq<byte>, s: nat, j: nat)
    requires s <= j < |d| && Next(d, s) == j && j + CodeLen(d, j) == |d|
    ensures Bare(d, s) <==> j == s
  {
    if j == s {
      assert BareAt(d, s, j);
    }
    forall t: nat | j != s ensures !BareAt(d, s, t) {
      if BareAt(d, s, t) && j < t {
        CodesApart(d, j, t);
      }
    }
  }

  lemma {:induction false} LastEmptyFrom(d: seq<byte>, s: nat)
    requires s <= |d|
    ensures LastEmpty(RtpFrom(d, s)) <==> Bare(d, s)
    decreases |d| - s
  {
    hide CodeLen, Bare, RtpFrom;
    var j := Next(d, s);
    if j == |d| {
      RtpEnd(d, s);
      NoneBare(d, s);
    } else {
      var u := j + CodeLen(d, j);
      RtpStep(d, s, j);
      if u < |d| {
        LastEmptyFrom(d, u);
        BareBehind(d, s, j);
        RtpSome(d, u);
        LastOfCons(d[s..j], RtpFrom(d, u));
      } else {
        NextAtEnd(d);
        RtpEnd(d, u);
        BareLast(d, s, j);
        assert [d[s..j]] + [] == [d[s..j]];
      }
    }
  }

  lemma LastOfCons(u: seq<byte>, us: seq<seq<byte>>)
    requires us != []
    ensures LastEmpty([u] + us) == LastEmpty(us)
  {
    assert ([u] + us)[|us|] == us[|us| - 1];
  }

  lemma NextAtEnd(d: seq<byte>)
    ensures Next(d, |d|) == |d|
  {
  }

  lemma NoneBare(d: seq<byte>, s: nat)
    requires s <= |d| && Next(d, s) == |d|
    ensures !Bare(d, s)
  {
    forall t: nat ensures !BareAt(d, s, t) {
    }
  }

  lemma RtpSome(d: seq<byte>, s: nat)
    requires s < |d|
    ensures RtpFrom(d, s) != []
  {
    hide CodeLen;
  }

  lemma BareIsDouble(d: seq<byte>, j: nat)
    requires j < |d| && Next(d, 0) == j && j + 3 < |d|
    ensures Bare(d, j + CodeLen(d, j)) <==> EndsWith(d, [0, 0, 1, 0, 0, 1]) || EndsWith(d, [0, 0, 1, 0, 0, 0, 1])
  {
    hide Next, CodeLen, Bare;
    if EndsWith(d, [0, 0, 1, 0, 0, 1]) {
      DoubleCodes(d, |d| - 3);
      DoubleIsBare(d, j, |d| - 3);
    } else if EndsWith(d, [0, 0, 1, 0, 0, 0, 1]) {
      DoubleCodes(d, |d| - 4);
      DoubleIsBare(d, j, |d| - 4);
    } else if Bare(d, j + CodeLen(d, j)) {
      BareEndsDouble(d, j);
    }
  }

  lemma BareEndsDouble(d: seq<byte>, j: nat)
    requires CodeLen(d, j) > 0 && Bare(d, j + CodeLen(d, j))
    ensures EndsWith(d, [0, 0, 1, 0, 0, 1]) || EndsWith(d, [0, 0, 1, 0, 0, 0, 1])
  {
    CodeBefore(d, j);
    var t: nat :| BareAt(d, j + CodeLen(d, j), t);
    hide CodeLen, EndsWith;
    DoubleAt(d, t);
  }

  lemma DoubleAt(d: seq<byte>, t: nat)
    requires 3 <= t < |d| && CodeLen(d, t - 3) == 3 && CodeLen(d, t) > 0 && t + CodeLen(d, t) == |d|
    ensures EndsWith(d, [0, 0, 1, 0, 0, 1]) || EndsWith(d, [0, 0, 1, 0, 0, 0, 1])
  {
    assert d[t - 3] == 0 && d[t - 2] == 0 && d[t - 1] == 1;
    if CodeLen(d, t) == 3 {
      assert d[|d| - 6..] == [0, 0, 1, 0, 0, 1];
    } else {
      assert d[|d| - 7..] == [0, 0, 1, 0, 0, 0, 1];
    }
  }

  lemma DoubleCodes(d: seq<byte>, t: nat)
    requires 3 <= t < |d| && (d[t - 3..] == [0, 0, 1, 0, 0, 1] || d[t - 3..] == [0, 0, 1, 0, 0, 0, 1])
    ensures CodeLen(d, t - 3) == 3 && CodeLen(d, t) > 0 && t + CodeLen(d, t) == |d|
  {
    var tail := d[t - 3..];
    assert forall k :: 0 <= k < |tail| ==> d[t - 3 + k] == tail[k];
    assert d[t - 3] == tail[0] && d[t - 2] == tail[1] && d[t - 1] == tail[2];
    assert d[t] == tail[3] && d[t + 1] == tail[4] && d[t + 2] == tail[5];
    if |tail| == 7 {
      assert d[t + 3] == tail[6];
    }
  }

  lemma DoubleIsBare(d: seq<byte>, j: nat, t: nat)
    requires j < |d| && Next(d, 0) == j && 3 <= t < |d|
    requires CodeLen(d, t - 3) == 3 && CodeLen(d, t) > 0 && t + CodeLen(d, t) == |d|
    ensures Bare(d, j + CodeLen(d, j))
  {
    var s := j + CodeLen(d, j);
    assert j <= t - 3;
    if j < t - 3 {
      CodesApart(d, j, t - 3);
    }
    assert BareAt(d, s, t);
  }

  /** The bytes on which the RTP scanner's last unit is empty. */
  lemma LastUnitEmptyIff(d: seq<byte>)
    ensures LastEmpty(RtpUnits(d)) <==> EndsInBareCode(d)
  {
    var j, s := Next(d, 0), RtpStart(d);
    LastEmptyFrom(d, s);
    if j + 3 < |d| {
      BareIsDouble(d, j);
    } else if j < |d| {
      assert j + 3 == |d| && s == j && BareAt(d, s, j);
    } else {
      NoCodeNoBare(d, s);
    }
  }

  lemma NoCodeNoBare(d: seq<byte>, s: nat)
    requires Next(d, 0) == |d|
    ensures !Bare(d, s) && !EndsInBareCode(d)
  {
    if EndsWith(d, [0, 0, 1, 0, 0, 1]) {
      DoubleCodes(d, |d| - 3);
    }
    if EndsWith(d, [0, 0, 1, 0, 0, 0, 1]) {
      DoubleCodes(d, |d| - 4);
    }
  }

  // ---------- round trip ----------

  function Code(long: bool): (c: seq<byte>)
    ensures 3 <= |c| <= 4
  {
    if long then [0, 0, 0, 1] else [0, 0, 1]
  }

  /** A stream of units, each behind a start code of either length. */
  function Encode(nals: seq<seq<byte>>, long: seq<bool>): seq<byte>
    requires |nals| == |long|
  {
    if nals == [] then [] else Code(long[0]) + nals[0] + Encode(nals[1..], long[1..])
  }

  /** No start code inside, which emulation prevention guarantees. */
  ghost predicate NoCodeInside(u: seq<byte>) {
    forall i :: 0 <= i && i + 2 < |u| ==> !(u[i] == 0 && u[i + 1] == 0 && u[i + 2] == 1)
  }

  /** Units as section 7.4.1 of H.264 has them: not empty, no start code inside, no zero at the end. */
  ghost predicate WellFormed(u: seq<byte>) {
    u != [] && NoCodeInside(u) && u[|u| - 1] != 0
  }

  /** No start code begins inside a unit, whatever follows it. */
  lemma NoCodeBegins(pre: seq<byte>, u: seq<byte>, post: seq<byte>, i: nat)
    requires WellFormed(u) && |pre| <= i < |pre| + |u|
    ensures CodeLen(pre + u + post, i) == 0
  {
    var d := pre + u + post;
    assert forall m :: 0 <= m < |u| ==> d[|pre| + m] == u[m];
  }

  lemma {:induction false} NextAt(d: seq<byte>, s: nat, e: nat)
    requires s <= e <= |d| && forall i :: s <= i < e ==> CodeLen(d, i) == 0
    requires e < |d| ==> CodeLen(d, e) > 0
    ensures Next(d, s) == e
    decreases e - s
  {
    if s < e {
      NextAt(d, s + 1, e);
    }
  }

  lemma CodeAt(pre: seq<byte>, long: bool, post: seq<byte>)
    ensures CodeLen(pre + (Code(long) + post), |pre|) == |Code(long)|
  {
    var d, c := pre + (Code(long) + post), Code(long);
    assert forall m :: 0 <= m < |c| ==> d[|pre| + m] == c[m];
  }

  /** A unit ends where the next start code begins, or at the end. */
  lemma UnitEnds(head: seq<byte>, u: seq<byte>, tail: seq<byte>)
    requires WellFormed(u) && (tail == [] || exists long, post :: tail == Code(long) + post)
    ensures Next(head + u + tail, |head|) == |head| + |u|
  {
    hide CodeLen, WellFormed, Code, Next;
    var d, s, e := head + u + tail, |head|, |head| + |u|;
    forall i | s <= i < e ensures CodeLen(d, i) == 0 {
      NoCodeBegins(head, u, tail, i);
    }
    if tail != [] {
      var long, post :| tail == Code(long) + post;
      CodeAt(head + u, long, post);
    }
    NextAt(d, s, e);
  }

  lemma {:induction false} UnitsOfEncode(pre: seq<byte>, nals: seq<seq<byte>>, long: seq<bool>)
    requires |nals| == |long| && nals != [] && forall k :: 0 <= k < |nals| ==> WellFormed(nals[k])
    ensures UnitsFrom(pre + Encode(nals, long), |pre| + |Code(long[0])|) == nals
    decreases |nals|
  {
    hide CodeLen, WellFormed, Code, Next, UnitsFrom, Encode;
    var u, rest, flags := nals[0], nals[1..], long[1..];
    var head, tail := pre + Code(long[0]), Encode(rest, flags);
    var d := head + u + tail;
    EncodeHead(nals, long);
    assert pre + (Code(long[0]) + (u + tail)) == d;
    var s, e := |head|, |head| + |u|;
    if rest == [] {
      NothingEncoded(flags);
      UnitEnds(head, u, tail);
      assert d[s..] == u;
      LastUnit(d, s);
    } else {
      var post := rest[0] + Encode(rest[1..], flags[1..]);
      EncodeHead(rest, flags);
      UnitEnds(head, u, tail);
      CodeAt(head + u, flags[0], post);
      assert head + u + (Code(flags[0]) + post) == d;
      UnitsStep(d, s, e);
      UnitsOfEncode(head + u, rest, flags);
      assert d[s..e] == u;
    }
  }

  lemma {:induction false} NonEmptyAll(us: seq<seq<byte>>)
    requires forall k :: 0 <= k < |us| ==> us[k] != []
    ensures NonEmpty(us) == us
  {
    if us != [] {
      NonEmptyAll(us[..|us| - 1]);
    }
  }

  lemma NothingEncoded(long: seq<bool>)
    requires long == []
    ensures Encode([], long) == []
  {
  }

  lemma EncodeHead(nals: seq<seq<byte>>, long: seq<bool>)
    requires |nals| == |long|
    ensures nals == [] ==> Encode(nals, long) == []
    ensures nals != [] ==> Encode(nals, long) == Code(long[0]) + (nals[0] + Encode(nals[1..], long[1..]))
  {
  }

  lemma NotEmpty(nals: seq<seq<byte>>)
    requires forall k :: 0 <= k < |nals| ==> WellFormed(nals[k])
    ensures forall k :: 0 <= k < |nals| ==> nals[k] != []
  {
  }

  /** Scanning a stream of well-formed units gives back exactly those units, for any mix of start codes. */
  lemma ScanInvertsEncode(nals: seq<seq<byte>>, long: seq<bool>)
    requires |nals| == |long| && forall k :: 0 <= k < |nals| ==> WellFormed(nals[k])
    ensures Units(Encode(nals, long)) == nals
    ensures nals != [] ==> NonEmpty(RtpUnits(Encode(nals, long))) == nals
  {
    hide *;
    var d := Encode(nals, long);
    EncodeHead(nals, long);
    if nals == [] {
      NoUnits(d);
    } else {
      var post := nals[0] + Encode(nals[1..], long[1..]);
      assert [] + (Code(long[0]) + post) == d && [] + d == d;
      UnitsOfEncode([], nals, long);
      CodeAt([], long[0], post);
      NextAt(d, 0, 0);
      UnitsStart(d, 0);
      NotEmpty(nals);
      NonEmptyAll(nals);
      ScannersAgreeIff(d);
    }
  }
}
