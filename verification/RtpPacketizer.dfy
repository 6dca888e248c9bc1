/**
  * RTP packetisation of H.264 (src/network/rtsp_server/rtp_packetizer.cc): single units and FU-A fragments
  * (section 5.8 of RFC 6184) in interleaved frames (section 10.12 of RFC 2326).
  */
module RtpPacketizer {
  import opened Bytes
  import opened Options
  import opened Sequences
  import opened AnnexB

  const MAX_PAYLOAD := 1400
  const CHUNK := 1398

  // ---------- a receiver ----------

  datatype RtpPacket = RtpPacket(marker: bool, sequence: nat, timestamp: nat, ssrc: nat, payload: seq<byte>)

  /** One interleaved frame on `channel`: dollar sign, channel, length, RTP header, payload. */
  function ParseFrame(channel: byte, s: seq<byte>): Option<RtpPacket> {
    if |s| < 16 || s[0] != 0x24 || s[1] != channel || FromBE(s[2..4]) != |s| - 4 then None
    else if s[4] != 0x80 || s[5] % 128 != 96 then None
    else Some(RtpPacket(s[5] >= 128, FromBE(s[6..8]), FromBE(s[8..12]), FromBE(s[12..16]), s[16..]))
  }

  /** A receiver's reading of the connection: frames cut by their length fields, back to back to the end. */
  function Deinterleave(channel: byte, s: seq<byte>): Option<seq<RtpPacket>>
    decreases |s|
  {
    if s == [] then Some([])
    else if |s| < 4 || |s| < 4 + FromBE(s[2..4]) then None
    else
      var n := 4 + FromBE(s[2..4]);
      match (ParseFrame(channel, s[..n]), Deinterleave(channel, s[n..]))
      case (Some(p), Some(ps)) => Some([p] + ps)
      case _ => None
  }

  /** Reassembly state: finished units and the one being collected, or a protocol error. */
  datatype Receiver = Receiver(nals: seq<seq<byte>>, partial: Option<seq<byte>>) | Broken

  predicate IsFuA(p: seq<byte>) {
    p != [] && p[0] % 32 == 28
  }

  /**
    * The types that stand for a unit; the others are aggregation packets, fragments or reserved (section 5.2 of RFC
    * 6184).
    */
  predicate IsUnitType(kind: nat) {
    1 <= kind <= 23
  }

  /**
    * The unit header carried by a fragment: forbidden bit and importance from the indicator, type from the FU header.
    */
  function FuUnitHeader(p: seq<byte>): byte
    requires |p| >= 2
  {
    p[0] / 32 * 32 + p[1] % 32
  }

  function Receive(r: Receiver, p: seq<byte>): Receiver {
    if r.Broken? || p == [] then Broken
    else if !IsFuA(p) then
      if r.partial.Some? || !IsUnitType(p[0] % 32) then Broken else Receiver(r.nals + [p], None)
    else if |p| < 2 || !IsUnitType(p[1] % 32) || (p[1] >= 128 && p[1] / 64 % 2 == 1) then Broken
    else
      var starts, ends := p[1] >= 128, p[1] / 64 % 2 == 1;
      if starts != r.partial.None? then Broken
      else
        var unit := (if starts then [FuUnitHeader(p)] else r.partial.value) + p[2..];
        if ends then Receiver(r.nals + [unit], None) else Receiver(r.nals, Some(unit))
  }

  function ReceiveAll(r: Receiver, ps: seq<seq<byte>>): Receiver
    decreases |ps|
  {
    if ps == [] then r else ReceiveAll(Receive(r, ps[0]), ps[1..])
  }

  lemma {:induction false} ReceiveAppend(r: Receiver, a: seq<seq<byte>>, b: seq<seq<byte>>)
    ensures ReceiveAll(r, a + b) == ReceiveAll(ReceiveAll(r, a), b)
    decreases |a|
  {
    hide Receive;
    if a == [] {
      assert a + b == b;
    } else {
      assert (a + b)[1..] == a[1..] + b;
      ReceiveAppend(Receive(r, a[0]), a[1..], b);
    }
  }

  // ---------- specification of the packetizer ----------

  function FuPayload(header: byte, chunk: seq<byte>, first: bool, last: bool): (p: seq<byte>)
    ensures |p| == |chunk| + 2
  {
    [header / 32 % 4 * 32 + 28, header % 32 + (if first then 128 else 0) + (if last then 64 else 0)] + chunk
  }

  /** Fragments of what follows the unit header. */
  function Fragments(header: byte, rest: seq<byte>, first: bool): (ps: seq<seq<byte>>)
    ensures rest != [] ==> ps != []
    decreases |rest|
  {
    if rest == [] then []
    else
      var n := Min(|rest|, CHUNK);
      [FuPayload(header, rest[..n], first, n == |rest|)] + Fragments(header, rest[n..], false)
  }

  /** The payloads of one unit. */
  function Payloads(nal: seq<byte>): (ps: seq<seq<byte>>)
    ensures ps == [] <==> nal == []
  {
    if nal == [] then []
    else if |nal| <= MAX_PAYLOAD then [nal]
    else Fragments(nal[0], nal[1..], true)
  }

  /** The header a receiver rebuilds from fragments: the forbidden bit is gone. */
  function Rebuilt(header: byte): byte {
    header % 128
  }

  lemma ReceiveFragment(ns: seq<seq<byte>>, acc: seq<byte>, header: byte, chunk: seq<byte>, first: bool, last: bool)
    requires !(first && last) && IsUnitType(header % 32)
    ensures
      var unit := (if first then [Rebuilt(header)] else acc) + chunk;
      Receive(Receiver(ns, if first then None else Some(acc)), FuPayload(header, chunk, first, last)) ==
      (if last then Receiver(ns + [unit], None) else Receiver(ns, Some(unit)))
  {
    FragmentFields(header, chunk, first, last);
    hide FuPayload, FuUnitHeader, IsFuA, Rebuilt, IsUnitType;
  }

  /** What a receiver reads off a fragment. */
  lemma FragmentFields(header: byte, chunk: seq<byte>, first: bool, last: bool)
    ensures
      var p := FuPayload(header, chunk, first, last);
      && IsFuA(p) && (p[1] >= 128 <==> first) && (p[1] / 64 % 2 == 1 <==> last) && p[2..] == chunk
      && FuUnitHeader(p) == Rebuilt(header) && p[1] % 32 == header % 32
  {
    var p := FuPayload(header, chunk, first, last);
    IndicatorBits(header / 32 % 4);
    FuHeaderBits(header % 32, first, last);
    HeaderBits(header, header / 128, header / 32 % 4, header % 32);
    assert p[2..] == chunk;
  }

  lemma IndicatorBits(importance: nat)
    requires importance < 4
    ensures (importance * 32 + 28) / 32 == importance && (importance * 32 + 28) % 32 == 28
  {
  }

  lemma FuHeaderBits(kind: nat, first: bool, last: bool)
    requires kind < 32
    ensures var h := kind + (if first then 128 else 0) + (if last then 64 else 0);
            (h >= 128 <==> first) && (h / 64 % 2 == 1 <==> last) && h % 32 == kind
  {
  }

  lemma HeaderBits(header: nat, forbidden: nat, importance: nat, kind: nat)
    requires forbidden == header / 128 && importance == header / 32 % 4 && kind == header % 32
    ensures header % 128 == importance * 32 + kind
  {
  }

  /** Fragments reassemble; a start and an end never meet in one fragment because fragmented units are long. */
  lemma {:induction false} FragmentsReassemble(ns: seq<seq<byte>>, acc: seq<byte>, header: byte, rest: seq<byte>,
                                               first: bool)
    requires rest != [] && (first ==> |rest| > CHUNK) && IsUnitType(header % 32)
    ensures ReceiveAll(Receiver(ns, if first then None else Some(acc)), Fragments(header, rest, first)) ==
            Receiver(ns + [(if first then [Rebuilt(header)] else acc) + rest], None)
    decreases |rest|
  {
    hide Receive, FuPayload;
    var n := Min(|rest|, CHUNK);
    var unit := (if first then [Rebuilt(header)] else acc) + rest[..n];
    ReceiveFragment(ns, acc, header, rest[..n], first, n == |rest|);
    var ps := Fragments(header, rest, first);
    assert ps[1..] == Fragments(header, rest[n..], false);
    if n == |rest| {
      assert rest[n..] == [] && rest[..n] == rest && ps[1..] == [];
    } else {
      FragmentsReassemble(ns, unit, header, rest[n..], false);
      assert unit + rest[n..] == (if first then [Rebuilt(header)] else acc) + rest;
    }
  }

  lemma {:induction false} BrokenStays(ps: seq<seq<byte>>)
    ensures ReceiveAll(Broken, ps) == Broken
    decreases |ps|
  {
    if ps != [] {
      BrokenStays(ps[1..]);
    }
  }

  /** A fragment of something that is not a unit breaks the receiver. */
  lemma FragmentsBreak(ns: seq<seq<byte>>, header: byte, rest: seq<byte>)
    requires |rest| > CHUNK && !IsUnitType(header % 32)
    ensures ReceiveAll(Receiver(ns, None), Fragments(header, rest, true)) == Broken
  {
    var ps := Fragments(header, rest, true);
    FragmentFields(header, rest[..CHUNK], true, false);
    assert ps[0] == FuPayload(header, rest[..CHUNK], true, false);
    hide FuPayload, IsUnitType, Fragments, FuUnitHeader;
    assert Receive(Receiver(ns, None), ps[0]) == Broken;
    BrokenStays(ps[1..]);
  }

  /** Units the format can carry unchanged: of a unit type, and with forbidden bit 0 if they must be fragmented. */
  predicate Sendable(nal: seq<byte>) {
    nal != [] && IsUnitType(nal[0] % 32) && (|nal| > MAX_PAYLOAD ==> nal[0] < 128)
  }

  /** A unit arrives as sent exactly when it is sendable. */
  lemma UnitArrivesIff(ns: seq<seq<byte>>, nal: seq<byte>)
    requires nal != []
    ensures ReceiveAll(Receiver(ns, None), Payloads(nal)) == Receiver(ns + [nal], None) <==> Sendable(nal)
  {
    if |nal| <= MAX_PAYLOAD {
      assert [nal][1..] == [];
      var r := Receive(Receiver(ns, None), nal);
      assert ReceiveAll(Receiver(ns, None), [nal]) == r;
    } else if !IsUnitType(nal[0] % 32) {
      FragmentsBreak(ns, nal[0], nal[1..]);
    } else {
      FragmentsReassemble(ns, [], nal[0], nal[1..], true);
      var got := [Rebuilt(nal[0])] + nal[1..];
      assert (ns + [got])[|ns|] == got && (ns + [nal])[|ns|] == nal;
      assert got[0] == Rebuilt(nal[0]);
      if nal[0] < 128 {
        assert got == nal;
      }
    }
  }

  /** A unit of an unspecified type: the receiver takes it for an aggregation packet. */
  lemma AggregationTypeLost()
    ensures ReceiveAll(Receiver([], None), Payloads([24, 0, 1, 0x65])) == Broken
  {
    var u: seq<byte> := [24, 0, 1, 0x65];
    assert Payloads(u) == [u] && [u][1..] == [];
    hide Payloads;
    assert Receive(Receiver([], None), u) == Broken;
  }

  /** A unit of 1401 bytes with its forbidden bit set arrives with the bit cleared. */
  lemma ForbiddenBitLost()
    ensures ReceiveAll(Receiver([], None), Payloads([0xE5] + seq(1400, _ => 7))) ==
            Receiver([[0x65] + seq(1400, _ => 7)], None)
  {
    var body: seq<byte> := seq(1400, _ => 7);
    var u: seq<byte> := [0xE5] + body;
    assert u[1..] == body;
    FragmentsReassemble([], [], 0xE5, body, true);
    hide ReceiveAll, Fragments, Receive;
    assert Rebuilt(0xE5) == 0x65 && [] + [[0x65] + body] == [[0x65] + body];
  }

  lemma {:induction false} FragmentSizes(header: byte, rest: seq<byte>, first: bool)
    requires first ==> |rest| > CHUNK
    ensures forall p :: p in Fragments(header, rest, first) ==>
              && 2 <= |p| <= MAX_PAYLOAD && IsFuA(p) && !(p[1] >= 128 && p[1] / 64 % 2 == 1)
    decreases |rest|
  {
    if rest != [] {
      var n := Min(|rest|, CHUNK);
      FragmentSizes(header, rest[n..], false);
      var p := FuPayload(header, rest[..n], first, n == |rest|);
      assert p[0] == header / 32 % 4 * 32 + 28;
      assert p[1] == header % 32 + (if first then 128 else 0) + (if n == |rest| then 64 else 0);
    }
  }

  /** No payload exceeds 1400 bytes, and no fragment of a unit carries both the start and the end bit. */
  lemma PayloadSizes(nal: seq<byte>)
    ensures forall p :: p in Payloads(nal) ==> 1 <= |p| <= MAX_PAYLOAD
    ensures |nal| > MAX_PAYLOAD ==>
              forall p :: p in Payloads(nal) ==> |p| >= 2 && !(p[1] >= 128 && p[1] / 64 % 2 == 1)
  {
    if |nal| > MAX_PAYLOAD {
      FragmentSizes(nal[0], nal[1..], true);
    }
  }

  // ---------- access units ----------

  /** A payload with its marker bit. */
  datatype Marked = Marked(payload: seq<byte>, marker: bool)

  function MarkLast(ps: seq<seq<byte>>, marker: bool): (ms: seq<Marked>)
    ensures |ms| == |ps|
    ensures forall k :: 0 <= k < |ps| ==> ms[k] == Marked(ps[k], marker && k == |ps| - 1)
  {
    seq(|ps|, k requires 0 <= k < |ps| => Marked(ps[k], marker && k == |ps| - 1))
  }

  function UnitPackets(nals: seq<seq<byte>>): seq<Marked> {
    if nals == [] then []
    else MarkLast(Payloads(nals[0]), |nals| == 1) + UnitPackets(nals[1..])
  }

  function PayloadsOf(ms: seq<Marked>): (ps: seq<seq<byte>>)
    ensures |ps| == |ms|
  {
    seq(|ms|, k requires 0 <= k < |ms| => ms[k].payload)
  }

  lemma PayloadsOfAppend(a: seq<Marked>, b: seq<Marked>)
    ensures PayloadsOf(a + b) == PayloadsOf(a) + PayloadsOf(b)
  {
  }

  lemma PayloadsOfMarked(ps: seq<seq<byte>>, marker: bool)
    ensures PayloadsOf(MarkLast(ps, marker)) == ps
  {
  }

  lemma PayloadsStep(nals: seq<seq<byte>>)
    requires nals != []
    ensures PayloadsOf(UnitPackets(nals)) == Payloads(nals[0]) + PayloadsOf(UnitPackets(nals[1..]))
  {
    hide Payloads, PayloadsOf, MarkLast;
    PayloadsOfAppend(MarkLast(Payloads(nals[0]), |nals| == 1), UnitPackets(nals[1..]));
    PayloadsOfMarked(Payloads(nals[0]), |nals| == 1);
  }

  lemma ReceiveUnit(ns: seq<seq<byte>>, u: seq<byte>)
    requires u == [] || Sendable(u)
    ensures ReceiveAll(Receiver(ns, None), Payloads(u)) == Receiver(ns + (if u == [] then [] else [u]), None)
  {
    hide Sendable, Receive;
    if u == [] {
      assert ns + [] == ns;
    } else {
      UnitArrivesIff(ns, u);
    }
  }

  lemma NothingArrives(ns: seq<seq<byte>>)
    ensures ReceiveAll(Receiver(ns, None), PayloadsOf(UnitPackets([]))) == Receiver(ns + NonEmpty([]), None)
  {
    assert ns + NonEmpty([]) == ns;
  }

  /** Finished units are never taken back. */
  lemma {:induction false} UnitsOnlyGrow(r: Receiver, ps: seq<seq<byte>>)
    requires r.Receiver?
    ensures var q := ReceiveAll(r, ps); q.Receiver? ==> |r.nals| <= |q.nals| && q.nals[..|r.nals|] == r.nals
    decreases |ps|
  {
    if ps != [] {
      var t := Receive(r, ps[0]);
      GrowOnce(r, ps[0]);
      hide Receive;
      if t.Receiver? {
        UnitsOnlyGrow(t, ps[1..]);
        var q := ReceiveAll(t, ps[1..]);
        if q.Receiver? {
          assert q.nals[..|r.nals|] == q.nals[..|t.nals|][..|r.nals|];
        }
      } else {
        BrokenStays(ps[1..]);
      }
    }
  }

  lemma GrowOnce(r: Receiver, p: seq<byte>)
    requires r.Receiver?
    ensures var t := Receive(r, p); t.Receiver? ==> |r.nals| <= |t.nals| && t.nals[..|r.nals|] == r.nals
  {
  }

  predicate AllSendable(nals: seq<seq<byte>>) {
    forall u :: u in nals ==> u == [] || Sendable(u)
  }

  lemma AllSendableCons(u: seq<byte>, rest: seq<seq<byte>>)
    ensures AllSendable([u] + rest) <==> (u == [] || Sendable(u)) && AllSendable(rest)
  {
    hide Sendable;
    if AllSendable([u] + rest) {
      assert u in [u] + rest;
      assert forall v :: v in rest ==> v in [u] + rest;
    }
  }

  /** What a receiver has finished since the first `n` units, and what it is collecting, is of a unit type. */
  ghost predicate OnlyUnits(r: Receiver, n: nat) {
    r.Receiver? ==>
      && (forall i :: n <= i < |r.nals| ==> r.nals[i] != [] && IsUnitType(r.nals[i][0] % 32))
      && (r.partial.Some? ==> r.partial.value != [] && IsUnitType(r.partial.value[0] % 32))
  }

  lemma ReceiveOnlyUnits(r: Receiver, n: nat, p: seq<byte>)
    requires OnlyUnits(r, n)
    ensures OnlyUnits(Receive(r, p), n)
  {
    if r.Receiver? && IsFuA(p) && |p| >= 2 {
      HeaderKind(p[0] / 32, p[1] % 32);
    }
    hide IsUnitType;
  }

  lemma HeaderKind(high: nat, kind: nat)
    requires kind < 32
    ensures (high * 32 + kind) % 32 == kind
  {
  }

  lemma {:induction false} ReceiveAllOnlyUnits(r: Receiver, n: nat, ps: seq<seq<byte>>)
    requires OnlyUnits(r, n)
    ensures OnlyUnits(ReceiveAll(r, ps), n)
    decreases |ps|
  {
    hide OnlyUnits, Receive;
    if ps != [] {
      ReceiveOnlyUnits(r, n, ps[0]);
      ReceiveAllOnlyUnits(Receive(r, ps[0]), n, ps[1..]);
    }
  }

  /** Nothing that is not of a unit type can come first among the units received. */
  lemma NoUnitOfOtherType(ns: seq<seq<byte>>, u: seq<byte>, more: seq<seq<byte>>, ps: seq<seq<byte>>)
    requires u != [] && !IsUnitType(u[0] % 32)
    ensures ReceiveAll(Receiver(ns, None), ps) != Receiver(ns + ([u] + more), None)
  {
    ReceiveAllOnlyUnits(Receiver(ns, None), |ns|, ps);
    assert (ns + ([u] + more))[|ns|] == u;
    hide ReceiveAll, IsUnitType;
  }

  /** A fragmented unit with its forbidden bit set is taken for another. */
  lemma ForbiddenArrives(ns: seq<seq<byte>>, u: seq<byte>)
    requires u != [] && IsUnitType(u[0] % 32) && !Sendable(u)
    ensures
      var r := ReceiveAll(Receiver(ns, None), Payloads(u));
      r.Receiver? && |r.nals| == |ns| + 1 && r.nals[|ns|] != u
  {
    FragmentsReassemble(ns, [], u[0], u[1..], true);
    var got := [Rebuilt(u[0])] + u[1..];
    assert got[0] != u[0];
    hide ReceiveAll, Fragments;
  }

  /** A receiver gets the non-empty units of an access unit, in order, exactly when each of them is sendable. */
  lemma {:induction false} UnitsArriveIff(ns: seq<seq<byte>>, nals: seq<seq<byte>>)
    ensures ReceiveAll(Receiver(ns, None), PayloadsOf(UnitPackets(nals))) == Receiver(ns + NonEmpty(nals), None)
            <==> AllSendable(nals)
    decreases |nals|
  {
    hide *;
    if nals == [] {
      NothingArrives(ns);
      NoneSendable();
    } else {
      var u, rest := nals[0], nals[1..];
      var got := ns + (if u == [] then [] else [u]);
      PayloadsStep(nals);
      ReceiveAppend(Receiver(ns, None), Payloads(u), PayloadsOf(UnitPackets(rest)));
      NonEmptyCons(u, rest);
      AllSendableCons(u, rest);
      assert [u] + rest == nals;
      assert got + NonEmpty(rest) == ns + ((if u == [] then [] else [u]) + NonEmpty(rest));
      if u == [] || Sendable(u) {
        ReceiveUnit(ns, u);
        UnitsArriveIff(got, rest);
      } else {
        var ps := PayloadsOf(UnitPackets(rest));
        NotSendable(ns, u, NonEmpty(rest), ps);
      }
    }
  }

  lemma NotSendable(ns: seq<seq<byte>>, u: seq<byte>, more: seq<seq<byte>>, ps: seq<seq<byte>>)
    requires u != [] && !Sendable(u)
    ensures ReceiveAll(ReceiveAll(Receiver(ns, None), Payloads(u)), ps) != Receiver(ns + ([u] + more), None)
  {
    if IsUnitType(u[0] % 32) {
      ForbiddenArrives(ns, u);
      hide Payloads, ReceiveAll, Sendable, IsUnitType;
      var r := ReceiveAll(Receiver(ns, None), Payloads(u));
      UnitsOnlyGrow(r, ps);
      OtherUnit(ns, u, more, r.nals, ReceiveAll(r, ps));
    } else {
      hide Payloads, ReceiveAll, Sendable, IsUnitType;
      ReceiveAppend(Receiver(ns, None), Payloads(u), ps);
      NoUnitOfOtherType(ns, u, more, Payloads(u) + ps);
    }
  }

  lemma NoneSendable()
    ensures AllSendable([])
  {
  }

  /** With another unit in its place, the list cannot be the one expected. */
  lemma OtherUnit(ns: seq<seq<byte>>, u: seq<byte>, more: seq<seq<byte>>, so: seq<seq<byte>>, q: Receiver)
    requires |so| == |ns| + 1 && so[|ns|] != u
    requires q.Receiver? ==> |so| <= |q.nals| && q.nals[..|so|] == so
    ensures q != Receiver(ns + ([u] + more), None)
  {
    if q.Receiver? {
      assert q.nals[|ns|] == q.nals[..|so|][|ns|];
      assert (ns + ([u] + more))[|ns|] == u;
    }
  }

  /** The marker is on the last packet and no other exactly when the last unit found is not empty. */
  lemma {:induction false} MarkerOfUnits(nals: seq<seq<byte>>)
    requires nals != []
    ensures
      var ms := UnitPackets(nals);
      && (forall k :: 0 <= k < |ms| - 1 ==> !ms[k].marker)
      && (ms != [] ==> (ms[|ms| - 1].marker <==> nals[|nals| - 1] != []))
      && (nals[|nals| - 1] != [] ==> ms != [])
    decreases |nals|
  {
    hide Payloads;
    var rest := nals[1..];
    var head, tail := MarkLast(Payloads(nals[0]), |nals| == 1), UnitPackets(rest);
    if rest == [] {
      assert head + tail == head;
    } else {
      MarkerOfUnits(rest);
      assert rest[|rest| - 1] == nals[|nals| - 1];
      var ms := head + tail;
      forall k | 0 <= k < |ms| - 1 ensures !ms[k].marker {
        if k >= |head| {
          assert ms[k] == tail[k - |head|];
        }
      }
    }
  }

  lemma NoPackets()
    ensures UnitPackets([]) == []
  {
  }

  /**
    * Of the packets sent for an access unit none but the last is marked, and the last is marked exactly when the
    * input does not end in a bare start code: one directly behind another, or a first one that is the last three bytes.
    */
  lemma MarkerOnLastIff(data: seq<byte>)
    ensures
      var ms := UnitPackets(RtpUnits(data));
      && (forall k :: 0 <= k < |ms| - 1 ==> !ms[k].marker)
      && (ms != [] ==> (ms[|ms| - 1].marker <==> !EndsInBareCode(data)))
  {
    var nals := RtpUnits(data);
    LastUnitEmptyIff(data);
    hide RtpUnits, EndsInBareCode;
    if nals == [] {
      NoPackets();
    } else {
      MarkerOfUnits(nals);
    }
  }

  /** One unit behind which two start codes follow: its only packet is not marked. */
  lemma MarkerMissing()
    ensures UnitPackets(RtpUnits([0, 0, 1, 0x65, 0, 0, 1, 0, 0, 1])) == [Marked([0x65], false)]
  {
    var d: seq<byte> := [0, 0, 1, 0x65, 0, 0, 1, 0, 0, 1];
    ScanOfMissing(d);
    hide RtpUnits, RtpFrom, Next, CodeLen;
    var nals: seq<seq<byte>> := [[0x65], []];
    assert nals[1..] == [[]] && nals[1..][1..] == [];
    NoPackets();
    assert Payloads(nals[0]) == [[0x65]] && Payloads([]) == [];
    assert UnitPackets(nals[1..]) == [];
    assert UnitPackets(nals) == MarkLast([[0x65]], false) + [];
  }

  lemma ScanOfMissing(d: seq<byte>)
    requires d == [0, 0, 1, 0x65, 0, 0, 1, 0, 0, 1]
    ensures RtpUnits(d) == [[0x65], []]
  {
    CodesOfMissing(d);
    hide CodeLen;
    assert Next(d, 0) == 0 && Next(d, 4) == 4 && Next(d, 7) == 7;
    NextSkip(d, 3);
    assert RtpStart(d) == 3;
    NextAtEnd(d);
    hide Next;
    RtpStep(d, 3, 4);
    RtpStep(d, 7, 7);
    RtpEnd(d, 10);
    hide RtpFrom, RtpStart;
    assert d[3..4] == [0x65] && d[7..7] == [];
  }

  lemma CodesOfMissing(d: seq<byte>)
    requires d == [0, 0, 1, 0x65, 0, 0, 1, 0, 0, 1]
    ensures CodeLen(d, 0) == 3 && CodeLen(d, 3) == 0 && CodeLen(d, 4) == 3 && CodeLen(d, 7) == 3
  {
  }

  // ---------- frames on the wire ----------

  function RtpHeader(marker: bool, sequence: nat, timestamp: nat, ssrc: nat): (h: seq<byte>)
    ensures |h| == 12
  {
    [0x80, 96 + (if marker then 128 else 0)] + BE(2, sequence) + BE(4, timestamp) + BE(4, ssrc)
  }

  function FrameBytes(channel: byte, p: RtpPacket): (f: seq<byte>)
    ensures |f| == 16 + |p.payload|
  {
    [0x24, channel] + BE(2, 12 + |p.payload|) + RtpHeader(p.marker, p.sequence, p.timestamp, p.ssrc) + p.payload
  }

  ghost predicate Fits(p: RtpPacket) {
    && p.sequence < 0x1_0000 && p.timestamp < 0x1_0000_0000 && p.ssrc < 0x1_0000_0000
    && |p.payload| <= MAX_PAYLOAD
  }

  lemma FrameFields(channel: byte, p: RtpPacket)
    ensures
      var s := FrameBytes(channel, p);
      && s[0] == 0x24 && s[1] == channel && s[2..4] == BE(2, 12 + |p.payload|)
      && s[4] == 0x80 && s[5] == 96 + (if p.marker then 128 else 0)
      && s[6..8] == BE(2, p.sequence) && s[8..12] == BE(4, p.timestamp) && s[12..16] == BE(4, p.ssrc)
      && s[16..] == p.payload
  {
    hide BE, Receive;
    var s, h := FrameBytes(channel, p), RtpHeader(p.marker, p.sequence, p.timestamp, p.ssrc);
    var a := [0x24, channel] + BE(2, 12 + |p.payload|);
    assert s == a + (h + p.payload) == (a + h) + p.payload;
    SliceBack(a + h, p.payload);
    SliceFront(a, h + p.payload, 2, 4);
    assert s[4] == h[0] && s[5] == h[1];
    assert h[2..4] == BE(2, p.sequence) && h[4..8] == BE(4, p.timestamp) && h[8..12] == BE(4, p.ssrc);
    assert s[6..8] == h[2..4] && s[8..12] == h[4..8] && s[12..16] == h[8..12];
  }

  lemma FrameRoundTrip(channel: byte, p: RtpPacket)
    requires Fits(p)
    ensures ParseFrame(channel, FrameBytes(channel, p)) == Some(p)
  {
    FrameFields(channel, p);
    Widths();
    FromBEOfBE(2, 12 + |p.payload|);
    FromBEOfBE(2, p.sequence);
    FromBEOfBE(4, p.timestamp);
    FromBEOfBE(4, p.ssrc);
    hide FrameBytes, BE, FromBE, Pow256;
  }

  /** Frames that read back one by one also read back from the connection they were written to. */
  lemma {:induction false} StreamRoundTrip(channel: byte, fs: seq<seq<byte>>, ps: seq<RtpPacket>)
    requires |fs| == |ps| && forall k :: 0 <= k < |fs| ==> ParseFrame(channel, fs[k]) == Some(ps[k])
    ensures Deinterleave(channel, Flatten(fs)) == Some(ps)
    decreases |fs|
  {
    if fs != [] {
      StreamRoundTrip(channel, fs[1..], ps[1..]);
      FirstFrame(channel, fs[0], Flatten(fs[1..]));
      hide ParseFrame, Deinterleave;
      assert [ps[0]] + ps[1..] == ps;
    }
  }

  lemma FirstFrame(channel: byte, f: seq<byte>, rest: seq<byte>)
    requires ParseFrame(channel, f).Some?
    ensures Deinterleave(channel, f + rest) ==
            match Deinterleave(channel, rest)
            case None => None
            case Some(ps) => Some([ParseFrame(channel, f).value] + ps)
  {
    var s := f + rest;
    assert |f| >= 16 && FromBE(f[2..4]) == |f| - 4;
    SliceFront(f, rest, 2, 4);
    SliceBack(f, rest);
    assert s[..|f|] == f;
    hide ParseFrame, FromBE;
  }

  /** Packet `k` of a call: consecutive sequence numbers modulo 2^16, one time stamp. */
  function PacketAt(ms: seq<Marked>, k: nat, sequence: nat, timestamp: nat, ssrc: nat): RtpPacket
    requires k < |ms|
  {
    RtpPacket(ms[k].marker, (sequence + k) % 0x1_0000, timestamp, ssrc, ms[k].payload)
  }

  function FramesOf(channel: byte, ms: seq<Marked>, sequence: nat, timestamp: nat, ssrc: nat): (fs: seq<seq<byte>>)
    ensures |fs| == |ms|
  {
    seq(|ms|, k requires 0 <= k < |ms| => FrameBytes(channel, PacketAt(ms, k, sequence, timestamp, ssrc)))
  }

  function PacketsOf(ms: seq<Marked>, sequence: nat, timestamp: nat, ssrc: nat): (ps: seq<RtpPacket>)
    ensures |ps| == |ms|
  {
    seq(|ms|, k requires 0 <= k < |ms| => PacketAt(ms, k, sequence, timestamp, ssrc))
  }

  /** Microseconds to the 90 kHz RTP clock, cut to 32 bits. */
  function RtpTimestamp(pts: int): nat {
    TruncDiv(pts * 90000, 1000000) % 0x1_0000_0000
  }

  lemma {:induction false} UnitPacketSizes(nals: seq<seq<byte>>)
    ensures forall k :: 0 <= k < |UnitPackets(nals)| ==> 1 <= |UnitPackets(nals)[k].payload| <= MAX_PAYLOAD
  {
    hide Payloads;
    if nals != [] {
      UnitPacketSizes(nals[1..]);
      PayloadSizes(nals[0]);
      var head := MarkLast(Payloads(nals[0]), |nals| == 1);
      forall k | 0 <= k < |head| ensures 1 <= |head[k].payload| <= MAX_PAYLOAD {
        assert head[k].payload in Payloads(nals[0]);
      }
    }
  }

  /**
    * One call end to end: every frame parses, and the frames one after another read as the packets; these
    * carry consecutive sequence numbers, one time stamp and at most 1400 bytes each; and a receiver gets exactly the
    * non-empty units the scanner found if and only if each of them is sendable.
    */
  lemma PacketizeDelivers(channel: byte, data: seq<byte>, pts: int, sequence: nat, ssrc: nat)
    requires sequence < 0x1_0000 && ssrc < 0x1_0000_0000
    ensures
      var ms := UnitPackets(RtpUnits(data));
      var fs := FramesOf(channel, ms, sequence, RtpTimestamp(pts), ssrc);
      && (forall k :: 0 <= k < |fs| ==>
            ParseFrame(channel, fs[k]) == Some(PacketAt(ms, k, sequence, RtpTimestamp(pts), ssrc))
            && |ms[k].payload| <= MAX_PAYLOAD)
      && Deinterleave(channel, Flatten(fs)) == Some(PacketsOf(ms, sequence, RtpTimestamp(pts), ssrc))
      && (ReceiveAll(Receiver([], None), PayloadsOf(ms)) == Receiver(NonEmpty(RtpUnits(data)), None) <==>
            AllSendable(RtpUnits(data)))
  {
    var nals := RtpUnits(data);
    var ms := UnitPackets(nals);
    UnitPacketSizes(nals);
    hide UnitPackets, RtpUnits, ParseFrame, FrameBytes, Sendable, RtpTimestamp;
    var ts := RtpTimestamp(pts);
    forall k | 0 <= k < |ms|
      ensures ParseFrame(channel, FrameBytes(channel, PacketAt(ms, k, sequence, ts, ssrc))) ==
              Some(PacketAt(ms, k, sequence, ts, ssrc))
    {
      TimestampFits(pts);
      FrameRoundTrip(channel, PacketAt(ms, k, sequence, ts, ssrc));
    }
    StreamRoundTrip(channel, FramesOf(channel, ms, sequence, ts, ssrc), PacketsOf(ms, sequence, ts, ssrc));
    UnitsArriveIff([], nals);
    assert [] + NonEmpty(nals) == NonEmpty(nals);
  }

  lemma TimestampFits(pts: int)
    ensures RtpTimestamp(pts) < 0x1_0000_0000
  {
  }

  /** The RTP time stamp is the low 32 bits of the 90 kHz clock. */
  lemma TimestampTicks(pts: int)
    ensures exists ticks :: IsTicks(pts, ticks) && RtpTimestamp(pts) == ticks % 0x1_0000_0000
  {
    assert IsTicks(pts, TruncDiv(pts * 90000, 1000000));
  }

  // ---------- the packetizer object ----------

  lemma UnitPacketsStep(nals: seq<seq<byte>>, i: nat)
    requires i < |nals|
    ensures UnitPackets(nals[i..]) == MarkLast(Payloads(nals[i]), |nals[i..]| == 1) + UnitPackets(nals[i + 1..])
  {
    hide Payloads, MarkLast;
    assert nals[i..][1..] == nals[i + 1..];
  }

  lemma FragmentsStep(header: byte, rest: seq<byte>, first: bool)
    requires rest != []
    ensures
      var n := Min(|rest|, CHUNK);
      Fragments(header, rest, first) ==
      [FuPayload(header, rest[..n], first, n == |rest|)] + Fragments(header, rest[n..], false)
  {
    hide FuPayload;
  }

  lemma Moved(done: seq<seq<byte>>, p: seq<byte>, more: seq<seq<byte>>)
    ensures done + ([p] + more) == done + [p] + more
  {
  }

  lemma SequenceStep(sequence: nat, n: nat)
    ensures ((sequence + n) % 0x1_0000 + 1) % 0x1_0000 == (sequence + (n + 1)) % 0x1_0000
  {
  }

  class RtpPacketizer {
    var ssrc: nat
    var sequence: nat
    var channel: byte

    ghost predicate Valid()
      reads this
    {
      sequence < 0x1_0000 && ssrc < 0x1_0000_0000
    }

    constructor ()
      ensures Valid() && ssrc == 0x1234_5678 && sequence == 0 && channel == 0
    {
      ssrc, sequence, channel := 0x1234_5678, 0, 0;
    }

    /** `sent` lists the frames handed to the callback. */
    method Packetize(data: seq<byte>, pts: int) returns (sent: seq<seq<byte>>)
      requires Valid()
      modifies this`sequence
      ensures Valid()
      ensures sent == FramesOf(channel, UnitPackets(RtpUnits(data)), old(sequence), RtpTimestamp(pts), ssrc)
      ensures sequence == (old(sequence) + |UnitPackets(RtpUnits(data))|) % 0x1_0000
    {
      NoPackets();
      hide Payloads, FrameBytes, RtpUnits, RtpTimestamp, UnitPackets, MarkLast;
      var nals := FindNalUnits(data);
      var timestamp := RtpTimestamp(pts);
      sent := [];
      ghost var done: seq<Marked> := [];
      for i := 0 to |nals|
        invariant Valid() && UnitPackets(nals) == done + UnitPackets(nals[i..])
        invariant sent == FramesOf(channel, done, old(sequence), timestamp, ssrc)
        invariant sequence == (old(sequence) + |done|) % 0x1_0000
      {
        ghost var ms := MarkLast(Payloads(nals[i]), |nals[i..]| == 1);
        UnitPacketsStep(nals, i);
        var frames := PacketizeH264Nal(nals[i], timestamp, i == |nals| - 1);
        FramesAppend(channel, done, ms, old(sequence), timestamp, ssrc);
        sent := sent + frames;
        done := done + ms;
      }
      assert done + UnitPackets([]) == done;
    }

    method PacketizeH264Nal(nal: seq<byte>, timestamp: nat, marker: bool) returns (sent: seq<seq<byte>>)
      requires Valid()
      modifies this`sequence
      ensures Valid()
      ensures sent == FramesOf(channel, MarkLast(Payloads(nal), marker), old(sequence), timestamp, ssrc)
      ensures sequence == (old(sequence) + |Payloads(nal)|) % 0x1_0000
    {
      hide FrameBytes, FuPayload;
      sent := [];
      if |nal| == 0 {
        return;
      }
      if |nal| <= MAX_PAYLOAD {
        OneFrame(channel, nal, marker, sequence, timestamp, ssrc);
        var f := EmitPacket(nal, timestamp, marker);
        return [f];
      }
      sent := PacketizeFuA(nal[0], nal[1..], timestamp, marker);
    }

    /** The fragmentation loop. */
    method PacketizeFuA(header: byte, body: seq<byte>, timestamp: nat, marker: bool) returns (sent: seq<seq<byte>>)
      requires Valid()
      modifies this`sequence
      ensures Valid()
      ensures sent == FramesOf(channel, MarkLast(Fragments(header, body, true), marker), old(sequence), timestamp, ssrc)
      ensures sequence == (old(sequence) + |Fragments(header, body, true)|) % 0x1_0000
    {
      assert Fragments(header, [], false) == [];
      hide FrameBytes, FuPayload, FramesOf, MarkLast, Fragments;
      NoFrames(channel, marker, sequence, timestamp, ssrc);
      var rest, first := body, true;
      sent := [];
      ghost var done: seq<seq<byte>> := [];
      while |rest| > 0
        invariant Valid() && Fragments(header, body, true) == done + Fragments(header, rest, first)
        invariant sequence == (old(sequence) + |done|) % 0x1_0000
        invariant sent == FramesOf(channel, MarkLast(done, marker && rest == []), old(sequence), timestamp, ssrc)
        decreases |rest|
      {
        var chunk := Min(|rest|, CHUNK);
        var last := chunk == |rest|;
        var payload := FuPayload(header, rest[..chunk], first, last);
        FragmentsStep(header, rest, first);
        Moved(done, payload, Fragments(header, rest[chunk..], false));
        SequenceStep(old(sequence), |done|);
        NextFrame(channel, done, payload, last && marker, old(sequence), timestamp, ssrc);
        var f := EmitPacket(payload, timestamp, last && marker);
        sent := sent + [f];
        done := done + [payload];
        rest := rest[chunk..];
        first := false;
      }
      assert rest == [] && done == Fragments(header, body, true);
    }

    method EmitPacket(payload: seq<byte>, timestamp: nat, marker: bool) returns (frame: seq<byte>)
      requires Valid()
      modifies this`sequence
      ensures Valid() && sequence == (old(sequence) + 1) % 0x1_0000
      ensures frame == FrameBytes(channel, RtpPacket(marker, old(sequence), timestamp, ssrc, payload))
    {
      var header := RtpHeader(marker, sequence, timestamp, ssrc);
      sequence := (sequence + 1) % 0x1_0000;
      frame := [0x24, channel] + BE(2, 12 + |payload|) + header + payload;
    }
  }

  lemma OneFrame(channel: byte, payload: seq<byte>, marker: bool, sequence: nat, timestamp: nat, ssrc: nat)
    requires sequence < 0x1_0000
    ensures FramesOf(channel, MarkLast([payload], marker), sequence, timestamp, ssrc) ==
            [FrameBytes(channel, RtpPacket(marker, sequence, timestamp, ssrc, payload))]
  {
    hide FrameBytes;
  }

  lemma NoFrames(channel: byte, marker: bool, sequence: nat, timestamp: nat, ssrc: nat)
    ensures FramesOf(channel, MarkLast([], marker), sequence, timestamp, ssrc) == []
  {
  }

  lemma MarkSnoc(ps: seq<seq<byte>>, p: seq<byte>, marker: bool)
    ensures MarkLast(ps + [p], marker) == MarkLast(ps, false) + MarkLast([p], marker)
  {
  }

  /** One more packet behind unmarked ones. */
  lemma NextFrame(channel: byte, done: seq<seq<byte>>, p: seq<byte>, marker: bool, sequence: nat, timestamp: nat,
                  ssrc: nat)
    ensures FramesOf(channel, MarkLast(done + [p], marker), sequence, timestamp, ssrc) ==
            FramesOf(channel, MarkLast(done, false), sequence, timestamp, ssrc)
            + [FrameBytes(channel, RtpPacket(marker, (sequence + |done|) % 0x1_0000, timestamp, ssrc, p))]
  {
    hide FrameBytes, FramesOf, MarkLast;
    MarkSnoc(done, p, marker);
    FramesAppend(channel, MarkLast(done, false), MarkLast([p], marker), sequence, timestamp, ssrc);
    OneFrame(channel, p, marker, (sequence + |done|) % 0x1_0000, timestamp, ssrc);
  }

  lemma FramesAppend(channel: byte, a: seq<Marked>, b: seq<Marked>, sequence: nat, timestamp: nat, ssrc: nat)
    ensures FramesOf(channel, a + b, sequence, timestamp, ssrc) ==
            FramesOf(channel, a, sequence, timestamp, ssrc)
            + FramesOf(channel, b, (sequence + |a|) % 0x1_0000, timestamp, ssrc)
  {
    hide FrameBytes;
    forall m | |a| <= m < |a + b|
      ensures PacketAt(a + b, m, sequence, timestamp, ssrc) ==
              PacketAt(b, m - |a|, (sequence + |a|) % 0x1_0000, timestamp, ssrc)
    {
      assert (sequence + m) % 0x1_0000 == ((sequence + |a|) % 0x1_0000 + (m - |a|)) % 0x1_0000;
    }
    forall k | 0 <= k < |a|
      ensures PacketAt(a + b, k, sequence, timestamp, ssrc) == PacketAt(a, k, sequence, timestamp, ssrc)
    {
    }
  }
}
