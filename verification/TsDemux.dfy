/**
  * An independent reading of MPEG transport streams: section 2.4.3 of ISO/IEC 13818-1 for packets and
  * adaptation fields, section 2.4.3.6 for PES headers. The muxer is specified against this reader.
  */
module TsDemux {
  import opened Bytes
  import opened Options
  import opened Sequences

  const PACKET_SIZE := 188
  const VIDEO_PID := 0x100

  datatype TsPacket = TsPacket(pid: nat, start: bool, cc: nat, randomAccess: bool, pcr: Option<nat>, payload: seq<byte>)

  /** A PES packet collected from the transport packets of one unit. */
  datatype PesUnit = PesUnit(randomAccess: bool, pcr: Option<nat>, bytes: seq<byte>)

  datatype AccessUnit = AccessUnit(data: seq<byte>, pts: nat, key: bool, pcr: Option<nat>)

  /** 33-bit program clock reference base. */
  function ReadPcr(s: seq<byte>): nat
    requires |s| >= 5
  {
    s[0] as int * 0x200_0000 + s[1] as int * 0x2_0000 + s[2] as int * 0x200 + s[3] as int * 2 + s[4] / 128
  }

  /** Of the adaptation flags only random access and PCR are understood, and a PCR is a multiple of 300 clock cycles. */
  function ParsePacket(p: seq<byte>): Option<TsPacket> {
    if |p| != PACKET_SIZE || p[0] != 0x47 then None
    else
      var start, pid, control, cc := p[1] / 64 % 2 == 1, p[1] as int % 32 * 256 + p[2], p[3] / 16 % 4, p[3] % 16;
      if control == 1 then Some(TsPacket(pid, start, cc, false, None, p[4..]))
      else if control != 3 || p[4] > 183 then None
      else if p[4] == 0 then Some(TsPacket(pid, start, cc, false, None, p[5..]))
      else
        var hasPcr := p[5] / 16 % 2 == 1;
        if p[5] !in {0, 0x10, 0x40, 0x50} || (hasPcr && (p[4] < 7 || p[10] % 128 != 0x7E || p[11] != 0)) then None
        else Some(TsPacket(pid, start, cc, p[5] / 64 % 2 == 1,
                           if hasPcr then Some(ReadPcr(p[6..11])) else None, p[5 + p[4] as int..]))
  }

  /** All packets of a stream of whole packets. */
  function ParseStream(s: seq<byte>): Option<seq<TsPacket>> {
    if s == [] then Some([])
    else if |s| < PACKET_SIZE then None
    else
      match (ParsePacket(s[..PACKET_SIZE]), ParseStream(s[PACKET_SIZE..]))
      case (Some(p), Some(ps)) => Some([p] + ps)
      case _ => None
  }

  predicate IsVideo(p: TsPacket) {
    p.pid == VIDEO_PID
  }

  /** Continuity counters run 0, 1, ..., 15, 0, ... */
  predicate Continuous(ps: seq<TsPacket>) {
    forall i :: 0 <= i < |ps| ==> ps[i].cc == i % 16
  }

  /** Payloads joined into units at the payload-unit-start flags. */
  function Group(ps: seq<TsPacket>): seq<PesUnit> {
    if ps == [] then []
    else
      var units, p := Group(ps[..|ps| - 1]), ps[|ps| - 1];
      if p.start then units + [PesUnit(p.randomAccess, p.pcr, p.payload)]
      else if units == [] then []
      else
        var u := units[|units| - 1];
        units[..|units| - 1] + [u.(bytes := u.bytes + p.payload)]
  }

  function ReadPts(h: seq<byte>): nat
    requires |h| == 5
  {
    h[0] as int / 2 % 8 * 0x4000_0000 + h[1] as int * 0x40_0000 + h[2] as int / 2 * 0x8000
    + h[3] as int * 0x80 + h[4] / 2
  }

  /** A video PES packet of unbounded length carrying a PTS and no DTS. */
  function ParsePes(u: PesUnit): Option<AccessUnit> {
    var b := u.bytes;
    if |b| < 14 || b[..3] != [0, 0, 1] || b[3] / 16 != 0xE || b[4] != 0 || b[5] != 0 then None
    else if b[6] / 64 != 2 || b[7] / 64 != 2 || b[8] < 5 || |b| - 9 < b[8] then None
    else if b[9] / 16 != 2 || b[9] % 2 != 1 || b[11] % 2 != 1 || b[13] % 2 != 1 then None
    else Some(AccessUnit(b[9 + b[8] as int..], ReadPts(b[9..14]), u.randomAccess, u.pcr))
  }

  function ParseUnits(us: seq<PesUnit>): Option<seq<AccessUnit>> {
    if us == [] then Some([])
    else
      match (ParseUnits(us[..|us| - 1]), ParsePes(us[|us| - 1]))
      case (Some(as_), Some(a)) => Some(as_ + [a])
      case _ => None
  }

  /** The video access units of a segment; None unless every packet parses and no video packet is missing. */
  function Demux(s: seq<byte>): Option<seq<AccessUnit>> {
    match ParseStream(s)
    case None => None
    case Some(ps) =>
      var video := Filter(ps, IsVideo);
      if !Continuous(video) then None else ParseUnits(Group(video))
  }

  lemma {:induction false} ParseStreamAppend(a: seq<byte>, b: seq<byte>)
    requires ParseStream(a).Some? && ParseStream(b).Some?
    ensures ParseStream(a + b) == Some(ParseStream(a).value + ParseStream(b).value)
  {
    if a == [] {
      assert a + b == b;
      assert [] + ParseStream(b).value == ParseStream(b).value;
    } else {
      assert (a + b)[..PACKET_SIZE] == a[..PACKET_SIZE];
      assert (a + b)[PACKET_SIZE..] == a[PACKET_SIZE..] + b;
      ParseStreamAppend(a[PACKET_SIZE..], b);
      var p, ps, qs := ParsePacket(a[..PACKET_SIZE]).value, ParseStream(a[PACKET_SIZE..]).value, ParseStream(b).value;
      assert [p] + (ps + qs) == ([p] + ps) + qs;
    }
  }

  function Parsed(pkts: seq<seq<byte>>): (ps: seq<TsPacket>)
    requires forall k :: 0 <= k < |pkts| ==> ParsePacket(pkts[k]).Some?
    ensures |ps| == |pkts| && forall k :: 0 <= k < |ps| ==> Some(ps[k]) == ParsePacket(pkts[k])
  {
    seq(|pkts|, k requires 0 <= k < |pkts| => ParsePacket(pkts[k]).value)
  }

  /** Parsing a concatenation of single packets parses them one by one. */
  lemma {:induction false} ParseStreamOfPackets(pkts: seq<seq<byte>>)
    requires forall k :: 0 <= k < |pkts| ==> ParsePacket(pkts[k]).Some?
    ensures ParseStream(Flatten(pkts)) == Some(Parsed(pkts))
  {
    if pkts != [] {
      var s := Flatten(pkts);
      assert s[..PACKET_SIZE] == pkts[0] && s[PACKET_SIZE..] == Flatten(pkts[1..]);
      ParseStreamOfPackets(pkts[1..]);
      assert Parsed(pkts) == [ParsePacket(pkts[0]).value] + Parsed(pkts[1..]);
    }
  }

  function Payloads(ps: seq<TsPacket>): seq<seq<byte>> {
    seq(|ps|, k requires 0 <= k < |ps| => ps[k].payload)
  }

  /** Packets of one unit, start flag on the first only, come out as that unit after the earlier ones. */
  lemma {:induction false} GroupAppendUnit(before: seq<TsPacket>, unit: seq<TsPacket>)
    requires unit != [] && unit[0].start
    requires forall k :: 1 <= k < |unit| ==> !unit[k].start
    ensures Group(before + unit) ==
            Group(before) + [PesUnit(unit[0].randomAccess, unit[0].pcr, Flatten(Payloads(unit)))]
    decreases |unit|
  {
    var init, last := unit[..|unit| - 1], unit[|unit| - 1];
    assert before + unit == (before + init) + [last];
    assert (before + unit)[..|before + unit| - 1] == before + init;
    assert Payloads(unit) == Payloads(init) + [last.payload];
    FlattenSnoc(Payloads(init), last.payload);
    if |unit| == 1 {
      assert before + init == before;
      assert Payloads(init) == [] && [] + last.payload == last.payload;
      assert Flatten(Payloads(unit)) == last.payload;
    } else {
      GroupAppendUnit(before, init);
    }
  }

  /** The video packets of a stream that parses. */
  function Video(s: seq<byte>): seq<TsPacket>
    requires ParseStream(s).Some?
  {
    Filter(ParseStream(s).value, IsVideo)
  }

  /** The unit that the packets `unit` carry. */
  function Carried(unit: seq<TsPacket>): PesUnit
    requires unit != []
  {
    PesUnit(unit[0].randomAccess, unit[0].pcr, Flatten(Payloads(unit)))
  }

  /** Packets `unit` of one video unit whose continuity counters follow `n` earlier packets. */
  predicate UnitPackets(unit: seq<TsPacket>, n: nat) {
    && unit != [] && unit[0].start
    && (forall k :: 1 <= k < |unit| ==> !unit[k].start)
    && (forall k :: 0 <= k < |unit| ==> IsVideo(unit[k]) && unit[k].cc == (n + k) % 16)
  }

  /** Appending the packets of one well-formed unit, counters continuing, appends one access unit. */
  lemma DemuxAppendUnit(s: seq<byte>, t: seq<byte>, unit: seq<TsPacket>, au: AccessUnit)
    requires Demux(s).Some? && ParseStream(t) == Some(unit)
    requires UnitPackets(unit, |Video(s)|)
    requires ParsePes(Carried(unit)) == Some(au)
    ensures Demux(s + t) == Some(Demux(s).value + [au])
    ensures Video(s + t) == Video(s) + unit
  {
    ParseStreamAppend(s, t);
    FilterAppend(ParseStream(s).value, unit, IsVideo);
    FilterAll(unit);
    GroupAppendUnit(Video(s), unit);
    ContinuousAppend(Video(s), unit);
    ParseUnitsSnoc(Group(Video(s)), Carried(unit));
  }

  lemma ParseUnitsSnoc(us: seq<PesUnit>, u: PesUnit)
    requires ParseUnits(us).Some? && ParsePes(u).Some?
    ensures ParseUnits(us + [u]) == Some(ParseUnits(us).value + [ParsePes(u).value])
  {
    assert (us + [u])[..|us|] == us;
  }

  lemma ContinuousAppend(a: seq<TsPacket>, b: seq<TsPacket>)
    requires Continuous(a) && UnitPackets(b, |a|)
    ensures Continuous(a + b)
  {
    forall i | 0 <= i < |a + b| ensures (a + b)[i].cc == i % 16 {
      if i >= |a| {
        assert (a + b)[i] == b[i - |a|];
      }
    }
  }

  lemma {:induction false} FilterAll(ps: seq<TsPacket>)
    requires forall k :: 0 <= k < |ps| ==> IsVideo(ps[k])
    ensures Filter(ps, IsVideo) == ps
  {
    if ps != [] {
      FilterAll(ps[..|ps| - 1]);
      assert ps == ps[..|ps| - 1] + [ps[|ps| - 1]];
    }
  }
}
