/**
  * The transport stream muxer (src/network/hls_stream/ts_muxer.cc). Shifts and masks are written as
  * division and remainder by powers of two; a shift by several bits is a chain of shifts.
  */
module TsMuxer {
  import opened Bytes
  import opened Options
  import opened Sequences
  import opened TsDemux
  import Crc32

  const SYNC: byte := 0x47
  const STUFFING: byte := 0xFF
  const MAX_PAYLOAD := 184
  const PMT_PID := 0x1000
  const TWO_33: nat := 0x2_0000_0000
  const TWO_64: nat := 0x1_0000_0000_0000_0000

  function Fill(b: byte, n: nat): (s: seq<byte>)
    ensures |s| == n && forall i :: 0 <= i < n ==> s[i] == b
  {
    seq(n, _ => b)
  }

  // ---------- header fields ----------

  /** The first four bytes of a packet; `control` is the adaptation field control. */
  function Header(pid: nat, start: bool, control: byte, cc: nat): (h: seq<byte>)
    requires control == 0x10 || control == 0x30
    ensures |h| == 4
  {
    [SYNC, (if start then 0x40 else 0) + pid / 256 % 32, pid % 256, control + cc % 16]
  }

  /** PCR base in 33 bits, six reserved ones and a zero extension. */
  function PcrField(pcr: nat): (f: seq<byte>)
    ensures |f| == 6
  {
    var n1 := pcr / 2;
    var n9 := n1 / 256;
    var n17 := n9 / 256;
    var n25 := n17 / 256;
    [n25 % 256, n17 % 256, n9 % 256, n1 % 256, pcr % 2 * 128 + 0x7E, 0]
  }

  /** Five PTS bytes: four marker bits and 33 bits of `pts`, each group closed by a one bit. */
  function PtsField(pts: nat): (f: seq<byte>)
    ensures |f| == 5
  {
    var n7 := pts / 128;
    var n15 := n7 / 256;
    var n22 := n15 / 128;
    var n30 := n22 / 256;
    [0x21 + 2 * (n30 % 8), n22 % 256, 1 + 2 * (n15 % 128), n7 % 256, 1 + 2 * (pts % 128)]
  }

  /** The cast of a signed 64-bit value to unsigned. */
  function Unsigned64(x: int): nat {
    x % TWO_64
  }

  function BuildPesHeader(pts90: int): (h: seq<byte>)
    ensures |h| == 14
  {
    [0, 0, 1, 0xE0, 0, 0, 0x84, 0x80, 5] + PtsField(Unsigned64(pts90))
  }

  /** Microseconds to the 90 kHz clock. */
  function To90kHz(ptsUs: int): int {
    TruncDiv(ptsUs * 90, 1000)
  }

  lemma ClockTicks(ptsUs: int)
    ensures IsTicks(ptsUs, To90kHz(ptsUs))
  {
  }

  lemma PcrRoundTrip(pcr: nat)
    ensures ReadPcr(PcrField(pcr)) == pcr % TWO_33
  {
  }

  lemma PtsRoundTrip(pts: int)
    ensures ReadPts(PtsField(Unsigned64(pts))) == pts % TWO_33
  {
    var n := Unsigned64(pts);
    var q := pts / TWO_64;
    assert pts == q * TWO_64 + n;
    assert n % TWO_33 == pts % TWO_33 by {
      assert pts == (q * 0x8000_0000) * TWO_33 + n;
    }
    ReadPtsField(n);
  }

  lemma ReadPtsField(n: nat)
    ensures ReadPts(PtsField(n)) == n % TWO_33
  {
    var n7 := n / 128;
    var n15 := n7 / 256;
    var n22 := n15 / 128;
    var n30 := n22 / 256;
    var f := PtsField(n);
    assert f[0] as int / 2 % 8 == n30 % 8 && f[1] == n22 % 256 && f[2] as int / 2 == n15 % 128;
    assert f[3] == n7 % 256 && f[4] / 2 == n % 128;
    PtsGroups(n, n7, n15, n22, n30);
    hide PtsField;
  }

  /** Groups of 3, 8, 7, 8 and 7 bits make up the low 33 bits. */
  lemma PtsGroups(n: nat, n7: nat, n15: nat, n22: nat, n30: nat)
    requires n7 == n / 128 && n15 == n7 / 256 && n22 == n15 / 128 && n30 == n22 / 256
    ensures n30 % 8 * 0x4000_0000 + n22 % 256 * 0x40_0000 + n15 % 128 * 0x8000 + n7 % 256 * 0x80 + n % 128 == n % TWO_33
  {
    PtsSum(n, n7, n15, n22, n30, n30 / 8, n % 128, n7 % 256, n15 % 128, n22 % 256, n30 % 8);
  }

  lemma PtsSum(n: nat, n7: nat, n15: nat, n22: nat, n30: nat, q: nat, a: nat, b: nat, c: nat, d: nat, e: nat)
    requires n == n7 * 128 + a && n7 == n15 * 256 + b && n15 == n22 * 128 + c && n22 == n30 * 256 + d
             && n30 == q * 8 + e
    requires a < 128 && b < 256 && c < 128 && d < 256 && e < 8
    ensures n % TWO_33 == e * 0x4000_0000 + d * 0x40_0000 + c * 0x8000 + b * 0x80 + a
  {
    var low := e * 0x4000_0000 + d * 0x40_0000 + c * 0x8000 + b * 0x80 + a;
    assert n == q * TWO_33 + low && low < TWO_33;
  }

  // ---------- packets ----------

  /** Payload bytes that fit behind an adaptation field of flags and, when there is one, a PCR. */
  function AdaptedRoom(pcr: int): nat {
    if pcr < 0 then 182 else 176
  }

  function AdaptationFlags(pcr: int, randomAccess: bool): byte {
    (if pcr >= 0 then 0x10 else 0) + (if randomAccess then 0x40 else 0)
  }

  /** A packet whose adaptation field carries flags, an optional PCR and padding up to the chunk. */
  function AdaptedPacket(pid: nat, start: bool, cc: nat, pcr: int, randomAccess: bool, chunk: seq<byte>): (p: seq<byte>)
    requires |chunk| <= AdaptedRoom(pcr)
    ensures |p| == PACKET_SIZE
  {
    Header(pid, start, 0x30, cc) + [183 - |chunk|, AdaptationFlags(pcr, randomAccess)]
    + (if pcr >= 0 then PcrField(pcr) else []) + Fill(STUFFING, AdaptedRoom(pcr) - |chunk|) + chunk
  }

  /** A packet without flags: full, or padded by a stuffing-only adaptation field of length 0 or more. */
  function PlainPacket(pid: nat, start: bool, cc: nat, chunk: seq<byte>): (p: seq<byte>)
    requires |chunk| <= MAX_PAYLOAD
    ensures |p| == PACKET_SIZE
  {
    var stuff := MAX_PAYLOAD - |chunk|;
    if stuff == 0 then Header(pid, start, 0x10, cc) + chunk
    else if stuff == 1 then Header(pid, start, 0x30, cc) + [0] + chunk
    else Header(pid, start, 0x30, cc) + [stuff - 1, 0] + Fill(STUFFING, stuff - 2) + chunk
  }

  /** What one packet of the loop carries. */
  function ChunkLength(payload: seq<byte>, first: bool, pcr: int, randomAccess: bool): (n: nat)
    ensures payload != [] ==> 0 < n
    ensures n <= |payload|
  {
    Min(|payload|, if first && (pcr >= 0 || randomAccess) then AdaptedRoom(pcr) else MAX_PAYLOAD)
  }

  function NextPacket(pid: nat, payload: seq<byte>, cc: nat, first: bool, start: bool, pcr: int, randomAccess: bool)
    : (p: seq<byte>)
    ensures |p| == PACKET_SIZE
  {
    var chunk := payload[..ChunkLength(payload, first, pcr, randomAccess)];
    if first && (pcr >= 0 || randomAccess) then AdaptedPacket(pid, start, cc, pcr, randomAccess, chunk)
    else PlainPacket(pid, first && start, cc, chunk)
  }

  /** The packets of a payload. */
  function Packets(pid: nat, payload: seq<byte>, cc: nat, first: bool, start: bool, pcr: int, randomAccess: bool)
    : seq<seq<byte>>
    decreases |payload|
  {
    if payload == [] then []
    else
      [NextPacket(pid, payload, cc, first, start, pcr, randomAccess)]
      + Packets(pid, payload[ChunkLength(payload, first, pcr, randomAccess)..], (cc + 1) % 16, false, start, pcr,
                randomAccess)
  }

  /** The reader finds exactly the fields the muxer meant, in every PCR, stuffing and exact-fit case. */
  lemma ParseAdapted(pid: nat, start: bool, cc: nat, pcr: int, randomAccess: bool, chunk: seq<byte>)
    requires pid < 0x2000 && |chunk| <= AdaptedRoom(pcr)
    ensures ParsePacket(AdaptedPacket(pid, start, cc, pcr, randomAccess, chunk)) ==
            Some(TsPacket(pid, start, cc % 16, randomAccess, if pcr >= 0 then Some(pcr % TWO_33) else None, chunk))
  {
    var p := AdaptedPacket(pid, start, cc, pcr, randomAccess, chunk);
    assert p[188 - |chunk|..] == chunk;
    assert p[1] == (if start then 0x40 else 0) + pid / 256 % 32 && p[2] == pid % 256 && p[3] == 0x30 + cc % 16;
    assert p[4] == 183 - |chunk| && p[5] == AdaptationFlags(pcr, randomAccess);
    if pcr >= 0 {
      assert p[6..11] == PcrField(pcr)[..5];
      PcrRoundTrip(pcr);
    }
  }

  lemma ParsePlain(pid: nat, start: bool, cc: nat, chunk: seq<byte>)
    requires pid < 0x2000 && |chunk| <= MAX_PAYLOAD
    ensures ParsePacket(PlainPacket(pid, start, cc, chunk)) == Some(TsPacket(pid, start, cc % 16, false, None, chunk))
  {
    PlainBytes(pid, start, cc, chunk);
    HeaderReads(pid, start, if |chunk| == 184 then 0x10 else 0x30, cc);
    hide PlainPacket, Header;
  }

  lemma HeaderReads(pid: nat, start: bool, control: byte, cc: nat)
    requires pid < 0x2000 && (control == 0x10 || control == 0x30)
    ensures
      var h := Header(pid, start, control, cc);
      && h[0] == 0x47 && (h[1] / 64 % 2 == 1 <==> start) && h[1] as int % 32 * 256 + h[2] == pid
      && h[3] / 16 % 4 == control / 16 && h[3] % 16 == cc % 16
  {
  }

  lemma PlainBytes(pid: nat, start: bool, cc: nat, chunk: seq<byte>)
    requires |chunk| <= MAX_PAYLOAD
    ensures
      var p, h := PlainPacket(pid, start, cc, chunk), Header(pid, start, if |chunk| == 184 then 0x10 else 0x30, cc);
      && p[0] == h[0] && p[1] == h[1] && p[2] == h[2] && p[3] == h[3] && p[188 - |chunk|..] == chunk
      && (|chunk| < 184 ==> p[4] as int == 183 - |chunk|) && (|chunk| < 183 ==> p[5] == 0)
  {
    hide Header;
  }

  /** Fields of one packet of a payload; `head` marks the very first packet. */
  ghost predicate PacketFields(p: TsPacket, pid: nat, cc: nat, head: bool, start: bool, pcr: int, randomAccess: bool) {
    && p.pid == pid && p.cc == cc % 16 && p.payload != []
    && p.start == (start && head)
    && p.randomAccess == (randomAccess && head)
    && p.pcr == (if pcr >= 0 && head then Some(pcr % TWO_33) else None)
  }

  /**
    * Whole packets on one PID, the start flag on the first only, counters stepping by one modulo 16,
    * flags and PCR on the first only, and payloads that concatenate to the input.
    */
  ghost predicate Carries(ps: seq<TsPacket>, pid: nat, payload: seq<byte>, cc: nat, first: bool, start: bool,
                          pcr: int, randomAccess: bool) {
    && (forall k :: 0 <= k < |ps| ==> PacketFields(ps[k], pid, cc + k, first && k == 0, start, pcr, randomAccess))
    && Flatten(Payloads(ps)) == payload
  }

  ghost predicate Packetised(pkts: seq<seq<byte>>, pid: nat, payload: seq<byte>, cc: nat, first: bool, start: bool,
                             pcr: int, randomAccess: bool) {
    && (forall k :: 0 <= k < |pkts| ==> ParsePacket(pkts[k]).Some?)
    && Carries(Parsed(pkts), pid, payload, cc, first, start, pcr, randomAccess)
  }

  lemma NextPacketParses(pid: nat, payload: seq<byte>, cc: nat, first: bool, start: bool, pcr: int, randomAccess: bool)
    requires pid < 0x2000 && payload != []
    ensures
      var r := ParsePacket(NextPacket(pid, payload, cc, first, start, pcr, randomAccess));
      && r.Some? && PacketFields(r.value, pid, cc, first, start, pcr, randomAccess)
      && r.value.payload == payload[..ChunkLength(payload, first, pcr, randomAccess)]
  {
    var chunk := payload[..ChunkLength(payload, first, pcr, randomAccess)];
    if first && (pcr >= 0 || randomAccess) {
      ParseAdapted(pid, start, cc, pcr, randomAccess, chunk);
    } else {
      ParsePlain(pid, first && start, cc, chunk);
    }
  }

  /** No space is wasted: every packet but the last is filled with payload up to its header, flags and PCR. */
  lemma {:induction false} PacketsFull(pid: nat, payload: seq<byte>, cc: nat, first: bool, start: bool, pcr: int,
                                       randomAccess: bool, k: nat)
    requires pid < 0x2000 && k + 1 < |Packets(pid, payload, cc, first, start, pcr, randomAccess)|
    ensures
      var r := ParsePacket(Packets(pid, payload, cc, first, start, pcr, randomAccess)[k]);
      r.Some? && |r.value.payload| == if k > 0 || !first then 184 else if pcr >= 0 then 176
                                      else if randomAccess then 182 else 184
    decreases k
  {
    var n := ChunkLength(payload, first, pcr, randomAccess);
    NextPacketParses(pid, payload, cc, first, start, pcr, randomAccess);
    hide ParsePacket, NextPacket;
    if k > 0 {
      PacketsFull(pid, payload[n..], (cc + 1) % 16, false, start, pcr, randomAccess, k - 1);
    } else {
      assert payload[n..] != [];
    }
  }

  lemma CarriesCons(p: TsPacket, tail: seq<TsPacket>, pid: nat, rest: seq<byte>, cc: nat,
                    first: bool, start: bool, pcr: int, randomAccess: bool)
    requires PacketFields(p, pid, cc, first, start, pcr, randomAccess)
    requires Carries(tail, pid, rest, (cc + 1) % 16, false, start, pcr, randomAccess)
    ensures Carries([p] + tail, pid, p.payload + rest, cc, first, start, pcr, randomAccess)
  {
    hide PacketFields;
    var ps := [p] + tail;
    forall k | 0 <= k < |ps| ensures PacketFields(ps[k], pid, cc + k, first && k == 0, start, pcr, randomAccess) {
      if k > 0 {
        assert PacketFields(tail[k - 1], pid, (cc + 1) % 16 + (k - 1), false, start, pcr, randomAccess);
        SameCounter(tail[k - 1], pid, (cc + 1) % 16 + (k - 1), cc + k, start, pcr, randomAccess);
      }
    }
    assert Payloads(ps) == [p.payload] + Payloads(tail);
  }

  /** Only the counter modulo 16 shows in a packet. */
  lemma SameCounter(p: TsPacket, pid: nat, c: nat, d: nat, start: bool, pcr: int, randomAccess: bool)
    requires PacketFields(p, pid, c, false, start, pcr, randomAccess) && c % 16 == d % 16
    ensures PacketFields(p, pid, d, false, start, pcr, randomAccess)
  {
  }

  lemma ParsedCons(p: seq<byte>, tail: seq<seq<byte>>)
    requires ParsePacket(p).Some? && forall k :: 0 <= k < |tail| ==> ParsePacket(tail[k]).Some?
    ensures forall k :: 0 <= k < |[p] + tail| ==> ParsePacket(([p] + tail)[k]).Some?
    ensures Parsed([p] + tail) == [ParsePacket(p).value] + Parsed(tail)
  {
    var all := [p] + tail;
    forall k | 0 <= k < |all| ensures ParsePacket(all[k]).Some? {
      if k == 0 { assert all[0] == p; } else { assert all[k] == tail[k - 1]; }
    }
  }

  lemma {:induction false} PacketsParse(pid: nat, payload: seq<byte>, cc: nat, first: bool, start: bool, pcr: int,
                                        randomAccess: bool)
    requires pid < 0x2000
    ensures Packetised(Packets(pid, payload, cc, first, start, pcr, randomAccess),
                       pid, payload, cc, first, start, pcr, randomAccess)
    decreases |payload|
  {
    hide ParsePacket, NextPacket, PacketFields;
    if payload == [] {
      assert Payloads(Parsed([])) == [];
    } else {
      var n := ChunkLength(payload, first, pcr, randomAccess);
      NextPacketParses(pid, payload, cc, first, start, pcr, randomAccess);
      PacketsParse(pid, payload[n..], (cc + 1) % 16, false, start, pcr, randomAccess);
      var p, tail := NextPacket(pid, payload, cc, first, start, pcr, randomAccess),
                     Packets(pid, payload[n..], (cc + 1) % 16, false, start, pcr, randomAccess);
      ParsedCons(p, tail);
      CarriesCons(ParsePacket(p).value, Parsed(tail), pid, payload[n..], cc, first, start, pcr, randomAccess);
      assert payload[..n] + payload[n..] == payload;
    }
  }

  // ---------- access units ----------

  /** The unit a demuxer must report for a frame. */
  function UnitOf(data: seq<byte>, ptsUs: int, key: bool): AccessUnit {
    var pts90 := To90kHz(ptsUs);
    AccessUnit(data, pts90 % TWO_33, key, if key && pts90 >= 0 then Some(pts90 % TWO_33) else None)
  }

  function UnitPacketList(data: seq<byte>, ptsUs: int, key: bool, cc: nat): seq<seq<byte>> {
    var pts90 := To90kHz(ptsUs);
    Packets(VIDEO_PID, BuildPesHeader(pts90) + data, cc, true, true, if key then pts90 else -1, key)
  }

  /** The bytes written for a frame; none for an empty frame. */
  function AccessUnitBytes(data: seq<byte>, ptsUs: int, key: bool, cc: nat): seq<byte> {
    if data == [] then [] else Flatten(UnitPacketList(data, ptsUs, key, cc))
  }

  lemma PesRoundTrip(data: seq<byte>, pts90: int, key: bool, pcr: Option<nat>)
    ensures ParsePes(PesUnit(key, pcr, BuildPesHeader(pts90) + data)) ==
            Some(AccessUnit(data, pts90 % TWO_33, key, pcr))
  {
    var f := PtsField(Unsigned64(pts90));
    var b := BuildPesHeader(pts90) + data;
    assert b[..9] == [0, 0, 1, 0xE0, 0, 0, 0x84, 0x80, 5];
    assert b[..3] == b[..9][..3] == [0, 0, 1];
    assert b[3] == b[..9][3] && b[4] == b[..9][4] && b[5] == b[..9][5];
    assert b[6] == b[..9][6] && b[7] == b[..9][7] && b[8] == b[..9][8];
    assert b[9..14] == f && b[14..] == data;
    assert b[9] == f[0] && b[11] == f[2] && b[13] == f[4];
    PtsRoundTrip(pts90);
  }

  /** Muxing then demuxing: appending a frame's bytes to a segment appends exactly its access unit. */
  lemma DemuxAppendFrame(s: seq<byte>, data: seq<byte>, ptsUs: int, key: bool, cc: nat)
    requires Demux(s).Some? && data != [] && cc == |Video(s)| % 16
    ensures Demux(s + AccessUnitBytes(data, ptsUs, key, cc)) == Some(Demux(s).value + [UnitOf(data, ptsUs, key)])
    ensures |Video(s + AccessUnitBytes(data, ptsUs, key, cc))| ==
            |Video(s)| + |UnitPacketList(data, ptsUs, key, cc)|
  {
    var pts90 := To90kHz(ptsUs);
    var pcr := if key then pts90 else -1;
    var pes := BuildPesHeader(pts90) + data;
    var pkts := UnitPacketList(data, ptsUs, key, cc);
    PacketsParse(VIDEO_PID, pes, cc, true, true, pcr, key);
    ParseStreamOfPackets(pkts);
    var unit := Parsed(pkts);
    UnitPacketsOf(pkts, pes, |Video(s)|, pcr, key);
    PesRoundTrip(data, pts90, key, unit[0].pcr);
    DemuxAppendUnit(s, Flatten(pkts), unit, UnitOf(data, ptsUs, key));
  }

  lemma CounterSum(n: nat, k: nat)
    ensures (n % 16 + k) % 16 == (n + k) % 16
  {
  }

  lemma UnitPacketsOf(pkts: seq<seq<byte>>, pes: seq<byte>, n: nat, pcr: int, key: bool)
    requires Packetised(pkts, VIDEO_PID, pes, n % 16, true, true, pcr, key) && pes != []
    ensures UnitPackets(Parsed(pkts), n)
    ensures Carried(Parsed(pkts)) == PesUnit(key, if pcr >= 0 then Some(pcr % TWO_33) else None, pes)
  {
    var unit := Parsed(pkts);
    forall k | 0 <= k < |unit| ensures IsVideo(unit[k]) && unit[k].cc == (n + k) % 16 && unit[k].start == (k == 0) {
      assert PacketFields(unit[k], VIDEO_PID, n % 16 + k, k == 0, true, pcr, key);
      CounterSum(n, k);
    }
    assert PacketFields(unit[0], VIDEO_PID, n % 16, true, true, pcr, key);
  }

  // ---------- program tables ----------

  function WithCrc(body: seq<byte>): (section: seq<byte>)
    ensures |section| == |body| + 4 && section[..|body|] == body
  {
    body + BE(4, Crc32.Crc(body))
  }

  /** Program association: one program, at the PMT PID. */
  function PatBody(): (b: seq<byte>)
    ensures |b| == 12 && b[0] == 0 && b[1] == 0xB0 && b[2] == 13 && b[10] as int % 32 * 256 + b[11] == PMT_PID
    ensures b[5] == 0xC1 && b[6] == b[7] == b[8] == 0 && b[9] == 1
  {
    [0x00, 0xB0, 0x0D, 0, 1, 0xC1, 0, 0, 0, 1, 0xE0 + PMT_PID / 256 % 32, PMT_PID % 256]
  }

  /** Program map: PCR and one H.264 stream, both on the video PID. */
  function PmtBody(): (b: seq<byte>)
    ensures |b| == 17 && b[0] == 2 && b[1] == 0xB0 && b[2] == 18 && b[12] == 0x1B
    ensures b[8] as int % 32 * 256 + b[9] == VIDEO_PID && b[13] as int % 32 * 256 + b[14] == VIDEO_PID
    ensures b[3] == b[6] == b[7] == 0 && b[4] == 1 && b[5] == 0xC1
    ensures b[10] == b[15] == 0xF0 && b[11] == b[16] == 0
  {
    [0x02, 0xB0, 0x12, 0, 1, 0xC1, 0, 0, 0xE0 + VIDEO_PID / 256 % 32, VIDEO_PID % 256, 0xF0, 0x00,
     0x1B, 0xE0 + VIDEO_PID / 256 % 32, VIDEO_PID % 256, 0xF0, 0x00]
  }

  function PatSection(): (s: seq<byte>) {
    WithCrc(PatBody())
  }

  function PmtSection(): (s: seq<byte>) {
    WithCrc(PmtBody())
  }

  /** A zero pointer field, the section and stuffing. */
  function PsiPayload(section: seq<byte>): (p: seq<byte>)
    requires |section| < MAX_PAYLOAD
    ensures |p| == MAX_PAYLOAD
  {
    [0] + section + Fill(STUFFING, MAX_PAYLOAD - 1 - |section|)
  }

  function PsiPacket(pid: nat, cc: nat, section: seq<byte>): (p: seq<byte>)
    requires |section| < MAX_PAYLOAD
    ensures |p| == PACKET_SIZE
  {
    Header(pid, true, 0x10, cc) + PsiPayload(section)
  }

  function PsiTables(patCc: nat, pmtCc: nat): (t: seq<byte>)
    ensures |t| == 2 * PACKET_SIZE
  {
    PsiPacket(0, patCc, PatSection()) + PsiPacket(PMT_PID, pmtCc, PmtSection())
  }

  /** A section behind a zero pointer field, accepted when its length fits and its checksum leaves zero. */
  function ReadSection(payload: seq<byte>): Option<seq<byte>> {
    if |payload| < 4 || payload[0] != 0 then None
    else
      var length := payload[2] as int % 16 * 256 + payload[3] as int;
      if |payload| < 4 + length then None
      else
        var section := payload[1..4 + length];
        if Crc32.Crc(section) == 0 then Some(section) else None
  }

  /** A table in one section that is in force (section 2.4.4 of ISO/IEC 13818-1). */
  predicate OnlySection(section: seq<byte>)
    requires |section| >= 8
  {
    section[5] % 2 == 1 && section[6] == section[7] == 0
  }

  /** A single-program PAT gives the number of its program and the PID of the program map. */
  function PatEntry(s: seq<byte>): Option<(nat, nat)> {
    if |s| != 16 || s[0] != 0 || !OnlySection(s) || (s[8] == s[9] == 0) then None
    else Some((s[8] as int * 256 + s[9], s[10] as int % 32 * 256 + s[11]))
  }

  /** A single-stream PMT without descriptors gives its program, the PCR PID, the stream type and the stream PID. */
  function PmtEntry(s: seq<byte>): Option<(nat, nat, byte, nat)> {
    if |s| != 21 || s[0] != 2 || !OnlySection(s) || s[10] as int % 16 * 256 + s[11] != 0
       || s[15] as int % 16 * 256 + s[16] != 0 then None
    else Some((s[3] as int * 256 + s[4], s[8] as int % 32 * 256 + s[9], s[12], s[13] as int % 32 * 256 + s[14]))
  }

  function ReadPat(payload: seq<byte>): Option<(nat, nat)> {
    match ReadSection(payload)
    case None => None
    case Some(s) => PatEntry(s)
  }

  function ReadPmt(payload: seq<byte>): Option<(nat, nat, byte, nat)> {
    match ReadSection(payload)
    case None => None
    case Some(s) => PmtEntry(s)
  }

  lemma ReadSectionOf(body: seq<byte>)
    requires 3 <= |body| <= 100 && body[1] == 0xB0 && body[2] as int == |body| + 1
    ensures ReadSection(PsiPayload(WithCrc(body))) == Some(WithCrc(body))
  {
    var p, s := PsiPayload(WithCrc(body)), WithCrc(body);
    assert p[2] == s[1] == body[1] && p[3] == s[2] == body[2];
    assert p[1..4 + (|body| + 1)] == s;
    Crc32.ResidueIsZero(body);
  }

  lemma PrefixBytes(s: seq<byte>, b: seq<byte>)
    requires |b| <= |s| && s[..|b|] == b
    ensures forall i :: 0 <= i < |b| ==> s[i] == b[i]
  {
    forall i | 0 <= i < |b| ensures s[i] == b[i] {
      assert s[i] == s[..|b|][i];
    }
  }

  lemma PatEntryReads(s: seq<byte>)
    requires |s| == 16 && s[..12] == PatBody()
    ensures PatEntry(s) == Some((1, PMT_PID))
  {
    PrefixBytes(s, PatBody());
    hide PatBody;
  }

  lemma PmtEntryReads(s: seq<byte>)
    requires |s| == 21 && s[..17] == PmtBody()
    ensures PmtEntry(s) == Some((1, VIDEO_PID, 0x1B, VIDEO_PID))
  {
    PrefixBytes(s, PmtBody());
    hide PmtBody;
  }

  lemma PatNamesPmt()
    ensures ReadPat(PsiPayload(PatSection())) == Some((1, PMT_PID))
  {
    hide ReadSection, PsiPayload, PatBody, PatEntry, WithCrc;
    ReadSectionOf(PatBody());
    PatEntryReads(WithCrc(PatBody()));
  }

  lemma PmtNamesVideo()
    ensures ReadPmt(PsiPayload(PmtSection())) == Some((1, VIDEO_PID, 0x1B, VIDEO_PID))
  {
    hide ReadSection, PsiPayload, PmtBody, PmtEntry, WithCrc;
    ReadSectionOf(PmtBody());
    PmtEntryReads(WithCrc(PmtBody()));
  }

  lemma TablesParse(patCc: nat, pmtCc: nat)
    ensures ParseStream(PsiTables(patCc, pmtCc)) ==
            Some([TsPacket(0, true, patCc % 16, false, None, PsiPayload(PatSection())),
                  TsPacket(PMT_PID, true, pmtCc % 16, false, None, PsiPayload(PmtSection()))])
  {
    var a, b := PsiPacket(0, patCc, PatSection()), PsiPacket(PMT_PID, pmtCc, PmtSection());
    ParsePlain(0, true, patCc, PsiPayload(PatSection()));
    ParsePlain(PMT_PID, true, pmtCc, PsiPayload(PmtSection()));
    assert a == PlainPacket(0, true, patCc, PsiPayload(PatSection()));
    assert b == PlainPacket(PMT_PID, true, pmtCc, PsiPayload(PmtSection()));
    hide ParsePacket, PsiPacket, PlainPacket, PsiPayload;
    assert [a, b] == [a] + [b] && Flatten([a]) == a;
    FlattenSnoc([a], b);
    ParseStreamOfPackets([a, b]);
    assert Parsed([a, b]) == [ParsePacket(a).value, ParsePacket(b).value];
    assert PsiTables(patCc, pmtCc) == a + b;
  }

  /** A receiver that follows the tables is led from PID 0 through the PMT to the H.264 video PID. */
  lemma TablesLeadToVideo(patCc: nat, pmtCc: nat)
    ensures
      var r := ParseStream(PsiTables(patCc, pmtCc));
      && r.Some? && |r.value| == 2 && r.value[0].pid == 0
      && var pat, pmt := ReadPat(r.value[0].payload), ReadPmt(r.value[1].payload);
      && pat.Some? && pmt == Some((pat.value.0, VIDEO_PID, 0x1B, VIDEO_PID)) && r.value[1].pid == pat.value.1
  {
    TablesParse(patCc, pmtCc);
    PatNamesPmt();
    PmtNamesVideo();
  }

  /** A fresh segment: the tables, no video yet. */
  lemma DemuxTables(patCc: nat, pmtCc: nat)
    ensures Demux(PsiTables(patCc, pmtCc)) == Some([]) && Video(PsiTables(patCc, pmtCc)) == []
  {
    TablesParse(patCc, pmtCc);
    var ps := ParseStream(PsiTables(patCc, pmtCc)).value;
    hide ParseStream, PsiTables;
    assert ps == [ps[0]] + [ps[1]];
    FilterSnoc([ps[0]], ps[1], IsVideo);
    FilterSnoc([], ps[0], IsVideo);
  }

  // ---------- the muxer ----------

  class Muxer {
    var patCc: nat
    var pmtCc: nat
    var videoCc: nat

    constructor ()
      ensures patCc == pmtCc == videoCc == 0
    {
      patCc, pmtCc, videoCc := 0, 0, 0;
    }

    method Reset()
      modifies this
      ensures patCc == pmtCc == videoCc == 0
    {
      patCc, pmtCc, videoCc := 0, 0, 0;
    }

    method WritePsiTables() returns (output: seq<byte>)
      modifies this
      ensures output == PsiTables(old(patCc), old(pmtCc))
      ensures patCc == (old(patCc) + 1) % 16 && pmtCc == (old(pmtCc) + 1) % 16 && videoCc == old(videoCc)
    {
      output := PsiPacket(0, patCc, PatSection());
      patCc := (patCc + 1) % 16;
      output := output + PsiPacket(PMT_PID, pmtCc, PmtSection());
      pmtCc := (pmtCc + 1) % 16;
    }

    method WriteAccessUnit(data: seq<byte>, ptsUs: int, key: bool) returns (output: seq<byte>)
      requires videoCc < 16
      modifies this
      ensures output == AccessUnitBytes(data, ptsUs, key, old(videoCc))
      ensures videoCc == if data == [] then old(videoCc)
                         else (old(videoCc) + |UnitPacketList(data, ptsUs, key, old(videoCc))|) % 16
      ensures patCc == old(patCc) && pmtCc == old(pmtCc)
    {
      if data == [] {
        return [];
      }
      var pts90 := To90kHz(ptsUs);
      var pes := BuildPesHeader(pts90) + data;
      output, videoCc := PacketizePayload([], VIDEO_PID, pes, videoCc, true, if key then pts90 else -1, key);
    }
  }

  lemma CounterStep(cc: nat, n: nat)
    ensures ((cc + n) % 16 + 1) % 16 == (cc + (n + 1)) % 16
  {
  }

  /** Appends the packets of `payload` to `output`, advancing the caller's continuity counter. */
  method PacketizePayload(output: seq<byte>, pid: nat, payload: seq<byte>, cc: nat, payloadStart: bool, pcr: int,
                          randomAccess: bool)
    returns (out: seq<byte>, nextCc: nat)
    requires cc < 16
    ensures out == output + Flatten(Packets(pid, payload, cc, true, payloadStart, pcr, randomAccess))
    ensures nextCc == (cc + |Packets(pid, payload, cc, true, payloadStart, pcr, randomAccess)|) % 16
  {
    hide NextPacket, Packets, ChunkLength, Flatten;
    out, nextCc := output, cc;
    var offset, first := 0, true;
    ghost var all := Packets(pid, payload, cc, true, payloadStart, pcr, randomAccess);
    ghost var done: seq<seq<byte>> := [];
    assert payload[0..] == payload;
    FlattenNil();
    while offset < |payload|
      invariant 0 <= offset <= |payload|
      invariant out == output + Flatten(done) && nextCc == (cc + |done|) % 16
      invariant all == done + Packets(pid, payload[offset..], nextCc, first, payloadStart, pcr, randomAccess)
    {
      var pkt, copied := WritePacket(pid, payload, offset, nextCc, first, payloadStart, pcr, randomAccess);
      PacketsStep(all, done, payload, offset, pid, nextCc, first, payloadStart, pcr, randomAccess);
      FlattenSnoc(done, pkt);
      CounterStep(cc, |done|);
      done := done + [pkt];
      out := out + pkt;
      nextCc := (nextCc + 1) % 16;
      offset, first := offset + copied, false;
    }
    PacketsUnfold(pid, payload[offset..], nextCc, first, payloadStart, pcr, randomAccess);
    assert done == all;
  }

  /** One packet moves from those to come to those done. */
  lemma PacketsStep(all: seq<seq<byte>>, done: seq<seq<byte>>, payload: seq<byte>, offset: nat, pid: nat, cc: nat,
                    first: bool, start: bool, pcr: int, randomAccess: bool)
    requires offset < |payload|
    requires all == done + Packets(pid, payload[offset..], cc, first, start, pcr, randomAccess)
    ensures
      var n := ChunkLength(payload[offset..], first, pcr, randomAccess);
      all == done + [NextPacket(pid, payload[offset..], cc, first, start, pcr, randomAccess)]
             + Packets(pid, payload[offset + n..], (cc + 1) % 16, false, start, pcr, randomAccess)
  {
    PacketsUnfold(pid, payload[offset..], cc, first, start, pcr, randomAccess);
    hide Packets, NextPacket, ChunkLength;
    var n := ChunkLength(payload[offset..], first, pcr, randomAccess);
    assert payload[offset..][n..] == payload[offset + n..];
  }

  lemma FlattenNil()
    ensures Flatten<byte>([]) == []
  {
  }

  lemma PacketsUnfold(pid: nat, payload: seq<byte>, cc: nat, first: bool, start: bool, pcr: int, randomAccess: bool)
    ensures Packets(pid, payload, cc, first, start, pcr, randomAccess) ==
            if payload == [] then []
            else [NextPacket(pid, payload, cc, first, start, pcr, randomAccess)]
                 + Packets(pid, payload[ChunkLength(payload, first, pcr, randomAccess)..], (cc + 1) % 16, false,
                           start, pcr, randomAccess)
  {
  }

  /** One round of the packet loop: builds the next packet and says how much payload it took. */
  method WritePacket(pid: nat, payload: seq<byte>, offset: nat, cc: nat, first: bool, payloadStart: bool, pcr: int,
                     randomAccess: bool)
    returns (packet: seq<byte>, copied: nat)
    requires offset < |payload|
    ensures packet == NextPacket(pid, payload[offset..], cc, first, payloadStart, pcr, randomAccess)
    ensures copied == ChunkLength(payload[offset..], first, pcr, randomAccess)
  {
    hide AdaptedPacket, PlainPacket;
    var pkt := new byte[PACKET_SIZE](_ => 0);
    var remaining := |payload| - offset;
    if first && (pcr >= 0 || randomAccess) {
      copied := Min(remaining, AdaptedRoom(pcr));
      FillAdapted(pkt, pid, payloadStart, cc, pcr, randomAccess, payload[offset..offset + copied]);
    } else {
      copied := Min(remaining, MAX_PAYLOAD);
      FillPlain(pkt, pid, first && payloadStart, cc, payload[offset..offset + copied]);
    }
    assert payload[offset..][..copied] == payload[offset..offset + copied];
    packet := pkt[..];
  }

  /** Writes the header bytes of a packet in place. */
  method WriteHeader(pkt: array<byte>, pid: nat, start: bool, control: byte, cc: nat)
    requires pkt.Length == PACKET_SIZE && (control == 0x10 || control == 0x30)
    modifies pkt
    ensures pkt[..4] == Header(pid, start, control, cc)
    ensures forall i :: 4 <= i < pkt.Length ==> pkt[i] == old(pkt[i])
  {
    pkt[0] := SYNC;
    pkt[1] := (if start then 0x40 else 0) + pid / 256 % 32;
    pkt[2] := pid % 256;
    pkt[3] := control + cc % 16;
  }

  /** memcpy into a packet. */
  method CopyInto(pkt: array<byte>, at: nat, s: seq<byte>)
    requires at + |s| <= pkt.Length
    modifies pkt
    ensures forall i :: 0 <= i < pkt.Length ==>
              pkt[i] == if at <= i < at + |s| then s[i - at] else old(pkt[i])
  {
    forall i | at <= i < at + |s| {
      pkt[i] := s[i - at];
    }
  }

  method FillAdapted(pkt: array<byte>, pid: nat, start: bool, cc: nat, pcr: int, randomAccess: bool, chunk: seq<byte>)
    requires pkt.Length == PACKET_SIZE && |chunk| <= AdaptedRoom(pcr)
    modifies pkt
    ensures pkt[..] == AdaptedPacket(pid, start, cc, pcr, randomAccess, chunk)
  {
    var adaptLen := if pcr < 0 then 1 else 7;
    var padding := AdaptedRoom(pcr) - |chunk|;
    WriteHeader(pkt, pid, start, 0x30, cc);
    pkt[4] := adaptLen + padding;
    pkt[5] := AdaptationFlags(pcr, randomAccess);
    var at := 6;
    if pcr >= 0 {
      CopyInto(pkt, at, PcrField(pcr));
      at := at + 6;
    }
    CopyInto(pkt, at, Fill(STUFFING, padding));
    CopyInto(pkt, 4 + 1 + adaptLen + padding, chunk);
    ghost var p := AdaptedPacket(pid, start, cc, pcr, randomAccess, chunk);
    assert pkt[..4] == p[..4];
    forall i | 0 <= i < PACKET_SIZE ensures pkt[i] == p[i] {
      if i < 4 { assert pkt[..4][i] == p[..4][i]; }
    }
  }

  method FillPlain(pkt: array<byte>, pid: nat, start: bool, cc: nat, chunk: seq<byte>)
    requires pkt.Length == PACKET_SIZE && |chunk| <= MAX_PAYLOAD
    modifies pkt
    ensures pkt[..] == PlainPacket(pid, start, cc, chunk)
  {
    var stuff := MAX_PAYLOAD - |chunk|;
    if stuff == 0 {
      WriteHeader(pkt, pid, start, 0x10, cc);
      CopyInto(pkt, 4, chunk);
    } else {
      WriteHeader(pkt, pid, start, 0x30, cc);
      if stuff == 1 {
        pkt[4] := 0;
        CopyInto(pkt, 5, chunk);
      } else {
        pkt[4] := stuff - 1;
        pkt[5] := 0;
        CopyInto(pkt, 6, Fill(STUFFING, stuff - 2));
        CopyInto(pkt, 4 + stuff, chunk);
      }
    }
    ghost var p := PlainPacket(pid, start, cc, chunk);
    assert pkt[..4] == p[..4];
    forall i | 0 <= i < PACKET_SIZE ensures pkt[i] == p[i] {
      if i < 4 { assert pkt[..4][i] == p[..4][i]; }
    }
  }
}
