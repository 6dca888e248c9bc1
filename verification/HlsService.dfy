/** One channel of the HLS service (src/network/hls_stream/hls_service.cc) and what a player gets from it. */
module HlsService {
  import opened Bytes
  import opened Options
  import opened Sequences
  import opened TsDemux
  import opened TsMuxer

  datatype Config = Config(segmentDurationMs: int, maxSegments: int)
  datatype Frame = Frame(data: seq<byte>, pts: int, key: bool)
  datatype Segment = Segment(sequence: nat, duration: real, data: seq<byte>)

  /** `videoCc` is the muxer's counter; the table counters restart with every segment. */
  datatype Channel = Channel(
    segments: seq<Segment>, nextSequence: nat, current: Option<seq<byte>>,
    startPts: int, waiting: bool, active: bool, videoCc: nat)

  const FRESH := Channel([], 0, None, -1, true, true, 0)

  // ---------- specification ----------

  /** A keyframe closes the running segment once the target duration has passed. */
  predicate Cuts(cfg: Config, ch: Channel, f: Frame) {
    f.key && ch.current.Some? && ch.startPts >= 0 && f.pts - ch.startPts >= cfg.segmentDurationMs * 1000
  }

  function ClosedSegment(cfg: Config, ch: Channel, endPts: int): Segment
    requires ch.current.Some?
  {
    var duration := if ch.startPts >= 0 && endPts > ch.startPts then (endPts - ch.startPts) as real / 1000000.0
                    else cfg.segmentDurationMs as real / 1000.0;
    Segment(ch.nextSequence, duration, ch.current.value)
  }

  /** The sliding window: a negative limit, cast to an unsigned size, never drops anything. */
  function Window(cfg: Config, segments: seq<Segment>): (w: seq<Segment>)
    ensures |w| <= |segments| && w == segments[|segments| - |w|..]
    ensures cfg.maxSegments >= 0 ==> |w| == Min(|segments|, cfg.maxSegments)
  {
    if cfg.maxSegments >= 0 && |segments| > cfg.maxSegments then segments[|segments| - cfg.maxSegments..] else segments
  }

  function Finalize(cfg: Config, ch: Channel, endPts: int): Channel
    requires ch.current.Some?
  {
    ch.(segments := Window(cfg, ch.segments + [ClosedSegment(cfg, ch, endPts)]),
        nextSequence := ch.nextSequence + 1, current := None, startPts := -1)
  }

  /** A segment to write to: the running one, or a new one opened with fresh counters and tables. */
  function Opened(ch: Channel, pts: int): (r: Channel)
    ensures r.current.Some?
  {
    if ch.current.Some? then ch else ch.(current := Some(PsiTables(0, 0)), startPts := pts, videoCc := 0)
  }

  function Append(ch: Channel, f: Frame): Channel
    requires ch.current.Some?
  {
    ch.(current := Some(ch.current.value + AccessUnitBytes(f.data, f.pts, f.key, ch.videoCc)),
        videoCc := if f.data == [] then ch.videoCc
                   else (ch.videoCc + |UnitPacketList(f.data, f.pts, f.key, ch.videoCc)|) % 16)
  }

  predicate Accepts(ch: Channel, f: Frame) {
    ch.active && (ch.waiting ==> f.key)
  }

  function Push(cfg: Config, ch: Channel, f: Frame): Channel {
    if !Accepts(ch, f) then ch
    else
      var ready := ch.(waiting := false);
      Append(Opened(if Cuts(cfg, ready, f) then Finalize(cfg, ready, f.pts) else ready, f.pts), f)
  }

  // ---------- runs ----------

  datatype Op = PushFrame(frame: Frame) | UpdateConfig(config: Config) | Stop

  /** A run with its history: every segment ever finalised and every frame pushed while active. */
  datatype Run = Run(config: Config, ch: Channel, finalised: seq<Segment>, pushed: seq<Frame>)

  function Step(r: Run, op: Op): Run {
    match op
    case UpdateConfig(c) => r.(config := c)
    case Stop => r.(ch := r.ch.(active := false))
    case PushFrame(f) =>
      if !r.ch.active then r
      else Run(r.config, Push(r.config, r.ch, f),
               r.finalised + (if !r.ch.waiting && Cuts(r.config, r.ch, f)
                              then [ClosedSegment(r.config, r.ch, f.pts)] else []),
               r.pushed + [f])
  }

  function Execute(cfg: Config, ops: seq<Op>): Run {
    if ops == [] then Run(cfg, FRESH, [], []) else Step(Execute(cfg, ops[..|ops| - 1]), ops[|ops| - 1])
  }

  /** Index of the first keyframe, or the length if there is none. */
  function FirstKey(fs: seq<Frame>): (k: nat)
    ensures k <= |fs| && (k < |fs| ==> fs[k].key)
    ensures forall i :: 0 <= i < k ==> !fs[i].key
  {
    if fs == [] then 0 else if fs[0].key then 0 else 1 + FirstKey(fs[1..])
  }

  /** Access units of the non-empty frames. */
  function UnitsOf(fs: seq<Frame>): seq<AccessUnit> {
    if fs == [] then []
    else
      var f := fs[|fs| - 1];
      UnitsOf(fs[..|fs| - 1]) + (if f.data == [] then [] else [UnitOf(f.data, f.pts, f.key)])
  }

  /** What a viewer of the whole stream must see. */
  function Expected(fs: seq<Frame>): seq<AccessUnit> {
    UnitsOf(fs[FirstKey(fs)..])
  }

  /** The bytes of all segments in order, the running one last. */
  function Streams(r: Run): seq<seq<byte>> {
    seq(|r.finalised|, i requires 0 <= i < |r.finalised| => r.finalised[i].data)
    + (if r.ch.current.Some? then [r.ch.current.value] else [])
  }

  /** Every segment demuxed on its own, in order. */
  function DemuxAll(ss: seq<seq<byte>>): Option<seq<AccessUnit>> {
    if ss == [] then Some([])
    else
      match (DemuxAll(ss[..|ss| - 1]), Demux(ss[|ss| - 1]))
      case (Some(a), Some(b)) => Some(a + b)
      case _ => None
  }

  /** A segment that can be decoded without its predecessors. */
  ghost predicate StartsWithKey(s: seq<byte>) {
    Demux(s).Some? && Demux(s).value != [] && Demux(s).value[0].key
  }

  ghost predicate NoEmptyKeyframe(fs: seq<Frame>) {
    forall i :: 0 <= i < |fs| && fs[i].key ==> fs[i].data != []
  }

  ghost predicate Numbered(history: seq<Segment>) {
    forall i :: 0 <= i < |history| ==> history[i].sequence == i
  }

  ghost predicate IsTail(history: seq<Segment>, segments: seq<Segment>) {
    |segments| <= |history| && segments == history[|history| - |segments|..]
  }

  /** Sequence numbers, the published window and the waiting flag. */
  ghost predicate Bookkeeping(r: Run) {
    && r.ch.nextSequence == |r.finalised|
    && Numbered(r.finalised)
    && IsTail(r.finalised, r.ch.segments)
    && (r.ch.current.Some? <==> !r.ch.waiting)
    && (r.ch.waiting <==> FirstKey(r.pushed) == |r.pushed|)
  }

  /** Nothing lost, doubled or reordered. */
  ghost predicate Decodes(r: Run) {
    && (r.ch.current.Some? ==>
          Demux(r.ch.current.value).Some? && r.ch.videoCc == |Video(r.ch.current.value)| % 16)
    && DemuxAll(Streams(r)) == Some(Expected(r.pushed))
  }

  ghost predicate Independent(r: Run) {
    NoEmptyKeyframe(r.pushed) ==> forall s :: s in Streams(r) ==> StartsWithKey(s)
  }

  ghost predicate Invariant(r: Run) {
    Bookkeeping(r) && Decodes(r) && Independent(r)
  }

  lemma {:induction false} FirstKeySnoc(fs: seq<Frame>, f: Frame)
    ensures FirstKey(fs + [f]) == if FirstKey(fs) < |fs| || f.key then FirstKey(fs) else |fs| + 1
  {
    if fs != [] && !fs[0].key {
      assert (fs + [f])[1..] == fs[1..] + [f];
      FirstKeySnoc(fs[1..], f);
    }
  }

  lemma UnitsOfSnoc(fs: seq<Frame>, f: Frame)
    ensures UnitsOf(fs + [f]) == UnitsOf(fs) + (if f.data == [] then [] else [UnitOf(f.data, f.pts, f.key)])
  {
    hide UnitOf;
    assert (fs + [f])[..|fs|] == fs;
  }

  lemma ExpectedSnoc(fs: seq<Frame>, f: Frame)
    ensures Expected(fs + [f]) ==
            Expected(fs)
            + (if (FirstKey(fs) < |fs| || f.key) && f.data != [] then [UnitOf(f.data, f.pts, f.key)] else [])
  {
    FirstKeySnoc(fs, f);
    var k := FirstKey(fs);
    UnitsOfSnoc(fs[k..], f);
    hide UnitOf, UnitsOf, FirstKey;
    TailSnoc(fs, f, k);
    if k == |fs| && !f.key {
      assert Expected(fs) + [] == Expected(fs);
    }
  }

  lemma TailSnoc(fs: seq<Frame>, f: Frame, k: nat)
    requires k <= |fs|
    ensures (fs + [f])[k..] == fs[k..] + [f] && (fs + [f])[|fs| + 1..] == fs[|fs|..]
  {
  }

  lemma DemuxAllSnoc(ss: seq<seq<byte>>, s: seq<byte>)
    requires DemuxAll(ss).Some? && Demux(s).Some?
    ensures DemuxAll(ss + [s]) == Some(DemuxAll(ss).value + Demux(s).value)
  {
    assert (ss + [s])[..|ss|] == ss;
  }

  /** Writing a frame to a running segment. */
  lemma AppendDemuxes(ch: Channel, f: Frame)
    requires ch.current.Some? && Demux(ch.current.value).Some? && ch.videoCc == |Video(ch.current.value)| % 16
    ensures
      var after := Append(ch, f);
      && after.current.Some? && Demux(after.current.value).Some?
      && Demux(after.current.value).value ==
         Demux(ch.current.value).value + (if f.data == [] then [] else [UnitOf(f.data, f.pts, f.key)])
      && after.videoCc == |Video(after.current.value)| % 16
  {
    hide Demux, Video, UnitPacketList, UnitOf;
    var s := ch.current.value;
    if f.data == [] {
      assert s + AccessUnitBytes(f.data, f.pts, f.key, ch.videoCc) == s;
      assert Demux(s).value + [] == Demux(s).value;
    } else {
      DemuxAppendFrame(s, f.data, f.pts, f.key, ch.videoCc);
    }
  }

  /** The part of `Streams` that a push may still write to comes last. */
  function Closed(r: Run): seq<seq<byte>> {
    Streams(r.(ch := r.ch.(current := None)))
  }

  lemma PushKeepsInvariant(r: Run, f: Frame)
    requires Invariant(r) && r.ch.active
    ensures Invariant(Step(r, PushFrame(f)))
  {
    PushKeepsBookkeeping(r, f);
    ExpectedSnoc(r.pushed, f);
    if !Accepts(r.ch, f) {
      var after := Step(r, PushFrame(f));
      assert after == r.(pushed := r.pushed + [f]) && Streams(after) == Streams(r);
      assert NoEmptyKeyframe(after.pushed) ==> NoEmptyKeyframe(r.pushed) by {
        assert forall i :: 0 <= i < |r.pushed| ==> after.pushed[i] == r.pushed[i];
      }
    } else {
      PushKeepsDecodes(r, f);
      PushKeepsIndependent(r, f);
    }
  }

  /** The running segment an accepted frame is written to. */
  function Target(r: Run, f: Frame): (ch: Channel)
    ensures ch.current.Some?
  {
    var ready := r.ch.(waiting := false);
    Opened(if Cuts(r.config, ready, f) then Finalize(r.config, ready, f.pts) else ready, f.pts)
  }

  predicate OpensSegment(r: Run, f: Frame) {
    r.ch.current.None? || Cuts(r.config, r.ch, f)
  }

  lemma StreamsOfPush(r: Run, f: Frame)
    requires Bookkeeping(r) && Accepts(r.ch, f)
    ensures
      var after := Step(r, PushFrame(f));
      && after.ch == Append(Target(r, f), f) && after.ch.current.Some? && !after.ch.waiting
      && Streams(after) == (if OpensSegment(r, f) then Streams(r) else Closed(r)) + [after.ch.current.value]
      && (OpensSegment(r, f) ==>
            Target(r, f).current == Some(PsiTables(0, 0)) && Target(r, f).videoCc == 0 && (r.ch.waiting ==> f.key))
      && (!OpensSegment(r, f) ==> Target(r, f) == r.ch && Streams(r) == Closed(r) + [r.ch.current.value])
  {
    hide Demux, DemuxAll, Video, AccessUnitBytes, UnitPacketList, PsiTables, StartsWithKey, Expected;
    var after := Step(r, PushFrame(f));
    if Cuts(r.config, r.ch, f) {
      assert after.finalised == r.finalised + [ClosedSegment(r.config, r.ch, f.pts)];
    } else {
      assert after.finalised == r.finalised;
    }
  }

  lemma DemuxOfPush(before: seq<seq<byte>>, ch: Channel, f: Frame, units: seq<AccessUnit>)
    requires ch.current.Some? && Demux(ch.current.value).Some? && ch.videoCc == |Video(ch.current.value)| % 16
    requires DemuxAll(before + [ch.current.value]) == Some(units)
    ensures
      var after := Append(ch, f);
      && after.current.Some? && Demux(after.current.value).Some?
      && after.videoCc == |Video(after.current.value)| % 16
      && DemuxAll(before + [after.current.value]) ==
         Some(units + (if f.data == [] then [] else [UnitOf(f.data, f.pts, f.key)]))
      && (StartsWithKey(ch.current.value) || (Demux(ch.current.value) == Some([]) && f.key && f.data != [])
          ==> StartsWithKey(after.current.value))
  {
    AppendDemuxes(ch, f);
    hide Demux, Video, UnitOf, AccessUnitBytes, UnitPacketList;
    var s, after := ch.current.value, Append(ch, f);
    var t := after.current.value;
    assert (before + [s])[..|before|] == before;
    DemuxAllSnoc(before, s);
    DemuxAllSnoc(before, t);
    var added := if f.data == [] then [] else [UnitOf(f.data, f.pts, f.key)];
    assert DemuxAll(before).value + (Demux(s).value + added) == (DemuxAll(before).value + Demux(s).value) + added;
    UnitOfKey(f);
  }

  lemma UnitOfKey(f: Frame)
    ensures UnitOf(f.data, f.pts, f.key).key == f.key
  {
  }

  /** A segment that holds only tables adds no unit. */
  lemma OpenedDemuxes(streams: seq<seq<byte>>, s: seq<byte>)
    requires DemuxAll(streams).Some? && Demux(s) == Some([])
    ensures DemuxAll(streams + [s]) == DemuxAll(streams)
  {
    DemuxAllSnoc(streams, s);
    assert DemuxAll(streams).value + [] == DemuxAll(streams).value;
  }

  lemma PushKeepsDecodes(r: Run, f: Frame)
    requires Bookkeeping(r) && Decodes(r) && Accepts(r.ch, f)
    ensures Decodes(Step(r, PushFrame(f)))
  {
    var after := Step(r, PushFrame(f));
    assert after.pushed == r.pushed + [f];
    StreamsOfPush(r, f);
    ExpectedSnoc(r.pushed, f);
    DemuxTables(0, 0);
    hide Demux, Video, PsiTables, Expected, Step, Append, Target, UnitOf, Streams, Closed, FirstKey;
    var ch := Target(r, f);
    var before := if OpensSegment(r, f) then Streams(r) else Closed(r);
    hide DemuxAll, OpensSegment, Bookkeeping;
    if OpensSegment(r, f) {
      OpenedDemuxes(Streams(r), ch.current.value);
    }
    DemuxOfPush(before, ch, f, Expected(r.pushed));
  }

  lemma PushKeepsIndependent(r: Run, f: Frame)
    requires Bookkeeping(r) && Decodes(r) && Independent(r) && Accepts(r.ch, f)
    ensures Independent(Step(r, PushFrame(f)))
  {
    var after := Step(r, PushFrame(f));
    assert after.pushed == r.pushed + [f];
    if NoEmptyKeyframe(after.pushed) {
      assert after.pushed[|r.pushed|] == f;
      assert forall i :: 0 <= i < |r.pushed| ==> after.pushed[i] == r.pushed[i];
      StreamsOfPush(r, f);
      DemuxTables(0, 0);
      hide Demux, Video, PsiTables, Expected, Step, Append, Target, UnitOf, Streams, Closed, StartsWithKey;
      var ch := Target(r, f);
      var before := if OpensSegment(r, f) then Streams(r) else Closed(r);
      if OpensSegment(r, f) {
        DemuxAllSnoc(Streams(r), ch.current.value);
      } else {
        assert ch.current.value in Streams(r) by { assert Streams(r)[|before|] == ch.current.value; }
      }
      DemuxOfPush(before, ch, f, DemuxAll(before + [ch.current.value]).value);
      forall s | s in Streams(after) ensures StartsWithKey(s) {
        if s in before {
          assert s in Streams(r);
        }
      }
    }
  }

  lemma WindowIsTail(cfg: Config, history: seq<Segment>, segments: seq<Segment>, s: Segment)
    requires IsTail(history, segments) && Numbered(history) && s.sequence == |history|
    ensures IsTail(history + [s], Window(cfg, segments + [s])) && Numbered(history + [s])
  {
    assert segments + [s] == (history + [s])[|history| - |segments|..];
  }

  lemma PushKeepsBookkeeping(r: Run, f: Frame)
    requires Bookkeeping(r) && r.ch.active
    ensures Bookkeeping(Step(r, PushFrame(f)))
  {
    FirstKeySnoc(r.pushed, f);
    PushFields(r.config, r.ch, f);
    StepFields(r, f);
    hide FirstKey, ClosedSegment, Window, Push, Cuts, IsTail, Numbered, Step;
    if Cuts(r.config, r.ch, f) && !r.ch.waiting {
      WindowIsTail(r.config, r.finalised, r.ch.segments, ClosedSegment(r.config, r.ch, f.pts));
    }
  }

  lemma StepFields(r: Run, f: Frame)
    requires r.ch.active
    ensures
      var after := Step(r, PushFrame(f));
      && after.config == r.config && after.ch == Push(r.config, r.ch, f) && after.pushed == r.pushed + [f]
      && after.finalised == (if Cuts(r.config, r.ch, f) && !r.ch.waiting
                             then r.finalised + [ClosedSegment(r.config, r.ch, f.pts)] else r.finalised)
  {
    hide Push, Cuts, ClosedSegment;
  }

  /** What a push does to the fields outside the running segment. */
  lemma PushFields(cfg: Config, ch: Channel, f: Frame)
    requires ch.active
    ensures
      var after := Push(cfg, ch, f);
      && after.active
      && after.waiting == (ch.waiting && !f.key)
      && (after.current.Some? <==> ch.current.Some? || !ch.waiting || f.key)
      && var closing := Cuts(cfg, ch, f) && (ch.waiting ==> f.key);
         && after.nextSequence == ch.nextSequence + (if closing then 1 else 0)
         && after.segments ==
           (if closing then Window(cfg, ch.segments + [ClosedSegment(cfg, ch, f.pts)]) else ch.segments)
    ensures ch.current.Some? ==> ClosedSegment(cfg, ch, f.pts).sequence == ch.nextSequence
    ensures Cuts(cfg, ch, f) ==> ch.current.Some?
  {
    hide AccessUnitBytes, UnitPacketList, PsiTables, Window;
  }

  /**
    * Every run: all segments ever finalised and the running one, demuxed separately and in order, give exactly
    * the non-empty frames pushed since the first keyframe, each once and with its 90 kHz time stamp modulo 2^33;
    * sequence numbers count up from 0 and the published window is the tail of the history.
    */
  lemma {:induction false} RunInvariant(cfg: Config, ops: seq<Op>)
    ensures Invariant(Execute(cfg, ops))
  {
    if ops == [] {
      assert Streams(Execute(cfg, [])) == [];
    } else {
      RunInvariant(cfg, ops[..|ops| - 1]);
      StepKeepsInvariant(Execute(cfg, ops[..|ops| - 1]), ops[|ops| - 1]);
    }
  }

  lemma StepKeepsInvariant(r: Run, op: Op)
    requires Invariant(r)
    ensures Invariant(Step(r, op))
  {
    hide Demux, Video, Expected, DemuxAll, StartsWithKey, NoEmptyKeyframe, Push, ClosedSegment;
    if op.PushFrame? {
      if r.ch.active {
        PushKeepsInvariant(r, op.frame);
      }
    } else {
      assert Streams(Step(r, op)) == Streams(r);
    }
  }

  // ---------- which segments start with a keyframe ----------

  /** One more frame for the segment with this number. */
  function AddedTo(gs: seq<seq<Frame>>, number: nat, f: Frame): seq<seq<Frame>> {
    if number < |gs| then gs[number := gs[number] + [f]] else gs + [[f]]
  }

  /** The frames written to each segment, the running one last. */
  function Groups(cfg: Config, ops: seq<Op>): seq<seq<Frame>>
    decreases |ops|
  {
    if ops == [] then []
    else
      var n := |ops| - 1;
      var r, gs := Execute(cfg, ops[..n]), Groups(cfg, ops[..n]);
      match ops[n]
      case PushFrame(f) =>
        if !Accepts(r.ch, f) then gs else AddedTo(gs, Step(r, ops[n]).ch.nextSequence, f)
      case _ => gs
  }

  /** A segment that carries exactly these frames, of which the first is a keyframe. */
  ghost predicate Holds(s: seq<byte>, g: seq<Frame>) {
    Demux(s) == Some(UnitsOf(g)) && g != [] && g[0].key
  }

  ghost predicate AllHold(ss: seq<seq<byte>>, gs: seq<seq<Frame>>) {
    |ss| == |gs| && forall k :: 0 <= k < |ss| ==> Holds(ss[k], gs[k])
  }

  lemma AllHoldSnoc(ss: seq<seq<byte>>, gs: seq<seq<Frame>>, s: seq<byte>, g: seq<Frame>)
    requires AllHold(ss, gs) && Holds(s, g)
    ensures AllHold(ss + [s], gs + [g])
  {
    hide Holds;
  }

  lemma AllHoldInit(ss: seq<seq<byte>>, s: seq<byte>, gs: seq<seq<Frame>>)
    requires AllHold(ss + [s], gs)
    ensures gs != [] && AllHold(ss, gs[..|gs| - 1]) && Holds(s, gs[|gs| - 1])
  {
    hide Holds;
    assert (ss + [s])[|ss|] == s;
    forall k | 0 <= k < |ss| ensures Holds(ss[k], gs[k]) {
      assert (ss + [s])[k] == ss[k];
    }
  }

  /** Writing a frame to a segment adds it to what the segment holds. */
  lemma AppendHolds(ch: Channel, g: seq<Frame>, f: Frame)
    requires ch.current.Some? && Demux(ch.current.value) == Some(UnitsOf(g))
             && ch.videoCc == |Video(ch.current.value)| % 16
    requires (g == [] ==> f.key) && (g != [] ==> g[0].key)
    ensures Append(ch, f).current.Some? && Holds(Append(ch, f).current.value, g + [f])
  {
    AppendDemuxes(ch, f);
    UnitsOfSnoc(g, f);
    hide Demux, Video, UnitOf, UnitsOf, AccessUnitBytes, UnitPacketList;
    assert g != [] ==> (g + [f])[0] == g[0];
  }

  lemma OpensOnKey(r: Run, f: Frame)
    requires Bookkeeping(r) && Accepts(r.ch, f) && OpensSegment(r, f)
    ensures f.key
  {
  }

  lemma PushHolds(r: Run, gs: seq<seq<Frame>>, f: Frame)
    requires Bookkeeping(r) && Decodes(r) && Accepts(r.ch, f) && AllHold(Streams(r), gs)
    ensures AllHold(Streams(Step(r, PushFrame(f))),
                    if OpensSegment(r, f) || gs == [] then gs + [[f]] else gs[..|gs| - 1] + [gs[|gs| - 1] + [f]])
  {
    StreamsOfPush(r, f);
    DemuxTables(0, 0);
    var ch := Target(r, f);
    if OpensSegment(r, f) {
      OpensOnKey(r, f);
      NoUnitsOf();
      hide Demux, Video, PsiTables, Step, Append, Target, Streams, Closed, Bookkeeping, UnitsOf, AllHold, Holds,
           OpensSegment;
      AppendHolds(ch, [], f);
      assert [] + [f] == [f];
      AllHoldSnoc(Streams(r), gs, Append(ch, f).current.value, [f]);
    } else {
      hide Demux, Video, PsiTables, Step, Append, Target, Streams, Closed, Bookkeeping, UnitsOf, AllHold, OpensSegment;
      AllHoldInit(Closed(r), r.ch.current.value, gs);
      AppendHolds(ch, gs[|gs| - 1], f);
      hide Holds;
      AllHoldSnoc(Closed(r), gs[..|gs| - 1], Append(ch, f).current.value, gs[|gs| - 1] + [f]);
    }
  }

  lemma PushKeepsGroups(r: Run, gs: seq<seq<Frame>>, f: Frame)
    requires Bookkeeping(r) && Decodes(r) && Accepts(r.ch, f) && AllHold(Streams(r), gs)
    ensures AllHold(Streams(Step(r, PushFrame(f))), AddedTo(gs, Step(r, PushFrame(f)).ch.nextSequence, f))
  {
    hide Decodes, Bookkeeping, Accepts, OpensSegment, Streams, Step, AddedTo;
    NumberOfPush(r, f);
    PushHolds(r, gs, f);
    assert |gs| == |Streams(r)|;
    hide AllHold;
    AddedAtEnd(gs, f);
  }

  lemma AddedAtEnd(gs: seq<seq<Frame>>, f: Frame)
    ensures AddedTo(gs, |gs|, f) == gs + [[f]]
    ensures var n := |gs| - 1; gs != [] ==> AddedTo(gs, n, f) == gs[..n] + [gs[n] + [f]]
  {
  }

  lemma NumberOfPush(r: Run, f: Frame)
    requires Bookkeeping(r) && Accepts(r.ch, f)
    ensures |Streams(r)| == r.ch.nextSequence + (if r.ch.current.Some? then 1 else 0)
    ensures Step(r, PushFrame(f)).ch.nextSequence == if OpensSegment(r, f) then |Streams(r)| else |Streams(r)| - 1
  {
    PushFields(r.config, r.ch, f);
    hide Push, ClosedSegment, Window;
  }

  lemma NoUnitsOf()
    ensures UnitsOf([]) == []
  {
  }

  lemma OtherStepsKeepStreams(r: Run, op: Op)
    requires op.PushFrame? ==> !Accepts(r.ch, op.frame)
    ensures Streams(Step(r, op)) == Streams(r)
  {
  }

  /** On every run each segment carries exactly the frames of its group, which begins with a keyframe. */
  lemma {:induction false} SegmentsHoldGroups(cfg: Config, ops: seq<Op>)
    ensures AllHold(Streams(Execute(cfg, ops)), Groups(cfg, ops))
    decreases |ops|
  {
    hide Invariant, AllHold, Step, Accepts, OpensSegment;
    if ops == [] {
      NothingStreamed(cfg);
    } else {
      var n := |ops| - 1;
      var r := Execute(cfg, ops[..n]);
      SegmentsHoldGroups(cfg, ops[..n]);
      RunInvariant(cfg, ops[..n]);
      if ops[n].PushFrame? && Accepts(r.ch, ops[n].frame) {
        InvariantParts(r);
        hide Bookkeeping, Decodes;
        PushKeepsGroups(r, Groups(cfg, ops[..n]), ops[n].frame);
      } else {
        OtherStepsKeepStreams(r, ops[n]);
      }
    }
  }

  lemma InvariantParts(r: Run)
    requires Invariant(r)
    ensures Bookkeeping(r) && Decodes(r)
  {
  }

  lemma NothingStreamed(cfg: Config)
    ensures AllHold(Streams(Run(cfg, FRESH, [], [])), [])
  {
  }

  /** The first frame with data, or the length. */
  function FirstData(fs: seq<Frame>): (k: nat)
    ensures k <= |fs| && (k < |fs| ==> fs[k].data != []) && forall i :: 0 <= i < k ==> fs[i].data == []
  {
    if fs == [] then 0 else if fs[0].data != [] then 0 else 1 + FirstData(fs[1..])
  }

  lemma FirstDataSnoc(fs: seq<Frame>, f: Frame)
    ensures FirstData(fs + [f]) ==
            if FirstData(fs) < |fs| then FirstData(fs) else if f.data != [] then |fs| else |fs| + 1
  {
    var longer, k, j := fs + [f], FirstData(fs + [f]), FirstData(fs);
    hide FirstData;
    assert forall i :: 0 <= i < |fs| ==> longer[i] == fs[i];
    assert longer[|fs|] == f;
    if j < k {
      assert longer[j].data == [];
    }
  }

  lemma {:induction false} UnitsOfFirst(fs: seq<Frame>)
    ensures
      var k := FirstData(fs);
      if k == |fs| then UnitsOf(fs) == []
      else UnitsOf(fs) != [] && UnitsOf(fs)[0] == UnitOf(fs[k].data, fs[k].pts, fs[k].key)
    decreases |fs|
  {
    if fs == [] {
      NoUnitsOf();
    } else {
      hide UnitOf, UnitsOf, FirstData;
      var init, f := fs[..|fs| - 1], fs[|fs| - 1];
      assert fs == init + [f];
      UnitsOfFirst(init);
      FirstDataSnoc(init, f);
      UnitsOfSnoc(init, f);
    }
  }

  /** A segment starts with a keyframe exactly when the first frame with data written to it is one. */
  lemma SegmentIndependentIff(cfg: Config, ops: seq<Op>, k: nat)
    requires k < |Streams(Execute(cfg, ops))|
    ensures |Groups(cfg, ops)| == |Streams(Execute(cfg, ops))|
    ensures var g := Groups(cfg, ops)[k];
            StartsWithKey(Streams(Execute(cfg, ops))[k]) <==> FirstData(g) < |g| && g[FirstData(g)].key
  {
    SegmentsHoldGroups(cfg, ops);
    var g := Groups(cfg, ops)[k];
    assert Holds(Streams(Execute(cfg, ops))[k], g);
    UnitsOfFirst(g);
    if FirstData(g) < |g| {
      UnitOfKey(g[FirstData(g)]);
    }
    hide Execute, Streams, Groups, Demux, UnitsOf, UnitOf, FirstData;
  }

  /**
    * A segment that does not start with a keyframe: it opens with an empty one, and the frame with data that follows
    * is not a keyframe.
    */
  lemma EmptyKeyframeRun(cfg: Config)
    ensures
      var r := Execute(cfg, [PushFrame(Frame([], 0, true)), PushFrame(Frame([7], 0, false))]);
      && |Streams(r)| == 1 && Demux(Streams(r)[0]).Some? && Demux(Streams(r)[0]).value != []
      && !StartsWithKey(Streams(r)[0])
  {
    var a, b := Frame([], 0, true), Frame([7], 0, false);
    var ops := [PushFrame(a), PushFrame(b)];
    TwoPushes(cfg, a, b, ops);
    SegmentsHoldGroups(cfg, ops);
    SegmentIndependentIff(cfg, ops, 0);
    UnitsOfFirst([a, b]);
    hide Execute, Streams, Groups, Demux, UnitsOf, UnitOf, StartsWithKey;
    assert FirstData([a, b]) == 1 by {
      assert [a, b][1..] == [b];
    }
  }

  lemma TwoPushes(cfg: Config, a: Frame, b: Frame, ops: seq<Op>)
    requires a == Frame([], 0, true) && b == Frame([7], 0, false) && ops == [PushFrame(a), PushFrame(b)]
    ensures |Streams(Execute(cfg, ops))| == 1 && Groups(cfg, ops) == [[a, b]]
  {
    hide AccessUnitBytes, UnitPacketList, PsiTables;
    assert ops[..1] == [PushFrame(a)] && ops[..1][..0] == [];
    var r0 := Run(cfg, FRESH, [], []);
    assert Execute(cfg, ops[..1][..0]) == r0 && Groups(cfg, ops[..1][..0]) == [];
    var r1 := Step(r0, PushFrame(a));
    assert Execute(cfg, ops[..1]) == r1 && Groups(cfg, ops[..1]) == [[a]];
    assert !OpensSegment(r1, b) && Accepts(r1.ch, b);
    var first: seq<Frame> := [a];
    var gs: seq<seq<Frame>> := [first];
    assert gs[..0] == [] && first + [b] == [a, b] && gs[..0] + [[a, b]] == [[a, b]];
  }

  // ---------- where segments are cut ----------

  /** The state in front of operation `i`. */
  function Before(cfg: Config, ops: seq<Op>, i: nat): Run
    requires i <= |ops|
  {
    Execute(cfg, ops[..i])
  }

  /** The configuration in force: the last one set. */
  function Configured(cfg: Config, ops: seq<Op>): Config
    decreases |ops|
  {
    if ops == [] then cfg
    else match ops[|ops| - 1] case UpdateConfig(c) => c case _ => Configured(cfg, ops[..|ops| - 1])
  }

  predicate IsKey(op: Op) {
    op.PushFrame? && op.frame.key
  }

  predicate NoStop(ops: seq<Op>) {
    forall k :: 0 <= k < |ops| ==> !ops[k].Stop?
  }

  predicate NoKey(ops: seq<Op>) {
    forall k :: 0 <= k < |ops| ==> !IsKey(ops[k])
  }

  /** Operation `i` pushes a frame that is muxed: nothing was stopped before, and it is not before all keyframes. */
  predicate Written(ops: seq<Op>, i: nat) {
    i < |ops| && ops[i].PushFrame? && NoStop(ops[..i]) && !NoKey(ops[..i + 1])
  }

  /** The number of the segment that is running after operation `i`. */
  function Number(cfg: Config, ops: seq<Op>, i: nat): nat
    requires i < |ops|
  {
    Before(cfg, ops, i + 1).ch.nextSequence
  }

  /** The frame of operation `i` is the first of its segment. */
  ghost predicate Opening(cfg: Config, ops: seq<Op>, i: nat) {
    Written(ops, i) && forall h :: 0 <= h < i && Written(ops, h) ==> Number(cfg, ops, h) != Number(cfg, ops, i)
  }

  /** A keyframe that comes the target duration, in milliseconds, or more after the frame of operation `i`. */
  predicate Late(cfg: Config, ops: seq<Op>, i: nat, h: nat)
    requires i < |ops| && ops[i].PushFrame? && h < |ops|
  {
    && IsKey(ops[h]) && ops[i].frame.pts >= 0
    && ops[h].frame.pts >= ops[i].frame.pts + 1000 * Configured(cfg, ops[..h]).segmentDurationMs
  }

  /** No keyframe written between operations `i` and `n` is late. */
  ghost predicate NoneLate(cfg: Config, ops: seq<Op>, i: nat, n: nat)
    requires i < n <= |ops| && ops[i].PushFrame?
  {
    forall h :: i < h < n && Written(ops, h) ==> !Late(cfg, ops, i, h)
  }

  lemma NoneLateNext(cfg: Config, ops: seq<Op>, i: nat, n: nat)
    requires i < n < |ops| && ops[i].PushFrame?
    ensures NoneLate(cfg, ops, i, n + 1) <==> NoneLate(cfg, ops, i, n) && (Written(ops, n) ==> !Late(cfg, ops, i, n))
  {
    hide Written, Late;
  }

  lemma BeforeNext(cfg: Config, ops: seq<Op>, i: nat)
    requires i < |ops|
    ensures Before(cfg, ops, i + 1) == Step(Before(cfg, ops, i), ops[i])
  {
    hide Step;
    assert ops[..i + 1][..i] == ops[..i];
  }

  /** What an operation does to the running segment's number and start. */
  lemma StepRunning(r: Run, op: Op)
    requires Bookkeeping(r)
    ensures
      var a, b := r.ch, Step(r, op).ch;
      if op.PushFrame? && Accepts(a, op.frame) then
        var due := op.frame.key && a.startPts >= 0
                   && op.frame.pts >= a.startPts + 1000 * r.config.segmentDurationMs;
        && b.current.Some?
        && (a.current.None? ==> b.nextSequence == a.nextSequence && b.startPts == op.frame.pts)
        && (a.current.Some? && due ==> b.nextSequence == a.nextSequence + 1 && b.startPts == op.frame.pts)
        && (a.current.Some? && !due ==> b.nextSequence == a.nextSequence && b.startPts == a.startPts)
      else b.nextSequence == a.nextSequence && b.startPts == a.startPts && b.current == a.current
  {
    hide AccessUnitBytes, UnitPacketList, PsiTables, Window, Bookkeeping;
  }

  /** What an operation does to the flags and the configuration. */
  lemma StepFlags(r: Run, op: Op)
    ensures var a, b := r.ch, Step(r, op).ch;
            && b.active == (a.active && !op.Stop?)
            && (a.active ==> b.waiting == (a.waiting && !IsKey(op)))
    ensures Step(r, op).config == if op.UpdateConfig? then op.config else r.config
  {
    if op.PushFrame? && r.ch.active {
      PushFields(r.config, r.ch, op.frame);
      hide Push, ClosedSegment, Window, Cuts;
    }
  }

  lemma NoStopSnoc(ops: seq<Op>, i: nat)
    requires i < |ops|
    ensures NoStop(ops[..i + 1]) <==> NoStop(ops[..i]) && !ops[i].Stop?
    ensures NoKey(ops[..i + 1]) <==> NoKey(ops[..i]) && !IsKey(ops[i])
  {
    assert ops[..i + 1] == ops[..i] + [ops[i]];
    hide IsKey;
  }

  lemma {:induction false} FlagsBefore(cfg: Config, ops: seq<Op>, i: nat)
    requires i <= |ops|
    ensures
      var r := Before(cfg, ops, i);
      && r.config == Configured(cfg, ops[..i])
      && (r.ch.active <==> NoStop(ops[..i]))
      && (r.ch.active ==> (r.ch.waiting <==> NoKey(ops[..i])))
  {
    if i == 0 {
      assert ops[..0] == [];
    } else {
      FlagsBefore(cfg, ops, i - 1);
      BeforeNext(cfg, ops, i - 1);
      StepFlags(Before(cfg, ops, i - 1), ops[i - 1]);
      NoStopSnoc(ops, i - 1);
      ConfiguredSnoc(cfg, ops, i - 1);
      hide Step, Before, IsKey, NoStop, NoKey, Configured;
    }
  }

  lemma ConfiguredSnoc(cfg: Config, ops: seq<Op>, i: nat)
    requires i < |ops|
    ensures Configured(cfg, ops[..i + 1]) ==
            if ops[i].UpdateConfig? then ops[i].config else Configured(cfg, ops[..i])
  {
    assert ops[..i + 1][..i] == ops[..i];
  }

  lemma WrittenIsAccepted(cfg: Config, ops: seq<Op>, i: nat)
    requires i < |ops|
    ensures Written(ops, i) <==> ops[i].PushFrame? && Accepts(Before(cfg, ops, i).ch, ops[i].frame)
  {
    FlagsBefore(cfg, ops, i);
    NoStopSnoc(ops, i);
    hide Before, Configured, NoStop, NoKey;
  }

  lemma BeforeBookkeeping(cfg: Config, ops: seq<Op>, i: nat)
    requires i <= |ops|
    ensures Bookkeeping(Before(cfg, ops, i))
  {
    RunInvariant(cfg, ops[..i]);
  }

  /** A segment is running only if some frame was written to it. */
  lemma {:induction false} RunningHasFrame(cfg: Config, ops: seq<Op>, n: nat)
    requires n <= |ops| && Before(cfg, ops, n).ch.current.Some?
    ensures exists h: nat :: h < n && Written(ops, h) && Number(cfg, ops, h) == Before(cfg, ops, n).ch.nextSequence
  {
    if n > 0 {
      assert Number(cfg, ops, n - 1) == Before(cfg, ops, n).ch.nextSequence;
      hide Before, Step, Written, Number, Accepts, Bookkeeping;
      BeforeNext(cfg, ops, n - 1);
      BeforeBookkeeping(cfg, ops, n - 1);
      WrittenIsAccepted(cfg, ops, n - 1);
      StepRunning(Before(cfg, ops, n - 1), ops[n - 1]);
      if !Written(ops, n - 1) {
        RunningHasFrame(cfg, ops, n - 1);
      }
    }
  }

  /** The first frame of a segment sets its start. */
  lemma OpeningStarts(cfg: Config, ops: seq<Op>, i: nat)
    requires Opening(cfg, ops, i)
    ensures var ch := Before(cfg, ops, i + 1).ch;
            ch.current.Some? && ch.startPts == ops[i].frame.pts && ch.nextSequence == Number(cfg, ops, i)
  {
    var r := Before(cfg, ops, i);
    BeforeNext(cfg, ops, i);
    BeforeBookkeeping(cfg, ops, i);
    WrittenIsAccepted(cfg, ops, i);
    StepRunning(r, ops[i]);
    assert Number(cfg, ops, i) == Before(cfg, ops, i + 1).ch.nextSequence;
    if r.ch.current.Some? {
      RunningHasFrame(cfg, ops, i);
    }
    hide Before, Step, Written, Number, Accepts;
  }

  /** In front of operation `n` the segment of operation `i` is running exactly if no keyframe has been late. */
  ghost predicate RunsOn(cfg: Config, ops: seq<Op>, i: nat, n: nat)
    requires i < n <= |ops| && ops[i].PushFrame?
  {
    var ch, number := Before(cfg, ops, n).ch, Number(cfg, ops, i);
    && ch.current.Some? && ch.nextSequence >= number
    && (ch.nextSequence == number <==> NoneLate(cfg, ops, i, n))
    && (ch.nextSequence == number ==> ch.startPts == ops[i].frame.pts)
  }

  lemma RunsOnNext(cfg: Config, ops: seq<Op>, i: nat, n: nat)
    requires i < n < |ops| && ops[i].PushFrame? && RunsOn(cfg, ops, i, n)
    ensures RunsOn(cfg, ops, i, n + 1)
  {
    hide Before, Step, Written, Number, Accepts, Configured, NoneLate, Bookkeeping;
    BeforeNext(cfg, ops, n);
    BeforeBookkeeping(cfg, ops, n);
    WrittenIsAccepted(cfg, ops, n);
    FlagsBefore(cfg, ops, n);
    NoneLateNext(cfg, ops, i, n);
    StepRunning(Before(cfg, ops, n), ops[n]);
  }

  lemma {:induction false} SegmentRuns(cfg: Config, ops: seq<Op>, i: nat, n: nat)
    requires Opening(cfg, ops, i) && i < n <= |ops|
    ensures RunsOn(cfg, ops, i, n)
    decreases n
  {
    if n == i + 1 {
      OpeningStarts(cfg, ops, i);
      hide Before, Number, Opening;
    } else {
      SegmentRuns(cfg, ops, i, n - 1);
      RunsOnNext(cfg, ops, i, n - 1);
    }
  }

  /**
    * On every run a frame is written to the same segment as the segment's first frame exactly when no keyframe since
    * then, itself included, came the target duration then configured after that first frame. A first frame with a
    * negative time keeps its segment open for good.
    */
  lemma SameSegmentIff(cfg: Config, ops: seq<Op>, i: nat, j: nat)
    requires Opening(cfg, ops, i) && i < j && Written(ops, j)
    ensures Number(cfg, ops, j) == Number(cfg, ops, i) <==> NoneLate(cfg, ops, i, j + 1)
    ensures Number(cfg, ops, j) >= Number(cfg, ops, i)
  {
    SegmentRuns(cfg, ops, i, j + 1);
    hide Before, Written, Late, Opening, NoneLate;
  }

  lemma {:induction false} NumbersGrow(cfg: Config, ops: seq<Op>, i: nat, j: nat)
    requires i <= j <= |ops|
    ensures Before(cfg, ops, i).ch.nextSequence <= Before(cfg, ops, j).ch.nextSequence
    ensures Before(cfg, ops, i).finalised <= Before(cfg, ops, j).finalised
    decreases j
  {
    if i < j {
      NumbersGrow(cfg, ops, i, j - 1);
      BeforeNext(cfg, ops, j - 1);
      BeforeBookkeeping(cfg, ops, j - 1);
      StepRunning(Before(cfg, ops, j - 1), ops[j - 1]);
      StepFinalised(Before(cfg, ops, j - 1), ops[j - 1]);
      hide Before, Step, Accepts, Bookkeeping;
    }
  }

  lemma StepFinalised(r: Run, op: Op)
    ensures r.finalised <= Step(r, op).finalised
  {
    hide Push, ClosedSegment, Cuts;
  }

  /** Elapsed microseconds in seconds, or the target in milliseconds if there are none. */
  function Lasting(elapsed: int, target: int): real {
    if elapsed > 0 then elapsed as real / 1000000.0 else target as real / 1000.0
  }

  /** The segment closed by a push: its duration follows the frames' times, or the configuration if time went back. */
  lemma StepCloses(r: Run, op: Op)
    requires Bookkeeping(r) && op.PushFrame? && Accepts(r.ch, op.frame)
    requires Step(r, op).ch.nextSequence > r.ch.nextSequence
    ensures
      var fs := Step(r, op).finalised;
      && |fs| == r.ch.nextSequence + 1
      && fs[r.ch.nextSequence].duration == Lasting(op.frame.pts - r.ch.startPts, r.config.segmentDurationMs)
  {
    hide AccessUnitBytes, UnitPacketList, PsiTables, Window;
  }

  /** In front of the first late keyframe the segment is still running. */
  lemma RunsUntilLate(cfg: Config, ops: seq<Op>, i: nat, j: nat)
    requires Opening(cfg, ops, i) && i < j && Written(ops, j) && Late(cfg, ops, i, j)
    requires NoneLate(cfg, ops, i, j)
    ensures
      var r := Before(cfg, ops, j);
      && Bookkeeping(r) && Accepts(r.ch, ops[j].frame) && r.ch.current.Some?
      && r.ch.nextSequence == Number(cfg, ops, i) && r.ch.startPts == ops[i].frame.pts
      && r.config == Configured(cfg, ops[..j])
  {
    SegmentRuns(cfg, ops, i, j);
    BeforeBookkeeping(cfg, ops, j);
    FlagsBefore(cfg, ops, j);
    WrittenIsAccepted(cfg, ops, j);
    hide Before, Written, Late, Opening, Configured, Bookkeeping, Accepts, NoneLate;
  }

  /** The first late keyframe closes the segment and is the first frame of the next one. */
  lemma FirstLateOpens(cfg: Config, ops: seq<Op>, i: nat, j: nat)
    requires Opening(cfg, ops, i) && i < j && Written(ops, j) && Late(cfg, ops, i, j)
    requires NoneLate(cfg, ops, i, j)
    ensures Number(cfg, ops, j) == Number(cfg, ops, i) + 1 && Opening(cfg, ops, j)
  {
    RunsUntilLate(cfg, ops, i, j);
    BeforeNext(cfg, ops, j);
    StepRunning(Before(cfg, ops, j), ops[j]);
    assert Number(cfg, ops, j) == Before(cfg, ops, j + 1).ch.nextSequence;
    forall h: nat | h < j && Written(ops, h) ensures Number(cfg, ops, h) != Number(cfg, ops, j) {
      NumbersGrow(cfg, ops, h + 1, j);
      assert Number(cfg, ops, h) == Before(cfg, ops, h + 1).ch.nextSequence;
      hide Before, Step, Accepts, Configured, Bookkeeping;
    }
  }

  /**
    * A closed segment keeps its place in the history. Its duration is the time between its first frame and the keyframe
    * that closed it, or the target if that time is not positive, and it is never under the target.
    */
  lemma DurationOfClosed(cfg: Config, ops: seq<Op>, i: nat, j: nat)
    requires Opening(cfg, ops, i) && i < j && Written(ops, j) && Late(cfg, ops, i, j)
    requires NoneLate(cfg, ops, i, j)
    ensures
      var fs, k := Execute(cfg, ops).finalised, Number(cfg, ops, i);
      var target := Configured(cfg, ops[..j]).segmentDurationMs;
      var elapsed := ops[j].frame.pts - ops[i].frame.pts;
      && k < |fs| && fs[k].sequence == k && fs[k].duration * 1000.0 >= target as real
      && (if elapsed > 0 then fs[k].duration * 1000000.0 == elapsed as real
          else fs[k].duration * 1000.0 == target as real)
  {
    ClosedInHistory(cfg, ops, i, j);
    assert j < |ops| && ops[i].PushFrame? && ops[j].PushFrame?;
    hide Written, Opening, Execute, Configured, NoneLate, Number, Late;
    LateIsLong(cfg, ops, i, j);
    InSeconds(ops[j].frame.pts - ops[i].frame.pts, Configured(cfg, ops[..j]).segmentDurationMs);
  }

  lemma ClosedInHistory(cfg: Config, ops: seq<Op>, i: nat, j: nat)
    requires Opening(cfg, ops, i) && i < j && Written(ops, j) && Late(cfg, ops, i, j)
    requires NoneLate(cfg, ops, i, j)
    ensures
      var fs, k := Execute(cfg, ops).finalised, Number(cfg, ops, i);
      var elapsed := ops[j].frame.pts - ops[i].frame.pts;
      && k < |fs| && fs[k].sequence == k
      && fs[k].duration == Lasting(elapsed, Configured(cfg, ops[..j]).segmentDurationMs)
  {
    assert j < |ops| && ops[i].PushFrame? && ops[j].PushFrame?;
    hide Written, Opening, Execute, Configured, Step, Accepts, Before, NoneLate, Bookkeeping, Number, Late, Lasting;
    ClosedDuration(cfg, ops, i, j);
    HistoryKeeps(cfg, ops, j + 1, Number(cfg, ops, i));
  }

  lemma HistoryKeeps(cfg: Config, ops: seq<Op>, j: nat, k: nat)
    requires j <= |ops| && k < |Before(cfg, ops, j).finalised|
    ensures var fs := Execute(cfg, ops).finalised;
            k < |fs| && fs[k] == Before(cfg, ops, j).finalised[k] && fs[k].sequence == k
  {
    hide Execute, Before, Bookkeeping;
    NumbersGrow(cfg, ops, j, |ops|);
    BeforeBookkeeping(cfg, ops, |ops|);
    WholeRun(cfg, ops);
    BookkeepingNumbers(Execute(cfg, ops), k);
  }

  lemma WholeRun(cfg: Config, ops: seq<Op>)
    ensures Before(cfg, ops, |ops|) == Execute(cfg, ops)
  {
    assert ops[..|ops|] == ops;
  }

  lemma BookkeepingNumbers(r: Run, k: nat)
    requires Bookkeeping(r) && k < |r.finalised|
    ensures r.finalised[k].sequence == k
  {
  }

  lemma LateIsLong(cfg: Config, ops: seq<Op>, i: nat, j: nat)
    requires i < |ops| && ops[i].PushFrame? && j < |ops| && Late(cfg, ops, i, j)
    ensures IsKey(ops[j])
    ensures ops[j].frame.pts - ops[i].frame.pts >= 1000 * Configured(cfg, ops[..j]).segmentDurationMs
  {
    hide Configured;
  }

  lemma ClosedDuration(cfg: Config, ops: seq<Op>, i: nat, j: nat)
    requires Opening(cfg, ops, i) && i < j && Written(ops, j) && Late(cfg, ops, i, j)
    requires NoneLate(cfg, ops, i, j)
    ensures
      var fs, k := Before(cfg, ops, j + 1).finalised, Number(cfg, ops, i);
      var elapsed := ops[j].frame.pts - ops[i].frame.pts;
      && k < |fs| && fs[k].duration == Lasting(elapsed, Configured(cfg, ops[..j]).segmentDurationMs)
  {
    RunsUntilLate(cfg, ops, i, j);
    FirstLateOpens(cfg, ops, i, j);
    BeforeNext(cfg, ops, j);
    assert Number(cfg, ops, j) == Before(cfg, ops, j + 1).ch.nextSequence;
    hide Written, Opening, Execute, Configured, Step, Accepts, Before, NoneLate, Bookkeeping, Number, Late, Lasting;
    StepCloses(Before(cfg, ops, j), ops[j]);
  }

  lemma InSeconds(elapsed: int, target: int)
    ensures elapsed as real / 1000000.0 * 1000000.0 == elapsed as real
    ensures target as real / 1000.0 * 1000.0 == target as real
    ensures elapsed >= 1000 * target ==> elapsed as real / 1000000.0 * 1000.0 >= target as real
  {
  }

  // ---------- what each segment carries ----------

  /** The frames written while segment `k` was running. */
  ghost function FramesNumbered(cfg: Config, ops: seq<Op>, k: nat): seq<Frame>
    decreases |ops|
  {
    if ops == [] then []
    else
      var n := |ops| - 1;
      FramesNumbered(cfg, ops[..n], k)
      + (if Written(ops, n) && Number(cfg, ops, n) == k then [ops[n].frame] else [])
  }

  lemma {:induction false} GroupsAreNumbered(cfg: Config, ops: seq<Op>, k: nat)
    ensures FramesNumbered(cfg, ops, k) == if k < |Groups(cfg, ops)| then Groups(cfg, ops)[k] else []
    decreases |ops|
  {
    if ops != [] {
      var n := |ops| - 1;
      GroupsAreNumbered(cfg, ops[..n], k);
      NumberWithinGroups(cfg, ops);
      GroupsNext(cfg, ops);
      hide Groups, Written, Number;
    }
  }

  lemma GroupsNext(cfg: Config, ops: seq<Op>)
    requires ops != []
    ensures
      var n := |ops| - 1;
      var gs := Groups(cfg, ops[..n]);
      Groups(cfg, ops) == if Written(ops, n) then AddedTo(gs, Number(cfg, ops, n), ops[n].frame) else gs
  {
    var n := |ops| - 1;
    BeforeNext(cfg, ops, n);
    WrittenIsAccepted(cfg, ops, n);
    hide Written, Execute, Step, Accepts, AddedTo;
  }

  lemma NumberWithinGroups(cfg: Config, ops: seq<Op>)
    requires ops != []
    ensures Written(ops, |ops| - 1) ==> Number(cfg, ops, |ops| - 1) <= |Groups(cfg, ops[..|ops| - 1])|
  {
    var n := |ops| - 1;
    GroupsCounted(cfg, ops[..n]);
    BeforeNext(cfg, ops, n);
    BeforeBookkeeping(cfg, ops, n);
    WrittenIsAccepted(cfg, ops, n);
    StepRunning(Before(cfg, ops, n), ops[n]);
    hide Execute, Step, Accepts, Written, Groups, Bookkeeping;
  }

  lemma GroupsCounted(cfg: Config, ops: seq<Op>)
    ensures var ch := Execute(cfg, ops).ch;
            |Groups(cfg, ops)| == ch.nextSequence + (if ch.current.Some? then 1 else 0)
  {
    SegmentsHoldGroups(cfg, ops);
    RunInvariant(cfg, ops);
    hide Execute, Groups;
  }

  /** On every run each segment carries exactly the frames written while it was running, and opens with a keyframe. */
  lemma SegmentCarriesNumbered(cfg: Config, ops: seq<Op>, k: nat)
    requires k < |Streams(Execute(cfg, ops))|
    ensures var g := FramesNumbered(cfg, ops, k);
            Demux(Streams(Execute(cfg, ops))[k]) == Some(UnitsOf(g)) && g != [] && g[0].key
  {
    SegmentsHoldGroups(cfg, ops);
    GroupsAreNumbered(cfg, ops, k);
    hide Execute, Streams, Groups, FramesNumbered, Demux, UnitsOf;
  }

  // ---------- the channel object ----------

  /** A playlist's header fields and entries (sections 4.3.2.1 and 4.3.3 of RFC 8216). */
  datatype Playlist = Playlist(targetDuration: int, mediaSequence: nat, entries: seq<(real, nat)>)

  class HlsChannel {
    var config: Config
    var muxer: Muxer
    var segments: seq<Segment>
    var nextSequence: nat
    var current: Option<seq<byte>>
    var startPts: int
    var waiting: bool
    var active: bool

    ghost predicate Valid()
      reads this, muxer
    {
      muxer.videoCc < 16
    }

    ghost function View(): Channel
      reads this, muxer
    {
      Channel(segments, nextSequence, current, startPts, waiting, active, muxer.videoCc)
    }

    constructor (cfg: Config)
      ensures Valid() && fresh(muxer) && config == cfg && View() == FRESH
    {
      config, segments, nextSequence, current, startPts := cfg, [], 0, None, -1;
      waiting, active := true, true;
      muxer := new Muxer();
    }

    method UpdateConfig(cfg: Config)
      modifies this
      ensures config == cfg && muxer == old(muxer) && View() == old(View())
    {
      config := cfg;
    }

    method StopAll()
      modifies this
      ensures config == old(config) && muxer == old(muxer) && View() == old(View()).(active := false)
    {
      active := false;
    }

    method PushFrame(f: Frame)
      requires Valid()
      modifies this, muxer
      ensures Valid() && config == old(config) && muxer == old(muxer)
      ensures View() == Push(config, old(View()), f)
    {
      hide Append, Opened, ClosedSegment, Window;
      if !active {
        return;
      }
      if waiting {
        if !f.key {
          return;
        }
        waiting := false;
      }
      if f.key && current.Some? && startPts >= 0 {
        var elapsed := f.pts - startPts;
        var target := config.segmentDurationMs * 1000;
        if elapsed >= target {
          FinalizeSegment(f.pts);
        }
      }
      ghost var ready := old(View()).(waiting := false);
      assert View() == if Cuts(config, ready, f) then Finalize(config, ready, f.pts) else ready;
      WriteFrame(f);
    }

    /** Opens a segment if none is running and muxes the frame into it. */
    method WriteFrame(f: Frame)
      requires Valid()
      modifies this, muxer
      ensures Valid() && config == old(config) && muxer == old(muxer)
      ensures View() == Append(Opened(old(View()), f.pts), f)
    {
      hide AccessUnitBytes, UnitPacketList, PsiTables;
      if current.None? {
        startPts := f.pts;
        muxer.Reset();
        var psi := muxer.WritePsiTables();
        current := Some(psi);
      }
      var ts := muxer.WriteAccessUnit(f.data, f.pts, f.key);
      current := Some(current.value + ts);
    }

    method FinalizeSegment(endPts: int)
      requires Valid() && current.Some?
      modifies this
      ensures Valid() && config == old(config) && muxer == old(muxer)
      ensures View() == Finalize(config, old(View()), endPts)
    {
      hide AccessUnitBytes, UnitPacketList, PsiTables, Append, Opened, Window;
      var duration: real;
      if startPts >= 0 && endPts > startPts {
        duration := (endPts - startPts) as real / 1000000.0;
      } else {
        duration := config.segmentDurationMs as real / 1000.0;
      }
      segments := segments + [Segment(nextSequence, duration, current.value)];
      nextSequence := nextSequence + 1;
      TrimWindow();
      current := None;
      startPts := -1;
    }

    /** Drops segments from the front down to the configured number. */
    method TrimWindow()
      modifies this`segments
      ensures segments == Window(config, old(segments))
    {
      ghost var all := segments;
      while config.maxSegments >= 0 && |segments| > config.maxSegments
        invariant |segments| <= |all| && segments == all[|all| - |segments|..]
        invariant |segments| >= Min(|all|, if config.maxSegments >= 0 then config.maxSegments else |all|)
        decreases |segments|
      {
        segments := segments[1..];
      }
    }

    /** A segment by its number, if it is still in the window. */
    method GetSegment(sequence: nat) returns (data: Option<seq<byte>>)
      ensures data.Some? ==>
                exists k :: 0 <= k < |segments| && segments[k].sequence == sequence && data == Some(segments[k].data)
      ensures data.None? <==> forall k :: 0 <= k < |segments| ==> segments[k].sequence != sequence
    {
      for i := 0 to |segments|
        invariant forall k :: 0 <= k < i ==> segments[k].sequence != sequence
      {
        if segments[i].sequence == sequence {
          return Some(segments[i].data);
        }
      }
      return None;
    }

    /** None while there is no finished segment; otherwise the target is the least whole number above every entry. */
    method GeneratePlaylist() returns (playlist: Option<Playlist>)
      ensures playlist.None? <==> segments == []
      ensures playlist.Some? ==>
                && playlist.value.mediaSequence == segments[0].sequence
                && |playlist.value.entries| == |segments|
                && forall k :: 0 <= k < |segments| ==>
                     && playlist.value.entries[k] == (segments[k].duration, segments[k].sequence)
                     && segments[k].duration < playlist.value.targetDuration as real
      ensures playlist.Some? ==>
                && playlist.value.targetDuration >= 1
                && (playlist.value.targetDuration == 1
                    || exists k ::
                         0 <= k < |segments| && segments[k].duration >= playlist.value.targetDuration as real - 1.0)
    {
      if segments == [] {
        return None;
      }
      var longest, entries := 0.0, [];
      for i := 0 to |segments|
        invariant longest >= 0.0 && forall k :: 0 <= k < i ==> segments[k].duration <= longest
        invariant longest == 0.0 || exists k :: 0 <= k < i && segments[k].duration == longest
      {
        longest := if longest < segments[i].duration then segments[i].duration else longest;
      }
      for i := 0 to |segments|
        invariant |entries| == i
        invariant forall k :: 0 <= k < i ==> entries[k] == (segments[k].duration, segments[k].sequence)
      {
        entries := entries + [(segments[i].duration, segments[i].sequence)];
      }
      assert longest >= longest.Floor as real;
      return Some(Playlist(longest.Floor + 1, segments[0].sequence, entries));
    }
  }

  /** What `GetSegment` can serve on any run: number `k` is served exactly while it is in the window, unchanged. */
  lemma WindowServesHistory(r: Run, sequence: nat)
    requires Bookkeeping(r)
    ensures (exists k :: 0 <= k < |r.ch.segments| && r.ch.segments[k].sequence == sequence) <==>
            |r.finalised| - |r.ch.segments| <= sequence < |r.finalised|
    ensures forall k :: 0 <= k < |r.ch.segments| && r.ch.segments[k].sequence == sequence ==>
              sequence < |r.finalised| && r.ch.segments[k] == r.finalised[sequence]
  {
    var base := |r.finalised| - |r.ch.segments|;
    assert forall k :: 0 <= k < |r.ch.segments| ==> r.ch.segments[k] == r.finalised[base + k];
    if base <= sequence < |r.finalised| {
      assert r.ch.segments[sequence - base].sequence == sequence;
    }
  }
}
