/** Length-prefixed units and FLV tags (src/network/flv_stream/flv_muxer.cc). */
module FlvMuxer {
  import opened Bytes
  import opened Options
  import opened Sequences
  import opened AnnexB

  datatype Codec = H264 | H265 | UnknownCodec

  /** SPS and PPS (and VPS for H.265) travel in the headers, not with the samples. */
  predicate IsParameterSet(codec: Codec, u: seq<byte>) {
    u != [] && match codec
               case H264 => u[0] % 32 == 7 || u[0] % 32 == 8
               case H265 => 32 <= u[0] / 2 % 64 <= 34
               case UnknownCodec => false
  }

  /** The first bytes of parameter sets, with any bits around the type (Table 7-1 of ITU-T H.264 and of ITU-T H.265). */
  lemma ParameterSetBytes(u: seq<byte>)
    requires u != []
    ensures IsParameterSet(H264, u) <==>
            u[0] in {7, 8, 39, 40, 71, 72, 103, 104, 135, 136, 167, 168, 199, 200, 231, 232}
    ensures IsParameterSet(H265, u) <==> u[0] in {64, 65, 66, 67, 68, 69, 192, 193, 194, 195, 196, 197}
    ensures !IsParameterSet(UnknownCodec, u)
  {
  }

  function Samples(codec: Codec, us: seq<seq<byte>>): seq<seq<byte>> {
    Filter(us, (u: seq<byte>) => !IsParameterSet(codec, u))
  }

  /** Each unit behind its four-byte length, cut to 32 bits by the cast. */
  function Prefixed(us: seq<seq<byte>>): seq<byte> {
    if us == [] then [] else BE(4, |us[0]|) + us[0] + Prefixed(us[1..])
  }

  lemma {:induction false} PrefixedSnoc(us: seq<seq<byte>>, u: seq<byte>)
    ensures Prefixed(us + [u]) == Prefixed(us) + (BE(4, |u|) + u)
  {
    if us == [] {
      assert us + [u] == [u] && [u][1..] == [];
    } else {
      assert (us + [u])[1..] == us[1..] + [u];
      PrefixedSnoc(us[1..], u);
    }
  }

  lemma SamplesSnoc(codec: Codec, us: seq<seq<byte>>, u: seq<byte>)
    ensures Samples(codec, us + [u]) == Samples(codec, us) + (if IsParameterSet(codec, u) then [] else [u])
  {
    hide IsParameterSet;
    FilterSnoc(us, u, (u: seq<byte>) => !IsParameterSet(codec, u));
  }

  /** The loop of AnnexBToAvcc (H.264) and AnnexBToMp4 (either codec). */
  method ToLengthPrefixed(d: seq<byte>, codec: Codec) returns (avcc: seq<byte>)
    ensures avcc == Prefixed(Samples(codec, Units(d)))
  {
    hide *;
    var units := ParseAnnexB(d);
    avcc := [];
    NoSamples(codec);
    for i := 0 to |units|
      invariant avcc == Prefixed(Samples(codec, units[..i]))
    {
      assert units[..i + 1] == units[..i] + [units[i]];
      SamplesSnoc(codec, units[..i], units[i]);
      var keep := Keeps(codec, units[i]);
      if keep {
        PrefixedSnoc(Samples(codec, units[..i]), units[i]);
        avcc := avcc + (BE(4, |units[i]|) + units[i]);
      } else {
        assert Samples(codec, units[..i]) + [] == Samples(codec, units[..i]);
      }
    }
    assert units[..|units|] == units;
  }

  method Keeps(codec: Codec, u: seq<byte>) returns (keep: bool)
    ensures keep == !IsParameterSet(codec, u)
  {
    keep := !IsParameterSet(codec, u);
  }

  lemma NoSamples(codec: Codec)
    ensures Prefixed(Samples(codec, [])) == []
  {
  }

  /** A player's reading of length-prefixed units. */
  function Split(s: seq<byte>): Option<seq<seq<byte>>>
    decreases |s|
  {
    if s == [] then Some([])
    else if |s| < 4 then None
    else
      var n := FromBE(s[..4]);
      if |s| - 4 < n then None
      else
        match Split(s[4 + n..])
        case None => None
        case Some(us) => Some([s[4..4 + n]] + us)
  }

  lemma SplitOne(u: seq<byte>, rest: seq<byte>)
    requires |u| < 0x1_0000_0000
    ensures var s := BE(4, |u|) + u + rest;
            Split(s) == match Split(rest) case None => None case Some(us) => Some([u] + us)
  {
    var s := BE(4, |u|) + u + rest;
    Widths();
    FromBEOfBE(4, |u|);
    assert s[..4] == BE(4, |u|) && s[4..4 + |u|] == u && s[4 + |u|..] == rest;
  }

  /** Splitting what the muxer wrote gives back its samples. */
  lemma {:induction false} SplitInvertsPrefixed(us: seq<seq<byte>>)
    requires forall k :: 0 <= k < |us| ==> |us[k]| < 0x1_0000_0000
    ensures Split(Prefixed(us)) == Some(us)
  {
    if us != [] {
      SplitInvertsPrefixed(us[1..]);
      SplitOne(us[0], Prefixed(us[1..]));
      assert [us[0]] + us[1..] == us;
    }
  }

  lemma {:induction false} UnitsFromShort(d: seq<byte>, s: nat)
    requires s <= |d|
    ensures forall u :: u in UnitsFrom(d, s) ==> |u| <= |d|
    decreases |d| - s
  {
    hide CodeLen;
    var j := Next(d, s);
    if j < |d| {
      UnitsFromShort(d, j + CodeLen(d, j));
    }
  }

  lemma SamplesShort(codec: Codec, d: seq<byte>)
    ensures forall u :: u in Samples(codec, Units(d)) ==> |u| <= |d| && u != []
  {
    UnitsShort(d);
    hide Units, IsParameterSet;
  }

  lemma UnitsShort(d: seq<byte>)
    ensures forall u :: u in Units(d) ==> |u| <= |d| && u != []
  {
    var j := Next(d, 0);
    if j < |d| {
      var s := j + CodeLen(d, j);
      UnitsFromShort(d, s);
      hide UnitsFrom, CodeLen;
    }
  }

  /** Any access unit under 4 GiB: the player gets exactly its units that are not parameter sets, in order. */
  lemma AvccCarriesSamples(codec: Codec, d: seq<byte>)
    requires |d| < 0x1_0000_0000
    ensures Split(Prefixed(Samples(codec, Units(d)))) == Some(Samples(codec, Units(d)))
  {
    SamplesShort(codec, d);
    hide *;
    SplitInvertsPrefixed(Samples(codec, Units(d)));
  }

  // ---------- tags ----------

  datatype Tag = Tag(kind: byte, timestamp: nat, data: seq<byte>)

  /** Kind, size, low 24 bits of the time stamp, its top byte, stream id. */
  function TagHeader(kind: byte, size: nat, low: nat, high: byte): (h: seq<byte>)
    ensures |h| == 11
  {
    [kind] + BE(3, size) + BE(3, low) + [high] + [0, 0, 0]
  }

  function TagBytes(kind: byte, data: seq<byte>, low: nat, high: byte): (tag: seq<byte>)
    ensures |tag| == 15 + |data|
  {
    TagHeader(kind, |data|, low, high) + data + BE(4, 11 + |data|)
  }

  function BuildFlvTag(kind: byte, data: seq<byte>, timestampMs: int): (tag: seq<byte>)
    ensures |tag| == 15 + |data|
  {
    var ts := timestampMs % 0x1_0000_0000;
    TagBytes(kind, data, ts % 0x100_0000, ts / 0x100_0000)
  }

  /** A reader that takes one tag and checks both of its length fields. */
  function ParseTag(s: seq<byte>): Option<Tag> {
    if |s| < 15 then None
    else
      var n := FromBE(s[1..4]);
      if |s| != 15 + n || FromBE(s[11 + n..]) != 11 + n || s[8..11] != [0, 0, 0] then None
      else Some(Tag(s[0], FromBE(s[4..7]) + s[7] as int * 0x100_0000, s[11..11 + n]))
  }

  lemma HeaderFields(kind: byte, size: nat, low: nat, high: byte)
    ensures
      var h := TagHeader(kind, size, low, high);
      && h[0] == kind && h[1..4] == BE(3, size) && h[4..7] == BE(3, low) && h[7] == high && h[8..] == [0, 0, 0]
  {
    hide BE;
  }

  lemma TagFields(kind: byte, data: seq<byte>, low: nat, high: byte)
    ensures
      var s := TagBytes(kind, data, low, high);
      && s[0] == kind && s[1..4] == BE(3, |data|) && s[4..7] == BE(3, low) && s[7] == high
      && s[8..11] == [0, 0, 0] && s[11..11 + |data|] == data && s[11 + |data|..] == BE(4, 11 + |data|)
  {
    HeaderFields(kind, |data|, low, high);
    hide BE, TagHeader;
    var h, f := TagHeader(kind, |data|, low, high), BE(4, 11 + |data|);
    SliceMiddle(h, data, f);
    assert h + data + f == h + (data + f);
    SliceFront(h, data + f, 1, 4);
    SliceFront(h, data + f, 4, 7);
    SliceFront(h, data + f, 8, 11);
    assert h[8..11] == h[8..];
  }

  lemma TagReads(kind: byte, data: seq<byte>, low: nat, high: byte)
    requires |data| < 0x100_0000 && low < 0x100_0000
    ensures ParseTag(TagBytes(kind, data, low, high)) == Some(Tag(kind, low + high as int * 0x100_0000, data))
  {
    hide TagBytes, BE, FromBE, Pow256;
    TagFields(kind, data, low, high);
    Widths();
    FromBEOfBE(3, |data|);
    FromBEOfBE(3, low);
    FromBEOfBE(4, 11 + |data|);
  }

  lemma TagTooBig(kind: byte, data: seq<byte>, low: nat, high: byte)
    requires |data| >= 0x100_0000
    ensures ParseTag(TagBytes(kind, data, low, high)) == None
  {
    hide TagBytes, BE, FromBE, Pow256;
    TagFields(kind, data, low, high);
    Widths();
    FieldHoldsIffFits(3, |data|);
  }

  /** A tag reads back, with its time stamp modulo 2^32, exactly when its data fits the 24-bit size field. */
  lemma TagRoundTripIff(kind: byte, data: seq<byte>, timestampMs: int)
    ensures ParseTag(BuildFlvTag(kind, data, timestampMs)) == Some(Tag(kind, timestampMs % 0x1_0000_0000, data))
            <==> |data| < 0x100_0000
  {
    hide TagBytes, ParseTag;
    var ts := timestampMs % 0x1_0000_0000;
    if |data| < 0x100_0000 {
      TagReads(kind, data, ts % 0x100_0000, ts / 0x100_0000);
    } else {
      TagTooBig(kind, data, ts % 0x100_0000, ts / 0x100_0000);
    }
  }

  /** The body of a video tag: frame type and codec, packet type, composition time, samples. */
  function VideoBody(samples: seq<byte>, key: bool): seq<byte> {
    [if key then 0x17 else 0x27, 1, 0, 0, 0] + samples
  }

  /** The head of H.264 samples that are shown when decoded: whether they are a keyframe (1) or not (2). */
  function ReadVideoHeader(h: seq<byte>): Option<bool>
    requires |h| == 5
  {
    if h[0] % 16 != 7 || h[0] / 16 !in {1, 2} || h[1] != 1 || FromBE(h[2..]) != 0 then None else Some(h[0] / 16 == 1)
  }

  lemma HeaderReads(key: bool)
    ensures ReadVideoHeader([if key then 0x17 else 0x27, 1, 0, 0, 0]) == Some(key)
  {
    var h: seq<byte> := [if key then 0x17 else 0x27, 1, 0, 0, 0];
    assert h[2..] == [0, 0, 0];
    assert FromBE([0, 0, 0]) == 0 by {
      assert [0, 0, 0][..2] == [0, 0] && [0, 0][..1] == [0] && [0][..0] == [];
    }
  }

  /** Nothing is sent for an access unit without samples. */
  method MakeVideoTag(d: seq<byte>, timestampMs: int, key: bool) returns (tag: seq<byte>)
    ensures var samples := Prefixed(Samples(H264, Units(d)));
            tag == if samples == [] then [] else BuildFlvTag(9, VideoBody(samples, key), timestampMs)
  {
    hide Samples, Prefixed, Units;
    var samples := ToLengthPrefixed(d, H264);
    if samples == [] {
      return [];
    }
    var body := [if key then 0x17 else 0x27];
    body := body + [1];
    body := body + [0, 0, 0];
    body := body + samples;
    assert body == VideoBody(samples, key);
    tag := BuildFlvTag(9, body, timestampMs);
  }

  lemma PrefixedEmptyIff(us: seq<seq<byte>>)
    ensures Prefixed(us) == [] <==> us == []
  {
  }

  /**
    * From access unit to player: no tag is made exactly when every unit is a parameter set; otherwise the tag reads
    * back with all other units, in order, if its body fits 24 bits.
    */
  lemma VideoTagCarriesSamples(d: seq<byte>, timestampMs: int, key: bool)
    requires |d| < 0x1_0000_0000
    ensures
      var units := Samples(H264, Units(d));
      var body := VideoBody(Prefixed(units), key);
      && (Prefixed(units) == [] <==> forall u :: u in Units(d) ==> IsParameterSet(H264, u))
      && (Prefixed(units) != [] && |body| < 0x100_0000 ==>
            var r := ParseTag(BuildFlvTag(9, body, timestampMs));
            && r.Some? && r.value.kind == 9 && r.value.timestamp == timestampMs % 0x1_0000_0000
            && |r.value.data| >= 5 && ReadVideoHeader(r.value.data[..5]) == Some(key)
            && Split(r.value.data[5..]) == Some(units))
  {
    var units := Samples(H264, Units(d));
    var body := VideoBody(Prefixed(units), key);
    PrefixedEmptyIff(units);
    NoSamplesIff(H264, Units(d));
    TagRoundTripIff(9, body, timestampMs);
    AvccCarriesSamples(H264, d);
    HeaderReads(key);
    hide ReadVideoHeader, FromBE;
    hide ParseTag, BuildFlvTag, Split, Samples, Units, Prefixed, IsParameterSet;
    assert body[..5] == [if key then 0x17 else 0x27, 1, 0, 0, 0];
    assert body[5..] == Prefixed(units);
  }

  lemma NoSamplesIff(codec: Codec, us: seq<seq<byte>>)
    ensures Samples(codec, us) == [] <==> forall u :: u in us ==> IsParameterSet(codec, u)
  {
    hide IsParameterSet;
    var kept := Samples(codec, us);
    if kept != [] {
      assert kept[0] in kept;
    }
  }
}
