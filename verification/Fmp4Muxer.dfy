/** Initialisation and media segments of fragmented MP4 (src/network/media_stream/fmp4_muxer.cc). */
module Fmp4Muxer {
  import opened Bytes
  import opened Options
  import opened Sequences
  import opened AnnexB
  import opened Boxes
  import opened FlvMuxer

  function Zeros(n: nat): (z: seq<byte>)
    ensures |z| == n
  {
    seq(n, _ => 0)
  }

  /** Version and flags in front of the fields. */
  function FullPayload(version: byte, flags: nat, fields: seq<byte>): (p: seq<byte>)
    ensures |p| == 4 + |fields|
  {
    [version] + BE(3, flags) + fields
  }

  function MakeFullBox(code: u32, version: byte, flags: nat, fields: seq<byte>): (box: seq<byte>)
    ensures |box| == 12 + |fields|
  {
    MakeBox(code, FullPayload(version, flags, fields))
  }

  // ---------- the initialisation segment ----------

  function Brands(): seq<byte> {
    BE(4, 0x69736f6d) + BE(4, 0x200) + BE(4, 0x69736f6d) + BE(4, 0x69736f35) + BE(4, 0x69736f36) + BE(4, 0x6d703431)
  }

  function Matrix(): (m: seq<byte>)
    ensures |m| == 36
  {
    BE(4, 0x10000) + Zeros(12) + BE(4, 0x10000) + Zeros(12) + BE(4, 0x4000_0000)
  }

  const TIMESCALE: u32 := 90000

  function MvhdFields(): seq<byte> {
    Zeros(8) + BE(4, TIMESCALE) + Zeros(4) + BE(4, 0x10000) + BE(2, 0x100) + Zeros(10) + Matrix() + Zeros(24) + BE(4, 2)
  }

  function TkhdFields(width: u16, height: u16): seq<byte> {
    Zeros(8) + BE(4, 1) + Zeros(8) + Zeros(8) + Zeros(8) + Matrix() + BE(4, width * 0x1_0000) + BE(4, height * 0x1_0000)
  }

  function MdhdFields(): seq<byte> {
    Zeros(8) + BE(4, TIMESCALE) + Zeros(4) + BE(2, 0x55C4) + Zeros(2)
  }

  function HdlrFields(): seq<byte> {
    Zeros(4) + BE(4, 0x76696465) + Zeros(12)
      + [0x56, 0x69, 0x64, 0x65, 0x6f, 0x48, 0x61, 0x6e, 0x64, 0x6c, 0x65, 0x72, 0]
  }

  function MakeMvhd(): seq<byte> { MakeFullBox(MVHD, 0, 0, MvhdFields()) }
  function MakeTkhd(width: u16, height: u16): seq<byte> { MakeFullBox(TKHD, 0, 3, TkhdFields(width, height)) }
  function MakeMdhd(): seq<byte> { MakeFullBox(MDHD, 0, 0, MdhdFields()) }
  function MakeHdlr(): seq<byte> { MakeFullBox(HDLR, 0, 0, HdlrFields()) }
  function MakeVmhd(): seq<byte> { MakeFullBox(VMHD, 0, 1, Zeros(8)) }
  function MakeDinf(): seq<byte> { MakeBox(DINF, MakeFullBox(DREF, 0, 0, BE(4, 1) + MakeFullBox(URL, 0, 1, []))) }

  function MakeStbl(stsd: seq<byte>): seq<byte> {
    MakeBox(STBL, stsd + MakeFullBox(STTS, 0, 0, BE(4, 0)) + MakeFullBox(STSC, 0, 0, BE(4, 0)) +
                  MakeFullBox(STSZ, 0, 0, BE(4, 0) + BE(4, 0)) + MakeFullBox(STCO, 0, 0, BE(4, 0)))
  }

  function MakeMinf(stsd: seq<byte>): seq<byte> { MakeBox(MINF, MakeVmhd() + MakeDinf() + MakeStbl(stsd)) }
  function MakeMdia(stsd: seq<byte>): seq<byte> { MakeBox(MDIA, MakeMdhd() + MakeHdlr() + MakeMinf(stsd)) }

  function MakeTrak(width: u16, height: u16, stsd: seq<byte>): seq<byte> {
    MakeBox(TRAK, MakeTkhd(width, height) + MakeMdia(stsd))
  }

  function TrexFields(): seq<byte> { BE(4, 1) + BE(4, 1) + Zeros(12) }
  function MakeMvex(): seq<byte> { MakeBox(MVEX, MakeFullBox(TREX, 0, 0, TrexFields())) }

  function MakeMoov(width: u16, height: u16, stsd: seq<byte>): seq<byte> {
    MakeBox(MOOV, MakeMvhd() + MakeTrak(width, height, stsd) + MakeMvex())
  }

  function AvcRecord(sps: seq<byte>, pps: seq<byte>): seq<byte>
    requires |sps| >= 4
  {
    [1, sps[1], sps[2], sps[3], 0xFF, 0xE1] + BE(2, |sps|) + sps + [1] + BE(2, |pps|) + pps
  }

  /** The profile fields are unpacked from bytes 2 to 13 of the SPS and packed again unchanged. */
  function HevcProfile(sps: seq<byte>): (p: seq<byte>)
    ensures |p| == 12
  {
    if |sps| > 15 then sps[2..14] else Zeros(12)
  }

  function HevcArray(kind: byte, nal: seq<byte>): (a: seq<byte>)
    ensures |a| == 5 + |nal|
  {
    [kind] + BE(2, 1) + BE(2, |nal|) + nal
  }

  function HevcRecord(vps: seq<byte>, sps: seq<byte>, pps: seq<byte>): seq<byte> {
    [1] + HevcProfile(sps) + [0xF0, 0, 0xFC, 0xFC, 0xF8, 0xF8, 0, 0, 0x0F, 3] +
    HevcArray(0x20, vps) + HevcArray(0x21, sps) + HevcArray(0x22, pps)
  }

  /** The fields of a visual sample entry. */
  function SampleEntry(width: u16, height: u16): (h: seq<byte>)
    ensures |h| == 78
  {
    Zeros(6) + BE(2, 1) + Zeros(16) + BE(2, width) + BE(2, height) + BE(4, 0x48_0000) + BE(4, 0x48_0000) +
    BE(4, 0) + BE(2, 1) + Zeros(32) + BE(2, 0x18) + BE(2, 0xFFFF)
  }

  /** The sample description with its one entry, which holds the decoder configuration. */
  function MakeStsd(entry: u32, width: u16, height: u16, config: u32, record: seq<byte>): seq<byte> {
    MakeFullBox(STSD, 0, 0, BE(4, 1) + MakeBox(entry, SampleEntry(width, height) + MakeBox(config, record)))
  }

  function MakeInit(width: u16, height: u16, stsd: seq<byte>): seq<byte> {
    MakeBox(FTYP, Brands()) + MakeMoov(width, height, stsd)
  }

  function MakeH264InitSegment(sps: seq<byte>, pps: seq<byte>, width: u16, height: u16): seq<byte> {
    if |sps| < 4 || pps == [] then []
    else MakeInit(width, height, MakeStsd(AVC1, width, height, AVCC, AvcRecord(sps, pps)))
  }

  function MakeH265InitSegment(vps: seq<byte>, sps: seq<byte>, pps: seq<byte>, width: u16, height: u16): seq<byte> {
    if vps == [] || sps == [] || pps == [] then []
    else MakeInit(width, height, MakeStsd(HEV1, width, height, HVCC, HevcRecord(vps, sps, pps)))
  }

  // ---------- the trees ----------

  function Full(code: u32, version: byte, flags: nat, fields: seq<byte>): Box {
    Leaf(code, FullPayload(version, flags, fields))
  }

  function StsdTree(entry: u32, width: u16, height: u16, config: u32, record: seq<byte>): Box {
    Node(STSD, FullPayload(0, 0, BE(4, 1)), [Node(entry, SampleEntry(width, height), [Leaf(config, record)])])
  }

  function DinfTree(): Box {
    Node(DINF, [], [Node(DREF, FullPayload(0, 0, BE(4, 1)), [Full(URL, 0, 1, [])])])
  }

  function StblTree(stsd: Box): Box {
    Node(STBL, [], [stsd, Full(STTS, 0, 0, BE(4, 0)), Full(STSC, 0, 0, BE(4, 0)),
                    Full(STSZ, 0, 0, BE(4, 0) + BE(4, 0)), Full(STCO, 0, 0, BE(4, 0))])
  }

  function MinfTree(stsd: Box): Box { Node(MINF, [], [Full(VMHD, 0, 1, Zeros(8)), DinfTree(), StblTree(stsd)]) }

  function MdiaTree(stsd: Box): Box {
    Node(MDIA, [], [Full(MDHD, 0, 0, MdhdFields()), Full(HDLR, 0, 0, HdlrFields()), MinfTree(stsd)])
  }

  function TrakTree(width: u16, height: u16, stsd: Box): Box {
    Node(TRAK, [], [Full(TKHD, 0, 3, TkhdFields(width, height)), MdiaTree(stsd)])
  }

  function MvexTree(): Box { Node(MVEX, [], [Full(TREX, 0, 0, TrexFields())]) }

  function MoovTree(width: u16, height: u16, stsd: Box): Box {
    Node(MOOV, [], [Full(MVHD, 0, 0, MvhdFields()), TrakTree(width, height, stsd), MvexTree()])
  }

  function InitTree(width: u16, height: u16, stsd: Box): seq<Box> {
    [Leaf(FTYP, Brands()), MoovTree(width, height, stsd)]
  }

  // ---------- the builders write the trees ----------

  lemma SerializeOf1(a: Box)
    ensures SerializeAll([a]) == Serialize(a)
  {
    hide Serialize;
    assert [a][1..] == [];
  }

  lemma SerializeOf2(a: Box, b: Box)
    ensures SerializeAll([a, b]) == Serialize(a) + Serialize(b)
  {
    hide Serialize;
    assert [a, b][1..] == [b];
    SerializeOf1(b);
  }

  lemma SerializeOf3(a: Box, b: Box, c: Box)
    ensures SerializeAll([a, b, c]) == Serialize(a) + Serialize(b) + Serialize(c)
  {
    hide Serialize;
    assert [a, b, c][1..] == [b, c];
    SerializeOf2(b, c);
  }

  lemma StsdWrites(entry: u32, width: u16, height: u16, config: u32, record: seq<byte>)
    ensures Serialize(StsdTree(entry, width, height, config, record)) == MakeStsd(entry, width, height, config, record)
  {
    hide BE, MakeBox, SampleEntry, SerializeAll;
    var leaf := Leaf(config, record);
    var node := Node(entry, SampleEntry(width, height), [leaf]);
    SerializeOf1(leaf);
    SerializeOf1(node);
    assert Serialize(node) == MakeBox(entry, SampleEntry(width, height) + MakeBox(config, record));
    FullSplit(0, 0, BE(4, 1), Serialize(node));
  }

  lemma FullSplit(version: byte, flags: nat, a: seq<byte>, b: seq<byte>)
    ensures FullPayload(version, flags, a + b) == FullPayload(version, flags, a) + b
  {
    hide BE;
  }

  lemma DinfWrites()
    ensures Serialize(DinfTree()) == MakeDinf()
  {
    hide BE, MakeBox, SerializeAll, FullPayload;
    var url := Full(URL, 0, 1, []);
    var dref := Node(DREF, FullPayload(0, 0, BE(4, 1)), [url]);
    SerializeOf1(url);
    SerializeOf1(dref);
    FullSplit(0, 0, BE(4, 1), Serialize(url));
    assert [] + Serialize(dref) == Serialize(dref);
  }

  lemma StblWrites(stsd: Box)
    ensures Serialize(StblTree(stsd)) == MakeStbl(Serialize(stsd))
  {
    hide BE, MakeBox, SerializeAll, FullPayload;
    var a, b, c, d := Full(STTS, 0, 0, BE(4, 0)), Full(STSC, 0, 0, BE(4, 0)),
                      Full(STSZ, 0, 0, BE(4, 0) + BE(4, 0)), Full(STCO, 0, 0, BE(4, 0));
    assert [stsd, a, b, c, d] == [stsd, a] + [b, c, d];
    SerializeAppend([stsd, a], [b, c, d]);
    SerializeOf2(stsd, a);
    SerializeOf3(b, c, d);
    var all := SerializeAll([stsd, a, b, c, d]);
    assert [] + all == all;
    assert all == Serialize(stsd) + Serialize(a) + Serialize(b) + Serialize(c) + Serialize(d);
  }

  lemma NodeOf(code: u32, children: seq<Box>)
    ensures Serialize(Node(code, [], children)) == MakeBox(code, SerializeAll(children))
  {
    hide MakeBox, SerializeAll;
    assert [] + SerializeAll(children) == SerializeAll(children);
  }

  lemma MinfWrites(stsd: Box)
    ensures Serialize(MinfTree(stsd)) == MakeMinf(Serialize(stsd))
  {
    StblWrites(stsd);
    DinfWrites();
    var vmhd := Full(VMHD, 0, 1, Zeros(8));
    assert Serialize(vmhd) == MakeVmhd();
    hide BE, MakeBox, SerializeAll, Serialize, DinfTree, StblTree, MakeDinf, MakeStbl, MakeVmhd, FullPayload;
    NodeOf(MINF, [vmhd, DinfTree(), StblTree(stsd)]);
    SerializeOf3(vmhd, DinfTree(), StblTree(stsd));
  }

  lemma MdiaWrites(stsd: Box)
    ensures Serialize(MdiaTree(stsd)) == MakeMdia(Serialize(stsd))
  {
    MinfWrites(stsd);
    var mdhd, hdlr := Full(MDHD, 0, 0, MdhdFields()), Full(HDLR, 0, 0, HdlrFields());
    assert Serialize(mdhd) == MakeMdhd() && Serialize(hdlr) == MakeHdlr();
    hide BE, MakeBox, SerializeAll, Serialize, MinfTree, MakeMinf, MakeMdhd, MakeHdlr, MdhdFields, HdlrFields,
         FullPayload;
    NodeOf(MDIA, [mdhd, hdlr, MinfTree(stsd)]);
    SerializeOf3(mdhd, hdlr, MinfTree(stsd));
  }

  lemma TrakWrites(width: u16, height: u16, stsd: Box)
    ensures Serialize(TrakTree(width, height, stsd)) == MakeTrak(width, height, Serialize(stsd))
  {
    MdiaWrites(stsd);
    var tkhd := Full(TKHD, 0, 3, TkhdFields(width, height));
    assert Serialize(tkhd) == MakeTkhd(width, height);
    hide BE, MakeBox, SerializeAll, Serialize, MdiaTree, MakeMdia, MakeTkhd, TkhdFields, FullPayload;
    NodeOf(TRAK, [tkhd, MdiaTree(stsd)]);
    SerializeOf2(tkhd, MdiaTree(stsd));
  }

  lemma MvexWrites()
    ensures Serialize(MvexTree()) == MakeMvex()
  {
    hide BE, MakeBox, SerializeAll, TrexFields, FullPayload;
    var trex := Full(TREX, 0, 0, TrexFields());
    NodeOf(MVEX, [trex]);
    SerializeOf1(trex);
  }

  lemma MoovWrites(width: u16, height: u16, stsd: Box)
    ensures Serialize(MoovTree(width, height, stsd)) == MakeMoov(width, height, Serialize(stsd))
  {
    TrakWrites(width, height, stsd);
    MvexWrites();
    var mvhd := Full(MVHD, 0, 0, MvhdFields());
    assert Serialize(mvhd) == MakeMvhd();
    hide BE, MakeBox, SerializeAll, Serialize, TrakTree, MakeTrak, MvexTree, MakeMvex, MakeMvhd, MvhdFields,
         FullPayload;
    NodeOf(MOOV, [mvhd, TrakTree(width, height, stsd), MvexTree()]);
    SerializeOf3(mvhd, TrakTree(width, height, stsd), MvexTree());
  }

  lemma InitWrites(width: u16, height: u16, stsd: Box)
    ensures SerializeAll(InitTree(width, height, stsd)) == MakeInit(width, height, Serialize(stsd))
  {
    MoovWrites(width, height, stsd);
    var ftyp := Leaf(FTYP, Brands());
    assert Serialize(ftyp) == MakeBox(FTYP, Brands());
    hide BE, MakeBox, SerializeAll, Serialize, MoovTree, MakeMoov, Brands;
    SerializeOf2(ftyp, MoovTree(width, height, stsd));
  }

  // ---------- reading the initialisation segment ----------

  lemma ShapedOf1(a: Box)
    ensures AllShaped([a]) <==> Shaped(a)
  {
    hide Shaped;
    assert [a][1..] == [];
  }

  lemma ShapedOf2(a: Box, b: Box)
    ensures AllShaped([a, b]) <==> Shaped(a) && Shaped(b)
  {
    hide Shaped;
    assert [a, b][1..] == [b];
    ShapedOf1(b);
  }

  lemma ShapedOf3(a: Box, b: Box, c: Box)
    ensures AllShaped([a, b, c]) <==> Shaped(a) && Shaped(b) && Shaped(c)
  {
    hide Shaped;
    assert [a, b, c][1..] == [b, c];
    ShapedOf2(b, c);
  }

  lemma StblShaped(stsd: Box)
    requires Shaped(stsd)
    ensures Shaped(StblTree(stsd))
  {
    hide BE, AllShaped;
    var a, b, c, d := Full(STTS, 0, 0, BE(4, 0)), Full(STSC, 0, 0, BE(4, 0)),
                      Full(STSZ, 0, 0, BE(4, 0) + BE(4, 0)), Full(STCO, 0, 0, BE(4, 0));
    assert Shaped(a) && Shaped(b) && Shaped(c) && Shaped(d);
    hide Shaped;
    AllShapedCons(stsd, [a, b, c, d]);
    AllShapedCons(a, [b, c, d]);
    ShapedOf3(b, c, d);
    assert [stsd] + [a, b, c, d] == [stsd, a, b, c, d] && [a] + [b, c, d] == [a, b, c, d];
    NodeShaped(STBL, [], [stsd, a, b, c, d]);
  }

  lemma AllShapedCons(a: Box, bs: seq<Box>)
    ensures AllShaped([a] + bs) <==> Shaped(a) && AllShaped(bs)
  {
    assert ([a] + bs)[1..] == bs;
  }

  lemma NodeShaped(code: u32, head: seq<byte>, children: seq<Box>)
    requires HeadLength(code) == Some(|head|) && AllShaped(children)
    ensures Shaped(Node(code, head, children))
  {
  }

  lemma DinfShaped()
    ensures Shaped(DinfTree())
  {
    hide BE, AllShaped;
    var url := Full(URL, 0, 1, []);
    var dref := Node(DREF, FullPayload(0, 0, BE(4, 1)), [url]);
    ShapedOf1(url);
    ShapedOf1(dref);
  }

  lemma MoovShaped(width: u16, height: u16, stsd: Box)
    requires Shaped(stsd)
    ensures Shaped(MoovTree(width, height, stsd))
  {
    StblShaped(stsd);
    DinfShaped();
    var vmhd, mdhd, hdlr := Full(VMHD, 0, 1, Zeros(8)), Full(MDHD, 0, 0, MdhdFields()), Full(HDLR, 0, 0, HdlrFields());
    var tkhd, mvhd, trex := Full(TKHD, 0, 3, TkhdFields(width, height)), Full(MVHD, 0, 0, MvhdFields()),
        Full(TREX, 0, 0, TrexFields());
    LeavesShaped(width, height);
    hide BE, AllShaped, Shaped, StblTree, DinfTree, Full, MdhdFields, HdlrFields, TkhdFields, MvhdFields, TrexFields;
    ShapedOf3(vmhd, DinfTree(), StblTree(stsd));
    NodeShaped(MINF, [], [vmhd, DinfTree(), StblTree(stsd)]);
    ShapedOf3(mdhd, hdlr, MinfTree(stsd));
    NodeShaped(MDIA, [], [mdhd, hdlr, MinfTree(stsd)]);
    ShapedOf2(tkhd, MdiaTree(stsd));
    NodeShaped(TRAK, [], [tkhd, MdiaTree(stsd)]);
    ShapedOf1(trex);
    NodeShaped(MVEX, [], [trex]);
    ShapedOf3(mvhd, TrakTree(width, height, stsd), MvexTree());
    NodeShaped(MOOV, [], [mvhd, TrakTree(width, height, stsd), MvexTree()]);
  }

  lemma LeavesShaped(width: u16, height: u16)
    ensures Shaped(Full(VMHD, 0, 1, Zeros(8))) && Shaped(Full(MDHD, 0, 0, MdhdFields()))
            && Shaped(Full(HDLR, 0, 0, HdlrFields()))
    ensures Shaped(Full(TKHD, 0, 3, TkhdFields(width, height))) && Shaped(Full(MVHD, 0, 0, MvhdFields()))
    ensures Shaped(Full(TREX, 0, 0, TrexFields()))
  {
    hide BE, FullPayload, MdhdFields, HdlrFields, TkhdFields, MvhdFields, TrexFields;
  }

  lemma StsdShaped(entry: u32, width: u16, height: u16, config: u32, record: seq<byte>)
    requires (entry == AVC1 && config == AVCC) || (entry == HEV1 && config == HVCC)
    ensures Shaped(StsdTree(entry, width, height, config, record))
  {
    hide BE, AllShaped;
    var leaf := Leaf(config, record);
    var node := Node(entry, SampleEntry(width, height), [leaf]);
    ShapedOf1(leaf);
    ShapedOf1(node);
  }

  /** The box at a path of child numbers. */
  function At(b: Box, path: seq<nat>): Option<Box>
    decreases |path|
  {
    if path == [] then Some(b)
    else if b.Node? && path[0] < |b.children| then At(b.children[path[0]], path[1..])
    else None
  }

  /** An initialisation segment reads back as its tree, whatever its parameter sets, while it fits 32 bits. */
  lemma InitParses(width: u16, height: u16, entry: u32, config: u32, record: seq<byte>)
    requires (entry == AVC1 && config == AVCC) || (entry == HEV1 && config == HVCC)
    requires |MakeInit(width, height, MakeStsd(entry, width, height, config, record))| < 0x1_0000_0000
    ensures ParseBoxes(MakeInit(width, height, MakeStsd(entry, width, height, config, record))) ==
            Some(InitTree(width, height, StsdTree(entry, width, height, config, record)))
  {
    var stsd := StsdTree(entry, width, height, config, record);
    StsdWrites(entry, width, height, config, record);
    InitWrites(width, height, stsd);
    StsdShaped(entry, width, height, config, record);
    MoovShaped(width, height, stsd);
    var ftyp := Leaf(FTYP, Brands());
    assert Shaped(ftyp);
    hide BE, AllShaped, Shaped, ParseBoxes, SerializeAll, MoovTree, MakeInit, MakeStsd, StsdTree, Brands;
    ShapedOf2(ftyp, MoovTree(width, height, stsd));
    ParseAll(InitTree(width, height, stsd));
  }

  /** Where the sample description is in the movie box. */
  lemma SampleDescriptionAt(width: u16, height: u16, stsd: Box)
    ensures At(MoovTree(width, height, stsd), [1, 1, 2, 2, 0]) == Some(stsd)
  {
    hide BE, MvhdFields, TkhdFields, MdhdFields, HdlrFields, TrexFields, FullPayload, DinfTree;
    assert [1, 1, 2, 2, 0][1..] == [1, 2, 2, 0] && [1, 2, 2, 0][1..] == [2, 2, 0];
    assert [2, 2, 0][1..] == [2, 0] && [2, 0][1..] == [0] && [0][1..] == [];
    assert At(StblTree(stsd), [0]) == At(stsd, []);
    assert At(MinfTree(stsd), [2, 0]) == At(StblTree(stsd), [0]);
    assert At(MdiaTree(stsd), [2, 2, 0]) == At(MinfTree(stsd), [2, 0]);
    assert At(TrakTree(width, height, stsd), [1, 2, 2, 0]) == At(MdiaTree(stsd), [2, 2, 0]);
  }

  // ---------- decoder configuration records ----------

  /** A length field of 16 bits and what it counts. */
  function TakeCounted(s: seq<byte>): Option<(seq<byte>, seq<byte>)> {
    if |s| < 2 then None
    else
      var n := FromBE(s[..2]);
      if |s| < 2 + n then None else Some((s[2..2 + n], s[2 + n..]))
  }

  lemma CountedReads(nal: seq<byte>, rest: seq<byte>)
    requires |nal| < 0x1_0000
    ensures TakeCounted(BE(2, |nal|) + nal + rest) == Some((nal, rest))
  {
    Widths();
    FromBEOfBE(2, |nal|);
    hide BE, FromBE, Pow256;
    var s := BE(2, |nal|) + nal + rest;
    SliceMiddle(BE(2, |nal|), nal, rest);
    assert s[..2] == BE(2, |nal|);
  }

  lemma CountedTooLong(s: seq<byte>, nal: seq<byte>, rest: seq<byte>)
    requires TakeCounted(s) == Some((nal, rest))
    ensures |nal| < 0x1_0000
  {
    FromBEBound(s[..2]);
    Widths();
  }

  /**
    * A player's reading of the H.264 record (section 5.3.3.1 of ISO/IEC 14496-15): version 1, units behind four-byte
    * lengths, one SPS whose profile bytes are repeated in front, one PPS.
    */
  function ReadAvcRecord(s: seq<byte>): Option<(seq<byte>, seq<byte>)> {
    if |s| < 6 || s[0] != 1 || s[4] % 4 + 1 != 4 || s[5] % 32 != 1 then None
    else
      match TakeCounted(s[6..])
      case None => None
      case Some((sps, rest)) =>
        if |sps| < 4 || sps[1..4] != s[1..4] || rest == [] || rest[0] != 1 then None
        else
          match TakeCounted(rest[1..])
          case None => None
          case Some((pps, tail)) => if tail == [] then Some((sps, pps)) else None
  }

  /** The H.264 record gives back its parameter sets exactly when both fit 16-bit lengths. */
  lemma AvcRecordReadsIff(sps: seq<byte>, pps: seq<byte>)
    requires |sps| >= 4
    ensures ReadAvcRecord(AvcRecord(sps, pps)) == Some((sps, pps)) <==> |sps| < 0x1_0000 && |pps| < 0x1_0000
  {
    hide BE, TakeCounted;
    var s := AvcRecord(sps, pps);
    var head := [1, sps[1], sps[2], sps[3], 0xFF, 0xE1];
    var back := [1] + (BE(2, |pps|) + pps + []);
    assert s == head + (BE(2, |sps|) + sps + back);
    SliceBack(head, BE(2, |sps|) + sps + back);
    assert s[6..] == BE(2, |sps|) + sps + back;
    assert back[1..] == BE(2, |pps|) + pps + [];
    assert s[0] == 1 && s[4] == 0xFF && s[5] == 0xE1 && s[1..4] == sps[1..4];
    if |sps| < 0x1_0000 && |pps| < 0x1_0000 {
      CountedReads(sps, back);
      CountedReads(pps, []);
    } else if ReadAvcRecord(s) == Some((sps, pps)) {
      var first := TakeCounted(s[6..]).value;
      CountedTooLong(s[6..], first.0, first.1);
      var second := TakeCounted(first.1[1..]).value;
      CountedTooLong(first.1[1..], second.0, second.1);
    }
  }

  /** One array of the H.265 record: kind, count of one, length, unit. */
  function TakeArray(kind: byte, s: seq<byte>): Option<(seq<byte>, seq<byte>)> {
    if |s| < 3 || s[0] != kind || FromBE(s[1..3]) != 1 then None else TakeCounted(s[3..])
  }

  lemma ArrayFields(kind: byte, count: seq<byte>, tail: seq<byte>)
    requires |count| == 2
    ensures var s := [kind] + count + tail; s[0] == kind && s[1..3] == count && s[3..] == tail
  {
  }

  lemma ArrayShape(kind: byte, nal: seq<byte>, rest: seq<byte>)
    ensures HevcArray(kind, nal) + rest == [kind] + BE(2, 1) + (BE(2, |nal|) + nal + rest)
  {
    Regrouped([kind] + BE(2, 1), BE(2, |nal|), nal, rest);
    hide BE;
  }

  lemma Regrouped(a: seq<byte>, b: seq<byte>, c: seq<byte>, d: seq<byte>)
    ensures a + b + c + d == a + (b + c + d)
  {
  }

  lemma ArrayReads(kind: byte, nal: seq<byte>, rest: seq<byte>)
    requires |nal| < 0x1_0000
    ensures TakeArray(kind, HevcArray(kind, nal) + rest) == Some((nal, rest))
  {
    Widths();
    FromBEOfBE(2, 1);
    hide BE, FromBE, TakeCounted, Pow256, HevcArray;
    ArrayShape(kind, nal, rest);
    ArrayFields(kind, BE(2, 1), BE(2, |nal|) + nal + rest);
    CountedReads(nal, rest);
  }

  lemma ArrayTooLong(kind: byte, s: seq<byte>)
    ensures TakeArray(kind, s).Some? ==> |TakeArray(kind, s).value.0| < 0x1_0000
  {
    if TakeArray(kind, s).Some? {
      var r := TakeArray(kind, s).value;
      CountedTooLong(s[3..], r.0, r.1);
    }
  }

  /** The H.265 record (section 8.3.3.1 of ISO/IEC 14496-15): version 1, four-byte lengths, three arrays. */
  function ReadHevcRecord(s: seq<byte>): Option<(seq<byte>, seq<byte>, seq<byte>)> {
    if |s| < 23 || s[0] != 1 || s[21] % 4 + 1 != 4 || s[22] != 3 then None
    else
      match TakeArray(0x20, s[23..])
      case None => None
      case Some((vps, a)) =>
        match TakeArray(0x21, a)
        case None => None
        case Some((sps, b)) =>
          match TakeArray(0x22, b)
          case None => None
          case Some((pps, tail)) => if tail == [] then Some((vps, sps, pps)) else None
  }

  lemma HevcRecordSplits(vps: seq<byte>, sps: seq<byte>, pps: seq<byte>)
    ensures
      var s := HevcRecord(vps, sps, pps);
      && |s| >= 23 && s[0] == 1 && s[21] == 0x0F && s[22] == 3
      && s[23..] == HevcArray(0x20, vps) + (HevcArray(0x21, sps) + (HevcArray(0x22, pps) + []))
  {
    hide HevcArray, HevcProfile;
    var fixed := [0xF0, 0, 0xFC, 0xFC, 0xF8, 0xF8, 0, 0, 0x0F, 3];
    var front := [1] + HevcProfile(sps) + fixed;
    var a, b, c := HevcArray(0x20, vps), HevcArray(0x21, sps), HevcArray(0x22, pps);
    assert HevcRecord(vps, sps, pps) == front + (a + (b + (c + [])));
    SliceBack(front, a + (b + (c + [])));
    assert |front| == 23 && front[0] == 1 && front[21] == 0x0F && front[22] == 3;
  }

  /** Likewise for H.265, with three parameter sets. */
  lemma HevcRecordReadsIff(vps: seq<byte>, sps: seq<byte>, pps: seq<byte>)
    ensures ReadHevcRecord(HevcRecord(vps, sps, pps)) == Some((vps, sps, pps)) <==>
            |vps| < 0x1_0000 && |sps| < 0x1_0000 && |pps| < 0x1_0000
  {
    HevcRecordSplits(vps, sps, pps);
    hide HevcArray, HevcRecord, TakeArray, BE;
    var s := HevcRecord(vps, sps, pps);
    var c := HevcArray(0x22, pps) + [];
    var b := HevcArray(0x21, sps) + c;
    if |vps| < 0x1_0000 && |sps| < 0x1_0000 && |pps| < 0x1_0000 {
      ArrayReads(0x20, vps, b);
      ArrayReads(0x21, sps, c);
      ArrayReads(0x22, pps, []);
    } else if ReadHevcRecord(s) == Some((vps, sps, pps)) {
      var first := TakeArray(0x20, s[23..]).value;
      var second := TakeArray(0x21, first.1).value;
      ArrayTooLong(0x20, s[23..]);
      ArrayTooLong(0x21, first.1);
      ArrayTooLong(0x22, second.1);
    }
  }

  /** With a record of reasonable size, the segment reads back and the sample entry is at its place. */
  lemma InitReads(width: u16, height: u16, entry: u32, config: u32, record: seq<byte>)
    requires (entry == AVC1 && config == AVCC) || (entry == HEV1 && config == HVCC)
    requires |record| < 0x100_0000
    ensures
      var tree := InitTree(width, height, StsdTree(entry, width, height, config, record));
      && ParseBoxes(MakeInit(width, height, MakeStsd(entry, width, height, config, record))) == Some(tree)
      && |tree| == 2
      && At(tree[1], [1, 1, 2, 2, 0, 0]) == Some(Node(entry, SampleEntry(width, height), [Leaf(config, record)]))
  {
    hide BE, MakeInit, MakeStsd, MoovTree, StsdTree, ParseBoxes, At, SampleEntry, Brands;
    InitSize(width, height, entry, config, record);
    InitParses(width, height, entry, config, record);
    EntryAt(width, height, entry, config, record);
  }

  /** The width and height in a movie box, for its track (section 8.3.2 of ISO/IEC 14496-12, 16.16 fixed point) ... */
  function TrackSize(moov: Box): Option<(nat, nat)> {
    match At(moov, [1, 0])
    case Some(Leaf(code, p)) =>
      if code == TKHD && |p| == 84 then Some((FromBE(p[76..80]) / 0x1_0000, FromBE(p[80..84]) / 0x1_0000)) else None
    case _ => None
  }

  /** ... and for its sample entry (section 12.1.3 of ISO/IEC 14496-12). */
  function EntrySize(moov: Box): Option<(nat, nat)> {
    match At(moov, [1, 1, 2, 2, 0, 0])
    case Some(Node(_, h, _)) => if |h| == 78 then Some((FromBE(h[24..26]), FromBE(h[26..28]))) else None
    case _ => None
  }

  /** A 32-bit field of a leaf, by the leaf's place, type and size and the field's offset. */
  function FieldAt(moov: Box, path: seq<nat>, code: u32, size: nat, at: nat): Option<nat> {
    match At(moov, path)
    case Some(Leaf(c, p)) => if c == code && |p| == size && at + 4 <= size then Some(FromBE(p[at..at + 4])) else None
    case _ => None
  }

  lemma HeadersAt(width: u16, height: u16, stsd: Box)
    ensures var moov := MoovTree(width, height, stsd);
            && At(moov, [0]) == Some(Full(MVHD, 0, 0, MvhdFields()))
            && At(moov, [1, 1, 0]) == Some(Full(MDHD, 0, 0, MdhdFields()))
            && At(moov, [1, 1, 1]) == Some(Full(HDLR, 0, 0, HdlrFields()))
            && At(moov, [2, 0]) == Some(Full(TREX, 0, 0, TrexFields()))
  {
    hide BE, MvhdFields, MdhdFields, HdlrFields, TkhdFields, TrexFields, FullPayload, MinfTree;
    var trak := TrakTree(width, height, stsd);
    assert [0][1..] == [] && [1][1..] == [] && [2, 0][1..] == [0] && [1, 0][1..] == [0] && [1, 1][1..] == [1];
    assert [1, 1, 0][1..] == [1, 0] && [1, 1, 1][1..] == [1, 1];
    assert At(trak, [1, 0]) == At(MdiaTree(stsd), [0]) == At(Full(MDHD, 0, 0, MdhdFields()), []);
    assert At(trak, [1, 1]) == At(MdiaTree(stsd), [1]) == At(Full(HDLR, 0, 0, HdlrFields()), []);
    assert At(MvexTree(), [0]) == At(Full(TREX, 0, 0, TrexFields()), []);
  }

  lemma HeaderFieldsAt(width: u16, height: u16)
    ensures var p := FullPayload(0, 0, MvhdFields()); |p| == 100 && p[12..16] == BE(4, TIMESCALE)
    ensures var p := FullPayload(0, 0, MdhdFields()); |p| == 24 && p[12..16] == BE(4, TIMESCALE)
    ensures var p := FullPayload(0, 0, HdlrFields()); |p| == 37 && p[8..12] == BE(4, 0x76696465)
    ensures var p := FullPayload(0, 3, TkhdFields(width, height)); |p| == 84 && p[12..16] == BE(4, 1)
    ensures var p := FullPayload(0, 0, TrexFields()); |p| == 24 && p[4..8] == p[8..12] == BE(4, 1)
  {
    hide BE, Matrix, Zeros;
  }

  lemma HeaderValues()
    ensures FromBE(BE(4, TIMESCALE)) == 90000 && FromBE(BE(4, 1)) == 1 && FromBE(BE(4, 0x76696465)) == 0x76696465
    ensures TRACK_HEADER[4..] == BE(4, 1)
  {
    Widths();
    FromBEOfBE(4, 90000);
    FromBEOfBE(4, 1);
    FromBEOfBE(4, 0x76696465);
    FourBytes(1);
  }

  /**
    * The movie and its media count time in 90 kHz, the handler is for video, and the track that fragments extend, with
    * their only sample description, is the one the track header declares and every fragment names.
    */
  lemma HeadersRead(width: u16, height: u16, stsd: Box)
    ensures var moov := MoovTree(width, height, stsd);
            && FieldAt(moov, [0], MVHD, 100, 12) == FieldAt(moov, [1, 1, 0], MDHD, 24, 12) == Some(90000)
            && FieldAt(moov, [1, 1, 1], HDLR, 37, 8) == Some(0x76696465)
            && FieldAt(moov, [1, 0], TKHD, 84, 12) == FieldAt(moov, [2, 0], TREX, 24, 4)
            && FieldAt(moov, [1, 0], TKHD, 84, 12) == Some(FromBE(TRACK_HEADER[4..]))
            && FieldAt(moov, [2, 0], TREX, 24, 8) == Some(1)
  {
    HeaderValues();
    hide BE, FromBE, MvhdFields, MdhdFields, HdlrFields, TkhdFields, TrexFields, MoovTree, FullPayload, At;
    HeadersAt(width, height, stsd);
    TrackHeaderAt(width, height, stsd);
    HeaderFieldsAt(width, height);
  }

  lemma TrackHeaderAt(width: u16, height: u16, stsd: Box)
    ensures At(MoovTree(width, height, stsd), [1, 0]) == Some(Full(TKHD, 0, 3, TkhdFields(width, height)))
  {
    hide BE, MvhdFields, TkhdFields, TrexFields, FullPayload, MdiaTree;
    assert [1, 0][1..] == [0] && [0][1..] == [];
    assert At(TrakTree(width, height, stsd), [0]) == At(TrakTree(width, height, stsd).children[0], []);
  }

  lemma SizeFieldsAt(width: u16, height: u16)
    ensures var p := FullPayload(0, 3, TkhdFields(width, height));
            |p| == 84 && p[76..80] == BE(4, width * 0x1_0000) && p[80..84] == BE(4, height * 0x1_0000)
    ensures var h := SampleEntry(width, height); h[24..26] == BE(2, width) && h[26..28] == BE(2, height)
  {
    hide BE, Matrix, Zeros;
  }

  lemma FixedPointReads(n: u16)
    ensures FromBE(BE(4, n * 0x1_0000)) / 0x1_0000 == n && FromBE(BE(2, n)) == n
  {
    Widths();
    FromBEOfBE(4, n * 0x1_0000);
    FromBEOfBE(2, n);
  }

  /** Both places give the frame size the segment was made for. */
  lemma FrameSizeReads(width: u16, height: u16, entry: u32, config: u32, record: seq<byte>)
    ensures var moov := MoovTree(width, height, StsdTree(entry, width, height, config, record));
            TrackSize(moov) == EntrySize(moov) == Some((width, height))
  {
    hide BE, FromBE, FullPayload, TkhdFields, SampleEntry, MoovTree, StsdTree, At;
    TrackHeaderAt(width, height, StsdTree(entry, width, height, config, record));
    EntryAt(width, height, entry, config, record);
    SizeFieldsAt(width, height);
    FixedPointReads(width);
    FixedPointReads(height);
  }

  /** From the H.264 initialisation segment a player recovers the parameter sets and the frame size. */
  lemma H264InitSegment(sps: seq<byte>, pps: seq<byte>, width: u16, height: u16)
    requires |sps| < 0x1_0000 && |pps| < 0x1_0000
    ensures
      var segment := MakeH264InitSegment(sps, pps, width, height);
      if |sps| < 4 || pps == [] then segment == []
      else
        var tree := InitTree(width, height, StsdTree(AVC1, width, height, AVCC, AvcRecord(sps, pps)));
        && ParseBoxes(segment) == Some(tree)
        && At(tree[1], [1, 1, 2, 2, 0, 0]) ==
          Some(Node(AVC1, SampleEntry(width, height), [Leaf(AVCC, AvcRecord(sps, pps))]))
        && TrackSize(tree[1]) == EntrySize(tree[1]) == Some((width, height))
        && ReadAvcRecord(AvcRecord(sps, pps)) == Some((sps, pps))
  {
    if |sps| >= 4 && pps != [] {
      var record := AvcRecord(sps, pps);
      assert |record| == 11 + |sps| + |pps|;
      hide BE, MakeInit, MakeStsd, MoovTree, StsdTree, AvcRecord, ReadAvcRecord, ParseBoxes, At, SampleEntry,
           TrackSize, EntrySize;
      FrameSizeReads(width, height, AVC1, AVCC, record);
      AvcRecordReadsIff(sps, pps);
      InitReads(width, height, AVC1, AVCC, record);
    }
  }

  lemma H265InitSegment(vps: seq<byte>, sps: seq<byte>, pps: seq<byte>, width: u16, height: u16)
    requires |vps| < 0x1_0000 && |sps| < 0x1_0000 && |pps| < 0x1_0000
    ensures
      var segment := MakeH265InitSegment(vps, sps, pps, width, height);
      if vps == [] || sps == [] || pps == [] then segment == []
      else
        var tree := InitTree(width, height, StsdTree(HEV1, width, height, HVCC, HevcRecord(vps, sps, pps)));
        && ParseBoxes(segment) == Some(tree)
        && At(tree[1], [1, 1, 2, 2, 0, 0]) ==
          Some(Node(HEV1, SampleEntry(width, height), [Leaf(HVCC, HevcRecord(vps, sps, pps))]))
        && TrackSize(tree[1]) == EntrySize(tree[1]) == Some((width, height))
        && ReadHevcRecord(HevcRecord(vps, sps, pps)) == Some((vps, sps, pps))
  {
    if vps != [] && sps != [] && pps != [] {
      var record := HevcRecord(vps, sps, pps);
      assert |record| == 38 + |vps| + |sps| + |pps|;
      hide BE, MakeInit, MakeStsd, MoovTree, StsdTree, HevcRecord, ReadHevcRecord, ParseBoxes, At, SampleEntry,
           TrackSize, EntrySize;
      FrameSizeReads(width, height, HEV1, HVCC, record);
      HevcRecordReadsIff(vps, sps, pps);
      InitReads(width, height, HEV1, HVCC, record);
    }
  }

  /** The sample entry is the only child of the sample description. */
  lemma EntryAt(width: u16, height: u16, entry: u32, config: u32, record: seq<byte>)
    ensures At(MoovTree(width, height, StsdTree(entry, width, height, config, record)), [1, 1, 2, 2, 0, 0]) ==
            Some(Node(entry, SampleEntry(width, height), [Leaf(config, record)]))
  {
    var stsd := StsdTree(entry, width, height, config, record);
    SampleDescriptionAt(width, height, stsd);
    hide BE, MoovTree, SampleEntry;
    assert [1, 1, 2, 2, 0, 0] == [1, 1, 2, 2, 0] + [0];
    AtAppend(MoovTree(width, height, stsd), [1, 1, 2, 2, 0], [0]);
    assert [0][1..] == [];
  }

  lemma {:induction false} AtAppend(b: Box, p: seq<nat>, q: seq<nat>)
    requires At(b, p).Some?
    ensures At(b, p + q) == At(At(b, p).value, q)
    decreases |p|
  {
    if p == [] {
      assert p + q == q;
    } else {
      assert (p + q)[1..] == p[1..] + q;
      AtAppend(b.children[p[0]], p[1..], q);
    }
  }

  /** Everything but the configuration record has a fixed size. */
  lemma InitSize(width: u16, height: u16, entry: u32, config: u32, record: seq<byte>)
    ensures |MakeInit(width, height, MakeStsd(entry, width, height, config, record))| <= 1000 + |record|
  {
    hide BE, MakeBox, FullPayload, SampleEntry, Matrix;
  }

  // ---------- media segments ----------

  /** What a fragment says about its one sample. */
  datatype Fragment = Fragment(sequence: u32, decodeTime: u64, offset: nat, duration: u32, size: u32, key: bool)

  const TRUN_FLAGS: nat := 0x701

  function SampleFlags(key: bool): u32 {
    if key then 0x0200_0000 else 0x0101_0000
  }

  function TrunFields(f: Fragment): (s: seq<byte>)
    ensures |s| == 20
  {
    BE(4, 1) + BE(4, f.offset) + BE(4, f.duration) + BE(4, f.size) + BE(4, SampleFlags(f.key))
  }

  function MakeMfhd(f: Fragment): seq<byte> { MakeFullBox(MFHD, 0, 0, BE(4, f.sequence)) }
  function MakeTfhd(): seq<byte> { MakeFullBox(TFHD, 0, 0x02_0000, BE(4, 1)) }
  function MakeTfdt(f: Fragment): seq<byte> { MakeFullBox(TFDT, 1, 0, BE(8, f.decodeTime)) }
  function MakeTrun(f: Fragment): seq<byte> { MakeFullBox(TRUN, 0, TRUN_FLAGS, TrunFields(f)) }

  function MoofBytes(f: Fragment): seq<byte> {
    MakeBox(MOOF, MakeMfhd(f) + MakeBox(TRAF, MakeTfhd() + MakeTfdt(f) + MakeTrun(f)))
  }

  function TrafTree(f: Fragment): Box {
    Node(TRAF, [], [Full(TFHD, 0, 0x02_0000, BE(4, 1)), Full(TFDT, 1, 0, BE(8, f.decodeTime)),
                    Full(TRUN, 0, TRUN_FLAGS, TrunFields(f))])
  }

  function MoofTree(f: Fragment): Box {
    Node(MOOF, [], [Full(MFHD, 0, 0, BE(4, f.sequence)), TrafTree(f)])
  }

  lemma MoofWrites(f: Fragment)
    ensures Serialize(MoofTree(f)) == MoofBytes(f) && |MoofBytes(f)| == 100 && Shaped(MoofTree(f))
  {
    hide BE, MakeBox, TrunFields, FullPayload, SerializeAll, AllShaped;
    var mfhd, tfhd := Full(MFHD, 0, 0, BE(4, f.sequence)), Full(TFHD, 0, 0x02_0000, BE(4, 1));
    var tfdt, trun := Full(TFDT, 1, 0, BE(8, f.decodeTime)), Full(TRUN, 0, TRUN_FLAGS, TrunFields(f));
    assert Shaped(mfhd) && Shaped(tfhd) && Shaped(tfdt) && Shaped(trun);
    assert Serialize(mfhd) == MakeMfhd(f) && Serialize(tfhd) == MakeTfhd();
    assert Serialize(tfdt) == MakeTfdt(f) && Serialize(trun) == MakeTrun(f);
    ShapedOf3(tfhd, tfdt, trun);
    ShapedOf2(mfhd, TrafTree(f));
    SerializeOf3(tfhd, tfdt, trun);
    SerializeOf2(mfhd, TrafTree(f));
    hide Serialize, Shaped, Full, MakeMfhd, MakeTfhd, MakeTfdt, MakeTrun;
    NodeOf(TRAF, [tfhd, tfdt, trun]);
    NodeOf(MOOF, [mfhd, TrafTree(f)]);
    NodeShaped(TRAF, [], [tfhd, tfdt, trun]);
    NodeShaped(MOOF, [], [mfhd, TrafTree(f)]);
    FragmentSizes(f);
  }

  lemma FragmentSizes(f: Fragment)
    ensures |MakeMfhd(f)| == 16 && |MakeTfhd()| == 16 && |MakeTfdt(f)| == 20 && |MakeTrun(f)| == 32
  {
    hide BE, MakeBox, TrunFields, FullPayload;
  }

  /** Up to the data offset of the trun, a moof does not depend on it. */
  function BeforeOffset(f: Fragment): (s: seq<byte>)
    ensures |s| == 84
  {
    hide BE, MakeBox, FullPayload;
    BE(4, 100) + BE(4, MOOF) + MakeMfhd(f) + BE(4, 76) + BE(4, TRAF) + MakeTfhd() + MakeTfdt(f) +
    (BE(4, 32) + BE(4, TRUN) + FullPayload(0, TRUN_FLAGS, BE(4, 1)))
  }

  function AfterOffset(f: Fragment): (s: seq<byte>)
    ensures |s| == 12
  {
    BE(4, f.duration) + BE(4, f.size) + BE(4, SampleFlags(f.key))
  }

  lemma TrunSplits(f: Fragment)
    ensures MakeTrun(f) ==
            (BE(4, 32) + BE(4, TRUN) + FullPayload(0, TRUN_FLAGS, BE(4, 1))) + BE(4, f.offset) + AfterOffset(f)
  {
    hide BE, FullPayload;
    var count, offset, after := BE(4, 1), BE(4, f.offset), AfterOffset(f);
    assert TrunFields(f) == count + (offset + after);
    FullSplit(0, TRUN_FLAGS, count, offset + after);
    assert MakeTrun(f) == BE(4, 32) + BE(4, TRUN) + (FullPayload(0, TRUN_FLAGS, count) + (offset + after));
  }

  lemma MoofSplits(f: Fragment)
    ensures MoofBytes(f) == BeforeOffset(f) + BE(4, f.offset) + AfterOffset(f)
  {
    TrunSplits(f);
    FragmentSizes(f);
    hide BE, FullPayload, AfterOffset, MakeMfhd, MakeTfhd, MakeTfdt, MakeTrun;
    var trun := BE(4, 32) + BE(4, TRUN) + FullPayload(0, TRUN_FLAGS, BE(4, 1));
    var tail := BE(4, f.offset) + AfterOffset(f);
    assert MakeTrun(f) == trun + tail;
    Regroup(BE(4, 76) + BE(4, TRAF), MakeTfhd() + MakeTfdt(f), trun, tail);
    Regroup(BE(4, 100) + BE(4, MOOF) + MakeMfhd(f), BE(4, 76) + BE(4, TRAF) + (MakeTfhd() + MakeTfdt(f)), trun, tail);
    assert MoofBytes(f) == BE(4, 100) + BE(4, MOOF) +
                           (MakeMfhd(f) + (BE(4, 76) + BE(4, TRAF) + (MakeTfhd() + MakeTfdt(f) + MakeTrun(f))));
  }

  lemma Regroup(a: seq<byte>, b: seq<byte>, c: seq<byte>, d: seq<byte>)
    ensures a + (b + (c + d)) == (a + b + c) + d
  {
  }

  lemma FourBytes(n: nat)
    ensures BE(4, n) == [n / 0x100_0000 % 256, n / 0x1_0000 % 256, n / 0x100 % 256, n % 256]
  {
    var a := n / 256;
    var b := a / 256;
    var c := b / 256;
    LastByte(4, n);
    LastByte(3, a);
    LastByte(2, b);
    LastByte(1, c);
    hide BE;
    Quotients(n, a, b, c);
  }

  lemma LastByte(k: nat, n: nat)
    requires k > 0
    ensures BE(k, n) == BE(k - 1, n / 256) + [n % 256]
  {
  }

  lemma Quotients(n: nat, a: nat, b: nat, c: nat)
    requires a == n / 256 && b == a / 256 && c == b / 256
    ensures b == n / 0x1_0000 && c == n / 0x100_0000
  {
  }

  /** Overwrites four bytes in place; all others keep their value. */
  method Patch(buffer: array<byte>, at: nat, value: nat)
    requires at + 4 <= buffer.Length
    modifies buffer
    ensures buffer[..] == old(buffer[..at]) + BE(4, value) + old(buffer[at + 4..])
  {
    hide BE;
    FourBytes(value);
    buffer[at] := value / 0x100_0000 % 256;
    buffer[at + 1] := value / 0x1_0000 % 256;
    buffer[at + 2] := value / 0x100 % 256;
    buffer[at + 3] := value % 256;
  }

  /**
    * Builds the fragment header with a placeholder and fixes it up: only the data offset changes, and it becomes
    * the size of the header plus that of the mdat header behind it.
    */
  method MakeMoof(sequence: u32, decodeTime: u64, duration: u32, size: u32, key: bool) returns (moof: seq<byte>)
    ensures
      var f := Fragment(sequence, decodeTime, 0, duration, size, key);
      moof == MoofBytes(f)[..84] + BE(4, 108) + MoofBytes(f)[88..] && moof == MoofBytes(f.(offset := 108))
  {
    var f := Fragment(sequence, decodeTime, 0, duration, size, key);
    MoofWrites(f);
    MoofSplits(f);
    MoofSplits(f.(offset := 108));
    FragmentSizes(f);
    SameAround(f);
    hide BE, MakeBox, BeforeOffset, AfterOffset, MakeMfhd, MakeTfhd, MakeTfdt, MakeTrun, MoofBytes, Serialize;
    var mfhd, tfhd, tfdt := MakeMfhd(f), MakeTfhd(), MakeTfdt(f);
    var plain := MoofBytes(f);
    var buffer := new byte[|plain|](i requires 0 <= i < |plain| => plain[i]);
    assert buffer[..] == plain;
    var dataOffset := |plain| + 8;
    var at := 8 + |mfhd| + 8 + |tfhd| + |tfdt| + 8 + 4 + 4;
    if at + 4 <= buffer.Length {
      Patch(buffer, at, dataOffset);
    }
    moof := buffer[..];
    Around(BeforeOffset(f), BE(4, 0), AfterOffset(f));
  }

  lemma SameAround(f: Fragment)
    ensures BeforeOffset(f.(offset := 108)) == BeforeOffset(f) && AfterOffset(f.(offset := 108)) == AfterOffset(f)
  {
    hide BE, FullPayload, MakeFullBox;
  }

  lemma Around(a: seq<byte>, b: seq<byte>, c: seq<byte>)
    ensures (a + b + c)[..|a|] == a && (a + b + c)[|a| + |b|..] == c
  {
  }

  function MediaSegment(f: Fragment, samples: seq<byte>): seq<byte> {
    MoofBytes(f) + MakeBox(MDAT, samples)
  }

  method MakeMediaSegment(d: seq<byte>, decodeTime: u64, duration: u32, sequence: u32, key: bool, codec: Codec)
    returns (segment: seq<byte>)
    ensures
      var samples := Prefixed(Samples(codec, Units(d)));
      segment == if samples == [] then []
                 else MediaSegment(Fragment(sequence, decodeTime, 108, duration, |samples| % 0x1_0000_0000, key),
                                   samples)
  {
    hide *;
    var samples := ToLengthPrefixed(d, codec);
    if samples == [] {
      return [];
    }
    var size: u32 := |samples| % 0x1_0000_0000;
    var moof := MakeMoof(sequence, decodeTime, duration, size, key);
    var mdat := WriteMdat(samples);
    segment := moof + mdat;
    Assembled(Fragment(sequence, decodeTime, 108, duration, size, key), samples);
  }

  method WriteMdat(samples: seq<byte>) returns (mdat: seq<byte>)
    ensures mdat == MakeBox(MDAT, samples)
  {
    mdat := BE(4, 8 + |samples|);
    mdat := mdat + BE(4, MDAT);
    mdat := mdat + samples;
  }

  lemma Assembled(f: Fragment, samples: seq<byte>)
    ensures MediaSegment(f, samples) == MoofBytes(f) + MakeBox(MDAT, samples)
  {
  }

  // ---------- reading media segments ----------

  /** Version 0, offsets counted from the moof, track 1 (section 8.8.7 of ISO/IEC 14496-12). */
  const TRACK_HEADER: seq<byte> := [0, 2, 0, 0, 0, 0, 0, 1]

  /** Version 0; offset, duration, size and flags present; one sample (section 8.8.8 of ISO/IEC 14496-12). */
  const RUN_HEADER: seq<byte> := [0, 0, 7, 1, 0, 0, 0, 1]

  /** The fields of a fragment header, as a player reads them; a keyframe has the bit for others off. */
  function ReadFragment(moof: Box): Option<Fragment> {
    match (At(moof, [0]), At(moof, [1, 0]), At(moof, [1, 1]), At(moof, [1, 2]))
    case (Some(Leaf(_, mfhd)), Some(Leaf(_, tfhd)), Some(Leaf(_, tfdt)), Some(Leaf(_, trun))) =>
      if |mfhd| != 8 || tfhd != TRACK_HEADER || |tfdt| != 12 || tfdt[0] != 1
         || |trun| != 24 || trun[..8] != RUN_HEADER then None
      else
        FromBEBound(mfhd[4..]); FromBEBound(tfdt[4..]); FromBEBound(trun[12..16]); FromBEBound(trun[16..20]);
        Widths();
        Some(Fragment(FromBE(mfhd[4..]), FromBE(tfdt[4..]), FromBE(trun[8..12]), FromBE(trun[12..16]),
                      FromBE(trun[16..20]), FromBE(trun[20..]) / 0x1_0000 % 2 == 0))
    case _ => None
  }

  lemma FullFields(version: byte, flags: nat, fields: seq<byte>)
    ensures FullPayload(version, flags, fields)[4..] == fields
  {
    hide BE;
  }

  lemma TrunFieldsAt(f: Fragment)
    ensures
      var s := FullPayload(0, TRUN_FLAGS, TrunFields(f));
      && |s| == 24 && s[8..12] == BE(4, f.offset) && s[12..16] == BE(4, f.duration)
      && s[16..20] == BE(4, f.size) && s[20..] == BE(4, SampleFlags(f.key))
  {
    hide BE;
    var a, b, c, d, e := BE(4, 1), BE(4, f.offset), BE(4, f.duration), BE(4, f.size), BE(4, SampleFlags(f.key));
    var head := FullPayload(0, TRUN_FLAGS, a);
    assert TrunFields(f) == a + (b + (c + (d + e)));
    FullSplit(0, TRUN_FLAGS, a, b + (c + (d + e)));
    hide FullPayload, TrunFields;
    FieldsBehind(head, b, c, d, e);
  }

  lemma FragmentHeaders(f: Fragment)
    ensures FullPayload(0, 0x02_0000, BE(4, 1)) == TRACK_HEADER
    ensures FullPayload(0, TRUN_FLAGS, TrunFields(f))[..8] == RUN_HEADER
    ensures FullPayload(1, 0, BE(8, f.decodeTime))[0] == 1
  {
    FourBytes(1);
    ThreeBytes(0x02_0000);
    ThreeBytes(TRUN_FLAGS);
    hide BE;
  }

  lemma ThreeBytes(n: nat)
    ensures BE(3, n) == [n / 0x1_0000 % 256, n / 0x100 % 256, n % 256]
  {
    var a := n / 256;
    var b := a / 256;
    LastByte(3, n);
    LastByte(2, a);
    LastByte(1, b);
    hide BE;
    Quotients(n, a, b, b / 256);
  }

  lemma FieldsBehind(head: seq<byte>, b: seq<byte>, c: seq<byte>, d: seq<byte>, e: seq<byte>)
    requires |head| == 8 && |b| == 4 && |c| == 4 && |d| == 4
    ensures var s := head + (b + (c + (d + e)));
            s[8..12] == b && s[12..16] == c && s[16..20] == d && s[20..] == e
  {
  }

  lemma FragmentLeaves(f: Fragment)
    ensures At(MoofTree(f), [0]) == Some(Full(MFHD, 0, 0, BE(4, f.sequence)))
    ensures At(MoofTree(f), [1, 0]) == Some(Full(TFHD, 0, 0x02_0000, BE(4, 1)))
    ensures At(MoofTree(f), [1, 1]) == Some(Full(TFDT, 1, 0, BE(8, f.decodeTime)))
    ensures At(MoofTree(f), [1, 2]) == Some(Full(TRUN, 0, TRUN_FLAGS, TrunFields(f)))
  {
    hide BE, TrunFields, FullPayload;
    assert [0][1..] == [] && [1][1..] == [] && [2][1..] == [];
    assert [1, 0][1..] == [0] && [1, 1][1..] == [1] && [1, 2][1..] == [2];
    assert At(TrafTree(f), [0]) == At(TrafTree(f).children[0], []);
    assert At(TrafTree(f), [1]) == At(TrafTree(f).children[1], []);
    assert At(TrafTree(f), [2]) == At(TrafTree(f).children[2], []);
  }

  lemma SampleFlagsRead(key: bool)
    ensures (FromBE(BE(4, SampleFlags(key))) / 0x1_0000 % 2 == 0) == key
  {
    Widths();
    FromBEOfBE(4, SampleFlags(key));
  }

  lemma NumbersRead(f: Fragment)
    requires f.offset < 0x1_0000_0000
    ensures FromBE(BE(4, f.sequence)) == f.sequence && FromBE(BE(8, f.decodeTime)) == f.decodeTime
    ensures FromBE(BE(4, f.offset)) == f.offset && FromBE(BE(4, f.duration)) == f.duration
    ensures FromBE(BE(4, f.size)) == f.size
  {
    Widths();
    FromBEOfBE(4, f.sequence);
    FromBEOfBE(8, f.decodeTime);
    FromBEOfBE(4, f.offset);
    FromBEOfBE(4, f.duration);
    FromBEOfBE(4, f.size);
  }

  /** Every field of the fragment reads back. */
  lemma FragmentReads(f: Fragment)
    requires f.offset < 0x1_0000_0000
    ensures ReadFragment(MoofTree(f)) == Some(f)
  {
    hide BE, FromBE, Pow256, FullPayload, TrunFields, MoofTree, At, SampleFlags;
    FragmentLeaves(f);
    FragmentHeaders(f);
    TrunFieldsAt(f);
    FullFields(0, 0, BE(4, f.sequence));
    FullFields(1, 0, BE(8, f.decodeTime));
    NumbersRead(f);
    SampleFlagsRead(f.key);
  }

  /** A media segment reads back as its two boxes exactly when the mdat fits 32 bits. */
  lemma MediaSegmentParsesIff(f: Fragment, samples: seq<byte>)
    ensures ParseBoxes(MediaSegment(f, samples)) == Some([MoofTree(f), Leaf(MDAT, samples)]) <==>
            8 + |samples| < 0x1_0000_0000
  {
    var mdat := Leaf(MDAT, samples);
    assert Shaped(mdat) && Serialize(mdat) == MakeBox(MDAT, samples);
    MoofWrites(f);
    hide BE, MoofTree, MoofBytes, MakeBox, Shaped, Serialize, ParseBoxes;
    ParseOne(MoofTree(f), Serialize(mdat));
    BoxRoundTripIff(mdat);
    PairOf(MoofTree(f), mdat, ParseBoxes(Serialize(mdat)));
  }

  lemma PairOf(a: Box, b: Box, rest: Option<seq<Box>>)
    ensures (match rest case None => None case Some(bs) => Some([a] + bs)) == Some([a, b]) <==> rest == Some([b])
  {
    if rest.Some? {
      assert [a] + [b] == [a, b];
      assert ([a] + rest.value)[1..] == rest.value && [a, b][1..] == [b];
    }
  }

  /** A player: reads the boxes, then the bytes the fragment points at. */
  function ReadSample(segment: seq<byte>): Option<seq<byte>> {
    match ParseBoxes(segment)
    case None => None
    case Some(boxes) =>
      if |boxes| != 2 then None
      else
        match ReadFragment(boxes[0])
        case None => None
        case Some(f) => if |segment| < f.offset + f.size then None else Some(segment[f.offset..f.offset + f.size])
  }

  /** The data offset points at the first payload byte of the mdat, and the sample size is its length. */
  lemma SampleIsMdatPayload(f: Fragment, samples: seq<byte>)
    requires f.offset == 108 && f.size == |samples| && 8 + |samples| < 0x1_0000_0000
    ensures ReadSample(MediaSegment(f, samples)) == Some(samples)
  {
    MediaSegmentParsesIff(f, samples);
    FragmentReads(f);
    MoofWrites(f);
    hide BE, MoofTree, MoofBytes, ParseBoxes, ReadFragment, Shaped, Serialize, MakeBox;
    PayloadSlice(MoofBytes(f), samples);
  }

  lemma PayloadSlice(moof: seq<byte>, samples: seq<byte>)
    ensures (moof + MakeBox(MDAT, samples))[|moof| + 8..|moof| + 8 + |samples|] == samples
  {
    hide BE;
    var header := moof + (BE(4, 8 + |samples|) + BE(4, MDAT));
    assert moof + MakeBox(MDAT, samples) == header + samples + [];
    SliceMiddle(header, samples, []);
  }

  /** From access unit to player: the sample of a media segment holds exactly the units that are not parameter sets. */
  lemma MediaSegmentCarriesSamples(d: seq<byte>, codec: Codec, decodeTime: u64, duration: u32, sequence: u32, key: bool)
    requires |d| < 0x1_0000_0000
    ensures
      var units := Samples(codec, Units(d));
      var samples := Prefixed(units);
      8 + |samples| < 0x1_0000_0000 ==>
        var r := ReadSample(MediaSegment(Fragment(sequence, decodeTime, 108, duration, |samples|, key), samples));
        r.Some? && Split(r.value) == Some(units)
  {
    AvccCarriesSamples(codec, d);
    hide *;
    var samples := Prefixed(Samples(codec, Units(d)));
    if 8 + |samples| < 0x1_0000_0000 {
      SampleIsMdatPayload(Fragment(sequence, decodeTime, 108, duration, |samples|, key), samples);
    }
  }
}
