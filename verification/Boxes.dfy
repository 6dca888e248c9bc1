/** ISO base media boxes (section 4.2 of ISO/IEC 14496-12): a tree, how it is written and how it is read. */
module Boxes {
  import opened Bytes
  import opened Options
  import opened Sequences

  type u16 = x: int | 0 <= x < 0x1_0000
  type u32 = x: int | 0 <= x < 0x1_0000_0000
  type u64 = x: int | 0 <= x < 0x1_0000_0000_0000_0000

  const MOOV: u32 := 0x6d6f6f76
  const MVHD: u32 := 0x6d766864
  const TRAK: u32 := 0x7472616b
  const TKHD: u32 := 0x746b6864
  const MDIA: u32 := 0x6d646961
  const MDHD: u32 := 0x6d646864
  const HDLR: u32 := 0x68646c72
  const MINF: u32 := 0x6d696e66
  const VMHD: u32 := 0x766d6864
  const DINF: u32 := 0x64696e66
  const DREF: u32 := 0x64726566
  const URL: u32 := 0x75726c20
  const STBL: u32 := 0x7374626c
  const STSD: u32 := 0x73747364
  const STTS: u32 := 0x73747473
  const STSC: u32 := 0x73747363
  const STSZ: u32 := 0x7374737a
  const STCO: u32 := 0x7374636f
  const AVC1: u32 := 0x61766331
  const AVCC: u32 := 0x61766343
  const HEV1: u32 := 0x68657631
  const HVCC: u32 := 0x68766343
  const MVEX: u32 := 0x6d766578
  const TREX: u32 := 0x74726578
  const FTYP: u32 := 0x66747970
  const MOOF: u32 := 0x6d6f6f66
  const MFHD: u32 := 0x6d666864
  const TRAF: u32 := 0x74726166
  const TFHD: u32 := 0x74666864
  const TFDT: u32 := 0x74666474
  const TRUN: u32 := 0x7472756e
  const MDAT: u32 := 0x6d646174

  datatype Box = Leaf(code: u32, payload: seq<byte>) | Node(code: u32, head: seq<byte>, children: seq<Box>)

  /** The fields of a container in front of its boxes, by length; None for boxes that hold no boxes. */
  function HeadLength(code: u32): Option<nat> {
    if code in {MOOV, TRAK, MDIA, MINF, DINF, STBL, MVEX, MOOF, TRAF} then Some(0)
    else if code in {DREF, STSD} then Some(8)
    else if code in {AVC1, HEV1} then Some(78)
    else None
  }

  /** Size (cut to 32 bits by the cast), type, payload. */
  function MakeBox(code: u32, payload: seq<byte>): (box: seq<byte>)
    ensures |box| == 8 + |payload|
  {
    BE(4, 8 + |payload|) + BE(4, code) + payload
  }

  function Serialize(b: Box): (s: seq<byte>)
    ensures |s| >= 8
    decreases b
  {
    match b
    case Leaf(code, payload) => MakeBox(code, payload)
    case Node(code, head, children) => MakeBox(code, head + SerializeAll(children))
  }

  function SerializeAll(bs: seq<Box>): seq<byte>
    decreases bs
  {
    if bs == [] then [] else Serialize(bs[0]) + SerializeAll(bs[1..])
  }

  /** Containers hold boxes behind their own fields, other boxes hold bytes. */
  ghost predicate Shaped(b: Box)
    decreases b
  {
    match b
    case Leaf(code, _) => HeadLength(code) == None
    case Node(code, head, children) => HeadLength(code) == Some(|head|) && AllShaped(children)
  }

  ghost predicate AllShaped(bs: seq<Box>)
    decreases bs
  {
    bs == [] || (Shaped(bs[0]) && AllShaped(bs[1..]))
  }

  /** A recursive reader that must consume all of its input. */
  function ParseBoxes(s: seq<byte>): (r: Option<seq<Box>>)
    ensures r == Some([]) ==> s == []
    decreases |s|, 0
  {
    if s == [] then Some([])
    else if |s| < 8 then None
    else
      var size := FromBE(s[..4]);
      if size < 8 || |s| < size then None
      else
        match ParseBody(Code(s[4..8]), s[8..size])
        case None => None
        case Some(b) =>
          match ParseBoxes(s[size..])
          case None => None
          case Some(bs) => Some([b] + bs)
  }

  function ParseBody(code: u32, payload: seq<byte>): Option<Box>
    decreases |payload|, 1
  {
    match HeadLength(code)
    case None => Some(Leaf(code, payload))
    case Some(n) =>
      if |payload| < n then None
      else
        match ParseBoxes(payload[n..])
        case None => None
        case Some(children) => Some(Node(code, payload[..n], children))
  }

  function Code(s: seq<byte>): u32
    requires |s| == 4
  {
    FromBEBound(s);
    Widths();
    FromBE(s)
  }

  // ---------- reading inverts writing ----------

  lemma BoxFields(code: u32, payload: seq<byte>, rest: seq<byte>)
    ensures
      var s := MakeBox(code, payload) + rest;
      && s[..4] == BE(4, 8 + |payload|) && s[4..8] == BE(4, code)
      && s[8..8 + |payload|] == payload && s[8 + |payload|..] == rest
  {
    hide BE;
  }

  lemma CodeReads(code: u32)
    ensures Code(BE(4, code)) == code
  {
    Widths();
    FromBEOfBE(4, code);
  }

  /** One box in front of others, when its size fits the field. */
  lemma ParseFirst(code: u32, payload: seq<byte>, rest: seq<byte>)
    requires 8 + |payload| < 0x1_0000_0000
    ensures ParseBoxes(MakeBox(code, payload) + rest) ==
            match ParseBody(code, payload)
            case None => None
            case Some(b) => match ParseBoxes(rest) case None => None case Some(bs) => Some([b] + bs)
  {
    BoxFields(code, payload, rest);
    CodeReads(code);
    Widths();
    FromBEOfBE(4, 8 + |payload|);
    hide BE, FromBE, MakeBox, ParseBody, Code, Pow256;
  }

  lemma {:induction false} ParseOne(b: Box, rest: seq<byte>)
    requires Shaped(b) && |Serialize(b)| < 0x1_0000_0000
    ensures ParseBoxes(Serialize(b) + rest) == match ParseBoxes(rest) case None => None case Some(bs) => Some([b] + bs)
    decreases |Serialize(b)|, 0
  {
    hide ParseBoxes, MakeBox;
    match b
    case Leaf(code, payload) => ParseFirst(code, payload, rest);
    case Node(code, head, children) =>
      ParseAll(children);
      ParseFirst(code, head + SerializeAll(children), rest);
      SliceBack(head, SerializeAll(children));
      assert (head + SerializeAll(children))[..|head|] == head;
  }

  lemma {:induction false} ParseAll(bs: seq<Box>)
    requires AllShaped(bs) && |SerializeAll(bs)| < 0x1_0000_0000
    ensures ParseBoxes(SerializeAll(bs)) == Some(bs)
    decreases |SerializeAll(bs)|, 1
  {
    if bs != [] {
      ParseAll(bs[1..]);
      ParseOne(bs[0], SerializeAll(bs[1..]));
      hide ParseBoxes, Serialize, SerializeAll;
      assert [bs[0]] + bs[1..] == bs;
    }
  }

  /** A box reads back as the tree it was written from exactly when its size fits 32 bits. */
  lemma BoxRoundTripIff(b: Box)
    requires Shaped(b)
    ensures ParseBoxes(Serialize(b)) == Some([b]) <==> |Serialize(b)| < 0x1_0000_0000
  {
    var s := Serialize(b);
    assert s + [] == s;
    if |s| < 0x1_0000_0000 {
      ParseOne(b, []);
      assert [b] + [] == [b];
    } else if ParseBoxes(s) == Some([b]) {
      FromBEBound(s[..4]);
      Widths();
    }
  }

  // ---------- lists of boxes ----------

  lemma {:induction false} SerializeAppend(a: seq<Box>, b: seq<Box>)
    ensures SerializeAll(a + b) == SerializeAll(a) + SerializeAll(b)
  {
    hide Serialize;
    if a == [] {
      assert a + b == b;
    } else {
      assert (a + b)[1..] == a[1..] + b;
      SerializeAppend(a[1..], b);
    }
  }
}
