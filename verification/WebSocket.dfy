/**
  * WebSocket framing (section 5.2 of RFC 6455) as built and parsed in src/network/websocket/websocket_frame.cc, and
  * the receive loop of src/network/websocket/websocket_server.cc.
  */
module WebSocket {
  import opened Bytes
  import opened Options
  import opened Sequences

  const TWO_64: nat := 0x1_0000_0000_0000_0000
  const NO_MASK: seq<byte> := [0, 0, 0, 0]
  const TEXT := 1
  const CLOSE := 8
  const PING := 9
  const PONG := 10

  datatype WsFrame = WsFrame(fin: bool, opcode: nat, masked: bool, mask: seq<byte>, payload: seq<byte>)

  /** 0 bytes consumed, a frame, or a length field so large that position plus length wraps 64 bits. */
  datatype ParseResult = NeedMore | Parsed(consumed: nat, frame: WsFrame) | LengthWraps

  function Masked(payload: seq<byte>, key: seq<byte>): (r: seq<byte>)
    requires |key| == 4
    ensures |r| == |payload|
  {
    seq(|payload|, i requires 0 <= i < |payload| => Xor(payload[i], key[i % 4]))
  }

  /** Size of the length field proper and where the data ends, from the first two bytes. */
  function ExtendedSize(d: seq<byte>): nat
    requires |d| >= 2
  {
    if d[1] % 128 == 126 then 2 else if d[1] % 128 == 127 then 8 else 0
  }

  function PayloadLength(d: seq<byte>): nat
    requires |d| >= 2 && |d| >= 2 + ExtendedSize(d)
  {
    if ExtendedSize(d) == 0 then d[1] % 128 else FromBE(d[2..2 + ExtendedSize(d)])
  }

  function Parse(d: seq<byte>): ParseResult {
    if |d| < 2 || |d| < 2 + ExtendedSize(d) then NeedMore
    else
      var masked, length := d[1] >= 128, PayloadLength(d);
      var pos := 2 + ExtendedSize(d) + (if masked then 4 else 0);
      if |d| < pos || |d| < (pos + length) % TWO_64 then NeedMore
      else if pos + length >= TWO_64 || |d| < pos + length then LengthWraps
      else
        var key := if masked then d[pos - 4..pos] else NO_MASK;
        var body := d[pos..pos + length];
        Parsed(pos + length,
               WsFrame(d[0] >= 128, d[0] % 16, masked, key, if masked then Masked(body, key) else body))
  }

  /** The parser as written: byte loops for the length and for unmasking. */
  method ParseFrame(d: seq<byte>) returns (r: ParseResult)
    ensures r == Parse(d)
  {
    hide FromBE, Masked;
    if |d| < 2 {
      return NeedMore;
    }
    var fin, opcode, masked := d[0] >= 128, d[0] % 16, d[1] >= 128;
    var length: nat := d[1] % 128;
    var pos: nat := 2;
    if length == 126 {
      if |d| < 4 {
        return NeedMore;
      }
      length := ReadLength(d[2..4]);
      pos := 4;
    } else if length == 127 {
      if |d| < 10 {
        return NeedMore;
      }
      length := ReadLength(d[2..10]);
      pos := 10;
    }
    assert length == PayloadLength(d) && pos == 2 + ExtendedSize(d);
    var key := NO_MASK;
    if masked {
      if |d| < pos + 4 {
        return NeedMore;
      }
      key := d[pos..pos + 4];
      pos := pos + 4;
    }
    if |d| < (pos + length) % TWO_64 {
      return NeedMore;
    }
    if pos + length >= TWO_64 {
      return LengthWraps;
    }
    var payload := d[pos..pos + length];
    if masked {
      payload := Unmask(payload, key);
    }
    r := Parsed(pos + length, WsFrame(fin, opcode, masked, key, payload));
  }

  method ReadLength(field: seq<byte>) returns (n: nat)
    ensures n == FromBE(field)
  {
    n := 0;
    for i := 0 to |field|
      invariant n == FromBE(field[..i])
    {
      assert field[..i + 1][..i] == field[..i];
      n := n * 256 + field[i] as int;
    }
    assert field[..|field|] == field;
  }

  method Unmask(data: seq<byte>, key: seq<byte>) returns (r: seq<byte>)
    requires |key| == 4
    ensures r == Masked(data, key)
  {
    hide XorBits;
    r := data;
    for i := 0 to |data|
      invariant |r| == |data|
      invariant forall k :: 0 <= k < i ==> r[k] == Xor(data[k], key[k % 4])
      invariant forall k :: i <= k < |data| ==> r[k] == data[k]
    {
      r := r[i := Xor(r[i], key[i % 4])];
    }
  }

  /**
    * The lengths the parser fails on, resizing the payload beyond what memory can hold: a complete header with an
    * 8-byte length that, added to the size of the header, passes 2^64.
    */
  lemma LengthWrapsIff(d: seq<byte>)
    ensures Parse(d).LengthWraps? <==>
            |d| >= 10 && d[1] % 128 == 127
            && var header := if d[1] >= 128 then 14 else 10; |d| >= header && FromBE(d[2..10]) >= TWO_64 - header
  {
    Widths();
    if |d| >= 2 && |d| >= 2 + ExtendedSize(d) {
      if ExtendedSize(d) > 0 {
        FromBEBound(d[2..2 + ExtendedSize(d)]);
      }
      hide FromBE, Masked, Pow256;
    }
  }

  /** Ten bytes that make the parser throw. */
  lemma LargestLengthWraps()
    ensures Parse([0x82, 0x7F] + BE(8, TWO_64 - 1)).LengthWraps?
  {
    hide BE, FromBE, Pow256, Parse;
    var length := BE(8, TWO_64 - 1);
    var d := [0x82, 0x7F] + length;
    Widths();
    FromBEOfBE(8, TWO_64 - 1);
    assert d[2..10] == length;
    LengthWrapsIff(d);
  }

  // ---------- frames on the wire ----------

  /** The three ways to write a length. */
  datatype Form = Short | Medium | Long

  predicate FormFits(form: Form, n: nat) {
    match form
    case Short => n < 126
    case Medium => n < 0x1_0000
    case Long => n < TWO_64 - 14
  }

  function LengthField(form: Form, masked: bool, n: nat): (f: seq<byte>)
    requires FormFits(form, n)
    ensures |f| == match form case Short => 1 case Medium => 3 case Long => 9
  {
    var bit := if masked then 128 else 0;
    match form
    case Short => [bit + n]
    case Medium => [bit + 126] + BE(2, n)
    case Long => [bit + 127] + BE(8, n)
  }

  predicate ValidFrame(f: WsFrame) {
    f.opcode < 16 && |f.mask| == 4 && (!f.masked ==> f.mask == NO_MASK)
  }

  /** First byte, length, key and masked payload of a frame, the length in any form that can hold it. */
  function Encode(f: WsFrame, form: Form): (w: seq<byte>)
    requires ValidFrame(f) && FormFits(form, |f.payload|)
    ensures |w| >= 2
  {
    [(if f.fin then 128 else 0) + f.opcode] + LengthField(form, f.masked, |f.payload|)
    + (if f.masked then f.mask + Masked(f.payload, f.mask) else f.payload)
  }

  lemma MaskTwice(payload: seq<byte>, key: seq<byte>)
    requires |key| == 4
    ensures Masked(Masked(payload, key), key) == payload
  {
    hide XorBits;
    var m := Masked(payload, key);
    forall i | 0 <= i < |payload| ensures Masked(m, key)[i] == payload[i] {
      XorTwice(payload[i], key[i % 4]);
    }
  }

  lemma XorTwice(a: byte, b: byte)
    ensures Xor(Xor(a, b), b) == a
  {
    XorIsByte(a, b);
  }

  /** The header alone decides where a frame ends. */
  lemma HeaderOf(f: WsFrame, form: Form, rest: seq<byte>)
    requires ValidFrame(f) && FormFits(form, |f.payload|)
    ensures
      var w := Encode(f, form) + rest;
      var ext := match form case Short => 0 case Medium => 2 case Long => 8;
      && w[0] == (if f.fin then 128 else 0) + f.opcode
      && (w[1] >= 128 <==> f.masked) && ExtendedSize(w) == ext && PayloadLength(w) == |f.payload|
  {
    var w, n := Encode(f, form) + rest, |f.payload|;
    var lf := LengthField(form, f.masked, n);
    Widths();
    assert w[1..1 + |lf|] == lf;
    assert w[1] == lf[0];
    match form
    case Short =>
    case Medium =>
      FromBEOfBE(2, n);
      assert w[2..4] == lf[1..] == BE(2, n);
    case Long =>
      FromBEOfBE(8, n);
      assert w[2..10] == lf[1..] == BE(8, n);
  }

  function HeaderSize(f: WsFrame, form: Form): nat {
    2 + (match form case Short => 0 case Medium => 2 case Long => 8) + (if f.masked then 4 else 0)
  }

  lemma EncodedParts(f: WsFrame, form: Form, rest: seq<byte>)
    requires ValidFrame(f) && FormFits(form, |f.payload|)
    ensures
      var w, pos := Encode(f, form) + rest, HeaderSize(f, form);
      && |Encode(f, form)| == pos + |f.payload|
      && (f.masked ==> w[pos - 4..pos] == f.mask)
      && w[pos..pos + |f.payload|] == if f.masked then Masked(f.payload, f.mask) else f.payload
  {
    hide BE, Masked, Xor;
    var head := [(if f.fin then 128 else 0) + f.opcode] + LengthField(form, f.masked, |f.payload|);
    if f.masked {
      var m := Masked(f.payload, f.mask);
      assert Encode(f, form) + rest == head + f.mask + (m + rest) == (head + f.mask) + m + rest;
      SliceMiddle(head, f.mask, m + rest);
      SliceMiddle(head + f.mask, m, rest);
    } else {
      assert Encode(f, form) + rest == head + f.payload + rest;
      SliceMiddle(head, f.payload, rest);
    }
  }

  lemma HeaderSizeIs(f: WsFrame, form: Form)
    requires FormFits(form, |f.payload|)
    ensures HeaderSize(f, form) == 2 + (match form case Short => 0 case Medium => 2 case Long => 8)
            + (if f.masked then 4 else 0)
    ensures HeaderSize(f, form) + |f.payload| < TWO_64
  {
  }

  /** Parsing inverts encoding, whatever bytes follow. */
  lemma ParseInvertsEncode(f: WsFrame, form: Form, rest: seq<byte>)
    requires ValidFrame(f) && FormFits(form, |f.payload|)
    ensures Parse(Encode(f, form) + rest) == Parsed(|Encode(f, form)|, f)
  {
    hide Encode, Masked, ExtendedSize, PayloadLength, LengthField, HeaderSize;
    HeaderOf(f, form, rest);
    EncodedParts(f, form, rest);
    HeaderSizeIs(f, form);
    MaskTwice(f.payload, f.mask);
  }

  /** An answer never changes when more bytes arrive. */
  lemma ParseExtends(d: seq<byte>, more: seq<byte>)
    ensures Parse(d).Parsed? ==> Parse(d + more) == Parse(d) && 2 <= Parse(d).consumed <= |d|
    ensures Parse(d).LengthWraps? ==> Parse(d + more).LengthWraps?
  {
    hide Masked;
    if !Parse(d).NeedMore? {
      HeaderSame(d, more);
      hide ExtendedSize, PayloadLength;
      var pos := 2 + ExtendedSize(d) + (if d[1] >= 128 then 4 else 0);
      if Parse(d).Parsed? {
        SliceFront(d, more, pos, pos + PayloadLength(d));
        if d[1] >= 128 {
          SliceFront(d, more, pos - 4, pos);
        }
      }
    }
  }

  lemma HeaderSame(d: seq<byte>, more: seq<byte>)
    requires |d| >= 2 && |d| >= 2 + ExtendedSize(d)
    ensures ExtendedSize(d + more) == ExtendedSize(d) && PayloadLength(d + more) == PayloadLength(d)
  {
    SliceFront(d, more, 2, 2 + ExtendedSize(d));
  }

  /** Every proper prefix of a frame asks for more. */
  lemma PrefixNeedsMore(f: WsFrame, form: Form, k: nat)
    requires ValidFrame(f) && FormFits(form, |f.payload|) && k < |Encode(f, form)|
    ensures Parse(Encode(f, form)[..k]) == NeedMore
  {
    var w := Encode(f, form);
    ParseInvertsEncode(f, form, []);
    assert w + [] == w;
    assert w[..k] + w[k..] == w;
    ParseExtends(w[..k], w[k..]);
    hide Parse;
  }

  /** The frames a server sends. */
  function FormOf(n: nat): Form {
    if n < 126 then Short else if n <= 0xFFFF then Medium else Long
  }

  function BuildTextFrame(text: seq<byte>): seq<byte> {
    var n := |text|;
    [0x81] + (if n < 126 then [n] else if n <= 0xFFFF then [126] + BE(2, n) else [127] + BE(8, n)) + text
  }

  function BuildPongFrame(payload: seq<byte>): seq<byte> {
    var n := |payload|;
    [0x8A] + (if n < 126 then [n] else [126] + BE(2, n)) + payload
  }

  function BuildCloseFrame(code: nat): seq<byte> {
    [0x88, 2] + BE(2, code)
  }

  lemma TextFrameParses(text: seq<byte>)
    requires |text| < TWO_64 - 14
    ensures Parse(BuildTextFrame(text)) == Parsed(|BuildTextFrame(text)|, WsFrame(true, TEXT, false, NO_MASK, text))
  {
    var f, form := WsFrame(true, TEXT, false, NO_MASK, text), FormOf(|text|);
    assert BuildTextFrame(text) == Encode(f, form);
    ParseInvertsEncode(f, form, []);
    assert Encode(f, form) + [] == Encode(f, form);
  }

  lemma CloseFrameParses(code: nat)
    requires code < 0x1_0000
    ensures
      var r := Parse(BuildCloseFrame(code));
      r.Parsed? && r.consumed == 4 && r.frame.opcode == CLOSE && FromBE(r.frame.payload) == code
  {
    var f := WsFrame(true, CLOSE, false, NO_MASK, BE(2, code));
    assert BuildCloseFrame(code) == Encode(f, Short);
    ParseInvertsEncode(f, Short, []);
    assert Encode(f, Short) + [] == Encode(f, Short);
    Widths();
    FromBEOfBE(2, code);
  }

  /** A pong echoes its payload exactly when that fits the 16-bit length it always writes. */
  lemma PongEchoesIff(payload: seq<byte>)
    ensures
      var w := BuildPongFrame(payload);
      Parse(w) == Parsed(|w|, WsFrame(true, PONG, false, NO_MASK, payload)) <==> |payload| < 0x1_0000
  {
    var w, f := BuildPongFrame(payload), WsFrame(true, PONG, false, NO_MASK, payload);
    if |payload| < 0x1_0000 {
      var form := if |payload| < 126 then Short else Medium;
      assert w == Encode(f, form);
      ParseInvertsEncode(f, form, []);
      assert Encode(f, form) + [] == Encode(f, form);
    } else {
      LongPong(payload);
    }
  }

  lemma LongPong(payload: seq<byte>)
    requires |payload| >= 0x1_0000
    ensures Parse(BuildPongFrame(payload)).Parsed?
            ==> Parse(BuildPongFrame(payload)).consumed < |BuildPongFrame(payload)|
  {
    var w := BuildPongFrame(payload);
    Widths();
    FromBEBound(BE(2, |payload|));
    assert w[1] == 126 && w[2..4] == BE(2, |payload|);
    hide BuildPongFrame, BE, FromBE;
  }

  /** A pong of 65536 zero bytes reads as one without payload. */
  lemma PongTooLong()
    ensures Parse(BuildPongFrame(seq(0x1_0000, _ => 0))) == Parsed(4, WsFrame(true, PONG, false, NO_MASK, []))
  {
    PongOfZeros(seq(0x1_0000, _ => 0));
  }

  lemma PongOfZeros(payload: seq<byte>)
    requires |payload| == 0x1_0000
    ensures Parse(BuildPongFrame(payload)) == Parsed(4, WsFrame(true, PONG, false, NO_MASK, []))
  {
    var w, field := BuildPongFrame(payload), BE(2, |payload|);
    ZeroField(|payload|);
    assert w[0] == 0x8A && w[1] == 126 && w[2..4] == field && w[4..4] == [];
    hide BuildPongFrame, BE, FromBE;
  }

  lemma ZeroField(n: nat)
    requires n == 0x1_0000
    ensures FromBE(BE(2, n)) == 0
  {
    assert BE(1, n / 256) == BE(0, n / 256 / 256) + [0];
    assert BE(2, n) == BE(1, n / 256) + [0];
    var b := BE(2, n);
    assert b == [0, 0] && b[..1] == [0] && b[..1][..0] == [];
    assert FromBE(b[..1]) == 0;
  }

  // ---------- the receive loop ----------

  /** All complete frames at the front of a buffer, and what is left. */
  function Drain(buffer: seq<byte>): (seq<WsFrame>, seq<byte>)
    decreases |buffer|
  {
    var r := Parse(buffer);
    if r.Parsed? && 0 < r.consumed <= |buffer| then
      var (fs, left) := Drain(buffer[r.consumed..]);
      ([r.frame] + fs, left)
    else ([], buffer)
  }

  /** Draining early loses nothing: the rest continues with what was left. */
  lemma {:induction false} DrainAppend(a: seq<byte>, b: seq<byte>)
    ensures
      var (fs, left) := Drain(a);
      Drain(a + b) == (fs + Drain(left + b).0, Drain(left + b).1)
    decreases |a|
  {
    ParseExtends(a, b);
    hide Parse;
    var r := Parse(a);
    if r.Parsed? {
      var rest := a[r.consumed..];
      assert (a + b)[r.consumed..] == rest + b;
      DrainAppend(rest, b);
      var (fs, left) := Drain(rest);
      assert [r.frame] + (fs + Drain(left + b).0) == [r.frame] + fs + Drain(left + b).0;
    } else {
      assert [] + Drain(a + b).0 == Drain(a + b).0;
    }
  }

  predicate HasClose(fs: seq<WsFrame>) {
    exists i :: 0 <= i < |fs| && fs[i].opcode == CLOSE
  }

  /** Neither a close frame handed over nor a length left that makes the parser throw. */
  predicate GoesOn(drained: (seq<WsFrame>, seq<byte>)) {
    !HasClose(drained.0) && !Parse(drained.1).LengthWraps?
  }

  /**
    * Appends each chunk, takes out every complete frame, stops reading after a close. `thrown` says that parsing what
    * is left threw, which ends the loop too.
    */
  method HandleClient(chunks: seq<seq<byte>>)
    returns (frames: seq<WsFrame>, buffer: seq<byte>, read: nat, thrown: bool)
    ensures read <= |chunks| && (frames, buffer) == Drain(Flatten(chunks[..read]))
    ensures thrown <==> Parse(buffer).LengthWraps?
    ensures read < |chunks| ==> HasClose(frames) || thrown
    ensures forall k :: 0 <= k < read ==> GoesOn(Drain(Flatten(chunks[..k])))
  {
    hide Parse;
    frames, buffer, read, thrown := [], [], 0, false;
    DrainNothing();
    assert chunks[..0] == [];
    var active := true;
    while active && !thrown && read < |chunks|
      invariant read <= |chunks| && (frames, buffer) == Drain(Flatten(chunks[..read]))
      invariant active == !HasClose(frames) && (thrown <==> Parse(buffer).LengthWraps?)
      invariant forall k :: 0 <= k < read ==> GoesOn(Drain(Flatten(chunks[..k])))
      decreases |chunks| - read
    {
      ghost var bytes := Flatten(chunks[..read]);
      assert chunks[..read + 1] == chunks[..read] + [chunks[read]];
      FlattenSnoc(chunks[..read], chunks[read]);
      DrainAppend(bytes, chunks[read]);
      var got, left;
      got, left, thrown := DrainBuffer(buffer + chunks[read]);
      HasCloseAppend(frames, got);
      active := !HasClose(got);
      frames := frames + got;
      buffer := left;
      read := read + 1;
    }
  }

  lemma DrainNothing()
    ensures Drain([]) == ([], []) && Flatten<byte>([]) == [] && Parse([]) == NeedMore
  {
  }

  lemma HasCloseAppend(a: seq<WsFrame>, b: seq<WsFrame>)
    ensures HasClose(a + b) <==> HasClose(a) || HasClose(b)
  {
    if HasClose(a) {
      var i :| 0 <= i < |a| && a[i].opcode == CLOSE;
      assert (a + b)[i].opcode == CLOSE;
    }
    if HasClose(b) {
      var i :| 0 <= i < |b| && b[i].opcode == CLOSE;
      assert (a + b)[|a| + i].opcode == CLOSE;
    }
  }

  /** The inner loop: parse, erase what was consumed, repeat. */
  method DrainBuffer(start: seq<byte>) returns (frames: seq<WsFrame>, buffer: seq<byte>, thrown: bool)
    ensures (frames, buffer) == Drain(start) && (thrown <==> Parse(buffer).LengthWraps?)
  {
    hide *;
    frames, buffer, thrown := [], start, false;
    while |buffer| > 0
      invariant Drain(start).0 == frames + Drain(buffer).0 && Drain(start).1 == Drain(buffer).1
      decreases |buffer|
    {
      var r := ParseFrame(buffer);
      DrainStep(buffer);
      if !r.Parsed? {
        assert frames + [] == frames;
        thrown := r.LengthWraps?;
        return;
      }
      frames := frames + [r.frame];
      buffer := buffer[r.consumed..];
    }
    DrainNothing();
    assert buffer == [] && frames + [] == frames;
  }

  lemma DrainStep(buffer: seq<byte>)
    ensures var r := Parse(buffer);
            if r.Parsed? then
              && 2 <= r.consumed <= |buffer|
              && Drain(buffer) == ([r.frame] + Drain(buffer[r.consumed..]).0, Drain(buffer[r.consumed..]).1)
            else Drain(buffer) == ([], buffer)
  {
    ParseExtends(buffer, []);
    hide Parse;
  }

  predicate Encodable(fs: seq<WsFrame>, forms: seq<Form>) {
    |fs| == |forms| && forall k :: 0 <= k < |fs| ==> ValidFrame(fs[k]) && FormFits(forms[k], |fs[k].payload|)
  }

  function Wire(fs: seq<WsFrame>, forms: seq<Form>): seq<byte>
    requires Encodable(fs, forms)
  {
    if fs == [] then [] else Encode(fs[0], forms[0]) + Wire(fs[1..], forms[1..])
  }

  lemma {:induction false} DrainOfWire(fs: seq<WsFrame>, forms: seq<Form>)
    requires Encodable(fs, forms)
    ensures Drain(Wire(fs, forms)) == (fs, [])
  {
    hide Parse, Encode, FormFits;
    if fs == [] {
      DrainNothing();
    } else {
      var w, rest := Encode(fs[0], forms[0]), Wire(fs[1..], forms[1..]);
      ParseInvertsEncode(fs[0], forms[0], rest);
      assert (w + rest)[|w|..] == rest;
      DrainOfWire(fs[1..], forms[1..]);
      assert [fs[0]] + fs[1..] == fs;
    }
  }

  /**
    * Frames survive any chunking: whatever pieces a sequence of frames arrives in, the loop hands over those
    * frames in order, all of them with an empty buffer unless one of those handed over asks to close, and never throws.
    */
  lemma FramesSurviveChunking(fs: seq<WsFrame>, forms: seq<Form>, chunks: seq<seq<byte>>, frames: seq<WsFrame>,
                              buffer: seq<byte>, read: nat)
    requires Encodable(fs, forms) && Flatten(chunks) == Wire(fs, forms)
    requires read <= |chunks| && (frames, buffer) == Drain(Flatten(chunks[..read]))
    requires read < |chunks| ==> HasClose(frames) || Parse(buffer).LengthWraps?
    ensures |frames| <= |fs| && frames == fs[..|frames|]
    ensures !Parse(buffer).LengthWraps?
    ensures !HasClose(frames) ==> read == |chunks| && frames == fs && buffer == []
  {
    hide Parse, Encode, Encodable, Wire;
    DrainOfWire(fs, forms);
    assert chunks == chunks[..read] + chunks[read..];
    FlattenAppend(chunks[..read], chunks[read..]);
    DrainAppend(Flatten(chunks[..read]), Flatten(chunks[read..]));
    var rest := Flatten(chunks[read..]);
    assert fs == frames + Drain(buffer + rest).0;
    assert chunks[..|chunks|] == chunks;
    if Parse(buffer).LengthWraps? {
      ParseExtends(buffer, rest);
      DrainStep(buffer + rest);
      DrainNothing();
    }
  }
}
