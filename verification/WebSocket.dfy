/**
  The frame builder and parser of Src/ws.c, against the frame format of sections 5.2 and 5.3 of RFC 6455
  restricted to the lengths the parser supports (7 and 16 bits).
*/
module WebSocket {
  import opened Wrappers

  /** An unsigned char. Shifts and masks of a byte are written as division and remainder. */
  newtype Byte = b: int | 0 <= b < 256

  type Key = k: seq<Byte> | |k| == 4 witness [0, 0, 0, 0]

  // ---------- the format ----------

  /** `first` holds the FIN bit and the opcode; `long` says that the length is written in 16 bits. */
  datatype Frame = Frame(first: Byte, long: bool, key: Option<Key>, payload: seq<Byte>) {
    ghost predicate Valid() { |payload| <= if long then 0xFFFF else 125 }

    /** The one frame that closes the connection. */
    ghost predicate IsClose() { |payload| == 2 && first % 16 == 8 }
  }

  function Second(masked: bool, n: nat): Byte
    requires n < 128
  {
    (if masked then 128 + n else n) as Byte
  }

  function WordBytes(n: nat): seq<Byte>
    requires n < 0x1_0000
  {
    [(n / 256) as Byte, (n % 256) as Byte]
  }

  function Pow2(k: nat): nat { if k == 0 then 1 else 2 * Pow2(k - 1) }

  /** Exclusive or, bit by bit, of the k lowest bits. */
  function XorBits(k: nat, a: nat, b: nat): (r: nat)
    ensures r < Pow2(k)
  {
    if k == 0 then 0 else (if a % 2 == b % 2 then 0 else 1) + 2 * XorBits(k - 1, a / 2, b / 2)
  }

  function Xor(a: Byte, b: Byte): Byte {
    assert Pow2(8) == 256;
    XorBits(8, a as nat, b as nat) as Byte
  }

  /** Section 5.3 of RFC 6455. */
  function Masked(payload: seq<Byte>, key: Key): seq<Byte> {
    seq(|payload|, i requires 0 <= i < |payload| => Xor(payload[i], key[i % 4]))
  }

  ghost function Header(f: Frame): seq<Byte>
    requires f.Valid()
  {
    [f.first, Second(f.key.Some?, if f.long then 126 else |f.payload|)]
    + if f.long then WordBytes(|f.payload|) else []
  }

  ghost function Body(f: Frame): seq<Byte> {
    match f.key
    case None => f.payload
    case Some(key) => key + Masked(f.payload, key)
  }

  ghost function Encode(f: Frame): seq<Byte>
    requires f.Valid()
  {
    Header(f) + Body(f)
  }

  // ---------- the parser ----------

  /** Rejected is the result -1, Close the result -100. */
  datatype Result = Rejected | Close | Ok(payload: seq<Byte>)

  function MaskBit(b: Byte): bool { b / 128 != 0 }

  function Length7(b: Byte): nat { (b % 128) as nat }

  function Word(hi: Byte, lo: Byte): nat { hi as nat * 256 + lo as nat }

  /** The offset of the masking key or payload, and the payload's length, once the header is complete
      and its length supported. */
  function ReadHeader(data: seq<Byte>): Option<(nat, nat)> {
    if |data| < 2 then None
    else if Length7(data[1]) == 126 then
      if |data| < 4 then None else Some((4, Word(data[2], data[3])))
    else if Length7(data[1]) == 127 then None
    else Some((2, Length7(data[1])))
  }

  function Parse(data: seq<Byte>): Result {
    match ReadHeader(data)
    case None => Rejected
    case Some((at, n)) =>
      var from := if MaskBit(data[1]) then at + 4 else at;
      if |data| < from + n then Rejected
      else if n == 2 && data[0] % 16 == 8 then Close
      else if MaskBit(data[1]) then Ok(Masked(data[from..from + n], data[at..from]))
      else Ok(data[from..from + n])
  }

  /** The unmasking loop of parseWebSocketFrame. */
  method Unmask(data: seq<Byte>, key: Key) returns (payload: seq<Byte>)
    ensures payload == Masked(data, key)
  {
    payload := [];
    var i := 0;
    while i < |data|
      invariant 0 <= i <= |data| && |payload| == i
      invariant forall j | 0 <= j < i :: payload[j] == Xor(data[j], key[j % 4])
    {
      payload := payload + [Xor(data[i], key[i % 4])];
      i := i + 1;
    }
  }

  /** parseWebSocketFrame; the payload is meaningful when code is 0. */
  method ParseFrame(data: seq<Byte>) returns (code: int, payload: seq<Byte>)
    ensures Parse(data) == if code == 0 then Ok(payload) else if code == -100 then Close else Rejected
    ensures code in {0, -1, -100}
  {
    payload := [];
    if |data| < 2 { return -1, []; }
    var mask, len := MaskBit(data[1]), Length7(data[1]);
    var header := 2;
    if len == 126 {
      if |data| < 4 { return -1, []; }
      len := Word(data[2], data[3]);
      header := 4;
    } else if len == 127 {
      return -1, [];
    }
    assert ReadHeader(data) == Some((header, len));
    var total := header + (if mask then 4 else 0) + len;
    if |data| < total { return -1, []; }
    if len == 2 && data[0] % 16 == 8 { return -100, []; }
    if mask {
      payload := Unmask(data[header + 4..header + 4 + len], data[header..header + 4]);
    } else {
      payload := data[header..header + len];
    }
    code := 0;
  }

  // ---------- header bytes ----------

  lemma {:induction false} ReadSecond(masked: bool, n: nat)
    requires n < 128
    ensures MaskBit(Second(masked, n)) == masked && Length7(Second(masked, n)) == n
  {
  }

  lemma {:induction false} SecondRead(b: Byte)
    ensures Length7(b) < 128 && Second(MaskBit(b), Length7(b)) == b
  {
  }

  lemma {:induction false} ReadWord(n: nat)
    requires n < 0x1_0000
    ensures Word(WordBytes(n)[0], WordBytes(n)[1]) == n
  {
  }

  lemma {:induction false} WordRead(hi: Byte, lo: Byte)
    ensures Word(hi, lo) < 0x1_0000 && WordBytes(Word(hi, lo)) == [hi, lo]
  {
  }

  lemma {:induction false} MaskTwice(payload: seq<Byte>, key: Key)
    ensures Masked(Masked(payload, key), key) == payload
  {
    forall i | 0 <= i < |payload| ensures Masked(Masked(payload, key), key)[i] == payload[i] {
      XorTwice(payload[i], key[i % 4]);
    }
  }

  lemma {:induction false} XorTwice(a: Byte, b: Byte)
    ensures Xor(Xor(a, b), b) == a
  {
    assert Pow2(8) == 256;
    XorBitsTwice(8, a as nat, b as nat);
  }

  lemma {:induction false} XorBitsTwice(k: nat, a: nat, b: nat)
    requires a < Pow2(k)
    ensures XorBits(k, XorBits(k, a, b), b) == a
  {
    if k > 0 {
      XorBitsTwice(k - 1, a / 2, b / 2);
      var x, r := XorBits(k, a, b), XorBits(k - 1, a / 2, b / 2);
      assert x / 2 == r && x % 2 == if a % 2 == b % 2 then 0 else 1;
    }
  }

  // ---------- parsing undoes encoding ----------

  lemma {:induction false} HeaderLength(f: Frame)
    requires f.Valid()
    ensures |Header(f)| == (if f.long then 4 else 2)
    ensures |Body(f)| == |f.payload| + if f.key.Some? then 4 else 0
  {
  }

  /** Data that starts with a frame's header is read as that frame's header. */
  lemma {:induction false} ReadEncoded(f: Frame, data: seq<Byte>)
    requires f.Valid() && Header(f) <= data
    ensures data[0] == f.first && MaskBit(data[1]) == f.key.Some?
    ensures ReadHeader(data) == Some((|Header(f)|, |f.payload|))
  {
    var h := Header(f);
    assert data[0] == h[0] && data[1] == h[1];
    ReadSecond(f.key.Some?, if f.long then 126 else |f.payload|);
    if f.long {
      assert data[2] == h[2] && data[3] == h[3];
      ReadWord(|f.payload|);
    }
  }

  lemma {:induction false} Cut(h: seq<Byte>, b: seq<Byte>, rest: seq<Byte>)
    ensures (h + b + rest)[|h|..|h| + |b|] == b
  {
  }

  lemma {:induction false} BodyAt(h: seq<Byte>, f: Frame, rest: seq<Byte>)
    ensures var data, from := h + Body(f) + rest, |h| + if f.key.Some? then 4 else 0;
            && |data| >= from + |f.payload|
            && (f.key.Some? ==> data[|h|..from] == f.key.value)
            && data[from..from + |f.payload|] == if f.key.Some? then Masked(f.payload, f.key.value) else f.payload
  {
    if f.key.Some? {
      var key := f.key.value;
      var m := Masked(f.payload, key);
      assert h + Body(f) + rest == h + key + (m + rest);
      Cut(h, key, m + rest);
      assert h + key + (m + rest) == (h + key) + m + rest;
      Cut(h + key, m, rest);
    } else {
      Cut(h, f.payload, rest);
    }
  }

  /** Whatever follows, a frame is parsed to its payload, except the one close frame. */
  lemma {:induction false} ParseEncode(f: Frame, rest: seq<Byte>)
    requires f.Valid()
    ensures Parse(Encode(f) + rest) == if f.IsClose() then Close else Ok(f.payload)
  {
    var data, h, b := Encode(f) + rest, Header(f), Body(f);
    assert h <= data by { assert data == h + (b + rest); }
    ReadEncoded(f, data);
    HeaderLength(f);
    BodyAt(h, f, rest);
    if f.key.Some? { MaskTwice(f.payload, f.key.value); }
  }

  /** No strict prefix of a frame is accepted. */
  lemma {:induction false} PrefixRejected(f: Frame, k: nat)
    requires f.Valid() && k < |Encode(f)|
    ensures Parse(Encode(f)[..k]) == Rejected
  {
    var h, data := Header(f), Encode(f)[..k];
    HeaderLength(f);
    if k >= |h| {
      assert data[..|h|] == h;
      ReadEncoded(f, data);
    } else if k >= 2 {
      assert data[1] == h[1];
      ReadSecond(f.key.Some?, 126);
    }
  }

  // ---------- everything accepted is a frame ----------

  /** The frame at the front of accepted data. */
  ghost function FrameOf(data: seq<Byte>): Frame
    requires Parse(data) != Rejected
  {
    var (at, n) := ReadHeader(data).value;
    if MaskBit(data[1]) then Frame(data[0], at == 4, Some(data[at..at + 4]),
        Masked(data[at + 4..at + 4 + n], data[at..at + 4]))
    else Frame(data[0], at == 4, None, data[at..at + n])
  }

  lemma {:induction false} FrontHeader(data: seq<Byte>)
    requires Parse(data) != Rejected
    ensures FrameOf(data).Valid() && Header(FrameOf(data)) <= data
    ensures |Header(FrameOf(data))| == ReadHeader(data).value.0
  {
    var f := FrameOf(data);
    FrontFields(data);
    if f.long {
      LongHeader(data, f);
    } else {
      SecondRead(data[1]);
    }
  }

  lemma {:induction false} LongHeader(data: seq<Byte>, f: Frame)
    requires |data| >= 4 && f.long && f.first == data[0] && f.key.Some? == MaskBit(data[1])
    requires Length7(data[1]) == 126 && |f.payload| == Word(data[2], data[3])
    ensures f.Valid() && Header(f) == data[..4]
  {
    WordRead(data[2], data[3]);
    SecondRead(data[1]);
  }

  lemma {:induction false} FrontFields(data: seq<Byte>)
    requires Parse(data) != Rejected
    ensures var f, r := FrameOf(data), ReadHeader(data).value;
            && f.first == data[0] && f.key.Some? == MaskBit(data[1]) && |f.payload| == r.1
            && f.long == (Length7(data[1]) == 126) && r.0 == if f.long then 4 else 2
  {
  }

  lemma {:induction false} FrontBody(data: seq<Byte>)
    requires Parse(data) != Rejected
    ensures var b, at := Body(FrameOf(data)), ReadHeader(data).value.0;
            at + |b| <= |data| && b == data[at..at + |b|]
  {
    var (at, n) := ReadHeader(data).value;
    if MaskBit(data[1]) {
      MaskTwice(data[at + 4..at + 4 + n], data[at..at + 4]);
      Adjacent(data, at, at + 4, at + 4 + n);
    }
  }

  lemma {:induction false} Adjacent(data: seq<Byte>, i: nat, j: nat, k: nat)
    requires i <= j <= k <= |data|
    ensures data[i..j] + data[j..k] == data[i..k]
  {
  }

  lemma {:induction false} Joined(data: seq<Byte>, i: nat, j: nat)
    requires i <= j <= |data|
    ensures data[..i] + data[i..j] == data[..j] && data[..j] <= data
  {
  }

  /** Accepted data starts with the encoding of a frame. */
  lemma {:induction false} AcceptedIsFrame(data: seq<Byte>)
    requires Parse(data) != Rejected
    ensures FrameOf(data).Valid() && Encode(FrameOf(data)) <= data
  {
    FrontHeader(data);
    FrontBody(data);
    var h, b := Header(FrameOf(data)), Body(FrameOf(data));
    Joined(data, |h|, |h| + |b|);
    assert h == data[..|h|];
  }

  /** Parsing accepts exactly the data that starts with a frame, and says what that frame says. */
  lemma {:induction false} AcceptedIff(data: seq<Byte>)
    ensures Parse(data) != Rejected <==> exists f: Frame :: f.Valid() && Encode(f) <= data
    ensures forall f: Frame | f.Valid() && Encode(f) <= data ::
              Parse(data) == if f.IsClose() then Close else Ok(f.payload)
  {
    if Parse(data) != Rejected { AcceptedIsFrame(data); }
    forall f: Frame | f.Valid() && Encode(f) <= data
      ensures Parse(data) == if f.IsClose() then Close else Ok(f.payload)
    {
      assert data == Encode(f) + data[|Encode(f)|..];
      ParseEncode(f, data[|Encode(f)|..]);
    }
  }

  /** No data starts with two frames, so the format is unambiguous. */
  lemma {:induction false} Unambiguous(f: Frame, g: Frame, data: seq<Byte>)
    requires f.Valid() && g.Valid() && Encode(f) <= data && Encode(g) <= data
    ensures f == g
  {
    FrontIs(f, data);
    FrontIs(g, data);
  }

  lemma {:induction false} Whole(f: Frame, data: seq<Byte>)
    requires f.Valid() && Encode(f) <= data
    ensures data == Header(f) + Body(f) + data[|Encode(f)|..] && Header(f) <= data
  {
    assert Encode(f) == data[..|Encode(f)|];
    assert Header(f) == Encode(f)[..|Header(f)|];
  }

  lemma {:induction false} FrontIs(f: Frame, data: seq<Byte>)
    requires f.Valid() && Encode(f) <= data
    ensures Parse(data) != Rejected && FrameOf(data) == f
  {
    var rest, h := data[|Encode(f)|..], Header(f);
    Whole(f, data);
    ParseEncode(f, rest);
    ReadEncoded(f, data);
    HeaderLength(f);
    BodyAt(h, f, rest);
    if f.key.Some? { MaskTwice(f.payload, f.key.value); }
  }

  /** More bytes arriving never change what was accepted. */
  lemma {:induction false} AppendKeeps(data: seq<Byte>, more: seq<Byte>)
    requires Parse(data) != Rejected
    ensures Parse(data + more) == Parse(data)
  {
    AcceptedIsFrame(data);
    var f := FrameOf(data);
    AfterPrefix(Encode(f), data, more);
    var rest := data[|Encode(f)|..];
    ParseEncode(f, rest);
    ParseEncode(f, rest + more);
  }

  lemma {:induction false} AfterPrefix(e: seq<Byte>, data: seq<Byte>, more: seq<Byte>)
    requires e <= data
    ensures data == e + data[|e|..] && data + more == e + (data[|e|..] + more)
  {
  }

  // ---------- the builder ----------

  /** sendWebSocketFrame up to the call of send. */
  method BuildFrame(data: seq<Byte>) returns (frame: seq<Byte>)
    ensures frame == Built(data)
  {
    frame := [0x81];
    frame := frame + [(|data| % 128) as Byte];
    var i := 0;
    while i < |data|
      invariant 0 <= i <= |data| && frame == [0x81, (|data| % 128) as Byte] + data[..i]
    {
      frame := frame + [data[i]];
      i := i + 1;
    }
    assert data[..i] == data;
  }

  ghost function Built(data: seq<Byte>): seq<Byte> { [0x81, (|data| % 128) as Byte] + data }

  /** What is built is an unmasked text frame followed by whatever of the data its 7-bit length lost. */
  lemma {:induction false} BuiltTruncates(data: seq<Byte>)
    requires |data| % 128 <= 125
    ensures var n := |data| % 128;
            && Built(data) == Encode(Frame(0x81, false, None, data[..n])) + data[n..]
            && Parse(Built(data)) == Ok(data[..n])
  {
    var n := |data| % 128;
    BuiltStarts(data, n);
    ParseEncode(Frame(0x81, false, None, data[..n]), data[n..]);
  }

  lemma {:induction false} BuiltStarts(data: seq<Byte>, n: nat)
    requires n == |data| % 128 <= 125
    ensures Built(data) == Encode(Frame(0x81, false, None, data[..n])) + data[n..]
  {
    var f := Frame(0x81, false, None, data[..n]);
    assert data[..n] + data[n..] == data;
    assert Encode(f) == [0x81, n as Byte] + data[..n];
  }

  /** What a receiver makes of any built frame. */
  function Received(data: seq<Byte>): Result {
    var n := |data| % 128;
    if n <= 125 then Ok(data[..n])
    else if n == 127 then Rejected
    else
      var len := Word(data[0], data[1]);
      if |data| < 2 + len then Rejected else Ok(data[2..2 + len])
  }

  /** For data of every length: with a remainder of 127 the frame is rejected, and with 126 the first two
      bytes of the data are taken for its length. */
  lemma {:induction false} BuiltReceived(data: seq<Byte>)
    ensures Parse(Built(data)) == Received(data)
  {
    var n, b := |data| % 128, Built(data);
    if n <= 125 {
      BuiltTruncates(data);
    } else {
      ReadSecond(false, n);
      assert b[0] == 0x81 && b[1] == Second(false, n) && (0x81 as Byte) % 16 == 1;
      if n == 126 { LongPart(data, b); }
    }
  }

  lemma {:induction false} LongPart(data: seq<Byte>, b: seq<Byte>)
    requires |data| >= 2 && b == [0x81, 126] + data
    ensures b[2] == data[0] && b[3] == data[1]
    ensures var len := Word(data[0], data[1]); 2 + len <= |data| ==> b[4..4 + len] == data[2..2 + len]
  {
    var len := Word(data[0], data[1]);
    if 2 + len <= |data| {
      assert b[2..] == data;
      assert b[4..4 + len] == b[2..][2..2 + len];
    }
  }

  /** A built frame parses back exactly when the data fits a 7-bit length. */
  lemma {:induction false} ParseBuilt(data: seq<Byte>)
    ensures Parse(Built(data)) == Ok(data) <==> |data| <= 125
  {
    if |data| <= 125 {
      assert data[..|data|] == data;
    }
    BuiltReceived(data);
  }

  // ---------- bits and bytes on the wire ----------

  /** Bit j of a number, the lowest being bit 0. */
  function LowBit(a: nat, j: nat): bool { if j == 0 then a % 2 == 1 else LowBit(a / 2, j - 1) }

  function Bit(b: Byte, j: nat): bool
    requires j < 8
  {
    LowBit(b as nat, j)
  }

  function One(bit: bool): nat { if bit then 1 else 0 }

  /** The bits are those of the binary number. */
  lemma {:induction false} BitsOfByte(b: Byte)
    ensures b as nat == One(Bit(b, 0)) + 2 * One(Bit(b, 1)) + 4 * One(Bit(b, 2)) + 8 * One(Bit(b, 3))
                        + 16 * One(Bit(b, 4)) + 32 * One(Bit(b, 5)) + 64 * One(Bit(b, 6)) + 128 * One(Bit(b, 7))
  {
    LowBits(b as nat);
  }

  lemma {:induction false} LowBits(a: nat)
    requires a < 256
    ensures a == One(LowBit(a, 0)) + 2 * One(LowBit(a, 1)) + 4 * One(LowBit(a, 2)) + 8 * One(LowBit(a, 3))
                 + 16 * One(LowBit(a, 4)) + 32 * One(LowBit(a, 5)) + 64 * One(LowBit(a, 6)) + 128 * One(LowBit(a, 7))
  {
    var e := a / 2 / 2 / 2 / 2;
    LowFour(a);
    HighFour(a, e);
  }

  lemma {:induction false} FourBits(e: nat)
    requires e < 16
    ensures e == One(LowBit(e, 0)) + 2 * One(LowBit(e, 1)) + 4 * One(LowBit(e, 2)) + 8 * One(LowBit(e, 3))
  {
    LowFour(e);
    assert e / 2 < 8 && e / 2 / 2 < 4 && e / 2 / 2 / 2 < 2;
  }

  lemma {:induction false} LaterFour(a: nat, e: nat)
    requires e == a / 2 / 2 / 2 / 2
    ensures LowBit(a, 4) == LowBit(e, 0) && LowBit(a, 5) == LowBit(e, 1)
    ensures LowBit(a, 6) == LowBit(e, 2) && LowBit(a, 7) == LowBit(e, 3)
  {
    BitsLater(a, e, 0);
    BitsLater(a, e, 1);
    BitsLater(a, e, 2);
    BitsLater(a, e, 3);
  }

  lemma {:induction false} HighFour(a: nat, e: nat)
    requires e == a / 2 / 2 / 2 / 2 && e < 16
    ensures e == One(LowBit(a, 4)) + 2 * One(LowBit(a, 5)) + 4 * One(LowBit(a, 6)) + 8 * One(LowBit(a, 7))
  {
    LaterFour(a, e);
    FourBits(e);
  }

  lemma {:induction false} BitAt(a: nat, b: nat, c: nat, d: nat)
    requires b == a / 2 && c == b / 2 && d == c / 2
    ensures LowBit(a, 1) == LowBit(b, 0) && LowBit(a, 2) == LowBit(c, 0) && LowBit(a, 3) == LowBit(d, 0)
  {
    assert LowBit(a, 2) == LowBit(b, 1) && LowBit(a, 3) == LowBit(b, 2) && LowBit(b, 2) == LowBit(c, 1);
  }

  lemma {:induction false} BitsLater(a: nat, e: nat, j: nat)
    requires e == a / 2 / 2 / 2 / 2
    ensures LowBit(a, j + 4) == LowBit(e, j)
  {
    assert LowBit(a, j + 4) == LowBit(a / 2, j + 3) && LowBit(a / 2, j + 3) == LowBit(a / 2 / 2, j + 2);
    assert LowBit(a / 2 / 2, j + 2) == LowBit(a / 2 / 2 / 2, j + 1);
  }

  /** The four lowest bits of a number, and the rest. */
  lemma {:induction false} LowFour(a: nat)
    ensures a == One(LowBit(a, 0)) + 2 * One(LowBit(a, 1)) + 4 * One(LowBit(a, 2)) + 8 * One(LowBit(a, 3))
                 + 16 * (a / 2 / 2 / 2 / 2)
  {
    BitAt(a, a / 2, a / 2 / 2, a / 2 / 2 / 2);
  }

  lemma {:induction false} XorLowBit(k: nat, a: nat, b: nat, j: nat)
    requires j < k
    ensures LowBit(XorBits(k, a, b), j) <==> LowBit(a, j) != LowBit(b, j)
  {
    var x, r := XorBits(k, a, b), XorBits(k - 1, a / 2, b / 2);
    assert x / 2 == r && x % 2 == if a % 2 == b % 2 then 0 else 1;
    if j > 0 { XorLowBit(k - 1, a / 2, b / 2, j - 1); }
  }

  /** A bit of the result is set exactly when the two bits differ. */
  lemma {:induction false} XorBit(a: Byte, b: Byte, j: nat)
    requires j < 8
    ensures Bit(Xor(a, b), j) <==> Bit(a, j) != Bit(b, j)
  {
    assert Pow2(8) == 256;
    XorLowBit(8, a as nat, b as nat, j);
  }

  /** Masking, bit by bit: the key is used over and over from its first byte. */
  lemma {:induction false} MaskedBit(payload: seq<Byte>, key: Key, i: nat, j: nat)
    requires i < |payload| && j < 8
    ensures |Masked(payload, key)| == |payload|
    ensures Bit(Masked(payload, key)[i], j) <==> Bit(payload[i], j) != Bit(key[i % 4], j)
  {
    XorBit(payload[i], key[i % 4], j);
  }

  /** Each bit of `plain` is set exactly when that of the data and that of the key's turn differ. */
  ghost predicate Unmasks(plain: seq<Byte>, data: seq<Byte>, key: Key) {
    |plain| == |data| && forall i, j | 0 <= i < |data| && 0 <= j < 8 ::
      Bit(plain[i], j) <==> Bit(data[i], j) != Bit(key[i % 4], j)
  }

  lemma {:induction false} MaskedUnmasks(data: seq<Byte>, key: Key)
    ensures Unmasks(Masked(data, key), data, key)
  {
    forall i, j | 0 <= i < |data| && 0 <= j < 8
      ensures Bit(Masked(data, key)[i], j) <==> Bit(data[i], j) != Bit(key[i % 4], j)
    {
      MaskedBit(data, key, i, j);
    }
  }

  /** The header bytes of section 5.2 of RFC 6455 for n bytes of data: a 7-bit length, or 126 and a 16-bit
      length with its high byte first; 128 is the mask bit. */
  ghost predicate Heads(head: seq<Byte>, first: Byte, masked: bool, n: nat) {
    || (n <= 125 && head == [first, (if masked then 128 + n else n) as Byte])
    || (|head| == 4 && head[0] == first && head[1] == (if masked then 254 else 126)
        && n == 256 * head[2] as nat + head[3] as nat)
  }

  /** The frame on the wire. */
  ghost function Wire(head: seq<Byte>, key: Option<Key>, data: seq<Byte>): seq<Byte> {
    head + (if key.Some? then key.value else []) + data
  }

  lemma {:induction false} HeadIsHeader(head: seq<Byte>, f: Frame)
    requires Heads(head, f.first, f.key.Some?, |f.payload|) && f.long == (|head| == 4)
    ensures f.Valid() && Header(f) == head
  {
    if f.long { WordRead(head[2], head[3]); }
  }

  lemma {:induction false} WireIsFrame(head: seq<Byte>, first: Byte, key: Option<Key>, data: seq<Byte>)
    returns (f: Frame)
    requires Heads(head, first, key.Some?, |data|)
    ensures f.Valid() && f.first == first && Encode(f) == Wire(head, key, data)
    ensures f.payload == if key.Some? then Masked(data, key.value) else data
  {
    f := Frame(first, |head| == 4, key, if key.Some? then Masked(data, key.value) else data);
    HeadIsHeader(head, f);
    if key.Some? {
      MaskTwice(data, key.value);
      Regroup(head, key.value, data);
    } else {
      Regroup(head, [], data);
    }
  }

  lemma {:induction false} Regroup(a: seq<Byte>, b: seq<Byte>, c: seq<Byte>)
    ensures a + b + c == a + (b + c) && [] + c == c
  {
  }

  /** What arrives in those bytes, whatever follows: the data itself, or unmasked bit by bit, unless it is
      the frame of two bytes with opcode 8. */
  lemma {:induction false} ParseWire(head: seq<Byte>, first: Byte, key: Option<Key>, data: seq<Byte>, rest: seq<Byte>)
    requires Heads(head, first, key.Some?, |data|)
    ensures var r := Parse(Wire(head, key, data) + rest);
            if |data| == 2 && first % 16 == 8 then r == Close
            else r.Ok? && if key.Some? then Unmasks(r.payload, data, key.value) else r.payload == data
  {
    var f := WireIsFrame(head, first, key, data);
    ParseEncode(f, rest);
    if key.Some? { MaskedUnmasks(data, key.value); }
  }

  /** No part of it is accepted before all of it has arrived, and a 64-bit length never. */
  lemma {:induction false} PartRejected(head: seq<Byte>, first: Byte, key: Option<Key>, data: seq<Byte>, k: nat)
    requires Heads(head, first, key.Some?, |data|) && k < |Wire(head, key, data)|
    ensures Parse(Wire(head, key, data)[..k]) == Rejected
  {
    var f := WireIsFrame(head, first, key, data);
    PrefixRejected(f, k);
  }

  lemma {:induction false} LongLengthRejected(data: seq<Byte>)
    requires |data| >= 2 && (data[1] == 127 || data[1] == 255)
    ensures Parse(data) == Rejected
  {
  }

  /** The masked frame of "Hello" in section 5.7 of RFC 6455. */
  lemma {:induction false} Hello(head: seq<Byte>, key: Key, data: seq<Byte>, text: seq<Byte>)
    requires head == [0x81, 0x85] && key == [0x37, 0xFA, 0x21, 0x3D] && data == [0x7F, 0x9F, 0x4D, 0x51, 0x58]
    requires text == [0x48, 0x65, 0x6C, 0x6C, 0x6F]
    ensures Parse(head + key + data) == Ok(text)
  {
    HelloMasked(key, data, text);
    ParsesTo(head, 0x81, key, data, text);
  }

  lemma {:induction false} HelloMasked(key: Key, data: seq<Byte>, text: seq<Byte>)
    requires key == [0x37, 0xFA, 0x21, 0x3D] && data == [0x7F, 0x9F, 0x4D, 0x51, 0x58]
    requires text == [0x48, 0x65, 0x6C, 0x6C, 0x6F]
    ensures Masked(data, key) == text
  {
    HelloByte(data[0], key[0], text[0]);
    HelloByte(data[1], key[1], text[1]);
    HelloByte(data[2], key[2], text[2]);
    HelloByte(data[3], key[3], text[3]);
    HelloByte(data[4], key[0], text[4]);
    FiveMasked(data, key, text);
  }

  lemma {:induction false} FiveMasked(data: seq<Byte>, key: Key, text: seq<Byte>)
    requires |data| == |text| == 5 && Xor(data[0], key[0]) == text[0] && Xor(data[1], key[1]) == text[1]
    requires Xor(data[2], key[2]) == text[2] && Xor(data[3], key[3]) == text[3] && Xor(data[4], key[0]) == text[4]
    ensures Masked(data, key) == text
  {
  }

  lemma {:induction false} ParsesTo(head: seq<Byte>, first: Byte, key: Key, data: seq<Byte>, text: seq<Byte>)
    requires Heads(head, first, true, |data|) && |data| != 2 && Masked(data, key) == text
    ensures Parse(head + key + data) == Ok(text)
  {
    var f := WireIsFrame(head, first, Some(key), data);
    ParseEncode(f, []);
    assert Encode(f) + [] == head + key + data;
  }

  lemma {:induction false} HelloByte(d: Byte, k: Byte, c: Byte)
    requires (d == 0x7F && k == 0x37 && c == 0x48) || (d == 0x9F && k == 0xFA && c == 0x65)
             || (d == 0x4D && k == 0x21 && c == 0x6C) || (d == 0x51 && k == 0x3D && c == 0x6C)
             || (d == 0x58 && k == 0x37 && c == 0x6F)
    ensures Xor(d, k) == c
  {
  }
}
