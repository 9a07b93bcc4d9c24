/** Frames of RFC 6455 section 5.2 as bytes: what the client writes, what it accepts. */
module WsCodec {
  import opened Basics

  /** An octet; bit k of b is (b / 2^k) % 2. */
  type Byte = n: nat | n < 256

  type Nibble = n: nat | n < 16

  type Mask = m: seq<Byte> | |m| == 4 witness [0, 0, 0, 0]

  /** The three ways section 5.2 allows a payload length to be written. */
  datatype LengthForm = Short | Medium | Long

  /** One frame on the wire; `form` need not be the shortest one, and a server may mask. */
  datatype RawFrame =
    Frame(fin: bool, opcode: Nibble, mask: Option<Mask>, form: LengthForm, payload: seq<Byte>)

  const MAX_LENGTH: nat := 0x8000_0000_0000_0000

  predicate Fits(form: LengthForm, length: nat) {
    match form
    case Short => length < 126
    case Medium => length <= 0xFFFF
    case Long => length < MAX_LENGTH
  }

  type WireFrame = f: RawFrame | Fits(f.form, |f.payload|) witness Frame(true, 1, None, Short, [])

  function Pow256(n: nat): (r: nat)
    ensures r > 0
  {
    if n == 0 then 1 else 256 * Pow256(n - 1)
  }

  /** Big-endian digits of n on exactly `width` bytes, dropping what does not fit. */
  function BigEndian(n: nat, width: nat): (s: seq<Byte>)
    ensures |s| == width
  {
    if width == 0 then [] else BigEndian(n / 256, width - 1) + [n % 256]
  }

  function FromBigEndian(s: seq<Byte>): nat {
    if s == [] then 0 else FromBigEndian(s[..|s| - 1]) * 256 + s[|s| - 1]
  }

  lemma {:induction false} DivBelow(n: nat, p: nat)
    requires n < 256 * p
    ensures n / 256 < p
  {
  }

  lemma {:induction false} BigEndianRoundTrip(n: nat, width: nat)
    requires n < Pow256(width)
    ensures FromBigEndian(BigEndian(n, width)) == n
  {
    if width > 0 {
      DivBelow(n, Pow256(width - 1));
      BigEndianRoundTrip(n / 256, width - 1);
      var s := BigEndian(n, width);
      assert s[..|s| - 1] == BigEndian(n / 256, width - 1);
    }
  }

  lemma {:induction false} FromBigEndianRoundTrip(s: seq<Byte>)
    ensures FromBigEndian(s) < Pow256(|s|)
    ensures BigEndian(FromBigEndian(s), |s|) == s
  {
    if s != [] {
      var front := s[..|s| - 1];
      FromBigEndianRoundTrip(front);
      var high, low := FromBigEndian(front), s[|s| - 1];
      assert (high * 256 + low) / 256 == high && (high * 256 + low) % 256 == low;
      assert s == front + [s[|s| - 1]];
    }
  }

  /** Exclusive or of the low `bits` bits. */
  function Xor(a: nat, b: nat, bits: nat): (r: nat)
    ensures r < Pow2(bits)
  {
    if bits == 0 then 0 else 2 * Xor(a / 2, b / 2, bits - 1) + (if a % 2 == b % 2 then 0 else 1)
  }

  function XorByte(a: Byte, b: Byte): Byte {
    assert Pow2(8) == 256;
    Xor(a, b, 8)
  }

  lemma {:induction false} XorTwice(a: nat, b: nat, bits: nat)
    requires a < Pow2(bits)
    ensures Xor(Xor(a, b, bits), b, bits) == a
  {
    if bits > 0 {
      XorTwice(a / 2, b / 2, bits - 1);
      var high, low := Xor(a / 2, b / 2, bits - 1), if a % 2 == b % 2 then 0 else 1;
      assert (2 * high + low) / 2 == high && (2 * high + low) % 2 == low;
    }
  }

  /** Bit k of n, counted from the lowest. */
  function Bit(n: nat, k: nat): nat {
    n / Pow2(k) % 2
  }

  lemma QuotientIs(n: nat, d: nat, q: nat, r: nat)
    requires n == q * d + r && r < d
    ensures n / d == q
  {
    var off := n / d - q;
    assert off * d == r - n % d;
    if off >= 1 { AtLeastOnce(off, d); }
    if -off >= 1 { AtLeastOnce(-off, d); }
  }

  lemma AtLeastOnce(x: int, d: nat)
    requires x >= 1
    ensures x * d >= d
  {
  }

  /** Dividing twice divides by the product. */
  lemma DivTwice(n: nat, a: nat, b: nat)
    requires a > 0 && b > 0
    ensures n / (a * b) == n / a / b
  {
    var m, low := n / a, n % a;
    var q, r := m / b, m % b;
    Product(q, b, r, a);
    ProductOf(n, m, a, low);
    ProductOf(m, q, b, r);
    Remainder(a, b, r, low);
    QuotientIs(n, a * b, q, r * a + low);
  }

  lemma ProductOf(n: nat, m: nat, a: nat, low: nat)
    requires a > 0 && m == n / a && low == n % a
    ensures n == m * a + low
  {
  }

  lemma Product(q: nat, b: nat, r: nat, a: nat)
    ensures (q * b + r) * a == q * (a * b) + r * a
  {
  }

  lemma Remainder(a: nat, b: nat, r: nat, low: nat)
    requires r < b && low < a
    ensures r * a + low < a * b
  {
    AtLeastOnce(b - r, a);
    assert (b - r) * a == a * b - r * a;
  }

  lemma BitStep(n: nat, k: nat)
    ensures Bit(n, k + 1) == Bit(n / 2, k)
  {
    DivTwice(n, 2, Pow2(k));
  }

  /** Bit by bit it is exclusive or: a bit of the result is set exactly when the two differ. */
  lemma {:induction false} XorBits(a: nat, b: nat, bits: nat, k: nat)
    requires k < bits
    ensures Bit(Xor(a, b, bits), k) == 1 <==> Bit(a, k) != Bit(b, k)
  {
    var r := Xor(a, b, bits);
    var high := Xor(a / 2, b / 2, bits - 1);
    assert r / 2 == high && r % 2 == if a % 2 == b % 2 then 0 else 1;
    if k == 0 {
      assert Pow2(0) == 1;
    } else {
      XorBits(a / 2, b / 2, bits - 1, k - 1);
      BitStep(r, k - 1);
      BitStep(a, k - 1);
      BitStep(b, k - 1);
    }
  }

  /** Section 5.3: octet i is combined with octet i modulo 4 of the key. */
  function ApplyMask(s: seq<Byte>, mask: Mask): (r: seq<Byte>)
    ensures |r| == |s|
    ensures forall i :: 0 <= i < |s| ==> r[i] == XorByte(s[i], mask[i % 4])
  {
    seq(|s|, i requires 0 <= i < |s| => XorByte(s[i], mask[i % 4]))
  }

  lemma MaskTwice(s: seq<Byte>, mask: Mask)
    ensures ApplyMask(ApplyMask(s, mask), mask) == s
  {
    assert Pow2(8) == 256;
    forall i | 0 <= i < |s| ensures ApplyMask(ApplyMask(s, mask), mask)[i] == s[i] {
      XorTwice(s[i], mask[i % 4], 8);
    }
  }

  function LengthCode(form: LengthForm, length: nat): Byte
    requires Fits(form, length)
  {
    match form
    case Short => length
    case Medium => 126
    case Long => 127
  }

  function LengthBytes(form: LengthForm, length: nat): seq<Byte> {
    match form
    case Short => []
    case Medium => BigEndian(length, 2)
    case Long => BigEndian(length, 8)
  }

  /** The payload as it travels. */
  function Masked(f: WireFrame): (s: seq<Byte>)
    ensures |s| == |f.payload|
  {
    if f.mask.Some? then ApplyMask(f.payload, f.mask.value) else f.payload
  }

  function Body(mask: Option<Mask>, payload: seq<Byte>): seq<Byte> {
    match mask
    case None => payload
    case Some(key) => key + ApplyMask(payload, key)
  }

  function HeadBytes(fin: bool, opcode: Nibble, masked: bool, form: LengthForm, length: nat): seq<Byte>
    requires Fits(form, length)
  {
    [(if fin then 0x80 else 0) + opcode, (if masked then 0x80 else 0) + LengthCode(form, length)]
    + LengthBytes(form, length)
  }

  function Head(f: WireFrame): seq<Byte> {
    HeadBytes(f.fin, f.opcode, f.mask.Some?, f.form, |f.payload|)
  }

  /** The layout of section 5.2, written down independently of the client's encoder. */
  function Serialize(f: WireFrame): seq<Byte> {
    Head(f) + Body(f.mask, f.payload)
  }

  // ------------------------------------------------------------------ reading

  datatype Header = Header(fin: bool, opcode: Nibble, masked: bool, length: nat, key: Mask)

  datatype HeaderResult =
    | HeaderOk(header: Header, rest: seq<Byte>)
    | HeaderTruncated
    | HeaderReserved(rest: seq<Byte>)
    | HeaderTooLarge(rest: seq<Byte>)

  const NO_KEY: Mask := [0, 0, 0, 0]

  /** The second half of the header: limit, then the key of a masked frame. */
  function FinishHeader(first: Byte, second: Byte, length: nat, s: seq<Byte>, maxFrame: nat): HeaderResult {
    if length > maxFrame then HeaderTooLarge(s)
    else if second < 0x80 then
      HeaderOk(Header(first >= 0x80, first % 16, false, length, NO_KEY), s)
    else if |s| < 4 then HeaderTruncated
    else HeaderOk(Header(first >= 0x80, first % 16, true, length, s[..4]), s[4..])
  }

  function ParseHeader(s: seq<Byte>, maxFrame: nat): HeaderResult {
    if |s| < 2 then HeaderTruncated
    else if s[0] / 16 % 8 != 0 then HeaderReserved(s[2..])
    else
      var code := s[1] % 128;
      if code == 126 then
        if |s| < 4 then HeaderTruncated
        else FinishHeader(s[0], s[1], FromBigEndian(s[2..4]), s[4..], maxFrame)
      else if code == 127 then
        if |s| < 10 then HeaderTruncated
        else FinishHeader(s[0], s[1], FromBigEndian(s[2..10]), s[10..], maxFrame)
      else FinishHeader(s[0], s[1], code, s[2..], maxFrame)
  }

  datatype Parse =
    | Parsed(fin: bool, opcode: Nibble, payload: seq<Byte>, rest: seq<Byte>)
    | Truncated
    | Reserved(rest: seq<Byte>)
    | TooLarge(rest: seq<Byte>)

  function Unmasked(h: Header, raw: seq<Byte>): seq<Byte> {
    if h.masked then ApplyMask(raw, h.key) else raw
  }

  function ParseFrame(s: seq<Byte>, maxFrame: nat): Parse {
    match ParseHeader(s, maxFrame)
    case HeaderTruncated => Truncated
    case HeaderReserved(rest) => Reserved(rest)
    case HeaderTooLarge(rest) => TooLarge(rest)
    case HeaderOk(h, rest) =>
      if |rest| < h.length then Truncated
      else Parsed(h.fin, h.opcode, Unmasked(h, rest[..h.length]), rest[h.length..])
  }

  /** Nothing is read for free: every parse but a truncated one consumes bytes. */
  lemma ParseConsumes(s: seq<Byte>, maxFrame: nat)
    ensures var p := ParseFrame(s, maxFrame); !p.Truncated? ==> |p.rest| + 2 <= |s|
  {
  }

  lemma Powers()
    ensures Pow256(2) == 0x1_0000 && Pow256(8) == 0x1_0000_0000_0000_0000
  {
    assert Pow256(4) == 0x1_0000_0000;
  }

  // --------------------------------------------------------- round trips

  ghost function HeaderOf(f: WireFrame): Header {
    Header(f.fin, f.opcode, f.mask.Some?, |f.payload|, if f.mask.Some? then f.mask.value else NO_KEY)
  }

  /** The length, in whichever form it is written, is read back before the key. */
  lemma LengthRoundTrip(first: Byte, second: Byte, form: LengthForm, n: nat, body: seq<Byte>, maxFrame: nat)
    requires Fits(form, n) && second % 128 == LengthCode(form, n) && first / 16 % 8 == 0
    ensures ParseHeader([first, second] + LengthBytes(form, n) + body, maxFrame)
            == FinishHeader(first, second, n, body, maxFrame)
  {
    var s := [first, second] + LengthBytes(form, n) + body;
    Powers();
    match form {
      case Short => assert s[2..] == body;
      case Medium =>
        BigEndianRoundTrip(n, 2);
        assert s[2..4] == BigEndian(n, 2) && s[4..] == body;
      case Long =>
        BigEndianRoundTrip(n, 8);
        assert s[2..10] == BigEndian(n, 8) && s[10..] == body;
    }
  }

  lemma HeadBits(f: WireFrame)
    ensures var first, second := Head(f)[0], Head(f)[1];
            && first / 16 % 8 == 0 && (first >= 0x80 <==> f.fin) && first % 16 == f.opcode
            && (second >= 0x80 <==> f.mask.Some?) && second % 128 == LengthCode(f.form, |f.payload|)
  {
  }

  lemma SerializeSplit(f: WireFrame, rest: seq<Byte>)
    ensures Serialize(f) + rest == [Head(f)[0], Head(f)[1]] + LengthBytes(f.form, |f.payload|)
                                   + (Body(f.mask, f.payload) + rest)
  {
    var lead, length := [Head(f)[0], Head(f)[1]], LengthBytes(f.form, |f.payload|);
    assert Head(f) == lead + length;
    assert lead + length + Body(f.mask, f.payload) + rest == lead + length + (Body(f.mask, f.payload) + rest);
  }

  lemma HeaderRoundTrip(f: WireFrame, rest: seq<Byte>, maxFrame: nat)
    ensures ParseHeader(Serialize(f) + rest, maxFrame) ==
            if |f.payload| > maxFrame then HeaderTooLarge(Body(f.mask, f.payload) + rest)
            else HeaderOk(HeaderOf(f), Masked(f) + rest)
  {
    var body := Body(f.mask, f.payload) + rest;
    HeadBits(f);
    LengthRoundTrip(Head(f)[0], Head(f)[1], f.form, |f.payload|, body, maxFrame);
    SerializeSplit(f, rest);
    if f.mask.Some? {
      assert body[..4] == f.mask.value;
      assert body[4..] == Masked(f) + rest;
    }
  }

  /** Reading back what section 5.2 lays out: same frame, and exactly the bytes that follow. */
  lemma ParseSerialize(f: WireFrame, rest: seq<Byte>, maxFrame: nat)
    ensures ParseFrame(Serialize(f) + rest, maxFrame) ==
            if |f.payload| <= maxFrame then Parsed(f.fin, f.opcode, f.payload, rest)
            else TooLarge(Body(f.mask, f.payload) + rest)
  {
    HeaderRoundTrip(f, rest, maxFrame);
    if |f.payload| <= maxFrame {
      var raw := Masked(f);
      assert (raw + rest)[..|f.payload|] == raw && (raw + rest)[|f.payload|..] == rest;
      if f.mask.Some? { MaskTwice(f.payload, f.mask.value); }
    }
  }

  /** The length form the second byte announces. */
  function FormOf(second: Byte): LengthForm {
    if second % 128 == 126 then Medium else if second % 128 == 127 then Long else Short
  }

  lemma SplitLength(s: seq<Byte>, k: nat)
    requires 2 + k <= |s|
    ensures s == [s[0], s[1]] + s[2..2 + k] + s[2 + k..]
  {
  }

  lemma {:induction false} LengthOfParse(s: seq<Byte>, maxFrame: nat) returns (n: nat, body: seq<Byte>)
    requires maxFrame < MAX_LENGTH
    requires ParseHeader(s, maxFrame).HeaderOk?
    ensures n <= maxFrame && Fits(FormOf(s[1]), n)
    ensures s == [s[0], s[1]] + LengthBytes(FormOf(s[1]), n) + body
    ensures s[1] % 128 == LengthCode(FormOf(s[1]), n) && s[0] / 16 % 8 == 0
    ensures ParseHeader(s, maxFrame) == FinishHeader(s[0], s[1], n, body, maxFrame)
  {
    match FormOf(s[1]) {
      case Short =>
        n, body := s[1] % 128, s[2..];
        SplitLength(s, 0);
      case Medium =>
        n, body := FromBigEndian(s[2..4]), s[4..];
        Powers();
        FromBigEndianRoundTrip(s[2..4]);
        SplitLength(s, 2);
      case Long =>
        n, body := FromBigEndian(s[2..10]), s[10..];
        FromBigEndianRoundTrip(s[2..10]);
        SplitLength(s, 8);
    }
  }

  function KeyBytes(h: Header): seq<Byte> {
    if h.masked then h.key else []
  }

  lemma FinishBytes(first: Byte, second: Byte, form: LengthForm, n: nat, body: seq<Byte>, maxFrame: nat)
    requires first / 16 % 8 == 0 && Fits(form, n) && second % 128 == LengthCode(form, n)
    requires FinishHeader(first, second, n, body, maxFrame).HeaderOk?
    ensures var HeaderOk(h, rest) := FinishHeader(first, second, n, body, maxFrame);
            && h.length == n && body == KeyBytes(h) + rest
            && HeadBytes(h.fin, h.opcode, h.masked, form, n) == [first, second] + LengthBytes(form, n)
  {
    if second >= 0x80 { assert body == body[..4] + body[4..]; }
  }

  lemma {:induction false} HeadOfParse(s: seq<Byte>, maxFrame: nat)
    requires maxFrame < MAX_LENGTH
    requires ParseHeader(s, maxFrame).HeaderOk?
    ensures var HeaderOk(h, rest) := ParseHeader(s, maxFrame);
            && h.length <= maxFrame && Fits(FormOf(s[1]), h.length)
            && s == HeadBytes(h.fin, h.opcode, h.masked, FormOf(s[1]), h.length) + KeyBytes(h) + rest
  {
    var n, body := LengthOfParse(s, maxFrame);
    FinishBytes(s[0], s[1], FormOf(s[1]), n, body, maxFrame);
    var HeaderOk(h, rest) := ParseHeader(s, maxFrame);
    Associate(HeadBytes(h.fin, h.opcode, h.masked, FormOf(s[1]), n), KeyBytes(h), rest);
  }

  function FrameOf(h: Header, form: LengthForm, raw: seq<Byte>): (f: WireFrame)
    requires |raw| == h.length && Fits(form, h.length)
  {
    Frame(h.fin, h.opcode, if h.masked then Some(h.key) else None, form, Unmasked(h, raw))
  }

  lemma FrameOfBytes(h: Header, form: LengthForm, raw: seq<Byte>)
    requires |raw| == h.length && Fits(form, h.length)
    ensures Serialize(FrameOf(h, form, raw))
            == HeadBytes(h.fin, h.opcode, h.masked, form, h.length) + (KeyBytes(h) + raw)
  {
    if h.masked { MaskTwice(raw, h.key); }
    assert Body(FrameOf(h, form, raw).mask, FrameOf(h, form, raw).payload)
           == KeyBytes(h) + raw;
  }

  lemma Regroup(a: seq<Byte>, b: seq<Byte>, c: seq<Byte>, cut: nat)
    requires cut <= |c|
    ensures a + b + c == a + (b + c[..cut]) + c[cut..]
  {
    assert c == c[..cut] + c[cut..];
  }

  /** The converse of ParseSerialize: whatever is accepted was a well-formed frame. */
  lemma SerializeParse(s: seq<Byte>, maxFrame: nat) returns (f: WireFrame)
    requires maxFrame < MAX_LENGTH
    requires ParseFrame(s, maxFrame).Parsed?
    ensures var p := ParseFrame(s, maxFrame);
            && |f.payload| <= maxFrame
            && f.fin == p.fin && f.opcode == p.opcode && f.payload == p.payload
            && s == Serialize(f) + p.rest
  {
    HeadOfParse(s, maxFrame);
    var HeaderOk(h, rest) := ParseHeader(s, maxFrame);
    f := FrameOf(h, FormOf(s[1]), rest[..h.length]);
    FrameOfBytes(h, FormOf(s[1]), rest[..h.length]);
    Regroup(HeadBytes(h.fin, h.opcode, h.masked, FormOf(s[1]), h.length),
            KeyBytes(h), rest, h.length);
  }

  /** No frame is a proper prefix of another, and equal bytes mean equal frames. */
  lemma PrefixFree(f: WireFrame, g: WireFrame)
    requires Serialize(f) <= Serialize(g)
    ensures Serialize(f) == Serialize(g)
    ensures f.fin == g.fin && f.opcode == g.opcode && f.payload == g.payload
  {
    var limit := |f.payload| + |g.payload|;
    var suffix := Serialize(g)[|Serialize(f)|..];
    assert Serialize(g) == Serialize(f) + suffix && Serialize(g) + [] == Serialize(g);
    ParseSerialize(f, suffix, limit);
    ParseSerialize(g, [], limit);
  }

  /** A frame cut short anywhere is recognised as truncated, never misread. */
  lemma ProperPrefixTruncated(f: WireFrame, cut: nat, maxFrame: nat)
    requires |f.payload| <= maxFrame < MAX_LENGTH
    requires cut < |Serialize(f)|
    ensures ParseFrame(Serialize(f)[..cut], maxFrame) == Truncated
  {
    var whole, s := Serialize(f), Serialize(f)[..cut];
    var head := 2 + |LengthBytes(f.form, |f.payload|)|;
    if head <= cut {
      var body := Body(f.mask, f.payload)[..cut - head];
      LengthRoundTrip(whole[0], whole[1], f.form, |f.payload|, body, maxFrame);
      assert s == [whole[0], whole[1]] + LengthBytes(f.form, |f.payload|) + body;
    }
  }

  // ------------------------------------------------------------- the encoder

  function MinimalForm(length: nat): LengthForm {
    if length < 126 then Short else if length <= 0xFFFF then Medium else Long
  }

  /** What the client sends for an opcode and a payload, given the random key. */
  function ClientFrame(opcode: Byte, payload: seq<Byte>, key: Mask): WireFrame
    requires |payload| < MAX_LENGTH
  {
    Frame(true, opcode % 16, Some(key), MinimalForm(|payload|), payload)
  }

  function Truncate(n: nat): Byte {
    n % 256
  }

  lemma TwoBytes(n: nat)
    ensures BigEndian(n, 2) == [Truncate(n / 256), Truncate(n)]
  {
    assert BigEndian(n / 256, 1) == BigEndian(n / 256 / 256, 0) + [Truncate(n / 256)];
  }

  /** Digit i of a big-endian number, counted from the highest. */
  lemma {:induction false} BigEndianDigit(n: nat, width: nat, i: nat)
    requires i < width
    ensures BigEndian(n, width)[i] == n / Pow256(width - 1 - i) % 256
  {
    if i == width - 1 {
      assert Pow256(0) == 1;
    } else {
      BigEndianDigit(n / 256, width - 1, i);
      DivTwice(n, 256, Pow256(width - 2 - i));
    }
  }

  lemma ClientHead(opcode: Byte, length: nat)
    requires length < MAX_LENGTH
    ensures HeadBytes(true, opcode % 16, true, MinimalForm(length), length)
            == [0x80 + opcode % 16]
               + if length < 126 then [0x80 + Truncate(length)]
                 else if length <= 0xFFFF then [0x80 + 126, Truncate(length / 256), Truncate(length)]
                 else [0x80 + 127] + BigEndian(length, 8)
  {
    if 126 <= length <= 0xFFFF { TwoBytes(length); }
  }

  /** The three length forms by appends, then the key, then the masked payload octet by octet. */
  method EncodeClientFrame(opcode: Byte, payload: seq<Byte>, key: Mask) returns (frame: seq<Byte>)
    requires |payload| < MAX_LENGTH
    ensures frame == Serialize(ClientFrame(opcode, payload, key))
  {
    var length := |payload|;
    frame := [0x80 + opcode % 16];
    if length < 126 {
      frame := frame + [0x80 + Truncate(length)];
    } else if length <= 0xFFFF {
      frame := frame + [0x80 + 126, Truncate(length / 256), Truncate(length)];
    } else {
      frame := frame + [0x80 + 127];
      frame := frame + BigEndian(length, 8);
    }
    ClientHead(opcode, length);
    ghost var head := HeadBytes(true, opcode % 16, true, MinimalForm(length), length);
    assert frame == head;
    frame := frame + key;
    ghost var masked := ApplyMask(payload, key);
    for index := 0 to length
      invariant frame == head + key + masked[..index]
    {
      frame := frame + [XorByte(payload[index], key[index % 4])];
      assert masked[..index + 1] == masked[..index] + [masked[index]];
    }
    assert masked[..length] == masked;
    Associate(head, key, masked);
  }

  /** On the wire, bit by bit: the key in the clear, then each octet of the payload against its octet of the key. */
  lemma WireBits(opcode: Byte, payload: seq<Byte>, key: Mask, i: nat, k: nat)
    requires i < |payload| < MAX_LENGTH && k < 8
    ensures var frame := Serialize(ClientFrame(opcode, payload, key));
            var at := |frame| - |payload|;
            && at >= 4 && frame[at - 4..at] == key
            && (Bit(frame[at + i], k) == 1 <==> Bit(payload[i], k) != Bit(key[i % 4], k))
  {
    var f := ClientFrame(opcode, payload, key);
    assert Serialize(f) == Head(f) + (key + ApplyMask(payload, key));
    XorBits(payload[i], key[i % 4], 8, k);
  }

  /** No masked frame with this payload is shorter, whatever length form it uses. */
  lemma ShortestForm(opcode: Byte, key: Mask, g: WireFrame)
    requires g.mask.Some?
    ensures |Serialize(ClientFrame(opcode, g.payload, key))| <= |Serialize(g)|
  {
  }

  /** Decoding the client's own frame: FIN, the low opcode bits, the payload, the bytes after. */
  lemma ClientFrameDecodes(opcode: Byte, payload: seq<Byte>, key: Mask, rest: seq<Byte>, maxFrame: nat)
    requires |payload| <= maxFrame < MAX_LENGTH
    ensures ParseFrame(Serialize(ClientFrame(opcode, payload, key)) + rest, maxFrame)
            == Parsed(true, opcode % 16, payload, rest)
    ensures |payload| + 6 <= |Serialize(ClientFrame(opcode, payload, key))| <= |payload| + 14
    ensures ParseHeader(Serialize(ClientFrame(opcode, payload, key)) + rest, maxFrame).header.masked
  {
    var f := ClientFrame(opcode, payload, key);
    ParseSerialize(f, rest, maxFrame);
    HeaderRoundTrip(f, rest, maxFrame);
  }
}
