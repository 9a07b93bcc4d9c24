/** A client connection: the reader loop, the writer, and whole runs of calls on them. */
module WsConnection {
  import opened Basics
  import opened WsCodec

  const CONTINUATION: Nibble := 0x0
  const TEXT: Nibble := 0x1
  const BINARY: Nibble := 0x2
  const CLOSE: Nibble := 0x8
  const PING: Nibble := 0x9
  const PONG: Nibble := 0xA

  /** What the reader finds after the last byte: end of stream, or another read failure. */
  datatype Ending = EndOfStream | Failing

  /** `room` is how many bytes the transport takes before it fails; None when it never does. */
  datatype Settings = Settings(maxFrame: nat, keys: nat -> Mask, ending: Ending, room: Option<nat>)

  type Config = c: Settings | 0 < c.maxFrame < MAX_LENGTH
    witness Settings(1, (_: nat) => NO_KEY, EndOfStream, None)

  datatype Wire =
    Wire(unread: seq<Byte>, closedOnce: bool, open: bool, written: seq<Byte>, drawn: nat)

  datatype ReadResult =
    | Text(payload: seq<Byte>)
    | Closed
    | ClosedWithCode(code: nat)
    | Fragmented
    | UnexpectedOpcode(opcode: Nibble)
    | ReservedBits
    | FrameTooLarge
    | Transport

  datatype WriteResult = Written | WriteTooLarge | WriteFailed

  // ------------------------------------------------------------ specification

  function Accepts(c: Config, w: Wire, frame: seq<Byte>): bool {
    w.open && (c.room.None? || |w.written| + |frame| <= c.room.value)
  }

  /** The part of a frame that leaves before the transport fails. */
  function Emitted(c: Config, w: Wire, frame: seq<Byte>): seq<Byte> {
    if !w.open then []
    else if Accepts(c, w, frame) then frame
    else if |w.written| >= c.room.value then []
    else frame[..c.room.value - |w.written|]
  }

  function WriteSpec(c: Config, w: Wire, opcode: Nibble, payload: seq<Byte>): (WriteResult, Wire) {
    if |payload| > c.maxFrame then (WriteTooLarge, w)
    else
      var frame := Serialize(ClientFrame(opcode, payload, c.keys(w.drawn)));
      (if Accepts(c, w, frame) then Written else WriteFailed,
       w.(written := w.written + Emitted(c, w, frame), drawn := w.drawn + 1))
  }

  function ClosePayload(code: nat, reason: seq<Byte>): seq<Byte>
  {
    BigEndian(code, 2) + (if |reason| > 123 then reason[..123] else reason)
  }

  const REASON: seq<Byte> := [0x63, 0x6c, 0x69, 0x65, 0x6e, 0x74, 0x20, 0x63, 0x6c, 0x6f, 0x73, 0x65, 0x64]

  function CloseCode(payload: seq<Byte>): nat {
    if |payload| >= 2 then FromBigEndian(payload[..2]) else 1000
  }

  /** The code of a close frame is read back, whatever the reason, and the payload keeps to 125 octets (section 5.5). */
  lemma CloseCodeRoundTrip(code: nat, reason: seq<Byte>)
    requires code < 0x1_0000
    ensures CloseCode(ClosePayload(code, reason)) == code
    ensures |ClosePayload(code, reason)| <= 125 && ClosePayload(code, reason)[2..] <= reason
    ensures |reason| <= 123 ==> ClosePayload(code, reason)[2..] == reason
  {
    var digits := BigEndian(code, 2);
    assert Pow256(1) == 256 * Pow256(0) && Pow256(2) == 256 * Pow256(1);
    BigEndianRoundTrip(code, 2);
    assert ClosePayload(code, reason)[..2] == digits;
  }

  /** A payload too short for a code counts as a normal closure. */
  lemma NoCloseCode(payload: seq<Byte>)
    ensures |payload| < 2 ==> CloseCode(payload) == 1000
    ensures |payload| >= 2 ==> CloseCode(payload) == 256 * (payload[0] as nat) + payload[1] as nat
  {
    if |payload| >= 2 {
      var s := payload[..2];
      assert s[..1] == [payload[0]] && s[..1][..0] == [];
      assert FromBigEndian(s[..1]) == payload[0];
    }
  }

  function Exhausted(c: Config, w: Wire): (ReadResult, Wire) {
    if c.ending.EndOfStream? then (Closed, w.(unread := [], closedOnce := true))
    else (Transport, w.(unread := []))
  }

  /** What one data or close frame means to the caller; pings and pongs never reach it. */
  function Deliver(c: Config, w: Wire, fin: bool, opcode: Nibble, payload: seq<Byte>): (ReadResult, Wire) {
    if opcode == CLOSE then
      (ClosedWithCode(CloseCode(payload)),
       WriteSpec(c, w.(closedOnce := true), CLOSE, ClosePayload(1000, [])).1)
    else if opcode == CONTINUATION then (Fragmented, w)
    else if opcode == TEXT then (if fin then Text(payload) else Fragmented, w)
    else if opcode == BINARY then (if fin then UnexpectedOpcode(BINARY) else Fragmented, w)
    else (UnexpectedOpcode(opcode), w)
  }

  /** One call to the reader, as a function of the bytes still to come. */
  function ReadSpec(c: Config, w: Wire): (ReadResult, Wire)
    decreases |w.unread|
  {
    if w.closedOnce then (Closed, w)
    else
      ParseConsumes(w.unread, c.maxFrame);
      match ParseFrame(w.unread, c.maxFrame)
      case Truncated => Exhausted(c, w)
      case Reserved(rest) => (ReservedBits, w.(unread := rest))
      case TooLarge(rest) => (FrameTooLarge, w.(unread := rest))
      case Parsed(fin, opcode, payload, rest) =>
        var w' := w.(unread := rest);
        if opcode == PING then
          var (sent, w'') := WriteSpec(c, w', PONG, payload);
          if sent.Written? then ReadSpec(c, w'') else (WriteError(sent), w'')
        else if opcode == PONG then ReadSpec(c, w')
        else Deliver(c, w', fin, opcode, payload)
  }

  function WriteError(r: WriteResult): ReadResult {
    if r.WriteTooLarge? then FrameTooLarge else Transport
  }

  function CloseSpec(c: Config, w: Wire): Wire {
    var w' := if w.closedOnce then w
              else WriteSpec(c, w.(closedOnce := true), CLOSE, ClosePayload(1000, REASON)).1;
    w'.(open := false)
  }

  // ------------------------------------------------------------- the connection

  class WSConn {
    const config: Config
    var unread: seq<Byte>
    var closedOnce: bool
    var open: bool
    var written: seq<Byte>
    var drawn: nat

    constructor (config: Config, incoming: seq<Byte>)
      ensures this.config == config && View() == Wire(incoming, false, true, [], 0)
    {
      this.config := config;
      unread, closedOnce, open, written, drawn := incoming, false, true, [], 0;
    }

    ghost function View(): Wire
      reads this
    {
      Wire(unread, closedOnce, open, written, drawn)
    }

    /** Reads exactly n bytes, or drains what is left. */
    method ReadFull(n: nat) returns (ok: bool, bytes: seq<Byte>)
      modifies this`unread
      ensures ok == (n <= |old(unread)|)
      ensures if ok then bytes == old(unread)[..n] && unread == old(unread)[n..] else unread == []
    {
      if n <= |unread| {
        ok, bytes, unread := true, unread[..n], unread[n..];
      } else {
        ok, bytes, unread := false, [], [];
      }
    }

    method ReadFrameHeader() returns (r: HeaderResult)
      modifies this`unread
      ensures r == ParseHeader(old(unread), config.maxFrame)
      ensures unread == if r.HeaderTruncated? then [] else r.rest
    {
      ghost var s := unread;
      var ok, head := ReadFull(2);
      if !ok { return HeaderTruncated; }
      var fin := head[0] / 0x80 % 2 != 0;
      if head[0] / 16 % 8 != 0 { return HeaderReserved(unread); }
      var opcode := head[0] % 16;
      var masked := head[1] / 0x80 % 2 != 0;
      var length: nat := head[1] % 128;
      if length == 126 {
        var extended;
        ok, extended := ReadFull(2);
        if !ok { return HeaderTruncated; }
        length := FromBigEndian(extended);
        assert extended == s[2..4] && unread == s[4..];
      } else if length == 127 {
        var extended;
        ok, extended := ReadFull(8);
        if !ok { return HeaderTruncated; }
        length := FromBigEndian(extended);
        assert extended == s[2..10] && unread == s[10..];
        if length > config.maxFrame { return HeaderTooLarge(unread); }
      }
      if length > config.maxFrame { return HeaderTooLarge(unread); }
      var key: Mask := NO_KEY;
      if masked {
        var bytes;
        ok, bytes := ReadFull(4);
        if !ok { return HeaderTruncated; }
        key := bytes;
      }
      r := HeaderOk(Header(fin, opcode, masked, length, key), unread);
    }

    /** Undoes the mask in the payload buffer itself. */
    static method Unmask(payload: array<Byte>, key: Mask)
      modifies payload
      ensures payload[..] == ApplyMask(old(payload[..]), key)
    {
      for index := 0 to payload.Length
        invariant forall k :: 0 <= k < index ==> payload[k] == XorByte(old(payload[k]), key[k % 4])
        invariant forall k :: index <= k < payload.Length ==> payload[k] == old(payload[k])
      {
        payload[index] := XorByte(payload[index], key[index % 4]);
      }
    }

    /** Header and payload of the next frame. */
    method ReadPayload(h: Header) returns (ok: bool, payload: seq<Byte>)
      modifies this`unread
      ensures ok == (h.length <= |old(unread)|)
      ensures if ok then payload == Unmasked(h, old(unread)[..h.length]) && unread == old(unread)[h.length..]
              else unread == []
    {
      var raw;
      ok, raw := ReadFull(h.length);
      payload := raw;
      if ok && h.masked {
        var buffer := new Byte[h.length](i requires 0 <= i < |raw| => raw[i]);
        assert buffer[..] == raw;
        Unmask(buffer, h.key);
        payload := buffer[..];
      }
    }

    method WriteFrame(opcode: Nibble, payload: seq<Byte>) returns (r: WriteResult)
      modifies this`written, this`drawn
      ensures (r, View()) == WriteSpec(config, old(View()), opcode, payload)
    {
      if |payload| > config.maxFrame { return WriteTooLarge; }
      var frame := EncodeClientFrame(opcode, payload, config.keys(drawn));
      drawn := drawn + 1;
      assert written + [] == written;
      if !open { return WriteFailed; }
      match config.room {
        case None =>
          written := written + frame;
          r := Written;
        case Some(room) =>
          var left := if |written| < room then room - |written| else 0;
          if |frame| <= left {
            written := written + frame;
            r := Written;
          } else {
            written := written + frame[..left];
            r := WriteFailed;
          }
      }
    }

    method WriteClose(code: nat, reason: seq<Byte>) returns (r: WriteResult)
      modifies this`written, this`drawn
      ensures (r, View()) == WriteSpec(config, old(View()), CLOSE, ClosePayload(code, reason))
    {
      var short := if |reason| > 123 then reason[..123] else reason;
      r := WriteFrame(CLOSE, BigEndian(code, 2) + short);
    }

    /** An incomplete frame: end of stream closes the reader for good, other failures do not. */
    method WrapReadError() returns (r: ReadResult)
      modifies this`closedOnce
      ensures r == Exhausted(config, old(View())).0
      ensures closedOnce == (old(closedOnce) || config.ending.EndOfStream?)
    {
      if config.ending.EndOfStream? {
        closedOnce := true;
        return Closed;
      }
      return Transport;
    }

    method ReadTextMessage() returns (r: ReadResult)
      modifies this
      ensures (r, View()) == ReadSpec(config, old(View()))
    {
      if closedOnce { return Closed; }
      while true
        invariant !closedOnce
        invariant ReadSpec(config, View()) == ReadSpec(config, old(View()))
        decreases |unread|
      {
        ghost var w := View();
        var header := ReadFrameHeader();
        match header {
          case HeaderTruncated => r := WrapReadError(); return;
          case HeaderReserved(_) => return ReservedBits;
          case HeaderTooLarge(_) => return FrameTooLarge;
          case HeaderOk(h, _) =>
            var ok, payload := ReadPayload(h);
            if !ok { r := WrapReadError(); return; }
            assert ParseFrame(w.unread, config.maxFrame) == Parsed(h.fin, h.opcode, payload, unread);
            ParseConsumes(w.unread, config.maxFrame);
            if h.opcode == PING {
              var sent := WriteFrame(PONG, payload);
              if !sent.Written? { return WriteError(sent); }
              continue;
            } else if h.opcode == PONG {
              continue;
            } else if h.opcode == CLOSE {
              closedOnce := true;
              var _ := WriteClose(1000, []);
              return ClosedWithCode(CloseCode(payload));
            } else if h.opcode == CONTINUATION {
              return Fragmented;
            } else if h.opcode == TEXT {
              return if h.fin then Text(payload) else Fragmented;
            } else if h.opcode == BINARY {
              return if h.fin then UnexpectedOpcode(BINARY) else Fragmented;
            } else {
              return UnexpectedOpcode(h.opcode);
            }
        }
      }
    }

    method Close()
      modifies this
      ensures View() == CloseSpec(config, old(View()))
    {
      if !closedOnce {
        closedOnce := true;
        var _ := WriteClose(1000, REASON);
      }
      open := false;
    }
  }
}
