/** Whole runs of a connection, compared with a walk over the frames the peer sent. */
module WsSession {
  import opened Basics
  import opened WsCodec
  import opened WsConnection

  datatype Op = Read | Close | Send(opcode: Nibble, payload: seq<Byte>)

  /** The peer's side of a connection: whole frames, then a tail that is not a whole frame. */
  datatype Peer =
    Peer(frames: seq<WireFrame>, tail: seq<Byte>, closedOnce: bool, open: bool, written: seq<Byte>, drawn: nat)

  function SerializeAll(frames: seq<WireFrame>): seq<Byte> {
    if frames == [] then [] else Serialize(frames[0]) + SerializeAll(frames[1..])
  }

  function WireOf(p: Peer): Wire {
    Wire(SerializeAll(p.frames) + p.tail, p.closedOnce, p.open, p.written, p.drawn)
  }

  ghost predicate Sound(c: Config, p: Peer) {
    && (forall f <- p.frames :: |f.payload| <= c.maxFrame)
    && ParseFrame(p.tail, c.maxFrame) == Truncated
  }

  /** The message a frame carries for the application; control frames carry none, except close. */
  function Meaning(f: WireFrame): Option<ReadResult> {
    if f.opcode == PING || f.opcode == PONG then None
    else if f.opcode == CLOSE then Some(ClosedWithCode(CloseCode(f.payload)))
    else if f.opcode == CONTINUATION then Some(Fragmented)
    else if f.opcode in {TEXT, BINARY} && !f.fin then Some(Fragmented)
    else if f.opcode == TEXT then Some(Text(f.payload))
    else Some(UnexpectedOpcode(f.opcode))
  }

  function Writing(c: Config, p: Peer, opcode: Nibble, payload: seq<Byte>): (WriteResult, Peer) {
    var (sent, w) := WriteSpec(c, WireOf(p), opcode, payload);
    (sent, p.(written := w.written, drawn := w.drawn))
  }

  /** One read, as a walk that takes frames off the list. */
  function WalkRead(c: Config, p: Peer): (ReadResult, Peer)
    decreases |p.frames|
  {
    if p.closedOnce then (Closed, p)
    else if p.frames == [] then
      if c.ending.EndOfStream? then (Closed, p.(tail := [], closedOnce := true))
      else (Transport, p.(tail := []))
    else
      var f, p' := p.frames[0], p.(frames := p.frames[1..]);
      if f.opcode == PING then
        var (sent, p'') := Writing(c, p', PONG, f.payload);
        if sent.Written? then WalkRead(c, p'') else (Transport, p'')
      else if Meaning(f).None? then WalkRead(c, p')
      else
        (Meaning(f).value,
         if f.opcode == CLOSE then Writing(c, p'.(closedOnce := true), CLOSE, ClosePayload(1000, [])).1
         else p')
  }

  /** One unfolding of the reader at the front frame. */
  lemma {:induction false} ReadParsed(c: Config, w: Wire, f: WireFrame, rest: seq<Byte>)
    requires !w.closedOnce
    requires ParseFrame(w.unread, c.maxFrame) == Parsed(f.fin, f.opcode, f.payload, rest)
    ensures |rest| < |w.unread|
    ensures ReadSpec(c, w) ==
            var w' := w.(unread := rest);
            if f.opcode == PING then
              var (sent, w'') := WriteSpec(c, w', PONG, f.payload);
              if sent.Written? then ReadSpec(c, w'') else (WriteError(sent), w'')
            else if Meaning(f).None? then ReadSpec(c, w')
            else
              (Meaning(f).value,
               if f.opcode == CLOSE then WriteSpec(c, w'.(closedOnce := true), CLOSE, ClosePayload(1000, [])).1 else w')
  {
    ParseConsumes(w.unread, c.maxFrame);
  }

  lemma {:induction false} FrontFrame(c: Config, p: Peer)
    requires Sound(c, p) && p.frames != []
    ensures var f, p' := p.frames[0], p.(frames := p.frames[1..]);
            && Sound(c, p')
            && ParseFrame(WireOf(p).unread, c.maxFrame) == Parsed(f.fin, f.opcode, f.payload, WireOf(p').unread)
  {
    var f, p' := p.frames[0], p.(frames := p.frames[1..]);
    ParseSerialize(f, WireOf(p').unread, c.maxFrame);
    Associate(Serialize(f), SerializeAll(p'.frames), p.tail);
  }

  lemma {:induction false} ReadIsWalk(c: Config, p: Peer)
    requires Sound(c, p)
    ensures var (r, q) := WalkRead(c, p);
            Sound(c, q) && ReadSpec(c, WireOf(p)) == (r, WireOf(q))
    decreases |p.frames|
  {
    if p.closedOnce {
    } else if p.frames == [] {
      assert SerializeAll(p.frames) + p.tail == p.tail;
      assert SerializeAll(p.frames) + [] == [];
    } else {
      var f, p' := p.frames[0], p.(frames := p.frames[1..]);
      FrontFrame(c, p);
      ReadParsed(c, WireOf(p), f, WireOf(p').unread);
      if f.opcode == PING {
        ReadIsWalk(c, Writing(c, p', PONG, f.payload).1);
      } else if Meaning(f).None? {
        ReadIsWalk(c, p');
      }
    }
  }

  // ---------------------------------------------------------------- whole runs

  function StepWire(c: Config, w: Wire, op: Op): (seq<ReadResult>, Wire) {
    match op
    case Read => var (r, w') := ReadSpec(c, w); ([r], w')
    case Close => ([], CloseSpec(c, w))
    case Send(opcode, payload) => ([], WriteSpec(c, w, opcode, payload).1)
  }

  function RunWire(c: Config, w: Wire, ops: seq<Op>): (seq<ReadResult>, Wire)
    decreases ops
  {
    if ops == [] then ([], w)
    else
      var (r, w') := StepWire(c, w, ops[0]);
      var (rs, w'') := RunWire(c, w', ops[1..]);
      (r + rs, w'')
  }

  function StepWalk(c: Config, p: Peer, op: Op): (seq<ReadResult>, Peer) {
    match op
    case Read => var (r, p') := WalkRead(c, p); ([r], p')
    case Close =>
      var p' := if p.closedOnce then p
                else Writing(c, p.(closedOnce := true), CLOSE, ClosePayload(1000, REASON)).1;
      ([], p'.(open := false))
    case Send(opcode, payload) => ([], Writing(c, p, opcode, payload).1)
  }

  function RunWalk(c: Config, p: Peer, ops: seq<Op>): (seq<ReadResult>, Peer)
    decreases ops
  {
    if ops == [] then ([], p)
    else
      var (r, p') := StepWalk(c, p, ops[0]);
      var (rs, p'') := RunWalk(c, p', ops[1..]);
      (r + rs, p'')
  }

  /** Any sequence of reads, closes and sends sees exactly the frame list, whatever the transport. */
  lemma {:induction false} RunIsWalk(c: Config, p: Peer, ops: seq<Op>)
    requires Sound(c, p)
    ensures var (rs, q) := RunWalk(c, p, ops);
            Sound(c, q) && RunWire(c, WireOf(p), ops) == (rs, WireOf(q))
    decreases ops
  {
    if ops != [] {
      if ops[0].Read? { ReadIsWalk(c, p); }
      RunIsWalk(c, StepWalk(c, p, ops[0]).1, ops[1..]);
    }
  }

  // ------------------------------------------------------------- accounting

  datatype Sending = Out(opcode: Nibble, payload: seq<Byte>)

  type Out = o: Sending | |o.payload| < MAX_LENGTH witness Out(TEXT, [])

  const REPLY := Out(CLOSE, ClosePayload(1000, []))
  const GOODBYE := Out(CLOSE, ClosePayload(1000, REASON))

  function Encoder(c: Config): (nat, Out) -> seq<Byte> {
    (n: nat, o: Out) => Serialize(ClientFrame(o.opcode, o.payload, c.keys(n)))
  }

  function ConcatFrom(encode: (nat, Out) -> seq<Byte>, from: nat, outs: seq<Out>): seq<Byte>
    decreases |outs|
  {
    if outs == [] then [] else encode(from, outs[0]) + ConcatFrom(encode, from + 1, outs[1..])
  }

  /** The bytes of a list of client frames, each with its own key. */
  function SentBytes(c: Config, from: nat, outs: seq<Out>): seq<Byte> {
    ConcatFrom(Encoder(c), from, outs)
  }

  lemma {:induction false} SentConcat(encode: (nat, Out) -> seq<Byte>, from: nat, a: seq<Out>, b: seq<Out>)
    ensures ConcatFrom(encode, from, a + b) == ConcatFrom(encode, from, a) + ConcatFrom(encode, from + |a|, b)
    decreases |a|
  {
    if a == [] {
      assert a + b == b;
    } else {
      assert (a + b)[0] == a[0] && (a + b)[1..] == a[1..] + b;
      SentConcat(encode, from + 1, a[1..], b);
    }
  }

  /** One pong for each ping, in order, with the ping's own payload. */
  function Pongs(frames: seq<WireFrame>): seq<Out> {
    if frames == [] then []
    else (if frames[0].opcode == PING then [Out(PONG, frames[0].payload)] else []) + Pongs(frames[1..])
  }

  function Message(f: WireFrame): seq<ReadResult> {
    if Meaning(f).Some? then [Meaning(f).value] else []
  }

  function Messages(frames: seq<WireFrame>): seq<ReadResult> {
    if frames == [] then []
    else Message(frames[0]) + Messages(frames[1..])
  }

  /** Results that report the connection rather than a frame. */
  function FromFrames(results: seq<ReadResult>): seq<ReadResult> {
    if results == [] then []
    else (if results[0] in {Closed, Transport} then [] else [results[0]]) + FromFrames(results[1..])
  }

  lemma {:induction false} PongsArePongs(frames: seq<WireFrame>)
    ensures forall o <- Pongs(frames) :: o.opcode == PONG
  {
    if frames != [] { PongsArePongs(frames[1..]); }
  }

  /** What a transport takes of the bytes offered to it in all: everything, or as much as it has room for. */
  function Clip(c: Config, s: seq<Byte>): seq<Byte> {
    if c.room.None? || |s| <= c.room.value then s else s[..c.room.value]
  }

  lemma ClipTwice(c: Config, a: seq<Byte>, b: seq<Byte>)
    ensures Clip(c, Clip(c, a) + b) == Clip(c, a + b)
  {
  }

  /**
   * From p to q: the frames taken, the results they gave, the frames written, each with its key; the
   * bytes on the wire are those frames, as far as the transport takes them. A closed socket writes nothing.
   */
  ghost predicate Moved(c: Config, p: Peer, q: Peer, rs: seq<ReadResult>, taken: seq<WireFrame>, outs: seq<Out>) {
    && p.frames == taken + q.frames
    && FromFrames(rs) == Messages(taken)
    && (forall o <- outs :: |o.payload| <= c.maxFrame)
    && q.written == Clip(c, p.written + SentBytes(c, p.drawn, outs))
    && (q.open ==> q.drawn == p.drawn + |outs|)
    && (!p.open ==> !q.open && outs == [])
  }

  ghost predicate HasClose(frames: seq<WireFrame>) {
    exists f <- frames :: f.opcode == CLOSE
  }

  /** The close frame due, when the limit on frames leaves room for it. */
  function Bye(c: Config, o: Out): seq<Out> {
    if |o.payload| <= c.maxFrame then [o] else []
  }

  /**
   * What was written in answer to what was taken: a pong for each ping, then the reply to a close, or
   * the goodbye of a local close. A close is the last frame taken, and no answer follows it.
   */
  ghost predicate Answered(c: Config, p: Peer, q: Peer, taken: seq<WireFrame>, outs: seq<Out>) {
    && (p.closedOnce ==> taken == [] && outs == [] && q.closedOnce)
    && !HasClose(taken[..if taken == [] then 0 else |taken| - 1])
    && (HasClose(taken) ==> q.closedOnce && outs == Pongs(taken) + Bye(c, REPLY))
    && (!HasClose(taken) && q.closedOnce ==> outs == Pongs(taken) || outs == Pongs(taken) + Bye(c, GOODBYE))
    && (!q.closedOnce ==> q.open && outs == Pongs(taken))
  }

  /** The socket is open until the connection is closed, and the transport has not taken more than it can. */
  ghost predicate Healthy(c: Config, p: Peer) {
    Sound(c, p) && (p.closedOnce || p.open) && Clip(c, p.written) == p.written
  }

  lemma {:induction false} OneWrite(c: Config, p: Peer, opcode: Nibble, payload: seq<Byte>)
    requires p.open && |payload| <= c.maxFrame && Clip(c, p.written) == p.written
    ensures var (sent, q) := Writing(c, p, opcode, payload);
            && (sent == Written || sent == WriteFailed)
            && (c.room.None? ==> sent == Written)
            && q == p.(written := Clip(c, p.written + SentBytes(c, p.drawn, [Out(opcode, payload)])),
                       drawn := p.drawn + 1)
  {
    var frame := Serialize(ClientFrame(opcode, payload, c.keys(p.drawn)));
    var o: Out := Out(opcode, payload);
    assert [o][1..] == [] && Encoder(c)(p.drawn, o) == frame;
    assert ConcatFrom(Encoder(c), p.drawn, [o]) == frame + [];
    assert frame + [] == frame;
    ClippedFrame(c, WireOf(p), frame);
  }

  lemma ClippedFrame(c: Config, w: Wire, frame: seq<Byte>)
    requires w.open && Clip(c, w.written) == w.written
    ensures w.written + Emitted(c, w, frame) == Clip(c, w.written + frame)
  {
  }

  lemma WrittenTwice(c: Config, p: Peer, m: Peer, first: seq<Out>, second: seq<Out>)
    requires m.written == Clip(c, p.written + SentBytes(c, p.drawn, first)) && m.drawn == p.drawn + |first|
    ensures Clip(c, m.written + SentBytes(c, m.drawn, second))
            == Clip(c, p.written + SentBytes(c, p.drawn, first + second))
  {
    SentConcat(Encoder(c), p.drawn, first, second);
    ClipTwice(c, p.written + SentBytes(c, p.drawn, first), SentBytes(c, m.drawn, second));
    Associate(p.written, SentBytes(c, p.drawn, first), SentBytes(c, m.drawn, second));
  }

  lemma {:induction false} ComposeMoved(c: Config, p: Peer, m: Peer, q: Peer, rs: seq<ReadResult>, ss: seq<ReadResult>,
      a: seq<WireFrame>, b: seq<WireFrame>, os: seq<Out>, us: seq<Out>)
    requires Moved(c, p, m, rs, a, os) && Moved(c, m, q, ss, b, us)
    ensures Moved(c, p, q, rs + ss, a + b, os + us)
  {
    assert a + b + q.frames == a + (b + q.frames);
    MessagesConcat(a, b);
    FromFramesConcat(rs, ss);
    forall o | o in os + us ensures |o.payload| <= c.maxFrame {
      assert o in os || o in us;
    }
    if m.open {
      WrittenTwice(c, p, m, os, us);
    } else {
      assert us == [] && os + us == os && SentBytes(c, m.drawn, us) == [];
      ClipTwice(c, p.written + SentBytes(c, p.drawn, os), []);
      var all := p.written + SentBytes(c, p.drawn, os);
      assert m.written + [] == m.written && all + [] == all;
    }
  }

  lemma {:induction false} ComposeAnswered(c: Config, p: Peer, m: Peer, q: Peer,
      a: seq<WireFrame>, b: seq<WireFrame>, os: seq<Out>, us: seq<Out>)
    requires Answered(c, p, m, a, os) && Answered(c, m, q, b, us)
    ensures Answered(c, p, q, a + b, os + us)
  {
    PongsConcat(a, b);
    if m.closedOnce {
      assert a + b == a && os + us == os;
    } else {
      assert !HasClose(a);
      forall f | f in a + b ensures f in a || f in b {}
      assert HasClose(a + b) <==> HasClose(b);
      if b == [] {
        assert a + b == a;
      } else {
        assert (a + b)[..|a + b| - 1] == a + b[..|b| - 1];
      }
      assert os + (Pongs(b) + Bye(c, REPLY)) == Pongs(a + b) + Bye(c, REPLY);
      assert os + (Pongs(b) + Bye(c, GOODBYE)) == Pongs(a + b) + Bye(c, GOODBYE);
    }
  }

  /** The frames written of which the tag says who asked for them: the application, or a frame taken. */
  function Pick(outs: seq<Out>, own: seq<bool>, which: bool): seq<Out>
    requires |own| == |outs|
    decreases |outs|
  {
    if outs == [] then [] else (if own[0] == which then [outs[0]] else []) + Pick(outs[1..], own[1..], which)
  }

  lemma {:induction false} PickConcat(a: seq<Out>, at: seq<bool>, b: seq<Out>, bt: seq<bool>, which: bool)
    requires |a| == |at| && |b| == |bt|
    ensures Pick(a + b, at + bt, which) == Pick(a, at, which) + Pick(b, bt, which)
    decreases |a|
  {
    if a == [] {
      assert a + b == b && at + bt == bt;
    } else {
      assert (a + b)[0] == a[0] && (at + bt)[0] == at[0];
      assert (a + b)[1..] == a[1..] + b && (at + bt)[1..] == at[1..] + bt;
      PickConcat(a[1..], at[1..], b, bt, which);
      Associate(if at[0] == which then [a[0]] else [], Pick(a[1..], at[1..], which), Pick(b, bt, which));
    }
  }

  /** Tags for frames of one kind only. */
  function All(n: nat, which: bool): seq<bool> {
    seq(n, _ => which)
  }

  lemma {:induction false} PickAll(outs: seq<Out>, which: bool, asked: bool)
    ensures Pick(outs, All(|outs|, which), asked) == if asked == which then outs else []
    decreases |outs|
  {
    if outs != [] {
      assert All(|outs|, which)[1..] == All(|outs[1..]|, which);
      PickAll(outs[1..], which, asked);
    }
  }

  /** A stretch of a run: what moved, what answers what was taken, and what the application sent itself. */
  datatype Stretch = Stretch(taken: seq<WireFrame>, outs: seq<Out>, own: seq<bool>)

  ghost predicate Accounts(c: Config, p: Peer, q: Peer, rs: seq<ReadResult>, x: Stretch, sends: seq<Out>) {
    && Moved(c, p, q, rs, x.taken, x.outs) && |x.own| == |x.outs|
    && Answered(c, p, q, x.taken, Pick(x.outs, x.own, false))
    && Pick(x.outs, x.own, true) == sends
  }

  lemma {:induction false} Compose(c: Config, p: Peer, m: Peer, q: Peer, rs: seq<ReadResult>, ss: seq<ReadResult>,
      x: Stretch, y: Stretch, xs: seq<Out>, ys: seq<Out>)
    requires Accounts(c, p, m, rs, x, xs) && Accounts(c, m, q, ss, y, ys)
    ensures Accounts(c, p, q, rs + ss, Stretch(x.taken + y.taken, x.outs + y.outs, x.own + y.own), xs + ys)
  {
    ComposeMoved(c, p, m, q, rs, ss, x.taken, y.taken, x.outs, y.outs);
    PickConcat(x.outs, x.own, y.outs, y.own, false);
    PickConcat(x.outs, x.own, y.outs, y.own, true);
    ComposeAnswered(c, p, m, q, x.taken, y.taken, Pick(x.outs, x.own, false), Pick(y.outs, y.own, false));
  }

  lemma {:induction false} PongsConcat(a: seq<WireFrame>, b: seq<WireFrame>)
    ensures Pongs(a + b) == Pongs(a) + Pongs(b)
  {
    if a == [] { assert a + b == b; } else { assert (a + b)[1..] == a[1..] + b; PongsConcat(a[1..], b); }
  }

  lemma {:induction false} MessagesConcat(a: seq<WireFrame>, b: seq<WireFrame>)
    ensures Messages(a + b) == Messages(a) + Messages(b)
  {
    if a == [] { assert a + b == b; } else { assert (a + b)[1..] == a[1..] + b; MessagesConcat(a[1..], b); }
  }

  lemma {:induction false} FromFramesConcat(a: seq<ReadResult>, b: seq<ReadResult>)
    ensures FromFrames(a + b) == FromFrames(a) + FromFrames(b)
  {
    if a == [] { assert a + b == b; } else { assert (a + b)[1..] == a[1..] + b; FromFramesConcat(a[1..], b); }
  }

  /** The peer once the front frame has been taken and answered. */
  function Taking(c: Config, p: Peer): (WriteResult, Peer)
    requires p.frames != []
  {
    var f, p' := p.frames[0], p.(frames := p.frames[1..]);
    if f.opcode == PING then Writing(c, p', PONG, f.payload)
    else if f.opcode == CLOSE then Writing(c, p'.(closedOnce := true), CLOSE, ClosePayload(1000, []))
    else (Written, p')
  }

  /** The frame written for a frame taken, if any. */
  function Reply(c: Config, f: WireFrame): seq<Out> {
    if f.opcode == PING then [Out(PONG, f.payload)] else if f.opcode == CLOSE then Bye(c, REPLY) else []
  }

  /** A write that leaves the frames alone, seen as a move that takes one frame. */
  lemma FrameWritten(c: Config, p: Peer, f: WireFrame, q: Peer, outs: seq<Out>)
    requires p.open && p.frames == [f] + q.frames && |outs| <= 1 && forall o <- outs :: |o.payload| <= c.maxFrame
    requires q.written == Clip(c, p.written + SentBytes(c, p.drawn, outs)) && q.drawn == p.drawn + |outs|
    ensures Moved(c, p, q, Message(f), [f], outs) && Clip(c, q.written) == q.written
  {
    assert [f][1..] == [];
    ClipTwice(c, p.written + SentBytes(c, p.drawn, outs), []);
    assert q.written + [] == q.written;
    var none: seq<ReadResult> := [];
    assert Messages([f]) == Message(f) + none;
    if Message(f) != [] { assert Message(f)[1..] == none; }
  }

  lemma FrameAnswered(c: Config, p: Peer, f: WireFrame, q: Peer)
    requires !p.closedOnce && q.closedOnce == (f.opcode == CLOSE) && q.open
    ensures Answered(c, p, q, [f], Reply(c, f))
  {
    assert [f][1..] == [] && [f][..0] == [] && f in [f];
    var none: seq<Out> := [];
    assert Pongs([f]) == (if f.opcode == PING then [Out(PONG, f.payload)] else []) + none;
    assert f.opcode == CLOSE ==> Pongs([f]) + Bye(c, REPLY) == Bye(c, REPLY);
  }

  lemma {:induction false} FrameMoved(c: Config, p: Peer)
    requires Healthy(c, p) && !p.closedOnce && p.frames != []
    ensures var f, q := p.frames[0], Taking(c, p).1;
            && q.frames == p.frames[1..] && Healthy(c, q)
            && Moved(c, p, q, Message(f), [f], Reply(c, f))
            && Answered(c, p, q, [f], Reply(c, f))
  {
    var f, p' := p.frames[0], p.(frames := p.frames[1..]);
    if f.opcode == PING {
      OneWrite(c, p', PONG, f.payload);
    } else if f.opcode == CLOSE && Bye(c, REPLY) != [] {
      OneWrite(c, p'.(closedOnce := true), CLOSE, ClosePayload(1000, []));
    } else {
      assert p.written + [] == p.written;
    }
    FrameWritten(c, p, f, Taking(c, p).1, Reply(c, f));
    FrameAnswered(c, p, f, Taking(c, p).1);
  }

  lemma {:induction false} WalkFront(c: Config, p: Peer)
    requires !p.closedOnce && p.frames != [] && Sound(c, p)
    ensures var f, (sent, m) := p.frames[0], Taking(c, p);
            WalkRead(c, p) == if f.opcode == PING && !sent.Written? then (Transport, m)
                              else if Meaning(f).None? then WalkRead(c, m)
                              else (Meaning(f).value, m)
  {
  }

  /** The frames a read writes: a pong for each ping taken, then the reply to a close. */
  function WalkOuts(c: Config, p: Peer): seq<Out>
    decreases |p.frames|
  {
    if p.closedOnce || p.frames == [] then []
    else
      var f, (sent, m) := p.frames[0], Taking(c, p);
      if Meaning(f).Some? || (f.opcode == PING && !sent.Written?) then Reply(c, f)
      else Reply(c, f) + WalkOuts(c, m)
  }

  const NOTHING := Stretch([], [], [])

  lemma {:induction false} NothingMoved(c: Config, p: Peer, q: Peer, rs: seq<ReadResult>)
    requires q.frames == p.frames && q.written == p.written && q.drawn == p.drawn && Clip(c, p.written) == p.written
    requires (p.closedOnce ==> q.closedOnce) && (q.closedOnce || q.open) && (q.open ==> p.open)
    requires FromFrames(rs) == []
    ensures Accounts(c, p, q, rs, NOTHING, []) && !HasClose(NOTHING.taken)
  {
    assert p.frames == [] + q.frames;
    assert p.written + [] == p.written;
  }

  lemma {:induction false} ReadAccounted(c: Config, p: Peer) returns (x: Stretch)
    requires Healthy(c, p)
    ensures var (r, q) := WalkRead(c, p);
            && Healthy(c, q) && Accounts(c, p, q, [r], x, [])
            && x.outs == WalkOuts(c, p) && (r.ClosedWithCode? <==> HasClose(x.taken))
    decreases |p.frames|
  {
    var (r, q) := WalkRead(c, p);
    if p.closedOnce || p.frames == [] {
      assert [r][1..] == [];
      NothingMoved(c, p, q, [r]);
      x := NOTHING;
    } else {
      var f := p.frames[0];
      var (sent, m) := Taking(c, p);
      FrameMoved(c, p);
      WalkFront(c, p);
      x := Answering(c, p, m, f);
      if Meaning(f).None? {
        assert [] + [r] == [r];
        if f.opcode == PING && !sent.Written? {
          assert [r][1..] == [];
          NothingMoved(c, m, m, [r]);
          x := Joined(c, p, m, m, [], [r], x, NOTHING);
        } else {
          var y := ReadAccounted(c, m);
          x := Joined(c, p, m, q, [], [r], x, y);
        }
      }
    }
  }

  lemma Answering(c: Config, p: Peer, m: Peer, f: WireFrame) returns (x: Stretch)
    requires Moved(c, p, m, Message(f), [f], Reply(c, f)) && Answered(c, p, m, [f], Reply(c, f))
    ensures Accounts(c, p, m, Message(f), x, []) && x.taken == [f] && x.outs == Reply(c, f)
    ensures HasClose(x.taken) <==> f.opcode == CLOSE
  {
    x := Stretch([f], Reply(c, f), All(|Reply(c, f)|, false));
    PickAll(Reply(c, f), false, false);
    PickAll(Reply(c, f), false, true);
    assert f in [f];
  }

  lemma Joined(c: Config, p: Peer, m: Peer, q: Peer, rs: seq<ReadResult>, ss: seq<ReadResult>, x: Stretch, y: Stretch)
    returns (z: Stretch)
    requires Accounts(c, p, m, rs, x, []) && Accounts(c, m, q, ss, y, [])
    ensures Accounts(c, p, q, rs + ss, z, []) && z.outs == x.outs + y.outs
    ensures HasClose(z.taken) <==> HasClose(x.taken) || HasClose(y.taken)
  {
    z := Stretch(x.taken + y.taken, x.outs + y.outs, x.own + y.own);
    Compose(c, p, m, q, rs, ss, x, y, [], []);
    var none: seq<Out> := [];
    assert none + none == none;
    HasCloseConcat(x.taken, y.taken);
  }

  lemma HasCloseConcat(a: seq<WireFrame>, b: seq<WireFrame>)
    ensures HasClose(a + b) <==> HasClose(a) || HasClose(b)
  {
    forall f | f in a || f in b ensures f in a + b {}
  }

  /** What the application's own sends put on the wire: nothing once the socket is closed, nothing too large. */
  function OwnFrame(c: Config, p: Peer, op: Op): seq<Out> {
    if op.Send? && p.open && |op.payload| <= c.maxFrame then [Out(op.opcode, op.payload)] else []
  }

  function OwnFrames(c: Config, p: Peer, ops: seq<Op>): seq<Out>
    decreases |ops|
  {
    if ops == [] then [] else OwnFrame(c, p, ops[0]) + OwnFrames(c, StepWalk(c, p, ops[0]).1, ops[1..])
  }

  /** The frames an operation writes, on a connection in state p. */
  function StepOuts(c: Config, p: Peer, op: Op): seq<Out> {
    match op
    case Read => WalkOuts(c, p)
    case Close => if p.closedOnce then [] else Bye(c, GOODBYE)
    case Send(_, _) => OwnFrame(c, p, op)
  }

  function RunOuts(c: Config, p: Peer, ops: seq<Op>): seq<Out>
    decreases |ops|
  {
    if ops == [] then [] else StepOuts(c, p, ops[0]) + RunOuts(c, StepWalk(c, p, ops[0]).1, ops[1..])
  }

  lemma {:induction false} CloseAccounted(c: Config, p: Peer) returns (x: Stretch)
    requires Healthy(c, p)
    ensures var q := StepWalk(c, p, Op.Close).1;
            Healthy(c, q) && Accounts(c, p, q, [], x, []) && x.outs == StepOuts(c, p, Op.Close)
  {
    var outs, q := if p.closedOnce then [] else Bye(c, GOODBYE), StepWalk(c, p, Op.Close).1;
    if outs == [] {
      NothingMoved(c, p, q, []);
      x := NOTHING;
    } else {
      OneWrite(c, p.(closedOnce := true), CLOSE, ClosePayload(1000, REASON));
      ClipTwice(c, p.written + SentBytes(c, p.drawn, outs), []);
      assert q.written + [] == q.written && p.frames == [] + q.frames;
      assert Pongs([]) + outs == outs;
      x := Stretch([], outs, All(|outs|, false));
      PickAll(outs, false, false);
      PickAll(outs, false, true);
    }
  }

  lemma {:induction false} SendAccounted(c: Config, p: Peer, op: Op) returns (x: Stretch)
    requires Healthy(c, p) && op.Send?
    ensures var q := StepWalk(c, p, op).1;
            Healthy(c, q) && Accounts(c, p, q, [], x, OwnFrame(c, p, op)) && x.outs == StepOuts(c, p, op)
  {
    var outs, q := OwnFrame(c, p, op), StepWalk(c, p, op).1;
    assert p.frames == [] + q.frames && p.written + [] == p.written;
    x := Stretch([], outs, All(|outs|, true));
    PickAll(outs, true, false);
    PickAll(outs, true, true);
    if outs != [] {
      OneWrite(c, p, op.opcode, op.payload);
      ClipTwice(c, p.written + SentBytes(c, p.drawn, outs), []);
      assert q.written + [] == q.written;
    }
  }

  /**
   * Over any run of reads, sends and closes, whatever the transport takes: the results are the messages
   * of the frames taken, in order; the frames written are the application's own sends, in order, and
   * among them one pong for each ping taken, then at most one close frame; a close frame is answered
   * once and nothing after it is taken. The bytes on the wire are those frames as far as the transport goes.
   */
  lemma {:induction false} RunAccounted(c: Config, p: Peer, ops: seq<Op>) returns (x: Stretch)
    requires Healthy(c, p)
    ensures var (rs, q) := RunWalk(c, p, ops);
            Healthy(c, q) && Accounts(c, p, q, rs, x, OwnFrames(c, p, ops)) && x.outs == RunOuts(c, p, ops)
    decreases |ops|
  {
    if ops == [] {
      NothingMoved(c, p, p, []);
      x := NOTHING;
    } else {
      var (r, m) := StepWalk(c, p, ops[0]);
      if ops[0].Read? {
        x := ReadAccounted(c, p);
      } else if ops[0].Close? {
        x := CloseAccounted(c, p);
      } else {
        x := SendAccounted(c, p, ops[0]);
      }
      var y := RunAccounted(c, m, ops[1..]);
      var (rs, q) := RunWalk(c, m, ops[1..]);
      Compose(c, p, m, q, r, rs, x, y, OwnFrame(c, p, ops[0]), OwnFrames(c, m, ops[1..]));
      x := Stretch(x.taken + y.taken, x.outs + y.outs, x.own + y.own);
    }
  }

  // ------------------------------------------------- the peer's view of the bytes

  /** A server reading masked frames one after the other. */
  function DecodeAll(s: seq<Byte>, maxFrame: nat): seq<Sending> {
    ParseConsumes(s, maxFrame);
    match ParseFrame(s, maxFrame)
    case Parsed(_, opcode, payload, rest) => [Out(opcode, payload)] + DecodeAll(rest, maxFrame)
    case _ => []
  }

  lemma {:induction false} DecodeFront(s: seq<Byte>, maxFrame: nat, o: Out, rest: seq<Byte>)
    requires ParseFrame(s, maxFrame) == Parsed(true, o.opcode, o.payload, rest)
    ensures DecodeAll(s, maxFrame) == [o] + DecodeAll(rest, maxFrame)
  {
  }

  /** Every byte the client writes is part of a frame the peer can decode, in the same order. */
  lemma {:induction false} SentDecodes(c: Config, from: nat, outs: seq<Out>)
    requires forall o <- outs :: |o.payload| <= c.maxFrame
    ensures DecodeAll(SentBytes(c, from, outs), c.maxFrame) == outs
    decreases |outs|
  {
    if outs != [] {
      var rest := SentBytes(c, from + 1, outs[1..]);
      ClientFrameDecodes(outs[0].opcode, outs[0].payload, c.keys(from), rest, c.maxFrame);
      DecodeFront(SentBytes(c, from, outs), c.maxFrame, outs[0], rest);
      SentDecodes(c, from + 1, outs[1..]);
    }
  }

  lemma NothingDecoded(s: seq<Byte>, maxFrame: nat)
    requires ParseFrame(s, maxFrame) == Truncated
    ensures DecodeAll(s, maxFrame) == []
  {
  }

  lemma CutFirst(a: seq<Byte>, b: seq<Byte>, cut: nat)
    requires cut <= |a|
    ensures (a + b)[..cut] == a[..cut]
  {
  }

  lemma CutBehind(opcode: Nibble, payload: seq<Byte>, key: Mask, rest: seq<Byte>, cut: nat, maxFrame: nat)
    requires |payload| <= maxFrame < MAX_LENGTH
    requires var frame := Serialize(ClientFrame(opcode, payload, key)); |frame| <= cut <= |frame + rest|
    ensures var frame := Serialize(ClientFrame(opcode, payload, key));
            DecodeAll((frame + rest)[..cut], maxFrame)
            == [Out(opcode, payload)] + DecodeAll(rest[..cut - |frame|], maxFrame)
  {
    var frame := Serialize(ClientFrame(opcode, payload, key));
    var left := rest[..cut - |frame|];
    assert (frame + rest)[..cut] == frame + left;
    ClientFrameDecodes(opcode, payload, key, left, maxFrame);
    DecodeFront(frame + left, maxFrame, Out(opcode, payload), left);
  }

  /** A transport that fails in the middle leaves the peer whole frames, in order, and never a misread one. */
  lemma {:induction false} CutDecodes(c: Config, from: nat, outs: seq<Out>, cut: nat)
    requires forall o <- outs :: |o.payload| <= c.maxFrame
    requires cut <= |SentBytes(c, from, outs)|
    ensures DecodeAll(SentBytes(c, from, outs)[..cut], c.maxFrame) <= outs
    decreases |outs|
  {
    if outs == [] {
      assert SentBytes(c, from, outs) == [];
    } else {
      var o, key := outs[0], c.keys(from);
      var frame, rest := Serialize(ClientFrame(o.opcode, o.payload, key)), SentBytes(c, from + 1, outs[1..]);
      SentFront(c, from, outs);
      if cut < |frame| {
        CutFirst(frame, rest, cut);
        ProperPrefixTruncated(ClientFrame(o.opcode, o.payload, key), cut, c.maxFrame);
        NothingDecoded(frame[..cut], c.maxFrame);
      } else {
        CutBehind(o.opcode, o.payload, key, rest, cut, c.maxFrame);
        CutDecodes(c, from + 1, outs[1..], cut - |frame|);
      }
    }
  }

  lemma SentFront(c: Config, from: nat, outs: seq<Out>)
    requires outs != []
    ensures SentBytes(c, from, outs)
            == Serialize(ClientFrame(outs[0].opcode, outs[0].payload, c.keys(from))) + SentBytes(c, from + 1, outs[1..])
  {
  }

  /** With a transport that takes everything, the peer of a new connection decodes exactly the frames of the run. */
  lemma {:induction false} RunDecodes(c: Config, p: Peer, ops: seq<Op>)
    requires Healthy(c, p) && p.written == [] && c.room.None?
    ensures DecodeAll(RunWalk(c, p, ops).1.written, c.maxFrame) == RunOuts(c, p, ops)
  {
    var x := RunAccounted(c, p, ops);
    assert p.written + SentBytes(c, p.drawn, x.outs) == SentBytes(c, p.drawn, x.outs);
    SentDecodes(c, p.drawn, x.outs);
  }

  // ------------------------------------------------- close frames over a run

  /** The connection when operation i of a run is called. */
  function PeerAt(c: Config, p: Peer, ops: seq<Op>, i: nat): Peer
    requires i <= |ops|
    decreases i
  {
    if i == 0 then p else PeerAt(c, StepWalk(c, p, ops[0]).1, ops[1..], i - 1)
  }

  /** Data frames, by RFC 6455 section 5.6: the top bit of the opcode is clear. */
  predicate IsData(o: Sending) {
    o.opcode < 8
  }

  function Closes(outs: seq<Out>): nat {
    if outs == [] then 0 else (if outs[0].opcode == CLOSE then 1 else 0) + Closes(outs[1..])
  }

  ghost predicate HasData(outs: seq<Out>) {
    exists o <- outs :: IsData(o)
  }

  /** Data follows a close frame among the frames written. */
  ghost predicate DataAfterClose(outs: seq<Out>) {
    exists i, j :: 0 <= i < j < |outs| && outs[i].opcode == CLOSE && IsData(outs[j])
  }

  /** The client closes by itself: a read reports the peer's close frame, or `Close` is the first to close. */
  predicate Answers(c: Config, p: Peer, op: Op) {
    match op
    case Read => WalkRead(c, p).0.ClosedWithCode? && |REPLY.payload| <= c.maxFrame
    case Close => !p.closedOnce && |GOODBYE.payload| <= c.maxFrame
    case Send(_, _) => false
  }

  /** The application sends a frame that fits while the socket is open. */
  predicate Sends(c: Config, p: Peer, op: Op) {
    op.Send? && p.open && |op.payload| <= c.maxFrame
  }

  /** Some operation of the run closes the connection with a frame of its own. */
  ghost predicate RunAnswers(c: Config, p: Peer, ops: seq<Op>) {
    exists i :: 0 <= i < |ops| && Answers(c, PeerAt(c, p, ops, i), ops[i])
  }

  /** The operation writes a close frame: an answer, or the application's own. */
  predicate ClosesAt(c: Config, p: Peer, op: Op) {
    Answers(c, p, op) || (Sends(c, p, op) && op.opcode == CLOSE)
  }

  predicate DataAt(c: Config, p: Peer, op: Op) {
    Sends(c, p, op) && op.opcode < 8
  }

  /** Data is sent that fits, on an open socket, by an operation after one that wrote a close frame. */
  ghost predicate SendsPastClose(c: Config, p: Peer, ops: seq<Op>) {
    exists i, j ::
      0 <= i < j < |ops| && ClosesAt(c, PeerAt(c, p, ops, i), ops[i]) && DataAt(c, PeerAt(c, p, ops, j), ops[j])
  }

  lemma {:induction false} ClosesConcat(a: seq<Out>, b: seq<Out>)
    ensures Closes(a + b) == Closes(a) + Closes(b)
  {
    if a == [] { assert a + b == b; } else { assert (a + b)[1..] == a[1..] + b; ClosesConcat(a[1..], b); }
  }

  lemma {:induction false} ClosesPositive(outs: seq<Out>)
    ensures Closes(outs) > 0 <==> exists o <- outs :: o.opcode == CLOSE
  {
    if outs != [] {
      ClosesPositive(outs[1..]);
      assert forall o :: o in outs <==> o == outs[0] || o in outs[1..];
    }
  }

  lemma {:induction false} HasDataConcat(a: seq<Out>, b: seq<Out>)
    ensures HasData(a + b) <==> HasData(a) || HasData(b)
  {
    assert forall o :: o in a + b <==> o in a || o in b;
  }

  /** Where the halves of a list may break the rule: in one of them, or from one to the other. */
  lemma {:induction false} DataAfterCloseConcat(a: seq<Out>, b: seq<Out>)
    ensures DataAfterClose(a + b) <==> DataAfterClose(a) || DataAfterClose(b) || (Closes(a) > 0 && HasData(b))
  {
    var s := a + b;
    ClosesPositive(a);
    if i, j :| 0 <= i < j < |s| && s[i].opcode == CLOSE && IsData(s[j]) {
      if j < |a| {
        assert a[i].opcode == CLOSE && IsData(a[j]);
      } else if i < |a| {
        assert a[i] in a && b[j - |a|] in b;
      } else {
        assert b[i - |a|].opcode == CLOSE && IsData(b[j - |a|]);
      }
    }
    if i, j :| 0 <= i < j < |a| && a[i].opcode == CLOSE && IsData(a[j]) {
      assert s[i].opcode == CLOSE && IsData(s[j]);
    }
    if i, j :| 0 <= i < j < |b| && b[i].opcode == CLOSE && IsData(b[j]) {
      assert s[|a| + i].opcode == CLOSE && IsData(s[|a| + j]);
    }
    if Closes(a) > 0 && HasData(b) {
      var i :| 0 <= i < |a| && a[i].opcode == CLOSE;
      var j :| 0 <= j < |b| && IsData(b[j]);
      assert s[i].opcode == CLOSE && IsData(s[|a| + j]);
    }
  }

  /** What a single frame adds to the counts. */
  lemma ReplyCounts(c: Config, f: WireFrame)
    ensures !HasData(Reply(c, f))
    ensures Closes(Reply(c, f)) == if f.opcode == CLOSE && |REPLY.payload| <= c.maxFrame then 1 else 0
  {
    if Reply(c, f) != [] { assert Reply(c, f)[1..] == []; }
  }

  /** A read writes no data, and a close frame exactly when it reports the peer's. */
  lemma {:induction false} WalkCounts(c: Config, p: Peer)
    requires Healthy(c, p)
    ensures !HasData(WalkOuts(c, p)) && Closes(WalkOuts(c, p)) == if Answers(c, p, Read) then 1 else 0
    decreases |p.frames|
  {
    if !p.closedOnce && p.frames != [] {
      var f := p.frames[0];
      var (sent, m) := Taking(c, p);
      ReplyCounts(c, f);
      WalkFront(c, p);
      if Meaning(f).None? && (f.opcode == PING ==> sent.Written?) {
        FrameMoved(c, p);
        WalkCounts(c, m);
        HasDataConcat(Reply(c, f), WalkOuts(c, m));
        ClosesConcat(Reply(c, f), WalkOuts(c, m));
      }
    }
  }

  lemma {:induction false} StepCounts(c: Config, p: Peer, op: Op)
    requires Healthy(c, p)
    ensures var outs := StepOuts(c, p, op);
            && (HasData(outs) <==> DataAt(c, p, op)) && !DataAfterClose(outs)
            && Closes(outs) == Closes(OwnFrame(c, p, op)) + (if Answers(c, p, op) then 1 else 0)
            && (Closes(outs) > 0 <==> ClosesAt(c, p, op))
  {
    var outs := StepOuts(c, p, op);
    match op
    case Read => WalkCounts(c, p); NoDataNoBreach(outs);
    case Close => if outs != [] { assert outs[1..] == []; }
    case Send(_, _) => if outs != [] { assert outs[1..] == []; assert outs[0] in outs; }
  }

  lemma NoDataNoBreach(outs: seq<Out>)
    requires !HasData(outs)
    ensures !DataAfterClose(outs)
  {
    forall j | 0 <= j < |outs| ensures !IsData(outs[j]) { assert outs[j] in outs; }
  }

  lemma {:induction false} StepHealthy(c: Config, p: Peer, op: Op)
    requires Healthy(c, p)
    ensures Healthy(c, StepWalk(c, p, op).1)
    ensures p.closedOnce ==> StepWalk(c, p, op).1.closedOnce
    ensures Answers(c, p, op) ==> !p.closedOnce && StepWalk(c, p, op).1.closedOnce
    ensures StepWalk(c, p, op).1.open <==> p.open && !op.Close?
  {
    match op
    case Read => var x := ReadAccounted(c, p); ReadOpen(c, p);
    case Close => var x := CloseAccounted(c, p);
    case Send(_, _) => var x := SendAccounted(c, p, op);
  }

  /** A read leaves the socket as it is, and closes the connection when it reports the peer's close frame. */
  lemma {:induction false} ReadOpen(c: Config, p: Peer)
    ensures var (r, q) := WalkRead(c, p);
            q.open == p.open && (r.ClosedWithCode? ==> !p.closedOnce && q.closedOnce)
    decreases |p.frames|
  {
    if !p.closedOnce && p.frames != [] {
      var f, p' := p.frames[0], p.(frames := p.frames[1..]);
      if f.opcode == PING {
        ReadOpen(c, Writing(c, p', PONG, f.payload).1);
      } else if Meaning(f).None? {
        ReadOpen(c, p');
      }
    }
  }

  /** The socket is open at an operation exactly when it was at the start and no `Close` came before. */
  lemma {:induction false} OpenUntilClose(c: Config, p: Peer, ops: seq<Op>, i: nat)
    requires Healthy(c, p) && i <= |ops|
    ensures Healthy(c, PeerAt(c, p, ops, i))
    ensures PeerAt(c, p, ops, i).open <==> p.open && Op.Close !in ops[..i]
    decreases i
  {
    if i > 0 {
      StepHealthy(c, p, ops[0]);
      OpenUntilClose(c, StepWalk(c, p, ops[0]).1, ops[1..], i - 1);
      assert ops[..i] == [ops[0]] + ops[1..][..i - 1];
    }
  }

  lemma {:induction false} RunData(c: Config, p: Peer, ops: seq<Op>)
    requires Healthy(c, p)
    ensures HasData(RunOuts(c, p, ops)) <==> exists j :: 0 <= j < |ops| && DataAt(c, PeerAt(c, p, ops, j), ops[j])
    decreases |ops|
  {
    if ops != [] {
      var m, rest := StepWalk(c, p, ops[0]).1, ops[1..];
      StepHealthy(c, p, ops[0]);
      StepCounts(c, p, ops[0]);
      RunData(c, m, rest);
      HasDataConcat(StepOuts(c, p, ops[0]), RunOuts(c, m, rest));
      if j :| 0 <= j < |ops| && DataAt(c, PeerAt(c, p, ops, j), ops[j]) && j > 0 {
        assert DataAt(c, PeerAt(c, m, rest, j - 1), rest[j - 1]);
      }
      if j :| 0 <= j < |rest| && DataAt(c, PeerAt(c, m, rest, j), rest[j]) {
        assert DataAt(c, PeerAt(c, p, ops, j + 1), ops[j + 1]);
      }
      if DataAt(c, p, ops[0]) { assert DataAt(c, PeerAt(c, p, ops, 0), ops[0]); }
    }
  }

  /**
   * Section 5.5.1 forbids data after a close frame. Over any run the client breaks that rule exactly when
   * data that fits is sent on an open socket after a close frame: the reply of a read that met the peer's, or
   * one the application sent itself. (After a `Close` the socket is no longer open.)
   */
  lemma {:induction false} DataAfterCloseIff(c: Config, p: Peer, ops: seq<Op>)
    requires Healthy(c, p)
    ensures DataAfterClose(RunOuts(c, p, ops)) <==> SendsPastClose(c, p, ops)
    decreases |ops|
  {
    if ops != [] {
      var m, rest := StepWalk(c, p, ops[0]).1, ops[1..];
      StepHealthy(c, p, ops[0]);
      StepCounts(c, p, ops[0]);
      DataAfterCloseIff(c, m, rest);
      RunData(c, m, rest);
      DataAfterCloseConcat(StepOuts(c, p, ops[0]), RunOuts(c, m, rest));
      SendsPastCloseStep(c, p, ops);
    }
  }

  lemma {:induction false} SendsPastCloseStep(c: Config, p: Peer, ops: seq<Op>)
    requires ops != []
    ensures var m, rest := StepWalk(c, p, ops[0]).1, ops[1..];
            SendsPastClose(c, p, ops) <==>
            || SendsPastClose(c, m, rest)
            || (ClosesAt(c, p, ops[0]) && exists j :: 0 <= j < |rest| && DataAt(c, PeerAt(c, m, rest, j), rest[j]))
  {
    var m, rest := StepWalk(c, p, ops[0]).1, ops[1..];
    forall k: nat | k < |rest| ensures PeerAt(c, p, ops, k + 1) == PeerAt(c, m, rest, k) && ops[k + 1] == rest[k] {}
    if i, j :|
      0 <= i < j < |ops| && ClosesAt(c, PeerAt(c, p, ops, i), ops[i]) && DataAt(c, PeerAt(c, p, ops, j), ops[j])
    {
      assert DataAt(c, PeerAt(c, m, rest, j - 1), rest[j - 1]);
      if i > 0 { assert ClosesAt(c, PeerAt(c, m, rest, i - 1), rest[i - 1]); }
    }
    if i, j :|
      0 <= i < j < |rest| && ClosesAt(c, PeerAt(c, m, rest, i), rest[i]) && DataAt(c, PeerAt(c, m, rest, j), rest[j])
    {
      assert ClosesAt(c, PeerAt(c, p, ops, i + 1), ops[i + 1]) && DataAt(c, PeerAt(c, p, ops, j + 1), ops[j + 1]);
    }
    if j :| 0 <= j < |rest| && DataAt(c, PeerAt(c, m, rest, j), rest[j]) && ClosesAt(c, p, ops[0]) {
      assert ClosesAt(c, PeerAt(c, p, ops, 0), ops[0]) && DataAt(c, PeerAt(c, p, ops, j + 1), ops[j + 1]);
    }
  }

  /**
   * The close frames of a run are the application's own and at most one more: the reply to the peer's close
   * frame, or that of the first `Close`, whichever comes first.
   */
  lemma {:induction false} ClosesOfRun(c: Config, p: Peer, ops: seq<Op>)
    requires Healthy(c, p)
    ensures Closes(RunOuts(c, p, ops)) == Closes(OwnFrames(c, p, ops)) + (if RunAnswers(c, p, ops) then 1 else 0)
    ensures p.closedOnce ==> !RunAnswers(c, p, ops)
    decreases |ops|
  {
    if ops != [] {
      var m, rest := StepWalk(c, p, ops[0]).1, ops[1..];
      StepHealthy(c, p, ops[0]);
      StepCounts(c, p, ops[0]);
      ClosesOfRun(c, m, rest);
      ClosesConcat(StepOuts(c, p, ops[0]), RunOuts(c, m, rest));
      ClosesConcat(OwnFrame(c, p, ops[0]), OwnFrames(c, m, rest));
      RunAnswersStep(c, p, ops);
    }
  }

  lemma {:induction false} RunAnswersStep(c: Config, p: Peer, ops: seq<Op>)
    requires ops != []
    ensures RunAnswers(c, p, ops) <==> Answers(c, p, ops[0]) || RunAnswers(c, StepWalk(c, p, ops[0]).1, ops[1..])
  {
    var m, rest := StepWalk(c, p, ops[0]).1, ops[1..];
    if i :| 0 <= i < |ops| && Answers(c, PeerAt(c, p, ops, i), ops[i]) && i > 0 {
      assert Answers(c, PeerAt(c, m, rest, i - 1), rest[i - 1]);
    }
    if i :| 0 <= i < |rest| && Answers(c, PeerAt(c, m, rest, i), rest[i]) {
      assert Answers(c, PeerAt(c, p, ops, i + 1), ops[i + 1]);
    }
    if Answers(c, p, ops[0]) { assert Answers(c, PeerAt(c, p, ops, 0), ops[0]); }
  }

  /** An own close frame and then a text: the writer does not look back, and `closedOnce` is not even set. */
  lemma {:induction false} OwnCloseThenText(c: Config, p: Peer, goodbye: seq<Byte>, text: seq<Byte>)
    requires Healthy(c, p) && p.open && |goodbye| <= c.maxFrame && |text| <= c.maxFrame
    ensures RunOuts(c, p, [Send(CLOSE, goodbye), Send(TEXT, text)]) == [Out(CLOSE, goodbye), Out(TEXT, text)]
    ensures DataAfterClose(RunOuts(c, p, [Send(CLOSE, goodbye), Send(TEXT, text)]))
    ensures RunWalk(c, p, [Send(CLOSE, goodbye), Send(TEXT, text)]).1.closedOnce == p.closedOnce
  {
    var ops := [Send(CLOSE, goodbye), Send(TEXT, text)];
    var m := StepWalk(c, p, ops[0]).1;
    var q := StepWalk(c, m, ops[1]).1;
    assert ops[1..] == [Send(TEXT, text)] && ops[1..][1..] == [];
    assert RunOuts(c, m, ops[1..]) == [Out(TEXT, text)] + RunOuts(c, q, []);
    var outs: seq<Out> := [Out(CLOSE, goodbye), Out(TEXT, text)];
    assert RunOuts(c, p, ops) == outs;
    assert outs[0].opcode == CLOSE && IsData(outs[1]);
    assert RunWalk(c, q, []) == ([], q);
    assert RunWalk(c, m, ops[1..]).1 == q;
  }

  /** The writer does not look at closedOnce: once the connection is closed, text goes out while the socket is open. */
  lemma {:induction false} SendAfterClose(c: Config, p: Peer, text: seq<Byte>)
    requires Healthy(c, p) && |text| <= c.maxFrame && p.closedOnce
    ensures var q := RunWalk(c, p, [Send(TEXT, text)]).1;
            && q.closedOnce && q.open == p.open
            && q.written == if p.open then Clip(c, p.written + SentBytes(c, p.drawn, [Out(TEXT, text)])) else p.written
  {
    var q := Writing(c, p, TEXT, text).1;
    assert RunWalk(c, q, []) == ([], q);
    assert [Send(TEXT, text)][1..] == [];
    if p.open { OneWrite(c, p, TEXT, text); } else { assert p.written + [] == p.written; }
  }
}
