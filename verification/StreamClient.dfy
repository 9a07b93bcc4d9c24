/** The real-time widget client: connection, reconnection, watchdog, pause and delivery. */
module StreamClient {
  import opened Basics

  // ------------------------------------------------------------ bounded queue

  datatype Frame = Frame(order: nat, kind: string)

  /** Keeps the last `capacity` frames pushed since it was last emptied. */
  class RingBuffer {
    const capacity: nat
    var items: seq<Frame>
    var droppedCount: nat
    ghost var pushed: seq<Frame>
    ghost var lost: seq<Frame>

    ghost predicate Valid()
      reads this
    {
      && capacity >= 1 && items == LastN(pushed, capacity)
      && droppedCount == |lost|
    }

    constructor (requested: int)
      ensures Valid() && capacity == (if requested < 1 then 1 else requested)
      ensures items == [] && lost == [] && pushed == []
    {
      capacity := if requested < 1 then 1 else requested;
      items, droppedCount, pushed, lost := [], 0, [], [];
    }

    method Push(item: Frame)
      requires Valid()
      modifies this
      ensures Valid() && pushed == old(pushed) + [item]
      ensures if |old(items)| < capacity then items == old(items) + [item] && lost == old(lost)
              else items == old(items)[1..] + [item] && lost == old(lost) + [old(items)[0]]
    {
      if |items| >= capacity {
        lost := lost + [items[0]];
        items := items[1..];
        droppedCount := droppedCount + 1;
      }
      items := items + [item];
      pushed := pushed + [item];
    }

    method Drain() returns (drained: seq<Frame>)
      requires Valid()
      modifies this`items, this`pushed
      ensures Valid() && drained == old(items) && items == [] && pushed == []
    {
      drained := items;
      items, pushed := [], [];
    }

    method Clear()
      requires Valid()
      modifies this`items, this`pushed
      ensures Valid() && items == [] && pushed == []
    {
      items, pushed := [], [];
    }
  }

  // ---------------------------------------------------- connection, as a value

  datatype Status = Idle | Connecting | Connected | Reconnecting | Closed | Error

  datatype Conn = Conn(
    socket: Option<nat>,
    created: nat,
    status: Status,
    attempt: nat,
    stopped: bool,
    timer: Option<int>,
    watchdog: bool
  )

  datatype Limits = Limits(maxAttempts: nat, base: real, max: real)

  const START := Conn(None, 0, Idle, 0, true, None, false)

  function Round(x: real): int {
    (x + 0.5).Floor
  }

  function Capped(l: Limits, attempt: nat): (e: real)
    ensures l.base >= 0.0 && l.max >= 0.0 ==> 0.0 <= e <= l.max
  {
    var grown := l.base * Pow2(attempt) as real;
    if grown < l.max then grown else l.max
  }

  /** It starts from the base and doubles from attempt to attempt, up to the cap. */
  lemma CappedDoubles(l: Limits, attempt: nat)
    requires 0.0 <= l.base <= l.max
    ensures Capped(l, 0) == l.base
    ensures Capped(l, attempt + 1) == if 2.0 * Capped(l, attempt) < l.max then 2.0 * Capped(l, attempt) else l.max
  {
    var x := Pow2(attempt) as real;
    assert Pow2(0) == 1 && Pow2(attempt + 1) as real == 2.0 * x;
    assert l.base * (2.0 * x) == 2.0 * (l.base * x);
  }

  function ComputeBackoff(l: Limits, attempt: nat, sample: real): int {
    Jittered(Capped(l, attempt), 0.5 + 0.5 * sample)
  }

  function Jittered(exponential: real, jitter: real): int {
    AtLeastOne(Round(exponential * jitter))
  }

  function AtLeastOne(n: int): int {
    if n < 1 then 1 else n
  }

  /** Half the capped exponential at least, the cap at most, never zero. */
  lemma BackoffWithinCap(l: Limits, attempt: nat, sample: real)
    requires 1.0 <= l.base <= l.max && 0.0 <= sample <= 1.0
    ensures 1 <= ComputeBackoff(l, attempt, sample) <= Round(l.max)
    ensures Round(0.5 * Capped(l, attempt)) <= ComputeBackoff(l, attempt, sample)
  {
    JitteredWithin(Capped(l, attempt), 0.5 + 0.5 * sample, l.max);
  }

  lemma JitteredWithin(e: real, jitter: real, max: real)
    requires 0.0 <= e <= max && 1.0 <= max && 0.5 <= jitter <= 1.0
    ensures 1 <= Jittered(e, jitter) <= Round(max) && Round(0.5 * e) <= Jittered(e, jitter)
  {
    Scaled(e, jitter);
    RoundedWithin(0.5 * e, e * jitter, max);
  }

  lemma RoundedWithin(low: real, p: real, max: real)
    requires low <= p <= max && 1.0 <= max
    ensures 1 <= AtLeastOne(Round(p)) <= Round(max) && Round(low) <= AtLeastOne(Round(p))
  {
    RoundMonotone(low, p);
    RoundMonotone(p, max);
    RoundMonotone(1.0, max);
  }


  lemma Scaled(e: real, jitter: real)
    requires e >= 0.0 && 0.5 <= jitter <= 1.0
    ensures 0.5 * e <= e * jitter <= e
  {
    assert e * (jitter - 0.5) >= 0.0 && e * (1.0 - jitter) >= 0.0;
  }

  lemma RoundMonotone(a: real, b: real)
    requires a <= b
    ensures Round(a) <= Round(b)
  {
  }

  function Schedule(c: Conn, l: Limits, sample: real): Conn {
    if c.stopped || c.socket.Some? || c.timer.Some? then c
    else if c.attempt >= l.maxAttempts then c.(status := Error)
    else c.(timer := Some(ComputeBackoff(l, c.attempt, sample)), attempt := c.attempt + 1, status := Reconnecting)
  }

  function OpenSocket(c: Conn, l: Limits, createOk: bool, sample: real): Conn {
    var c' := c.(timer := None, status := if c.attempt > 0 then Reconnecting else Connecting);
    if createOk then c'.(socket := Some(c.created), created := c.created + 1)
    else Schedule(c', l, sample)
  }

  /** What can happen to a client; `createOk` and `sample` are what the environment answers. */
  datatype Event =
    | Start(createOk: bool, sample: real)
    | Close
    | Opened(socket: nat)
    | Message(socket: nat)
    | Failed(socket: nat)
    | Shut(socket: nat, sample: real)
    | TimerFires(createOk: bool, sample: real)
    | WatchdogFires(sample: real)

  function Step(c: Conn, l: Limits, e: Event): Conn {
    match e
    case Start(createOk, sample) =>
      if !c.stopped && (c.socket.Some? || c.timer.Some?) then c
      else OpenSocket(c.(stopped := false, attempt := 0), l, createOk, sample)
    case Close => c.(stopped := true, timer := None, watchdog := false, socket := None, status := Closed)
    case Opened(s) => if c.socket != Some(s) then c else c.(attempt := 0, watchdog := true, status := Connected)
    case Message(s) => if c.socket != Some(s) then c else c.(watchdog := true)
    case Failed(s) => c
    case Shut(s, sample) =>
      if c.socket != Some(s) then c
      else
        var c' := c.(socket := None, watchdog := false);
        if c.stopped then c'.(status := Closed) else Schedule(c', l, sample)
    case TimerFires(createOk, sample) =>
      if c.timer.None? then c
      else
        var c' := c.(timer := None);
        if c.stopped then c' else OpenSocket(c', l, createOk, sample)
    case WatchdogFires(sample) =>
      if !c.watchdog then c
      else
        var c' := c.(watchdog := false);
        if c.socket.None? then c' else Schedule(c'.(socket := None), l, sample)
  }

  function Steps(c: Conn, l: Limits, events: seq<Event>): Conn
    decreases |events|
  {
    if events == [] then c else Steps(Step(c, l, events[0]), l, events[1..])
  }

  /** What the status shown says about the connection. */
  ghost predicate StatusTells(c: Conn) {
    && (c.stopped ==> c.status in {Idle, Closed})
    && (c.timer.Some? ==> c.status == Reconnecting && c.attempt > 0)
    && (c.status == Connected ==> c.socket.Some? && c.attempt == 0)
    && (c.socket.Some? && c.status != Connected ==> c.status == if c.attempt > 0 then Reconnecting else Connecting)
  }

  ghost predicate ConnInv(c: Conn, l: Limits) {
    && StatusTells(c)
    && (c.stopped ==> c.socket.None? && c.timer.None?)
    && !(c.socket.Some? && c.timer.Some?)
    && (c.watchdog ==> c.socket.Some?) && (c.status == Connected ==> c.watchdog)
    && c.attempt <= l.maxAttempts
    && (c.socket.Some? ==> c.socket.value < c.created)
    && (!c.stopped && c.socket.None? && c.timer.None? ==> c.status == Error && c.attempt == l.maxAttempts)
    && (c.status == Error ==> c.socket.None? && c.timer.None?)
  }

  lemma StepInv(c: Conn, l: Limits, e: Event)
    requires ConnInv(c, l)
    ensures ConnInv(Step(c, l, e), l)
  {
  }

  /** Every reachable state: stopped means nothing open, nothing scheduled; never both at once. */
  lemma {:induction false} ReachableInv(c: Conn, l: Limits, events: seq<Event>)
    requires ConnInv(c, l)
    ensures ConnInv(Steps(c, l, events), l)
    decreases |events|
  {
    if events != [] {
      StepInv(c, l, events[0]);
      ReachableInv(Step(c, l, events[0]), l, events[1..]);
    }
  }

  predicate InUnit(e: Event) {
    match e
    case Start(_, sample) => 0.0 <= sample <= 1.0
    case Shut(_, sample) => 0.0 <= sample <= 1.0
    case TimerFires(_, sample) => 0.0 <= sample <= 1.0
    case WatchdogFires(sample) => 0.0 <= sample <= 1.0
    case _ => true
  }

  /** A timer that is set waits as the number of retries before it prescribes. */
  ghost predicate WaitsAsDue(c: Conn, l: Limits) {
    c.timer.Some? ==>
      c.attempt > 0 && 1 <= c.timer.value <= Round(l.max) && Round(0.5 * Capped(l, c.attempt - 1)) <= c.timer.value
  }

  lemma ScheduleWaits(c: Conn, l: Limits, sample: real)
    requires 1.0 <= l.base <= l.max && 0.0 <= sample <= 1.0 && WaitsAsDue(c, l)
    ensures WaitsAsDue(Schedule(c, l, sample), l)
  {
    BackoffWithinCap(l, c.attempt, sample);
  }

  /** Along every run: at least half the capped exponential of the retries since the last opening, at most the cap. */
  lemma {:induction false} EveryWaitAsDue(c: Conn, l: Limits, events: seq<Event>)
    requires ConnInv(c, l) && 1.0 <= l.base <= l.max && WaitsAsDue(c, l) && forall e <- events :: InUnit(e)
    ensures WaitsAsDue(Steps(c, l, events), l)
    decreases |events|
  {
    if events != [] {
      assert events[0] in events;
      StepWaits(c, l, events[0]);
      StepInv(c, l, events[0]);
      EveryWaitAsDue(Step(c, l, events[0]), l, events[1..]);
    }
  }

  lemma StepWaits(c: Conn, l: Limits, e: Event)
    requires ConnInv(c, l) && 1.0 <= l.base <= l.max && WaitsAsDue(c, l) && InUnit(e)
    ensures WaitsAsDue(Step(c, l, e), l)
  {
    match e
    case Start(createOk, sample) => OpenWaits(c.(stopped := false, attempt := 0), l, createOk, sample);
    case Shut(s, sample) => ScheduleWaits(c.(socket := None, watchdog := false), l, sample);
    case TimerFires(createOk, sample) => OpenWaits(c.(timer := None), l, createOk, sample);
    case WatchdogFires(sample) => ScheduleWaits(c.(watchdog := false, socket := None), l, sample);
    case _ =>
  }

  lemma OpenWaits(c: Conn, l: Limits, createOk: bool, sample: real)
    requires 1.0 <= l.base <= l.max && 0.0 <= sample <= 1.0
    ensures WaitsAsDue(OpenSocket(c, l, createOk, sample), l)
  {
    ScheduleWaits(c.(timer := None, status := if c.attempt > 0 then Reconnecting else Connecting), l, sample);
  }

  /** A client that is neither stopped nor has given up. */
  predicate Running(c: Conn) {
    c.status in {Connecting, Connected, Reconnecting}
  }

  /**
   * A start does nothing to a running client, and begins anew otherwise: with a socket of its own if one can
   * be made, or the first retry, and with every retry still to come.
   */
  lemma StartBegins(c: Conn, l: Limits, createOk: bool, sample: real)
    requires ConnInv(c, l)
    ensures var c' := Step(c, l, Start(createOk, sample));
            && (Running(c) ==> c' == c)
            && (!Running(c) && createOk ==>
                  c' == Conn(Some(c.created), c.created + 1, Connecting, 0, false, None, c.watchdog))
            && (!Running(c) && !createOk && l.maxAttempts > 0 ==>
                  c' == Conn(None, c.created, Reconnecting, 1, false, Some(ComputeBackoff(l, 0, sample)), c.watchdog))
            && (!Running(c) ==> RetriesLeft(c', l) == l.maxAttempts)
  {
  }

  /** A retry makes one new socket the current one, or waits for the next, or gives up. */
  lemma RetryOpens(c: Conn, l: Limits, createOk: bool, sample: real)
    requires ConnInv(c, l) && c.timer.Some?
    ensures var c' := Step(c, l, TimerFires(createOk, sample));
            && c'.socket == (if createOk then Some(c.created) else None)
            && c'.created == c.created + (if createOk then 1 else 0)
            && (createOk ==> c'.attempt == c.attempt && c'.status == Reconnecting && c'.timer.None?)
            && (!createOk ==>
                  (c'.timer.Some? <==> c.attempt < l.maxAttempts) && (c'.status == Error <==> c'.timer.None?))
  {
  }

  /** Every sign of life of the current socket keeps the watchdog armed, and none of another does. */
  lemma LifeSigns(c: Conn, l: Limits, s: nat)
    requires ConnInv(c, l)
    ensures c.socket == Some(s) ==> Step(c, l, Opened(s)).watchdog && Step(c, l, Message(s)).watchdog
    ensures c.socket != Some(s) ==> Step(c, l, Opened(s)) == c && Step(c, l, Message(s)) == c
  {
  }

  function Concerns(e: Event): Option<nat> {
    match e
    case Opened(s) => Some(s)
    case Message(s) => Some(s)
    case Failed(s) => Some(s)
    case Shut(s, _) => Some(s)
    case _ => None
  }

  /** A socket that is no longer the current one can never be current again, whatever happens. */
  lemma {:induction false} SupersededForEver(c: Conn, l: Limits, events: seq<Event>, s: nat)
    requires ConnInv(c, l) && s < c.created && c.socket != Some(s)
    ensures Steps(c, l, events).socket != Some(s) && s < Steps(c, l, events).created
    decreases |events|
  {
    if events != [] {
      var c' := Step(c, l, events[0]);
      StepInv(c, l, events[0]);
      SupersededForEver(c', l, events[1..], s);
    }
  }

  /** So its late events change nothing. */
  lemma SupersededIgnored(c: Conn, l: Limits, e: Event)
    requires Concerns(e).Some? && c.socket != Concerns(e)
    ensures Step(c, l, e) == c
  {
  }

  /** Anything but a start, a close, or the current socket opening: errors, messages and late events too. */
  ghost predicate Unlucky(c: Conn, e: Event) {
    !e.Start? && !e.Close? && !(e.Opened? && c.socket == Some(e.socket))
  }

  ghost predicate NeverOpens(c: Conn, l: Limits, events: seq<Event>)
    decreases |events|
  {
    events == [] || (Unlucky(c, events[0]) && NeverOpens(Step(c, l, events[0]), l, events[1..]))
  }

  /** A timer that is still armed when it fires is a retry. */
  predicate IsRetry(c: Conn, e: Event) {
    e.TimerFires? && c.timer.Some?
  }

  /** A failure that takes effect: the current socket is lost, or the timer retries. */
  predicate IsFailure(c: Conn, e: Event) {
    || (e.Shut? && c.socket == Some(e.socket))
    || (e.WatchdogFires? && c.watchdog)
    || IsRetry(c, e)
  }

  function Count(c: Conn, l: Limits, events: seq<Event>, counts: (Conn, Event) -> bool): nat
    decreases |events|
  {
    if events == [] then 0
    else (if counts(c, events[0]) then 1 else 0) + Count(Step(c, l, events[0]), l, events[1..], counts)
  }

  function Retries(c: Conn, l: Limits, events: seq<Event>): nat {
    Count(c, l, events, IsRetry)
  }

  function Failures(c: Conn, l: Limits, events: seq<Event>): nat {
    Count(c, l, events, IsFailure)
  }

  /** How many retries a state still has in it, and how many failures it can still suffer. */
  function RetriesLeft(c: Conn, l: Limits): int {
    l.maxAttempts - c.attempt + if c.timer.Some? then 1 else 0
  }

  function FailuresLeft(c: Conn, l: Limits): int {
    2 * (l.maxAttempts - c.attempt) + if c.timer.Some? then 2 else if c.socket.Some? then 1 else 0
  }

  lemma UnluckyStep(c: Conn, l: Limits, e: Event)
    requires ConnInv(c, l) && !c.stopped && Unlucky(c, e)
    ensures var c' := Step(c, l, e);
            && ConnInv(c', l) && !c'.stopped
            && RetriesLeft(c', l) + (if IsRetry(c, e) then 1 else 0) == RetriesLeft(c, l)
            && FailuresLeft(c', l) + (if IsFailure(c, e) then 1 else 0) <= FailuresLeft(c, l)
  {
  }

  /** Without a successful opening, retries are spent one by one from a fixed stock, and failures from another. */
  lemma {:induction false} NeverOpensBounded(c: Conn, l: Limits, events: seq<Event>)
    requires ConnInv(c, l) && !c.stopped && NeverOpens(c, l, events)
    ensures var c' := Steps(c, l, events);
            && ConnInv(c', l) && !c'.stopped
            && Retries(c, l, events) + RetriesLeft(c', l) == RetriesLeft(c, l)
            && Failures(c, l, events) + FailuresLeft(c', l) <= FailuresLeft(c, l)
    decreases |events|
  {
    if events != [] {
      UnluckyStep(c, l, events[0]);
      NeverOpensBounded(Step(c, l, events[0]), l, events[1..]);
    }
  }

  /**
   * From a start, whatever happens short of a close, another start or a successful opening: at most
   * `maxAttempts` retries and twice that, plus one, failures. No failure is possible any more exactly
   * when there is no socket and nothing is scheduled; then every retry was used and the client shows an error.
   */
  lemma GivesUp(c: Conn, l: Limits, createOk: bool, sample: real, events: seq<Event>)
    requires ConnInv(c, l) && (c.stopped || (c.socket.None? && c.timer.None?))
    requires NeverOpens(Step(c, l, Start(createOk, sample)), l, events)
    ensures var s := Step(c, l, Start(createOk, sample));
            var c', over := Steps(s, l, events), Steps(s, l, events).socket.None? && Steps(s, l, events).timer.None?;
            && Retries(s, l, events) <= l.maxAttempts && Failures(s, l, events) <= 2 * l.maxAttempts + 1
            && ((forall e :: !IsFailure(c', e)) <==> over)
            && (over ==> Retries(s, l, events) == l.maxAttempts && c'.status == Error && !c'.watchdog)
  {
    var s := Step(c, l, Start(createOk, sample));
    NeverOpensBounded(s, l, events);
    var c' := Steps(s, l, events);
    if c'.socket.Some? { assert IsFailure(c', Shut(c'.socket.value, 0.0)); }
    if c'.timer.Some? { assert IsFailure(c', TimerFires(true, 0.0)); }
  }

  /** Between two states without an opening, a retry costs a failure, and losing the socket costs one more. */
  lemma {:induction false} RetriesCostFailures(c: Conn, l: Limits, events: seq<Event>)
    requires ConnInv(c, l) && !c.stopped && NeverOpens(c, l, events)
    ensures var c' := Steps(c, l, events);
            Failures(c, l, events) + (if c'.socket.Some? then 1 else 0)
            >= Retries(c, l, events) + (if c.socket.Some? then 1 else 0)
    decreases |events|
  {
    if events != [] {
      UnluckyStep(c, l, events[0]);
      RetriesCostFailures(Step(c, l, events[0]), l, events[1..]);
    }
  }

  /**
   * A successful opening renews the whole stock of retries: after it, short of another opening, a start or a
   * close, the client retries `maxAttempts` times at most, and exactly so often when nothing is open or scheduled
   * any more. It shows an error only then, and never before it has failed more than `maxAttempts` times.
   */
  lemma OpeningRenews(c: Conn, l: Limits, s: nat, events: seq<Event>)
    requires ConnInv(c, l) && c.socket == Some(s)
    requires NeverOpens(Step(c, l, Opened(s)), l, events)
    ensures var o := Step(c, l, Opened(s));
            var c' := Steps(o, l, events);
            var over := c'.socket.None? && c'.timer.None?;
            && o.status == Connected && !c'.stopped
            && Retries(o, l, events) <= l.maxAttempts
            && (over ==> Retries(o, l, events) == l.maxAttempts)
            && (c'.status == Error <==> over)
            && (c'.status == Error ==> Failures(o, l, events) > l.maxAttempts)
  {
    var o := Step(c, l, Opened(s));
    NeverOpensBounded(o, l, events);
    RetriesCostFailures(o, l, events);
  }

  /** What a browser does to a socket that cannot connect, `error` and then `close`, is such a run. */
  lemma ErrorThenClose(c: Conn, l: Limits, s: nat, sample: real)
    requires ConnInv(c, l) && !c.stopped && c.socket == Some(s)
    ensures NeverOpens(c, l, [Failed(s), Shut(s, sample)])
    ensures Failures(c, l, [Failed(s), Shut(s, sample)]) == 1
  {
    var events := [Failed(s), Shut(s, sample)];
    assert events[1..] == [Shut(s, sample)] && events[1..][1..] == [];
    assert Step(c, l, Failed(s)) == c;
    assert NeverOpens(Step(c, l, Shut(s, sample)), l, []);
    assert Count(c, l, [Shut(s, sample)], IsFailure) == 1;
  }

  // ------------------------------------------------------------------ delivery

  /** What a callback may do to the client while it runs. */
  datatype Act = Pause | Resume | SetTypes(types: seq<string>)

  ghost predicate Increasing(s: seq<Frame>) {
    forall i, j :: 0 <= i < j < |s| ==> s[i].order < s[j].order
  }

  ghost predicate Below(s: seq<Frame>, bound: nat) {
    forall f <- s :: f.order < bound
  }

  /** Where the frames are: handed over, kept, drained but not handed over yet, dropped, cleared. */
  datatype Frames = Frames(
    delivered: seq<Frame>,
    pending: seq<Frame>,
    flight: seq<Frame>,
    lost: seq<Frame>,
    discarded: multiset<Frame>
  )

  function Total(s: Frames): multiset<Frame> {
    multiset(s.delivered) + multiset(s.pending) + multiset(s.flight) + multiset(s.lost) + s.discarded
  }

  /** In how many places a frame is. */
  function Places(s: Frames, f: Frame): nat {
    multiset(s.delivered)[f] + multiset(s.pending)[f] + multiset(s.flight)[f] + multiset(s.lost)[f] + s.discarded[f]
  }

  /** Every accepted frame is in one place, once for each time it was accepted, and no other frame is. */
  ghost predicate Conserved(accepted: multiset<Frame>, s: Frames) {
    forall f {:trigger Places(s, f)} :: accepted[f] == Places(s, f)
  }

  function Line(s: Frames): seq<Frame> {
    s.delivered + s.pending + s.flight
  }

  /** Handed over, then kept, then in flight: one strictly increasing line, below the next number. */
  ghost predicate Ordered(s: Frames, bound: nat) {
    Increasing(Line(s)) && Below(Line(s), bound)
  }

  function HandOver(s: Frames): Frames
    requires s.flight != []
  {
    s.(delivered := s.delivered + [s.flight[0]], flight := s.flight[1..])
  }

  function Keep(s: Frames, capacity: nat): Frames
    requires s.flight != [] && capacity >= 1
  {
    var f, rest := s.flight[0], s.flight[1..];
    if |s.pending| < capacity then s.(pending := s.pending + [f], flight := rest)
    else s.(pending := s.pending[1..] + [f], flight := rest, lost := s.lost + [s.pending[0]])
  }

  lemma HandOverKeeps(accepted: multiset<Frame>, s: Frames, bound: nat)
    requires Ordered(s, bound) && Conserved(accepted, s) && s.flight != [] && s.pending == []
    ensures Ordered(HandOver(s), bound) && Conserved(accepted, HandOver(s))
  {
    assert Line(HandOver(s)) == Line(s);
    assert s.flight == [s.flight[0]] + s.flight[1..];
    SamePlaces(accepted, s, HandOver(s));
  }

  lemma SamePlaces(accepted: multiset<Frame>, s: Frames, t: Frames)
    requires Conserved(accepted, s) && Total(s) == Total(t)
    ensures Conserved(accepted, t)
  {
    forall f ensures accepted[f] == Places(t, f) {
      assert Places(s, f) == Total(s)[f] == Total(t)[f] == Places(t, f);
    }
  }

  lemma KeepKeeps(accepted: multiset<Frame>, s: Frames, capacity: nat, bound: nat)
    requires Ordered(s, bound) && Conserved(accepted, s) && s.flight != [] && capacity >= 1
    ensures Ordered(Keep(s, capacity), bound) && Conserved(accepted, Keep(s, capacity))
  {
    assert s.flight == [s.flight[0]] + s.flight[1..];
    var line := Line(s);
    if |s.pending| < capacity {
      assert Line(Keep(s, capacity)) == line;
    } else {
      assert s.pending == [s.pending[0]] + s.pending[1..];
      Removing(line, |s.delivered|, bound);
      assert Line(Keep(s, capacity)) == line[..|s.delivered|] + line[|s.delivered| + 1..];
    }
    KeepTotal(s, capacity);
    SamePlaces(accepted, s, Keep(s, capacity));
  }

  lemma KeepTotal(s: Frames, capacity: nat)
    requires s.flight != [] && capacity >= 1
    ensures Total(Keep(s, capacity)) == Total(s)
  {
    assert s.flight == [s.flight[0]] + s.flight[1..];
    if |s.pending| >= capacity { assert s.pending == [s.pending[0]] + s.pending[1..]; }
  }

  lemma Removing(line: seq<Frame>, k: nat, bound: nat)
    requires k < |line| && Increasing(line) && Below(line, bound)
    ensures Increasing(line[..k] + line[k + 1..]) && Below(line[..k] + line[k + 1..], bound)
  {
    var t := line[..k] + line[k + 1..];
    forall i, j | 0 <= i < j < |t| ensures t[i].order < t[j].order {
      var i', j' := if i < k then i else i + 1, if j < k then j else j + 1;
      assert t[i] == line[i'] && t[j] == line[j'];
    }
    forall f | f in t ensures f.order < bound {
      assert f in line;
    }
  }

  /** Draining moves what was kept in front of what is in flight; one of the two is empty. */
  function DrainAll(s: Frames): Frames {
    s.(pending := [], flight := s.pending + s.flight)
  }

  lemma DrainKeeps(accepted: multiset<Frame>, s: Frames, bound: nat)
    requires Ordered(s, bound) && Conserved(accepted, s)
    ensures Ordered(DrainAll(s), bound) && Conserved(accepted, DrainAll(s))
  {
    assert Line(DrainAll(s)) == Line(s);
    SamePlaces(accepted, s, DrainAll(s));
  }

  /** A new frame takes the next number, and joins what is in flight. */
  lemma AcceptKeeps(accepted: multiset<Frame>, s: Frames, f: Frame)
    requires Ordered(s, f.order) && Conserved(accepted, s) && s.flight == []
    ensures Ordered(s.(flight := [f]), f.order + 1)
    ensures Conserved(accepted + multiset{f}, s.(flight := [f]))
  {
    var line, line' := Line(s), Line(s.(flight := [f]));
    assert line' == line + [f];
    forall i | 0 <= i < |line| ensures line'[i].order < f.order {
      assert line[i] in line;
    }
    forall g ensures (accepted + multiset{f})[g] == Places(s.(flight := [f]), g) {
      assert accepted[g] == Places(s, g);
    }
  }

  function ClearAll(s: Frames): Frames {
    s.(pending := [], discarded := s.discarded + multiset(s.pending))
  }

  lemma ClearKeeps(accepted: multiset<Frame>, s: Frames, bound: nat)
    requires Ordered(s, bound) && Conserved(accepted, s) && s.flight == []
    ensures Ordered(ClearAll(s), bound) && Conserved(accepted, ClearAll(s))
  {
    var line, kept := Line(s), Line(ClearAll(s));
    assert kept == line[..|s.delivered|];
    forall f | f in kept ensures f.order < bound {
      assert f in line;
    }
    SamePlaces(accepted, s, ClearAll(s));
  }

  /** The part of the client that numbers, filters, keeps and hands over frames. */
  class Delivery {
    const pending: RingBuffer
    const hasFrame: bool
    const hasStatus: bool
    const hasError: bool
    var paused: bool
    var types: seq<string>
    var sequence: nat
    var received: nat
    /** The frames handed to the frame callback, in order. */
    var delivered: seq<Frame>
    /** What the callbacks still to come will do, one list per call. */
    var script: seq<seq<Act>>
    /** Every frame that passed the filter, and those cleared when the client was closed. */
    ghost var accepted: multiset<Frame>
    ghost var discarded: multiset<Frame>

    constructor (pending: RingBuffer, types: seq<string>, script: seq<seq<Act>>,
                 hasFrame: bool, hasStatus: bool, hasError: bool)
      requires pending.Valid() && pending.items == [] && pending.lost == []
      ensures this.pending == pending && this.types == types && this.script == script
      ensures Valid([]) && delivered == [] && accepted == multiset{} && sequence == 0 && !paused
    {
      this.pending, this.types, this.script := pending, types, script;
      this.hasFrame, this.hasStatus, this.hasError := hasFrame, hasStatus, hasError;
      paused, sequence, received, delivered := false, 0, 0, [];
      accepted, discarded := multiset{}, multiset{};
    }

    ghost function View(flight: seq<Frame>): Frames
      reads this, pending
    {
      Frames(delivered, pending.items, flight, pending.lost, discarded)
    }

    ghost predicate Valid(flight: seq<Frame>)
      reads this, pending
    {
      && pending.Valid()
      && Ordered(View(flight), sequence)
      && (pending.items != [] ==> paused)
      && Conserved(accepted, View(flight))
    }

    /** The states in which a callback can run: nothing kept while something is in flight. */
    ghost predicate Settled(flight: seq<Frame>)
      reads this, pending
    {
      Valid(flight) && (pending.items == [] || flight == [])
    }

    /** What callbacks leave alone: they hand frames over and use up their script, no more. */
    twostate predicate Calls()
      reads this
    {
      Uncounted() && old(delivered) <= delivered && |script| <= |old(script)|
    }

    /** No frame was numbered, accepted or cleared. */
    twostate predicate Uncounted()
      reads this
    {
      && sequence == old(sequence) && received == old(received)
      && accepted == old(accepted) && discarded == old(discarded)
    }

    /** No callback still to come will pause. */
    predicate NoPauses()
      reads this`script
    {
      forall acts <- script :: Act.Pause !in acts
    }

    /** Live, and it will stay so. */
    predicate Lively()
      reads this`script, this`paused
    {
      !paused && NoPauses()
    }

    method RunCallback(ghost flight: seq<Frame>)
      requires Settled(flight)
      modifies this, pending
      ensures Settled(flight) && Calls()
      ensures old(script) != [] ==> |script| < |old(script)|
      ensures old(Lively()) ==> Lively() && delivered == old(delivered)
      decreases |script|, 0, 0
    {
      if script == [] { return; }
      var acts := script[0];
      script := script[1..];
      var i := 0;
      while i < |acts|
        invariant Settled(flight) && Calls() && |script| < old(|script|)
        invariant old(Lively()) ==> Lively() && delivered == old(delivered) && Act.Pause !in acts
      {
        match acts[i] {
          case Pause => Pause();
          case Resume => Resume(flight);
          case SetTypes(ts) => types := ts;
        }
        i := i + 1;
      }
    }

    method Pause()
      modifies this`paused
      ensures paused
    {
      paused := true;
    }

    method EmitError(ghost flight: seq<Frame>)
      requires Settled(flight)
      modifies this, pending
      ensures Settled(flight) && Calls()
      ensures !hasError ==> types == old(types) && script == old(script)
      ensures hasError && old(script) != [] ==> |script| < |old(script)|
      ensures old(Lively()) ==> Lively() && delivered == old(delivered)
      decreases |script|, 1, 0
    {
      if hasError { RunCallback(flight); }
    }

    method EmitStatus()
      requires Settled([])
      modifies this, pending
      ensures Settled([]) && Calls()
    {
      if hasStatus { RunCallback([]); }
    }

    /** Kept while paused, handed over otherwise; the callback this triggers may pause or resume. */
    method Deliver(frame: Frame, ghost flight: seq<Frame>)
      requires flight != [] && flight[0] == frame && Valid(flight)
      modifies this, pending
      ensures Valid(flight[1..]) && Calls()
      ensures old(paused) ==> paused && delivered == old(delivered) && frame in pending.items
      ensures !old(paused) ==> Settled(flight[1..]) && old(delivered) + [frame] <= delivered
      ensures old(Lively()) ==> Lively() && delivered == old(delivered) + [frame]
      decreases |script|, 1, 1
    {
      ghost var was := View(flight);
      if paused {
        pending.Push(frame);
        KeepKeeps(accepted, was, pending.capacity, sequence);
        assert View(flight[1..]) == Keep(was, pending.capacity);
        return;
      }
      delivered := delivered + [frame];
      HandOverKeeps(accepted, was, sequence);
      assert View(flight[1..]) == HandOver(was);
      if hasFrame { RunCallback(flight[1..]); }
    }

    /** Live again: what was kept is handed over in order, all of it unless a callback pauses on the way. */
    method Resume(ghost flight: seq<Frame>)
      requires Settled(flight)
      modifies this, pending
      ensures Settled(flight) && Calls()
      ensures old(NoPauses()) ==> Lively() && delivered == old(delivered) + old(pending.items)
      decreases |script|, 3, 0
    {
      ghost var was := View(flight);
      paused := false;
      var drained := pending.Drain();
      DrainKeeps(accepted, was, sequence);
      assert View(drained + flight) == DrainAll(was);
      if pending.droppedCount > 0 { EmitError(drained + flight); }
      DeliverAll(drained, flight);
    }

    /** The loop of a resume: each drained frame in turn, handed over or kept again. */
    method DeliverAll(drained: seq<Frame>, ghost flight: seq<Frame>)
      requires Settled(drained + flight) && (drained == [] || flight == [])
      modifies this, pending
      ensures Settled(flight) && Calls()
      ensures old(Lively()) ==> Lively() && delivered == old(delivered) + drained
      decreases |script|, 2, 1
    {
      var i := 0;
      assert drained[0..] + flight == drained + flight;
      while i < |drained|
        invariant 0 <= i <= |drained| && Valid(drained[i..] + flight) && Calls()
        invariant drained == [] ==> pending.items == [] || flight == []
        invariant old(Lively()) ==> Lively() && delivered == old(delivered) + drained[..i]
      {
        DeliverOne(drained, i, flight);
        assert drained[..i + 1] == drained[..i] + [drained[i]];
        i := i + 1;
      }
      assert drained[..i] == drained;
      assert drained[i..] + flight == flight;
    }

    method DeliverOne(drained: seq<Frame>, i: nat, ghost flight: seq<Frame>)
      requires i < |drained| && Valid(drained[i..] + flight)
      modifies this, pending
      ensures Valid(drained[i + 1..] + flight) && Calls()
      ensures old(Lively()) ==> Lively() && delivered == old(delivered) + [drained[i]]
      decreases |script|, 2, 0
    {
      ghost var left := drained[i..] + flight;
      assert left[1..] == drained[i + 1..] + flight;
      Deliver(drained[i], left);
    }

    method SetFilter(ts: seq<string>)
      requires Settled([])
      modifies this`types
      ensures Settled([]) && types == ts
    {
      types := ts;
    }

    predicate Accepts(kind: string)
      reads this`types
    {
      types == [] || kind in types
    }

    /** One text message: numbered, filtered, then handed over or kept. */
    method IngestText(kind: string, readable: bool)
      requires Settled([])
      modifies this, pending
      ensures Settled([]) && sequence == old(sequence) + 1 && received == old(received) + 1
      ensures old(delivered) <= delivered && discarded == old(discarded)
      ensures var f := Frame(old(sequence), kind);
              accepted == old(accepted) || accepted == old(accepted) + multiset{f}
      ensures readable || !hasError ==>
                accepted == if old(types == [] || kind in types)
                            then old(accepted) + multiset{Frame(old(sequence), kind)}
                            else old(accepted)
      ensures old(Lively()) && (readable || !hasError) ==>
                && Lively()
                && delivered == old(delivered)
                     + if old(types == [] || kind in types) then [Frame(old(sequence), kind)] else []
    {
      received := received + 1;
      var frame := Frame(sequence, kind);
      if !readable { EmitError([]); }
      if Accepts(kind) {
        Accept(frame);
      } else {
        OrderedAbove(View([]), sequence, sequence + 1);
        sequence := sequence + 1;
      }
    }

    method Accept(frame: Frame)
      requires Settled([]) && frame.order == sequence
      modifies this, pending
      ensures Settled([]) && sequence == old(sequence) + 1 && received == old(received)
      ensures accepted == old(accepted) + multiset{frame}
      ensures old(delivered) <= delivered && discarded == old(discarded)
      ensures old(paused) ==> paused && delivered == old(delivered) && frame in pending.items
      ensures old(Lively()) ==> Lively() && delivered == old(delivered) + [frame]
    {
      AcceptKeeps(accepted, View([]), frame);
      ghost var was := View([]);
      sequence := sequence + 1;
      accepted := accepted + multiset{frame};
      assert View([frame]) == was.(flight := [frame]);
      assert [frame][1..] == [];
      Deliver(frame, [frame]);
    }

    /** Closing forgets what was kept. */
    method Clear()
      requires Settled([])
      modifies this`discarded, pending
      ensures Settled([]) && pending.items == []
      ensures discarded == old(discarded) + multiset(old(pending.items))
    {
      ghost var was := View([]);
      discarded := discarded + multiset(pending.items);
      pending.Clear();
      ClearKeeps(accepted, was, sequence);
      assert View([]) == ClearAll(was);
    }
  }

  lemma OrderedAbove(s: Frames, a: nat, b: nat)
    requires Ordered(s, a) && a <= b
    ensures Ordered(s, b)
  {
  }

  // -------------------------------------------------------------- the client

  class AegisStreamClient {
    const limits: Limits
    const delivery: Delivery
    var socket: Option<nat>
    var created: nat
    var status: Status
    var attempt: nat
    var stopped: bool
    var timer: Option<int>
    var watchdog: bool

    constructor (limits: Limits, delivery: Delivery)
      requires delivery.Settled([])
      ensures this.limits == limits && this.delivery == delivery && View() == START && Valid()
    {
      this.limits, this.delivery := limits, delivery;
      socket, created, status, attempt, stopped, timer, watchdog := None, 0, Idle, 0, true, None, false;
    }

    ghost function View(): Conn
      reads this
    {
      Conn(socket, created, status, attempt, stopped, timer, watchdog)
    }

    ghost predicate Valid()
      reads this, delivery, delivery.pending
    {
      delivery.Settled([])
    }

    method EmitStatus(s: Status)
      requires Valid()
      modifies this`status, delivery, delivery.pending
      ensures Valid() && status == s && delivery.Uncounted()
    {
      status := s;
      delivery.EmitStatus();
    }

    method ScheduleReconnect(sample: real)
      requires Valid()
      modifies this, delivery, delivery.pending
      ensures Valid() && View() == Schedule(old(View()), limits, sample) && delivery.Uncounted()
    {
      if stopped || socket.Some? || timer.Some? { return; }
      if attempt >= limits.maxAttempts {
        EmitStatus(Error);
        delivery.EmitError([]);
        return;
      }
      var delay := ComputeBackoff(limits, attempt, sample);
      attempt := attempt + 1;
      EmitStatus(Reconnecting);
      timer := Some(delay);
    }

    method Open(createOk: bool, sample: real)
      requires Valid()
      modifies this, delivery, delivery.pending
      ensures Valid() && View() == OpenSocket(old(View()), limits, createOk, sample) && delivery.Uncounted()
    {
      timer := None;
      EmitStatus(if attempt > 0 then Reconnecting else Connecting);
      if !createOk {
        delivery.EmitError([]);
        ScheduleReconnect(sample);
        return;
      }
      socket := Some(created);
      created := created + 1;
    }

    method Begin(createOk: bool, sample: real)
      requires Valid()
      modifies this, delivery, delivery.pending
      ensures Valid() && View() == Step(old(View()), limits, Start(createOk, sample)) && delivery.Uncounted()
    {
      if !stopped && (socket.Some? || timer.Some?) { return; }
      stopped := false;
      attempt := 0;
      Open(createOk, sample);
    }

    method Shutdown()
      requires Valid()
      modifies this, delivery, delivery.pending
      ensures Valid() && View() == Step(old(View()), limits, Event.Close)
      ensures delivery.discarded == old(delivery.discarded) + multiset(old(delivery.pending.items))
    {
      stopped := true;
      timer, watchdog, socket := None, false, None;
      delivery.Clear();
      EmitStatus(Closed);
    }

    method OnOpen(s: nat)
      requires Valid()
      modifies this, delivery, delivery.pending
      ensures Valid() && View() == Step(old(View()), limits, Opened(s)) && delivery.Uncounted()
    {
      if socket != Some(s) { return; }
      attempt := 0;
      watchdog := true;
      EmitStatus(Connected);
    }

    /** A message of a superseded socket is not even counted. */
    method OnMessage(s: nat, kind: string, readable: bool)
      requires Valid()
      modifies this, delivery, delivery.pending
      ensures Valid() && View() == Step(old(View()), limits, Message(s))
      ensures delivery.received == old(delivery.received) + if old(socket) == Some(s) then 1 else 0
      ensures delivery.sequence == old(delivery.sequence) + if old(socket) == Some(s) then 1 else 0
      ensures old(socket) != Some(s) ==> delivery.delivered == old(delivery.delivered)
    {
      if socket != Some(s) { return; }
      watchdog := true;
      delivery.IngestText(kind, readable);
    }

    method OnError(s: nat)
      requires Valid()
      modifies this, delivery, delivery.pending
      ensures Valid() && View() == Step(old(View()), limits, Failed(s)) && delivery.Uncounted()
      ensures if old(socket) == Some(s) && delivery.hasError then
                old(delivery.script) != [] ==> |delivery.script| < |old(delivery.script)|
              else delivery.script == old(delivery.script)
    {
      if socket != Some(s) { return; }
      delivery.EmitError([]);
    }

    method OnClose(s: nat, sample: real)
      requires Valid()
      modifies this, delivery, delivery.pending
      ensures Valid() && View() == Step(old(View()), limits, Shut(s, sample)) && delivery.Uncounted()
    {
      if socket != Some(s) { return; }
      socket := None;
      watchdog := false;
      if stopped {
        EmitStatus(Closed);
        return;
      }
      ScheduleReconnect(sample);
    }

    method OnTimer(createOk: bool, sample: real)
      requires Valid()
      modifies this, delivery, delivery.pending
      ensures Valid() && View() == Step(old(View()), limits, TimerFires(createOk, sample)) && delivery.Uncounted()
    {
      if timer.None? { return; }
      timer := None;
      if !stopped { Open(createOk, sample); }
    }

    method OnWatchdog(sample: real)
      requires Valid()
      modifies this, delivery, delivery.pending
      ensures Valid() && View() == Step(old(View()), limits, WatchdogFires(sample)) && delivery.Uncounted()
    {
      if !watchdog { return; }
      watchdog := false;
      if socket.None? { return; }
      delivery.EmitError([]);
      socket := None;
      ScheduleReconnect(sample);
    }
  }

  /** At any moment: numbers strictly increase, and accepted = delivered + pending + in flight + dropped + cleared. */
  lemma FramesAccounted(accepted: multiset<Frame>, s: Frames, bound: nat)
    requires Ordered(s, bound) && Conserved(accepted, s)
    ensures Increasing(s.delivered) && Increasing(s.pending)
    ensures accepted == Total(s)
    ensures |accepted| == |s.delivered| + |s.pending| + |s.flight| + |s.lost| + |s.discarded|
  {
    var line := Line(s);
    assert forall i :: 0 <= i < |s.delivered| ==> line[i] == s.delivered[i];
    assert forall i :: 0 <= i < |s.pending| ==> line[|s.delivered| + i] == s.pending[i];
    forall f ensures accepted[f] == Total(s)[f] {
      assert accepted[f] == Places(s, f);
    }
  }
}
