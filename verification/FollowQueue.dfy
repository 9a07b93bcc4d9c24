/** Readers, a bounded queue and the batching main loop, in every interleaving of their steps. */
module FollowQueue {
  import opened Basics

  /** An event is the line it was built from. */
  datatype Ev = Ev(reader: nat, line: nat)

  datatype Item = Event(ev: Ev) | Sentinel(reader: nat)

  /**
   * Where a reader is in its loop: asking the tailer, about to take budget, about to build, waiting
   * for room, about to store the offset, about to leave its sentinel, gone.
   */
  datatype Phase = Idle | Yielded | Granted | Holding | Enqueued | Ending | Over

  /** `parses[k]` says whether line k builds an event; offsets are counted in lines. */
  datatype Reader = Reader(parses: seq<bool>, next: nat, phase: Phase, offset: nat, unparsed: set<nat>)

  datatype MainPc = Getting | Checking | Saving | Breaking | Leaving | Ended

  datatype System = System(
    readers: seq<Reader>,
    queue: seq<Item>,
    pending: seq<Ev>,
    sent: seq<seq<Ev>>,
    pc: MainPc,
    finished: nat,
    seen: set<nat>,
    stop: bool,
    budget: Option<nat>,
    saved: seq<nat>
  )

  datatype Config = Config(capacity: nat, batchSize: nat)

  /** Every step of every thread; `refused` is a batch answered with an authentication error. */
  datatype Label =
    | Yield(i: nat)
    | TakeBudget(i: nat)
    | Build(i: nat)
    | Put(i: nat)
    | GiveUp(i: nat)
    | Store(i: nat)
    | Fail(i: nat)
    | LeaveSentinel(i: nat)
    | DropSentinel(i: nat)
    | Signal
    | Get
    | GetTimeout
    | Check(late: bool, refused: bool)
    | Save(due: bool)
    | TryBreak
    | LastFlush(refused: bool)

  function Set(s: System, i: nat, r: Reader): System
    requires i < |s.readers|
  {
    s.(readers := s.readers[i := r])
  }

  /** The batch leaves whatever the server answers; an authentication error also stops the readers. */
  function Flush(s: System, refused: bool): System {
    if s.pending == [] then s
    else s.(sent := s.sent + [s.pending], pending := [], stop := s.stop || refused)
  }

  ghost predicate Enabled(c: Config, s: System, l: Label) {
    match l
    case Yield(i) => i < |s.readers| && s.readers[i].phase.Idle? && s.readers[i].next < |s.readers[i].parses|
    case TakeBudget(i) => i < |s.readers| && s.readers[i].phase.Yielded?
    case Build(i) => i < |s.readers| && s.readers[i].phase.Granted? && s.readers[i].next < |s.readers[i].parses|
    case Put(i) => i < |s.readers| && s.readers[i].phase.Holding? && |s.queue| < c.capacity
    case GiveUp(i) => i < |s.readers| && s.stop && s.readers[i].phase in {Idle, Holding}
    case Store(i) => i < |s.readers| && s.readers[i].phase.Enqueued?
    case Fail(i) => i < |s.readers| && s.readers[i].phase !in {Ending, Over}
    case LeaveSentinel(i) => i < |s.readers| && s.readers[i].phase.Ending? && |s.queue| < c.capacity
    case DropSentinel(i) => i < |s.readers| && s.readers[i].phase.Ending? && |s.queue| >= c.capacity
    case Signal => true
    case Get => s.pc.Getting? && s.queue != []
    case GetTimeout => s.pc.Getting? && s.queue == []
    case Check(_, _) => s.pc.Checking?
    case Save(_) => s.pc.Saving?
    case TryBreak => s.pc.Breaking?
    case LastFlush(_) => s.pc.Leaving?
  }

  function ReaderStep(c: Config, s: System, l: Label, i: nat): System
    requires i < |s.readers|
  {
    var r := s.readers[i];
    match l
    case Yield(_) => Set(s, i, r.(phase := Yielded))
    case TakeBudget(_) =>
      if s.budget == Some(0) then Set(s, i, r.(phase := Ending)).(stop := true)
      else Set(s, i, r.(phase := Granted)).(budget := if s.budget.Some? then Some(s.budget.value - 1) else None)
    case Build(_) =>
      if r.next < |r.parses| && r.parses[r.next] then Set(s, i, r.(phase := Holding))
      else Set(s, i, r.(phase := Idle, next := r.next + 1, offset := r.next + 1, unparsed := r.unparsed + {r.next}))
    case Put(_) => Set(s, i, r.(phase := Enqueued)).(queue := s.queue + [Event(Ev(i, r.next))])
    case Store(_) => Set(s, i, r.(phase := Idle, next := r.next + 1, offset := r.next + 1))
    case LeaveSentinel(_) => Set(s, i, r.(phase := Over)).(queue := s.queue + [Sentinel(i)])
    case DropSentinel(_) => Set(s, i, r.(phase := Over))
    case _ => Set(s, i, r.(phase := Ending, next := Dealt(r)))
  }

  function Offsets(readers: seq<Reader>): seq<nat> {
    seq(|readers|, i requires 0 <= i < |readers| => readers[i].offset)
  }

  function MainStep(c: Config, s: System, l: Label): System {
    match l
    case Signal => s.(stop := true)
    case Get =>
      if s.queue == [] then s
      else if s.queue[0].Event? then
        s.(pc := Checking, queue := s.queue[1..], pending := s.pending + [s.queue[0].ev])
      else s.(pc := Checking, queue := s.queue[1..], finished := s.finished + 1, seen := s.seen + {s.queue[0].reader})
    case GetTimeout => s.(pc := Checking)
    case Check(late, refused) =>
      if |s.pending| >= c.batchSize || (s.pending != [] && late) then Flush(s, refused).(pc := Getting)
      else s.(pc := Saving)
    case Save(due) =>
      if s.pending == [] && due then s.(pc := Breaking, saved := Offsets(s.readers)) else s.(pc := Breaking)
    case TryBreak => s.(pc := if s.finished >= |s.readers| && s.queue == [] then Leaving else Getting)
    case LastFlush(refused) => Flush(s, refused).(pc := Ended)
    case _ => s
  }

  function ReaderOf(l: Label): Option<nat> {
    match l
    case Yield(i) => Some(i)
    case TakeBudget(i) => Some(i)
    case Build(i) => Some(i)
    case Put(i) => Some(i)
    case GiveUp(i) => Some(i)
    case Store(i) => Some(i)
    case Fail(i) => Some(i)
    case LeaveSentinel(i) => Some(i)
    case DropSentinel(i) => Some(i)
    case _ => None
  }

  function Next(c: Config, s: System, l: Label): System {
    var i := ReaderOf(l);
    if i.None? then MainStep(c, s, l)
    else if i.value < |s.readers| then ReaderStep(c, s, l, i.value)
    else s
  }

  function Run(c: Config, s: System, labels: seq<Label>): System
    decreases |labels|
  {
    if labels == [] then s else Run(c, Next(c, s, labels[0]), labels[1..])
  }

  ghost predicate Allowed(c: Config, s: System, labels: seq<Label>)
    decreases |labels|
  {
    labels == [] || (Enabled(c, s, labels[0]) && Allowed(c, Next(c, s, labels[0]), labels[1..]))
  }

  // ------------------------------------------------------------- observations

  function Flat(batches: seq<seq<Ev>>): seq<Ev> {
    if batches == [] then [] else Flat(batches[..|batches| - 1]) + batches[|batches| - 1]
  }

  function EventsOf(items: seq<Item>): seq<Ev> {
    if items == [] then []
    else EventIn(items[0]) + EventsOf(items[1..])
  }

  /** Everything ever enqueued, oldest first: sent, then pending, then queued. */
  function Journey(s: System): seq<Ev> {
    Flat(s.sent) + s.pending + EventsOf(s.queue)
  }

  function LinesOf(evs: seq<Ev>, i: nat): seq<nat> {
    if evs == [] then []
    else LinesOf(evs[..|evs| - 1], i) + if evs[|evs| - 1].reader == i then [evs[|evs| - 1].line] else []
  }

  /** The lines among the first n that build an event, in order. */
  function Built(parses: seq<bool>, n: nat): seq<nat>
    requires n <= |parses|
  {
    if n == 0 then [] else Built(parses, n - 1) + if parses[n - 1] then [n - 1] else []
  }

  /** How many lines a reader has dealt with: enqueued, or counted as unparsed. */
  function Dealt(r: Reader): nat {
    if r.phase.Enqueued? then r.next + 1 else r.next
  }

  // ---------------------------------------------------------------- invariant

  ghost predicate ReaderInv(r: Reader) {
    && r.next <= |r.parses|
    && (r.offset == r.next || (r.phase in {Ending, Over} && r.offset + 1 == r.next))
    && (r.phase in {Yielded, Granted, Holding, Enqueued} ==> r.next < |r.parses|)
    && (r.phase in {Holding, Enqueued} ==> r.parses[r.next])
    && (forall k :: k in r.unparsed <==> 0 <= k < r.next && !r.parses[k])
  }

  predicate IsOver(s: System, k: nat) {
    k < |s.readers| && s.readers[k].phase.Over?
  }

  ghost predicate QueueInv(c: Config, s: System) {
    && |s.queue| <= c.capacity
    && (forall i :: 0 <= i < |s.queue| && s.queue[i].Sentinel? ==> IsOver(s, s.queue[i].reader))
    && (forall i, j :: 0 <= i < j < |s.queue| && s.queue[i].Sentinel? ==> s.queue[i] != s.queue[j])
    && (forall i :: 0 <= i < |s.queue| && s.queue[i].Sentinel? ==> s.queue[i].reader !in s.seen)
    && (forall k <- s.seen :: IsOver(s, k))
    && s.finished == |s.seen|
  }

  ghost predicate BatchInv(c: Config, s: System) {
    && (forall b <- s.sent :: 0 < |b| <= c.batchSize)
    && |s.pending| <= c.batchSize
    && (s.pc != Checking ==> |s.pending| < c.batchSize)
  }

  ghost predicate DoneInv(s: System) {
    && (s.pc in {Leaving, Ended} ==> s.queue == [] && forall r <- s.readers :: r.phase.Over?)
    && (s.pc.Ended? ==> s.pending == [])
  }

  ghost predicate OrderInv(s: System) {
    forall i {:trigger s.readers[i]} :: 0 <= i < |s.readers| ==>
      && ReaderInv(s.readers[i])
      && Dealt(s.readers[i]) <= |s.readers[i].parses|
      && LinesOf(Journey(s), i) == Built(s.readers[i].parses, Dealt(s.readers[i]))
  }

  ghost predicate Inv(c: Config, s: System) {
    && 1 <= c.capacity && 1 <= c.batchSize
    && OrderInv(s) && QueueInv(c, s) && BatchInv(c, s) && DoneInv(s)
  }

  function Fresh(parses: seq<bool>): Reader {
    Reader(parses, 0, Idle, 0, {})
  }

  function Initial(files: seq<seq<bool>>, budget: Option<nat>): System {
    System(seq(|files|, i requires 0 <= i < |files| => Fresh(files[i])),
           [], [], [], Getting, 0, {}, false, budget, [])
  }

  lemma InitialInv(c: Config, files: seq<seq<bool>>, budget: Option<nat>)
    requires 1 <= c.capacity && 1 <= c.batchSize
    ensures Inv(c, Initial(files, budget))
  {
    var s := Initial(files, budget);
    assert Journey(s) == [];
  }

  // ----------------------------------------------------- the journey of an event

  function EventIn(item: Item): seq<Ev> {
    if item.Event? then [item.ev] else []
  }

  lemma {:induction false} EventsAppend(items: seq<Item>, item: Item)
    ensures EventsOf(items + [item]) == EventsOf(items) + EventIn(item)
  {
    if items == [] {
      assert [item][1..] == [] && EventsOf([]) == [];
      assert items + [item] == [item];
      assert EventIn(item) + [] == EventIn(item) == [] + EventIn(item);
    } else {
      assert (items + [item])[0] == items[0] && (items + [item])[1..] == items[1..] + [item];
      EventsAppend(items[1..], item);
      assert EventIn(items[0]) + (EventsOf(items[1..]) + EventIn(item))
             == EventIn(items[0]) + EventsOf(items[1..]) + EventIn(item);
    }
  }

  lemma LinesAppend(evs: seq<Ev>, e: Ev, i: nat)
    ensures LinesOf(evs + [e], i) == LinesOf(evs, i) + if e.reader == i then [e.line] else []
  {
    assert (evs + [e])[..|evs|] == evs;
  }

  /** Taking an item off the queue moves its event to the pending list: the journey is the same. */
  lemma GetJourney(c: Config, s: System)
    requires s.queue != []
    ensures Journey(MainStep(c, s, Get)) == Journey(s)
  {
    var item := s.queue[0];
    if item.Event? {
      assert Flat(s.sent) + (s.pending + [item.ev]) + EventsOf(s.queue[1..])
             == Flat(s.sent) + s.pending + ([item.ev] + EventsOf(s.queue[1..]));
    } else {
      assert [] + EventsOf(s.queue[1..]) == EventsOf(s.queue[1..]);
    }
  }

  /** A flush moves the pending events to the sent ones. */
  lemma FlushJourney(s: System, refused: bool)
    ensures Journey(Flush(s, refused)) == Journey(s)
  {
    if s.pending != [] {
      assert (s.sent + [s.pending])[..|s.sent|] == s.sent;
      assert Flat(s.sent) + s.pending + [] == Flat(s.sent) + s.pending;
    }
  }

  lemma PutJourney(c: Config, s: System, i: nat)
    requires i < |s.readers|
    ensures Journey(ReaderStep(c, s, Put(i), i)) == Journey(s) + [Ev(i, s.readers[i].next)]
  {
    var e := Ev(i, s.readers[i].next);
    EventsAppend(s.queue, Event(e));
    assert Flat(s.sent) + s.pending + (EventsOf(s.queue) + [e]) == Journey(s) + [e];
  }

  lemma SentinelJourney(c: Config, s: System, i: nat)
    requires i < |s.readers|
    ensures Journey(ReaderStep(c, s, LeaveSentinel(i), i)) == Journey(s)
  {
    EventsAppend(s.queue, Sentinel(i));
    assert EventsOf(s.queue) + [] == EventsOf(s.queue);
  }

  // -------------------------------------------------------- every step keeps it

  lemma MainKeepsOrder(c: Config, s: System, l: Label)
    requires OrderInv(s) && Enabled(c, s, l) && ReaderOf(l).None?
    ensures OrderInv(MainStep(c, s, l))
  {
    var s' := MainStep(c, s, l);
    match l {
      case Get => GetJourney(c, s);
      case Check(_, refused) => FlushJourney(s, refused);
      case LastFlush(refused) => FlushJourney(s, refused);
      case _ =>
    }
    assert Journey(s') == Journey(s) && s'.readers == s.readers;
  }

  /** A reader step adds to the journey exactly the event it enqueues. */
  lemma ReaderJourney(c: Config, s: System, l: Label, i: nat)
    requires ReaderOf(l) == Some(i) && i < |s.readers| && Enabled(c, s, l)
    ensures Journey(ReaderStep(c, s, l, i)) == Journey(s) + if l.Put? then [Ev(i, s.readers[i].next)] else []
  {
    if l.Put? { PutJourney(c, s, i); }
    if l.LeaveSentinel? { SentinelJourney(c, s, i); }
    assert Journey(s) + [] == Journey(s);
  }

  lemma ReaderLocal(c: Config, s: System, l: Label, i: nat)
    requires ReaderOf(l) == Some(i) && i < |s.readers| && Enabled(c, s, l)
    requires ReaderInv(s.readers[i]) && Dealt(s.readers[i]) <= |s.readers[i].parses|
    ensures var r, r' := s.readers[i], ReaderStep(c, s, l, i).readers[i];
            && ReaderInv(r') && Dealt(r') <= |r'.parses| && r'.parses == r.parses
            && (l.Put? ==> Dealt(r') == Dealt(r) + 1 && r.parses[Dealt(r)] && Dealt(r) == r.next)
            && (!l.Put? && !l.Build? ==> Dealt(r') == Dealt(r))
            && (l.Build? ==> Dealt(r') == Dealt(r) || (Dealt(r') == Dealt(r) + 1 && !r.parses[Dealt(r)]))
  {
  }

  /** The reader's own lines follow what it has dealt with; the other readers' lines do not move. */
  lemma JourneyOfReader(before: seq<Ev>, after: seq<Ev>, r: Reader, r': Reader, i: nat, put: bool, j: nat)
    requires after == before + if put then [Ev(i, r.next)] else []
    requires Dealt(r) <= |r.parses| && Dealt(r') <= |r'.parses| && r'.parses == r.parses
    requires put ==> Dealt(r') == Dealt(r) + 1 && r.parses[Dealt(r)] && Dealt(r) == r.next
    requires !put ==> Dealt(r') == Dealt(r) || (Dealt(r') == Dealt(r) + 1 && !r.parses[Dealt(r)])
    requires LinesOf(before, i) == Built(r.parses, Dealt(r))
    ensures LinesOf(after, i) == Built(r'.parses, Dealt(r'))
    ensures j != i ==> LinesOf(after, j) == LinesOf(before, j)
  {
    if put {
      LinesAppend(before, Ev(i, r.next), i);
      LinesAppend(before, Ev(i, r.next), j);
      assert LinesOf(before, j) + [] == LinesOf(before, j);
    } else {
      assert before + [] == before;
      assert Built(r.parses, Dealt(r)) + [] == Built(r.parses, Dealt(r));
    }
  }

  lemma ReaderOrderAt(c: Config, s: System, l: Label, i: nat, j: nat)
    requires ReaderOf(l) == Some(i) && i < |s.readers| && Enabled(c, s, l) && OrderInv(s) && j < |s.readers|
    ensures var s' := ReaderStep(c, s, l, i);
            ReaderInv(s'.readers[j]) && Dealt(s'.readers[j]) <= |s'.readers[j].parses|
            && LinesOf(Journey(s'), j) == Built(s'.readers[j].parses, Dealt(s'.readers[j]))
  {
    var s' := ReaderStep(c, s, l, i);
    var r, r' := s.readers[i], s'.readers[i];
    ReaderLocal(c, s, l, i);
    ReaderJourney(c, s, l, i);
    JourneyOfReader(Journey(s), Journey(s'), r, r', i, l.Put?, j);
    if j != i { assert s'.readers[j] == s.readers[j]; }
  }

  lemma ReaderKeepsOrder(c: Config, s: System, l: Label, i: nat)
    requires ReaderOf(l) == Some(i) && i < |s.readers| && Enabled(c, s, l) && OrderInv(s)
    ensures OrderInv(ReaderStep(c, s, l, i))
  {
    var s' := ReaderStep(c, s, l, i);
    forall j {:trigger s'.readers[j]} | 0 <= j < |s'.readers|
      ensures ReaderInv(s'.readers[j]) && Dealt(s'.readers[j]) <= |s'.readers[j].parses|
              && LinesOf(Journey(s'), j) == Built(s'.readers[j].parses, Dealt(s'.readers[j]))
    {
      ReaderOrderAt(c, s, l, i, j);
    }
  }

  lemma ReaderKeepsQueue(c: Config, s: System, l: Label, i: nat)
    requires ReaderOf(l) == Some(i) && i < |s.readers| && Enabled(c, s, l) && QueueInv(c, s)
    ensures QueueInv(c, ReaderStep(c, s, l, i))
  {
    var s' := ReaderStep(c, s, l, i);
    assert !s.readers[i].phase.Over?;
    forall k | IsOver(s, k) ensures IsOver(s', k) {}
    forall k | k in s.seen ensures IsOver(s', k) && k != i {
      assert IsOver(s, k);
    }
    forall k | 0 <= k < |s.queue| && s.queue[k].Sentinel? ensures s.queue[k] != Sentinel(i) {
      assert IsOver(s, s.queue[k].reader);
    }
  }

  lemma GetKeepsQueue(c: Config, s: System)
    requires s.queue != [] && QueueInv(c, s)
    ensures QueueInv(c, MainStep(c, s, Get))
  {
    var s', head := MainStep(c, s, Get), s.queue[0];
    assert s'.readers == s.readers;
    forall i | 0 <= i < |s'.queue| && s'.queue[i].Sentinel?
      ensures IsOver(s', s'.queue[i].reader) && s'.queue[i].reader !in s'.seen
    {
      assert s'.queue[i] == s.queue[i + 1] && s.queue[0] != s.queue[i + 1];
    }
    forall k | k in s'.seen ensures IsOver(s', k) {
      assert k in s.seen || (head.Sentinel? && k == head.reader);
    }
  }

  lemma MainKeepsQueue(c: Config, s: System, l: Label)
    requires ReaderOf(l).None? && Enabled(c, s, l) && QueueInv(c, s)
    ensures QueueInv(c, MainStep(c, s, l))
  {
    if l.Get? {
      GetKeepsQueue(c, s);
    } else {
      SameQueue(c, s, MainStep(c, s, l));
    }
  }

  lemma SameQueue(c: Config, s: System, s': System)
    requires QueueInv(c, s)
    requires s'.readers == s.readers && s'.queue == s.queue && s'.seen == s.seen && s'.finished == s.finished
    ensures QueueInv(c, s')
  {
    forall k | IsOver(s, k) ensures IsOver(s', k) {}
  }

  function Below(n: nat): (r: set<nat>)
    ensures forall k: nat :: k in r <==> k < n
  {
    if n == 0 then {} else Below(n - 1) + {n - 1}
  }

  lemma {:induction false} BelowSize(n: nat)
    ensures |Below(n)| == n
  {
    if n > 0 { BelowSize(n - 1); }
  }

  lemma FullSet(n: nat, seen: set<nat>)
    requires (forall k <- seen :: k < n) && |seen| >= n
    ensures seen == Below(n)
  {
    BelowSize(n);
    assert seen <= Below(n);
    assert |Below(n) - seen| == |Below(n)| - |seen|;
  }

  /** The loop can only be left when every reader is gone and the queue is empty. */
  lemma BreakMeansDone(c: Config, s: System)
    requires QueueInv(c, s) && s.finished >= |s.readers|
    ensures forall r <- s.readers :: r.phase.Over?
  {
    forall k | k in s.seen ensures k < |s.readers| {
      assert IsOver(s, k);
    }
    FullSet(|s.readers|, s.seen);
    forall i | 0 <= i < |s.readers| ensures s.readers[i].phase.Over? {
      assert IsOver(s, i);
    }
  }

  lemma StepKeepsDone(c: Config, s: System, l: Label)
    requires QueueInv(c, s) && DoneInv(s) && Enabled(c, s, l)
    ensures DoneInv(Next(c, s, l))
  {
    if l.TryBreak? && s.finished >= |s.readers| { BreakMeansDone(c, s); }
    var i := ReaderOf(l);
    if i.Some? { assert s.readers[i.value] in s.readers; }
  }

  lemma StepKeepsBatches(c: Config, s: System, l: Label)
    requires 1 <= c.batchSize && BatchInv(c, s) && Enabled(c, s, l)
    ensures BatchInv(c, Next(c, s, l))
  {
    var s' := Next(c, s, l);
    forall b | b in s'.sent ensures 0 < |b| <= c.batchSize {
      assert b in s.sent || b == s.pending;
    }
  }

  lemma StepKeeps(c: Config, s: System, l: Label)
    requires Inv(c, s) && Enabled(c, s, l)
    ensures Inv(c, Next(c, s, l))
  {
    StepKeepsDone(c, s, l);
    StepKeepsBatches(c, s, l);
    var i := ReaderOf(l);
    if i.None? {
      MainKeepsOrder(c, s, l);
      MainKeepsQueue(c, s, l);
    } else {
      ReaderKeepsOrder(c, s, l, i.value);
      ReaderKeepsQueue(c, s, l, i.value);
    }
  }

  /**
   * In every interleaving: the queue stays within its capacity; for each file, what was sent, is
   * pending and is queued is exactly, in order, the events of the lines dealt with; no stored offset
   * passes a line that was neither enqueued nor counted as unparsed; batches respect their size.
   */
  lemma {:induction false} RunKeeps(c: Config, s: System, labels: seq<Label>)
    requires Inv(c, s) && Allowed(c, s, labels)
    ensures Inv(c, Run(c, s, labels))
    decreases |labels|
  {
    if labels != [] {
      StepKeeps(c, s, labels[0]);
      RunKeeps(c, Next(c, s, labels[0]), labels[1..]);
    }
  }

  // -------------------------------------------------------- what it is good for

  lemma {:induction false} BuiltHas(parses: seq<bool>, n: nat, k: nat)
    requires n <= |parses|
    ensures k in Built(parses, n) <==> k < n && parses[k]
  {
    if n > 0 { BuiltHas(parses, n - 1, k); }
  }

  lemma {:induction false} LinesHas(evs: seq<Ev>, i: nat, k: nat)
    ensures k in LinesOf(evs, i) <==> Ev(i, k) in evs
  {
    if evs != [] {
      var front, last := evs[..|evs| - 1], evs[|evs| - 1];
      LinesHas(front, i, k);
      assert evs == front + [last];
    }
  }

  /** A line below the stored offset was enqueued, or is counted as unparsed. */
  lemma OffsetNeverAhead(c: Config, s: System, i: nat, k: nat)
    requires Inv(c, s) && i < |s.readers| && k < s.readers[i].offset
    ensures Ev(i, k) in Journey(s) || k in s.readers[i].unparsed
  {
    var r := s.readers[i];
    BuiltHas(r.parses, Dealt(r), k);
    LinesHas(Journey(s), i, k);
  }

  /** Once the loop has ended, every event that was ever enqueued has been sent, in order. */
  lemma EndedMeansSent(c: Config, s: System)
    requires Inv(c, s) && s.pc.Ended?
    ensures Journey(s) == Flat(s.sent)
  {
    assert Flat(s.sent) + [] + [] == Flat(s.sent);
  }

  /**
   * The periodic save stores offsets of lines that are only queued. It is safe against a crash,
   * all stored lines having been sent, exactly when the queue holds no event below its file's offset.
   */
  lemma SaveSafeIff(c: Config, s: System)
    requires Inv(c, s) && s.pc.Saving? && s.pending == []
    ensures (forall i, k :: 0 <= i < |s.readers| && 0 <= k < s.readers[i].offset && s.readers[i].parses[k]
                            ==> Ev(i, k) in Flat(s.sent))
            <==> (forall e <- EventsOf(s.queue) :: e.reader < |s.readers| ==> e.line >= s.readers[e.reader].offset)
  {
    assert Flat(s.sent) + [] == Flat(s.sent);
    forall i, k | 0 <= i < |s.readers| && 0 <= k < s.readers[i].offset && s.readers[i].parses[k]
      ensures Ev(i, k) in Flat(s.sent) || Ev(i, k) in EventsOf(s.queue)
    {
      OffsetNeverAhead(c, s, i, k);
    }
    forall e | e in EventsOf(s.queue) && e.reader < |s.readers| && e.line < s.readers[e.reader].offset
      ensures s.readers[e.reader].parses[e.line] && e !in Flat(s.sent)
    {
      NotTwice(c, s, e);
    }
  }

  /** Line k of file i builds an event and lies below the offset given. */
  predicate BelowOffset(s: System, offsets: seq<nat>, i: nat, k: nat) {
    i < |s.readers| && i < |offsets| && k < offsets[i] && k < |s.readers[i].parses| && s.readers[i].parses[k]
  }

  /** Every line below the offsets has been sent. */
  ghost predicate AllSent(s: System, offsets: seq<nat>) {
    forall i, k :: BelowOffset(s, offsets, i, k) ==> Ev(i, k) in Flat(s.sent)
  }

  /**
   * What a save step stores. With something pending, or before it is due, nothing. Otherwise the offsets of
   * that moment: each line below them is sent or still queued, never pending, and all are sent exactly when
   * no queued event lies below its file's offset.
   */
  lemma SaveStores(c: Config, s: System, due: bool)
    requires Inv(c, s) && s.pc.Saving?
    ensures var s' := Next(c, s, Save(due));
            && (s.pending != [] || !due ==> s'.saved == s.saved)
            && (s.pending == [] && due ==>
                && |s'.saved| == |s.readers|
                && (forall i :: 0 <= i < |s.readers| ==> s'.saved[i] == s.readers[i].offset)
                && (forall i, k :: BelowOffset(s', s'.saved, i, k) ==>
                      Ev(i, k) !in s'.pending && (Ev(i, k) in Flat(s'.sent) || Ev(i, k) in EventsOf(s'.queue)))
                && (AllSent(s', s'.saved) <==>
                    forall e <- EventsOf(s'.queue) :: e.reader < |s'.saved| ==> e.line >= s'.saved[e.reader]))
  {
    var s' := Next(c, s, Save(due));
    if s.pending == [] && due {
      SaveSafeIff(c, s);
      assert Flat(s.sent) + [] == Flat(s.sent);
      forall i, k | BelowOffset(s', s'.saved, i, k) ensures Ev(i, k) in Flat(s.sent) || Ev(i, k) in EventsOf(s.queue) {
        OffsetNeverAhead(c, s, i, k);
      }
    }
  }

  /** Step n of a run is a save that is due, with nothing pending, and stores these offsets. */
  ghost predicate SavedBy(c: Config, s: System, labels: seq<Label>, n: nat, saved: seq<nat>) {
    && n < |labels| && labels[n] == Save(true)
    && var m := Run(c, s, labels[..n]);
       Inv(c, m) && m.pc.Saving? && m.pending == [] && saved == Next(c, m, Save(true)).saved
  }

  lemma OnlySavesStore(c: Config, s: System, l: Label)
    requires Enabled(c, s, l) && Next(c, s, l).saved != s.saved
    ensures l == Save(true) && s.pc.Saving? && s.pending == []
  {
  }

  /** In every interleaving, the offsets on disk are those of such a step, of which SaveStores speaks. */
  lemma {:induction false} RunSaves(c: Config, s: System, labels: seq<Label>)
    requires Inv(c, s) && Allowed(c, s, labels)
    ensures var saved := Run(c, s, labels).saved;
            saved == s.saved || exists n: nat :: SavedBy(c, s, labels, n, saved)
    decreases |labels|
  {
    if labels != [] {
      var l, m, rest := labels[0], Next(c, s, labels[0]), labels[1..];
      var saved := Run(c, s, labels).saved;
      StepKeeps(c, s, l);
      RunSaves(c, m, rest);
      if n: nat :| SavedBy(c, m, rest, n, saved) {
        SavedLater(c, s, labels, n, saved);
      } else if m.saved != s.saved {
        OnlySavesStore(c, s, l);
        assert labels[..0] == [] && Run(c, s, []) == s;
        assert SavedBy(c, s, labels, 0, saved);
      }
    }
  }

  lemma SavedLater(c: Config, s: System, labels: seq<Label>, n: nat, saved: seq<nat>)
    requires labels != [] && SavedBy(c, Next(c, s, labels[0]), labels[1..], n, saved)
    ensures SavedBy(c, s, labels, n + 1, saved)
  {
    var start := labels[..n + 1];
    assert start[0] == labels[0] && start[1..] == labels[1..][..n];
    assert Run(c, s, start) == Run(c, Next(c, s, labels[0]), labels[1..][..n]);
  }

  ghost predicate Ascending(lines: seq<nat>) {
    forall i, j :: 0 <= i < j < |lines| ==> lines[i] < lines[j]
  }

  lemma {:induction false} BuiltAscending(parses: seq<bool>, n: nat)
    requires n <= |parses|
    ensures Ascending(Built(parses, n)) && forall k <- Built(parses, n) :: k < n && parses[k]
  {
    if n > 0 {
      BuiltAscending(parses, n - 1);
      var front, all := Built(parses, n - 1), Built(parses, n);
      forall i, j | 0 <= i < j < |all| ensures all[i] < all[j] {
        if j == |front| { assert front[i] in front; }
      }
    }
  }

  lemma {:induction false} LinesConcat(a: seq<Ev>, b: seq<Ev>, i: nat)
    ensures LinesOf(a + b, i) == LinesOf(a, i) + LinesOf(b, i)
  {
    if b == [] {
      assert a + b == a && LinesOf(a, i) + [] == LinesOf(a, i);
    } else {
      var front, last := b[..|b| - 1], b[|b| - 1];
      assert (a + b)[..|a + b| - 1] == a + front;
      LinesConcat(a, front, i);
    }
  }

  /** An event that is queued has not been sent: no event is on its way twice. */
  lemma NotTwice(c: Config, s: System, e: Ev)
    requires Inv(c, s) && s.pending == [] && e in EventsOf(s.queue) && e.reader < |s.readers|
    ensures e.line < |s.readers[e.reader].parses| && s.readers[e.reader].parses[e.line]
    ensures e !in Flat(s.sent)
  {
    assert Journey(s) == Flat(s.sent) + EventsOf(s.queue);
    NotInBoth(Flat(s.sent), EventsOf(s.queue), s.readers[e.reader], e);
  }

  lemma NotInBoth(sent: seq<Ev>, queued: seq<Ev>, r: Reader, e: Ev)
    requires Dealt(r) <= |r.parses| && LinesOf(sent + queued, e.reader) == Built(r.parses, Dealt(r)) && e in queued
    ensures e.line < |r.parses| && r.parses[e.line] && e !in sent
  {
    var i := e.reader;
    LinesConcat(sent, queued, i);
    BuiltAscending(r.parses, Dealt(r));
    LinesHas(sent, i, e.line);
    LinesHas(queued, i, e.line);
    assert e.line in LinesOf(sent, i) + LinesOf(queued, i);
    AscendingOnce(LinesOf(sent, i), LinesOf(queued, i), e.line);
  }

  lemma AscendingOnce(a: seq<nat>, b: seq<nat>, x: nat)
    requires Ascending(a + b) && x in b
    ensures x !in a
  {
    var k :| 0 <= k < |b| && b[k] == x;
    assert (a + b)[|a| + k] == x;
    forall i | 0 <= i < |a| ensures a[i] != x {
      assert (a + b)[i] == a[i];
    }
  }

  /** One file of one line that builds an event, and a main loop that has not received anything yet. */
  function Solo(phase: Phase, next: nat, queue: seq<Item>, pc: MainPc, saved: seq<nat>): System {
    System([Reader([true], next, phase, next, {})], queue, [], [], pc, 0, {}, false, None, saved)
  }

  /** One more step in front of a run. */
  lemma Before(c: Config, s: System, l: Label, m: System, rest: seq<Label>) returns (labels: seq<Label>)
    requires Enabled(c, s, l) && Next(c, s, l) == m && Allowed(c, m, rest)
    ensures Allowed(c, s, labels) && Run(c, s, labels) == Run(c, m, rest)
  {
    labels := [l] + rest;
    assert labels[1..] == rest;
  }

  lemma SoloEnd(c: Config) returns (labels: seq<Label>)
    ensures var s := Solo(Enqueued, 0, [Event(Ev(0, 0))], Saving, []);
            Allowed(c, s, labels) && Run(c, s, labels) == Solo(Idle, 1, [Event(Ev(0, 0))], Breaking, [1])
  {
    var queue := [Event(Ev(0, 0))];
    assert Offsets([Reader([true], 1, Idle, 1, {})]) == [1];
    labels := [];
    labels := Before(c, Solo(Idle, 1, queue, Saving, []), Save(true), Solo(Idle, 1, queue, Breaking, [1]), labels);
    labels := Before(c, Solo(Enqueued, 0, queue, Saving, []), Store(0), Solo(Idle, 1, queue, Saving, []), labels);
  }

  lemma SoloMiddle(c: Config) returns (labels: seq<Label>)
    requires c.capacity >= 1
    ensures var s := Solo(Yielded, 0, [], Saving, []);
            Allowed(c, s, labels) && Run(c, s, labels) == Solo(Idle, 1, [Event(Ev(0, 0))], Breaking, [1])
  {
    labels := SoloEnd(c);
    labels := Before(c, Solo(Holding, 0, [], Saving, []), Put(0),
                     Solo(Enqueued, 0, [Event(Ev(0, 0))], Saving, []), labels);
    labels := Before(c, Solo(Granted, 0, [], Saving, []), Build(0), Solo(Holding, 0, [], Saving, []), labels);
    labels := Before(c, Solo(Yielded, 0, [], Saving, []), TakeBudget(0), Solo(Granted, 0, [], Saving, []), labels);
  }

  /** A run that gets there: the line is queued and its offset stored, then the main loop saves. */
  lemma SavedAheadOfSent(c: Config) returns (labels: seq<Label>)
    requires c.capacity >= 1 && c.batchSize >= 1
    ensures var s := Solo(Idle, 0, [], Getting, []);
            && Inv(c, s) && Allowed(c, s, labels)
            && Run(c, s, labels) == Solo(Idle, 1, [Event(Ev(0, 0))], Breaking, [1])
  {
    labels := SoloMiddle(c);
    labels := Before(c, Solo(Idle, 0, [], Saving, []), Yield(0), Solo(Yielded, 0, [], Saving, []), labels);
    labels := Before(c, Solo(Idle, 0, [], Checking, []), Check(false, false), Solo(Idle, 0, [], Saving, []), labels);
    labels := Before(c, Solo(Idle, 0, [], Getting, []), GetTimeout, Solo(Idle, 0, [], Checking, []), labels);
    SoloInv(c);
  }

  lemma SoloInv(c: Config)
    requires c.capacity >= 1 && c.batchSize >= 1
    ensures Inv(c, Solo(Idle, 0, [], Getting, []))
  {
    var s := Solo(Idle, 0, [], Getting, []);
    assert Journey(s) == [];
  }

  // ------------------------------------------------------ a turn of the main loop

  /** What was taken is checked: it all goes out when a batch is full or has waited too long, and stays otherwise. */
  lemma CheckFlushes(c: Config, s: System, late: bool, refused: bool)
    requires 1 <= c.batchSize && s.pc.Checking?
    ensures var s' := Next(c, s, Check(late, refused));
            if s.pending != [] && (late || |s.pending| >= c.batchSize) then
              s'.pending == [] && Flat(s'.sent) == Flat(s.sent) + s.pending && s'.pc.Getting?
            else
              s'.pending == s.pending && s'.sent == s.sent && s'.pc.Saving?
  {
    assert (s.sent + [s.pending])[..|s.sent|] == s.sent;
  }

  /** Every turn goes from the queue to the checks, the save and the test for the end, one item at most each time. */
  lemma TurnOfMain(c: Config, s: System, l: Label)
    requires ReaderOf(l).None? && l != Signal && Enabled(c, s, l)
    ensures var s' := Next(c, s, l);
            && (s.pc.Getting? ==> s'.pc.Checking?)
            && (s.pc.Saving? ==> s'.pc.Breaking?)
            && (s.pc.Breaking? ==> s'.pc == if s.finished >= |s.readers| && s.queue == [] then Leaving else Getting)
            && (s.pc.Leaving? ==> s'.pc.Ended? && s'.pending == [])
            && (l.Get? && s.queue[0].Sentinel? ==> s'.finished == s.finished + 1)
            && (!l.Get? || s.queue[0].Event? ==> s'.finished == s.finished)
  {
  }

  // ---------------------------------------------------------- stop and budget

  /** The step asks the readers to stop: a signal, a batch refused for good, or the budget used up. */
  predicate Stops(c: Config, s: System, l: Label) {
    match l
    case Signal => true
    case TakeBudget(_) => s.budget == Some(0)
    case Check(late, refused) => refused && s.pending != [] && (|s.pending| >= c.batchSize || late)
    case LastFlush(refused) => refused && s.pending != []
    case _ => false
  }

  lemma StopStep(c: Config, s: System, l: Label)
    requires Enabled(c, s, l) && 1 <= c.batchSize
    ensures Next(c, s, l).stop <==> s.stop || Stops(c, s, l)
  {
  }

  /** Along every interleaving the stop is set exactly when some step asked for it, and never taken back. */
  lemma {:induction false} StopIff(c: Config, s: System, labels: seq<Label>)
    requires Allowed(c, s, labels) && 1 <= c.batchSize
    ensures Run(c, s, labels).stop <==>
            s.stop || exists n: nat :: n < |labels| && Stops(c, Run(c, s, labels[..n]), labels[n])
    decreases |labels|
  {
    if labels != [] {
      var m, rest := Next(c, s, labels[0]), labels[1..];
      StopStep(c, s, labels[0]);
      StopIff(c, m, rest);
      if n: nat :| n < |rest| && Stops(c, Run(c, m, rest[..n]), rest[n]) {
        StopLater(c, s, labels, n);
        assert Stops(c, Run(c, s, labels[..n + 1]), labels[n + 1]);
      }
      if n: nat :| n < |labels| && Stops(c, Run(c, s, labels[..n]), labels[n]) && n > 0 {
        StopLater(c, s, labels, n - 1);
        assert Stops(c, Run(c, m, rest[..n - 1]), rest[n - 1]);
      }
      if Stops(c, s, labels[0]) { assert labels[..0] == [] && Stops(c, Run(c, s, labels[..0]), labels[0]); }
      assert labels[..0] == [];
    }
  }

  lemma StopLater(c: Config, s: System, labels: seq<Label>, n: nat)
    requires n + 1 <= |labels|
    ensures Run(c, s, labels[..n + 1]) == Run(c, Next(c, s, labels[0]), labels[1..][..n])
  {
    var start := labels[..n + 1];
    assert start[0] == labels[0] && start[1..] == labels[1..][..n];
  }

  /** What a reader has taken from the budget and not given up: the lines dealt with, and the one in hand. */
  function Drawn(r: Reader): nat {
    r.next + if r.phase in {Granted, Holding, Enqueued} then 1 else 0
  }

  function AllDrawn(readers: seq<Reader>): nat {
    if readers == [] then 0 else AllDrawn(readers[..|readers| - 1]) + Drawn(readers[|readers| - 1])
  }

  lemma {:induction false} DrawnUpdate(readers: seq<Reader>, i: nat, r: Reader)
    requires i < |readers|
    ensures AllDrawn(readers[i := r]) == AllDrawn(readers) + Drawn(r) - Drawn(readers[i])
    decreases |readers|
  {
    var n := |readers| - 1;
    if i < n {
      assert readers[i := r][..n] == readers[..n][i := r];
      DrawnUpdate(readers[..n], i, r);
    } else {
      assert readers[i := r][..n] == readers[..n];
    }
  }

  /** The budget and what was drawn from it make up no more than the limit given. */
  predicate WithinBudget(s: System, limit: Option<nat>) {
    limit.Some? ==> s.budget.Some? && AllDrawn(s.readers) + s.budget.value <= limit.value
  }

  lemma ReaderDraws(c: Config, s: System, l: Label, i: nat, limit: Option<nat>)
    requires ReaderOf(l) == Some(i) && i < |s.readers| && Enabled(c, s, l) && WithinBudget(s, limit)
    ensures WithinBudget(ReaderStep(c, s, l, i), limit)
  {
    var s' := ReaderStep(c, s, l, i);
    var r' := s'.readers[i];
    assert s'.readers == s.readers[i := r'];
    DrawnUpdate(s.readers, i, r');
    if limit.Some? { DrawsOne(c, s, l, i); }
  }

  /** A reader draws exactly what the budget loses. */
  lemma DrawsOne(c: Config, s: System, l: Label, i: nat)
    requires ReaderOf(l) == Some(i) && i < |s.readers| && Enabled(c, s, l) && s.budget.Some?
    ensures var s' := ReaderStep(c, s, l, i);
            && s'.budget.Some?
            && Drawn(s'.readers[i]) + s'.budget.value <= Drawn(s.readers[i]) + s.budget.value
            && (!l.Fail? && !l.GiveUp? ==>
                  Drawn(s'.readers[i]) + s'.budget.value == Drawn(s.readers[i]) + s.budget.value)
            && (l.TakeBudget? && s.budget == Some(0) ==> s'.readers[i].phase == Ending)
  {
  }

  /** With `--max-events`, the readers together never deal with more lines than that, in any interleaving. */
  lemma {:induction false} BudgetHolds(c: Config, s: System, labels: seq<Label>, limit: Option<nat>)
    requires Allowed(c, s, labels) && WithinBudget(s, limit)
    ensures WithinBudget(Run(c, s, labels), limit)
    decreases |labels|
  {
    if labels != [] {
      var i := ReaderOf(labels[0]);
      if i.Some? { ReaderDraws(c, s, labels[0], i.value, limit); }
      BudgetHolds(c, Next(c, s, labels[0]), labels[1..], limit);
    }
  }

  lemma {:induction false} NothingDrawn(files: seq<seq<bool>>, budget: Option<nat>)
    ensures WithinBudget(Initial(files, budget), budget)
  {
    FreshDrawn(Initial(files, budget).readers);
  }

  lemma {:induction false} FreshDrawn(readers: seq<Reader>)
    requires forall r <- readers :: Drawn(r) == 0
    ensures AllDrawn(readers) == 0
  {
    if readers != [] { FreshDrawn(readers[..|readers| - 1]); }
  }

  // ------------------------------------------------ a sentinel that is dropped

  /** A reader that is gone without a sentinel, queued or counted, while the loop still waits for one. */
  ghost predicate Lost(s: System, i: nat) {
    IsOver(s, i) && i !in s.seen && Sentinel(i) !in s.queue && s.pc !in {Leaving, Ended}
  }

  /** A reader that finds the queue full when it leaves is lost. */
  lemma DroppedIsLost(c: Config, s: System, i: nat)
    requires Inv(c, s) && Enabled(c, s, DropSentinel(i))
    ensures Lost(Next(c, s, DropSentinel(i)), i)
  {
    assert !IsOver(s, i) && s.readers[i] in s.readers;
    forall k | 0 <= k < |s.queue| ensures s.queue[k] != Sentinel(i) {}
  }

  /** It is the only way to lose one: a sentinel that finds room is queued, and counted when it is taken. */
  lemma LostOnlyDropped(c: Config, s: System, l: Label, i: nat)
    requires Inv(c, s) && Enabled(c, s, l) && !Lost(s, i) && l != DropSentinel(i)
    ensures !Lost(Next(c, s, l), i)
  {
    if ReaderOf(l).None? {
      MainNeverLoses(c, s, l, i);
    } else {
      ReaderNeverLoses(c, s, l, i, ReaderOf(l).value);
    }
  }

  lemma ReaderNeverLoses(c: Config, s: System, l: Label, i: nat, j: nat)
    requires ReaderOf(l) == Some(j) && j < |s.readers| && Enabled(c, s, l) && !Lost(s, i) && l != DropSentinel(i)
    ensures !Lost(ReaderStep(c, s, l, j), i)
  {
    var s' := ReaderStep(c, s, l, j);
    if l.LeaveSentinel? { assert s'.queue[|s.queue|] == Sentinel(j); }
    if j != i && i < |s.readers| { assert s'.readers[i] == s.readers[i]; }
    forall k | 0 <= k < |s.queue| ensures s'.queue[k] == s.queue[k] {}
  }

  lemma MainNeverLoses(c: Config, s: System, l: Label, i: nat)
    requires ReaderOf(l).None? && Enabled(c, s, l) && !Lost(s, i)
    ensures !Lost(MainStep(c, s, l), i)
  {
    if l.Get? && Sentinel(i) in s.queue { assert s.queue == [s.queue[0]] + s.queue[1..]; }
  }

  lemma NotAllCounted(c: Config, s: System, i: nat)
    requires QueueInv(c, s) && Lost(s, i)
    ensures s.finished < |s.readers|
  {
    if s.finished >= |s.readers| {
      forall k | k in s.seen ensures k < |s.readers| { assert IsOver(s, k); }
      FullSet(|s.readers|, s.seen);
    }
  }

  lemma MainKeepsLost(c: Config, s: System, l: Label, i: nat)
    requires ReaderOf(l).None? && Enabled(c, s, l) && Lost(s, i) && s.finished < |s.readers|
    ensures Lost(MainStep(c, s, l), i)
  {
    var s' := MainStep(c, s, l);
    if l.Get? {
      assert s.queue[0] in s.queue;
      forall k | 0 <= k < |s'.queue| ensures s'.queue[k] != Sentinel(i) {
        assert s.queue[k + 1] in s.queue;
      }
    } else {
      assert s'.queue == s.queue && s'.seen == s.seen;
    }
  }

  lemma ReaderKeepsLost(c: Config, s: System, l: Label, i: nat, j: nat)
    requires ReaderOf(l) == Some(j) && j < |s.readers| && Enabled(c, s, l) && Lost(s, i)
    ensures Lost(ReaderStep(c, s, l, j), i)
  {
    var s' := ReaderStep(c, s, l, j);
    assert j != i && s'.readers[i] == s.readers[i];
    forall k | 0 <= k < |s'.queue| ensures s'.queue[k] != Sentinel(i) {}
  }

  /** And stays so: no interleaving ends the loop any more. */
  lemma {:induction false} LostForEver(c: Config, s: System, labels: seq<Label>, i: nat)
    requires Inv(c, s) && Allowed(c, s, labels) && Lost(s, i)
    ensures Lost(Run(c, s, labels), i) && !Run(c, s, labels).pc.Ended?
    decreases |labels|
  {
    if labels != [] {
      StepKeeps(c, s, labels[0]);
      var j := ReaderOf(labels[0]);
      if j.None? {
        NotAllCounted(c, s, i);
        MainKeepsLost(c, s, labels[0], i);
      } else {
        ReaderKeepsLost(c, s, labels[0], i, j.value);
      }
      LostForEver(c, Next(c, s, labels[0]), labels[1..], i);
    }
  }

  ghost predicate AllOver(s: System) {
    forall i :: 0 <= i < |s.readers| ==> IsOver(s, i)
  }

  ghost predicate NoneLost(s: System) {
    forall i :: 0 <= i < |s.readers| ==> !Lost(s, i)
  }

  /** What the main loop does next, with no timer going off. */
  function MainLabel(s: System): Label {
    match s.pc
    case Getting => if s.queue == [] then GetTimeout else Get
    case Checking => Check(false, false)
    case Saving => Save(false)
    case Breaking => TryBreak
    case _ => LastFlush(false)
  }

  function Ahead(s: System): nat {
    match s.pc
    case Getting => if s.queue == [] then 5 else 1
    case Checking => 4
    case Saving => 3
    case Breaking => 2
    case Leaving => 1
    case Ended => 0
  }

  lemma MainKeepsNoneLost(c: Config, s: System)
    requires QueueInv(c, s) && AllOver(s) && NoneLost(s) && !s.pc.Ended?
    ensures var s' := Next(c, s, MainLabel(s)); AllOver(s') && NoneLost(s')
  {
    var s' := Next(c, s, MainLabel(s));
    assert s'.readers == s.readers;
    forall i | 0 <= i < |s'.readers| ensures IsOver(s', i) && !Lost(s', i) {
      assert IsOver(s, i) && !Lost(s, i);
      MainFinds(c, s, i);
    }
  }

  /** A sentinel or a count is not lost: the queue's head is counted when it is taken. */
  lemma MainFinds(c: Config, s: System, i: nat)
    requires IsOver(s, i) && !Lost(s, i) && !s.pc.Ended?
    ensures !Lost(Next(c, s, MainLabel(s)), i)
  {
    if s.pc.Getting? && s.queue != [] && Sentinel(i) in s.queue {
      assert s.queue == [s.queue[0]] + s.queue[1..];
    }
  }

  /** With nothing queued every reader has been counted, so the loop breaks. */
  lemma AllCounted(c: Config, s: System)
    requires QueueInv(c, s) && AllOver(s) && NoneLost(s) && s.queue == [] && s.pc !in {Leaving, Ended}
    ensures s.finished >= |s.readers|
  {
    forall i: nat | i < |s.readers| ensures i in s.seen {
      assert IsOver(s, i) && !Lost(s, i);
    }
    BelowSize(|s.readers|);
    assert Below(|s.readers|) <= s.seen;
    assert |s.seen - Below(|s.readers|)| == |s.seen| - |Below(|s.readers|)|;
  }

  /** Each of these steps brings the loop nearer its end: in what is queued, then pending, then left to do. */
  lemma MainProgress(c: Config, s: System)
    requires QueueInv(c, s) && BatchInv(c, s) && 1 <= c.batchSize && AllOver(s) && NoneLost(s) && !s.pc.Ended?
    requires s.pc.Leaving? ==> s.queue == []
    ensures var s' := Next(c, s, MainLabel(s));
            && Enabled(c, s, MainLabel(s))
            && (|s'.queue| < |s.queue| || s'.queue == s.queue)
            && (s'.queue == s.queue ==>
                |s'.pending| < |s.pending| || (s'.pending == s.pending && Ahead(s') < Ahead(s)))
  {
    if s.queue == [] && s.pc.Breaking? { AllCounted(c, s); }
  }

  lemma {:induction false} Drains(c: Config, s: System) returns (labels: seq<Label>)
    requires Inv(c, s) && AllOver(s) && NoneLost(s)
    ensures Allowed(c, s, labels) && Run(c, s, labels).pc.Ended?
    decreases |s.queue|, |s.pending|, Ahead(s)
  {
    if s.pc.Ended? {
      labels := [];
    } else {
      var l := MainLabel(s);
      StepKeeps(c, s, l);
      MainKeepsNoneLost(c, s);
      MainProgress(c, s);
      var rest := Drains(c, Next(c, s, l));
      labels := Before(c, s, l, Next(c, s, l), rest);
    }
  }

  /**
   * Once every reader is gone the loop can still end exactly when none of them is lost: the code ends it by
   * counting sentinels, and a sentinel that meets a full queue is dropped.
   */
  lemma EndsIff(c: Config, s: System)
    requires Inv(c, s) && AllOver(s)
    ensures (exists labels :: Allowed(c, s, labels) && Run(c, s, labels).pc.Ended?) <==> NoneLost(s)
  {
    if NoneLost(s) {
      var labels := Drains(c, s);
    } else {
      var i :| 0 <= i < |s.readers| && Lost(s, i);
      forall labels | Allowed(c, s, labels) ensures !Run(c, s, labels).pc.Ended? {
        LostForEver(c, s, labels, i);
      }
    }
  }

  /** A run that loses a reader: a queue of one place, an event in it, and the reader leaves. */
  lemma SentinelDropped(c: Config) returns (labels: seq<Label>)
    requires c.capacity == 1 && c.batchSize >= 1
    ensures var s := Solo(Idle, 0, [], Getting, []);
            && Inv(c, s) && Allowed(c, s, labels)
            && Run(c, s, labels) == Solo(Over, 1, [Event(Ev(0, 0))], Getting, [])
            && Lost(Run(c, s, labels), 0)
  {
    var queue := [Event(Ev(0, 0))];
    labels := [];
    labels := Before(c, Solo(Ending, 1, queue, Getting, []), DropSentinel(0),
                     Solo(Over, 1, queue, Getting, []), labels);
    labels := Before(c, Solo(Idle, 1, queue, Getting, []), Fail(0), Solo(Ending, 1, queue, Getting, []), labels);
    labels := Before(c, Solo(Enqueued, 0, queue, Getting, []), Store(0), Solo(Idle, 1, queue, Getting, []), labels);
    labels := Enqueues(c, labels, Solo(Over, 1, queue, Getting, []));
    SoloInv(c);
  }

  lemma Enqueues(c: Config, rest: seq<Label>, end: System) returns (labels: seq<Label>)
    requires c.capacity >= 1
    requires var m := Solo(Enqueued, 0, [Event(Ev(0, 0))], Getting, []); Allowed(c, m, rest) && Run(c, m, rest) == end
    ensures var s := Solo(Idle, 0, [], Getting, []); Allowed(c, s, labels) && Run(c, s, labels) == end
  {
    labels := Before(c, Solo(Holding, 0, [], Getting, []), Put(0),
                     Solo(Enqueued, 0, [Event(Ev(0, 0))], Getting, []), rest);
    labels := Before(c, Solo(Granted, 0, [], Getting, []), Build(0), Solo(Holding, 0, [], Getting, []), labels);
    labels := Before(c, Solo(Yielded, 0, [], Getting, []), TakeBudget(0), Solo(Granted, 0, [], Getting, []), labels);
    labels := Before(c, Solo(Idle, 0, [], Getting, []), Yield(0), Solo(Yielded, 0, [], Getting, []), labels);
  }
}
