/** The ingestion pipeline: findings and their deduplication windows, decisions, collapsed batches. */
module Pipeline {
  import opened Basics
  import opened FirstSeenOrder

  datatype Key = Key(tenant: string, rule: string, dedup: string)

  datatype Finding = Finding(id: nat, key: Key, count: nat, open: bool, lastSeen: int, content: nat)

  /** The findings ever created, by identifier. */
  type Store = seq<Finding>

  /** Where a component raises while one match is handled. */
  datatype Stage = Find | CloseOld | Build | Write | AfterWrite | Decide | Act

  /** A rule match, with the clock read, the content the rule engine builds, and what raises. */
  datatype Match = Match(key: Key, ttl: int, now: int, lastSeen: int, content: nat, raises: Option<Stage>)

  /** The decision engine and the action engine, as functions of the finding. */
  datatype Engines = Engines(decide: Finding -> nat, acts: Finding -> bool)

  // ------------------------------------------------------------- specification

  /** The first open finding for a key, or the size of the store. */
  function FindOpen(s: Store, key: Key, from: nat): (i: nat)
    requires from <= |s|
    ensures from <= i <= |s|
    ensures i < |s| ==> s[i].open && s[i].key == key
    decreases |s| - from
  {
    if from == |s| || (s[from].open && s[from].key == key) then from else FindOpen(s, key, from + 1)
  }

  function Expired(f: Finding, m: Match): bool {
    m.now - f.lastSeen > m.ttl
  }

  function Refresh(f: Finding, m: Match): Finding {
    f.(count := f.count + 1, lastSeen := m.lastSeen, content := m.content)
  }

  function Fresh(s: Store, m: Match): Finding {
    Finding(|s|, m.key, 1, true, m.lastSeen, m.content)
  }

  /** The finding to refresh: the open one of the match's key within its window, or the size of the store. */
  function Current(s: Store, m: Match): (i: nat)
    ensures i <= |s|
  {
    var i := FindOpen(s, m.key, 0);
    if i < |s| && !Expired(s[i], m) then i else |s|
  }

  /** The store with an expired window closed. */
  function Swept(s: Store, m: Match): Store {
    var i := FindOpen(s, m.key, 0);
    if i < |s| && Expired(s[i], m) then s[i := s[i].(open := false)] else s
  }

  /** Create or refresh: the finding handed on, if nothing raised, and the store. */
  function Upsert(s: Store, m: Match): (Option<Finding>, Store) {
    var i := FindOpen(s, m.key, 0);
    if m.raises == Some(Find) then (None, s)
    else if i < |s| && Expired(s[i], m) && m.raises == Some(CloseOld) then (None, s)
    else
      var s' := Swept(s, m);
      if m.raises == Some(Build) || m.raises == Some(Write) then (None, s')
      else
        var j := Current(s, m);
        var f := if j < |s'| then Refresh(s'[j], m) else Fresh(s', m);
        (if m.raises == Some(AfterWrite) then None else Some(f),
         if j < |s'| then s'[j := f] else s' + [f])
  }

  datatype Result = Result(findings: seq<Finding>, decisions: seq<nat>, actions: seq<Finding>, raised: bool)

  /** One match all the way: finding, decision, action. */
  function React(e: Engines, s: Store, r: Result, m: Match): (Store, Result) {
    var (f, s') := Upsert(s, m);
    if f.None? then (s', r.(raised := true))
    else
      var r' := r.(findings := r.findings + [f.value]);
      if m.raises == Some(Decide) then (s', r'.(raised := true))
      else
        var r'' := r'.(decisions := r'.decisions + [e.decide(f.value)]);
        if m.raises == Some(Act) then (s', r''.(raised := true))
        else (s', r''.(actions := r''.actions + if e.acts(f.value) then [f.value] else []))
  }

  /** What an event makes the pipeline do: matches to react to, or a component that raises. */
  datatype Step = Matched(m: Match) | Raise

  function ReactAll(e: Engines, s: Store, r: Result, steps: seq<Step>): (Store, Result)
    decreases |steps|
  {
    if steps == [] || r.raised then (s, r)
    else if steps[0].Raise? then (s, r.(raised := true))
    else
      var (s', r') := React(e, s, r, steps[0].m);
      ReactAll(e, s', r', steps[1..])
  }

  /** A statistical signal: its event may already be stored, and a component may raise on it. */
  datatype Signal = Signal(inserted: bool, raises: bool, matches: seq<Match>)

  datatype Event = Event(
    tenant: string,
    isAnomaly: bool,
    raisesFirst: bool,
    matches: seq<Match>,
    signals: seq<Signal>,
    raisesMarking: bool
  )

  function Steps(ms: seq<Match>): seq<Step> {
    if ms == [] then [] else [Matched(ms[0])] + Steps(ms[1..])
  }

  function SignalSteps(signals: seq<Signal>): seq<Step> {
    if signals == [] then []
    else
      (if signals[0].raises then [Raise] else if signals[0].inserted then Steps(signals[0].matches) else [])
      + SignalSteps(signals[1..])
  }

  /** Rules first, then the signals; an anomaly event is not analysed again. Marking comes last. */
  function EventSteps(e: Event, anomalies: bool): seq<Step> {
    (if e.raisesFirst then [Raise] else [])
    + Steps(e.matches)
    + (if anomalies && !e.isAnomaly then SignalSteps(e.signals) else [])
  }

  const EMPTY := Result([], [], [], false)

  function Process(eng: Engines, anomalies: bool, s: Store, e: Event): (Store, Result) {
    var (s', r) := ReactAll(eng, s, EMPTY, EventSteps(e, anomalies));
    (s', r.(raised := r.raised || e.raisesMarking))
  }

  /** Whether the event is counted as processed, which happens before it is marked in the store. */
  function Counted(eng: Engines, anomalies: bool, s: Store, e: Event): bool {
    !ReactAll(eng, s, EMPTY, EventSteps(e, anomalies)).1.raised
  }

  datatype Pair = Pair(finding: Finding, decision: Option<nat>)

  /** Findings and decisions of one event, matched by position. */
  function Pairs(r: Result): seq<Pair> {
    seq(|r.findings|, i requires 0 <= i < |r.findings| =>
      Pair(r.findings[i], if i < |r.decisions| then Some(r.decisions[i]) else None))
  }

  function ProcessAll(eng: Engines, anomalies: bool, s: Store, events: seq<Event>): (Store, seq<Pair>)
    decreases |events|
  {
    if events == [] then (s, [])
    else
      var (s', r) := Process(eng, anomalies, s, events[0]);
      var (s'', ps) := ProcessAll(eng, anomalies, s', events[1..]);
      (s'', Pairs(r) + ps)
  }

  // ------------------------------------------------- one finding, one entry

  function Ids(ps: seq<Pair>): seq<nat> {
    seq(|ps|, i requires 0 <= i < |ps| => ps[i].finding.id)
  }

  /** The last pair that carries an identifier. */
  function LastPair(ps: seq<Pair>, id: nat): Option<Pair> {
    if ps == [] then None
    else if ps[|ps| - 1].finding.id == id then Some(ps[|ps| - 1])
    else LastPair(ps[..|ps| - 1], id)
  }

  /** The dictionary of states: keys keep the place of their first insertion. */
  datatype Table = Table(order: seq<nat>, entries: map<nat, Pair>)

  function Insert(t: Table, p: Pair): Table {
    Table(if p.finding.id in t.entries then t.order else t.order + [p.finding.id], t.entries[p.finding.id := p])
  }

  ghost predicate Collapses(t: Table, ps: seq<Pair>) {
    && t.order == FirstSeen(Ids(ps))
    && (forall id :: id in t.order <==> id in t.entries)
    && (forall id {:trigger Entry(t, id)} :: Entry(t, id) == LastPair(ps, id))
  }

  function Entry(t: Table, id: nat): Option<Pair> {
    if id in t.entries then Some(t.entries[id]) else None
  }

  lemma InsertCollapses(t: Table, ps: seq<Pair>, p: Pair)
    requires Collapses(t, ps)
    ensures Collapses(Insert(t, p), ps + [p])
  {
    var t', qs, id := Insert(t, p), ps + [p], p.finding.id;
    assert qs[..|qs| - 1] == ps;
    assert Ids(qs)[..|qs| - 1] == Ids(ps);
    forall k ensures Entry(t', k) == LastPair(qs, k) {
      assert Entry(t, k) == LastPair(ps, k);
    }
  }

  // ------------------------------------------------------------- accepted events

  const MAX_BATCH := 500

  function Taken(events: seq<Event>): seq<Event> {
    if |events| > MAX_BATCH then events[..MAX_BATCH] else events
  }

  datatype Counts = Counts(accepted: nat, rejected: nat, tooLarge: bool)

  /** Every event taken is counted once; those already stored count as refused. */
  ghost predicate Reported(c: Counts, taken: nat, accepted: nat, alreadyStored: nat) {
    && c.accepted + c.rejected == taken
    && c.accepted == (if alreadyStored <= accepted then accepted - alreadyStored else 0)
  }

  /** Unknown tenants are refused one event at a time; the rest of the batch goes on. */
  method Screen(events: seq<Event>, tenants: set<string>, alreadyStored: nat)
    returns (accepted: seq<Event>, counts: Counts)
    ensures var taken := Taken(events);
            && accepted == OfTenants(taken, tenants)
            && counts.tooLarge == (|events| > MAX_BATCH)
            && Reported(counts, |taken|, |accepted|, alreadyStored)
  {
    var taken := Taken(events);
    accepted := [];
    var refused := 0;
    for i := 0 to |taken|
      invariant accepted == OfTenants(taken[..i], tenants)
      invariant |accepted| + refused == i
    {
      assert taken[..i + 1][..i] == taken[..i];
      if taken[i].tenant in tenants { accepted := accepted + [taken[i]]; } else { refused := refused + 1; }
    }
    assert taken[..|taken|] == taken;
    var inserted := if alreadyStored <= |accepted| then |accepted| - alreadyStored else 0;
    counts := Counts(inserted, refused + (|accepted| - inserted), |events| > MAX_BATCH);
  }

  function OfTenants(events: seq<Event>, tenants: set<string>): seq<Event> {
    if events == [] then []
    else
      var last := events[|events| - 1];
      OfTenants(events[..|events| - 1], tenants) + if last.tenant in tenants then [last] else []
  }

  /** Accepted are the events of known tenants, each as often as it was given, and no others. */
  lemma {:induction false} OfTenantsAre(events: seq<Event>, tenants: set<string>, e: Event)
    ensures multiset(OfTenants(events, tenants))[e] == if e.tenant in tenants then multiset(events)[e] else 0
  {
    if events != [] {
      var front, last := events[..|events| - 1], events[|events| - 1];
      OfTenantsAre(front, tenants, e);
      assert events == front + [last];
    }
  }

  /** And they keep their order. */
  lemma {:induction false} OfTenantsInOrder(a: seq<Event>, b: seq<Event>, tenants: set<string>)
    ensures OfTenants(a + b, tenants) == OfTenants(a, tenants) + OfTenants(b, tenants)
    decreases |b|
  {
    if b == [] {
      assert a + b == a && OfTenants(a, tenants) + [] == OfTenants(a, tenants);
    } else {
      var n := |b| - 1;
      assert (a + b)[..|a + b| - 1] == a + b[..n];
      OfTenantsInOrder(a, b[..n], tenants);
      Associate(OfTenants(a, tenants), OfTenants(b[..n], tenants), if b[n].tenant in tenants then [b[n]] else []);
    }
  }

  // --------------------------------------------------------------- the code

  class IngestPipeline {
    const engines: Engines
    const anomalies: bool
    var store: Store
    var processedEvents: nat
    var createdFindings: nat
    var updatedFindings: nat
    var triggeredActions: nat
    var errors: nat

    constructor (engines: Engines, anomalies: bool, store: Store)
      ensures this.engines == engines && this.anomalies == anomalies && this.store == store
    {
      this.engines, this.anomalies, this.store := engines, anomalies, store;
      processedEvents, createdFindings, updatedFindings, triggeredActions, errors := 0, 0, 0, 0, 0;
    }

    /** One finding is counted as created for each that the store gained, and the actions given as triggered. */
    twostate predicate Tallied(actions: int)
      reads this
    {
      && createdFindings == old(createdFindings) + (|store| - |old(store)|)
      && triggeredActions == old(triggeredActions) + actions
    }

    method FindOpenFinding(key: Key) returns (i: nat)
      ensures i == FindOpen(store, key, 0)
    {
      i := 0;
      while i < |store| && !(store[i].open && store[i].key == key)
        invariant i <= |store| && FindOpen(store, key, i) == FindOpen(store, key, 0)
      {
        i := i + 1;
      }
    }

    method UpsertFinding(m: Match) returns (f: Option<Finding>)
      modifies this`store, this`createdFindings, this`updatedFindings
      ensures (f, store) == Upsert(old(store), m)
      ensures createdFindings == old(createdFindings) + (|store| - |old(store)|)
      ensures createdFindings + updatedFindings ==
                old(createdFindings + updatedFindings) + if Writes(old(store), m) then 1 else 0
    {
      if m.raises == Some(Find) { return None; }
      var i := FindOpenFinding(m.key);
      if i < |store| && Expired(store[i], m) {
        if m.raises == Some(CloseOld) { return None; }
        store := store[i := store[i].(open := false)];
        i := |store|;
      }
      if m.raises == Some(Build) || m.raises == Some(Write) { return None; }
      if i < |store| {
        var refreshed := Refresh(store[i], m);
        store := store[i := refreshed];
        updatedFindings := updatedFindings + 1;
        if m.raises == Some(AfterWrite) { return None; }
        return Some(refreshed);
      }
      var created := Fresh(store, m);
      store := store + [created];
      createdFindings := createdFindings + 1;
      if m.raises == Some(AfterWrite) { return None; }
      return Some(created);
    }

    method ReactToMatch(m: Match, r: Result) returns (r': Result)
      modifies this`store, this`createdFindings, this`updatedFindings, this`triggeredActions
      ensures (store, r') == React(engines, old(store), r, m)
      ensures Tallied(|r'.actions| - |r.actions|)
    {
      var f := UpsertFinding(m);
      if f.None? { return r.(raised := true); }
      r' := r.(findings := r.findings + [f.value]);
      if m.raises == Some(Decide) { return r'.(raised := true); }
      var decision := engines.decide(f.value);
      r' := r'.(decisions := r'.decisions + [decision]);
      if m.raises == Some(Act) { return r'.(raised := true); }
      assert r'.actions + [] == r'.actions;
      if engines.acts(f.value) {
        r' := r'.(actions := r'.actions + [f.value]);
        triggeredActions := triggeredActions + 1;
      }
    }

    method ReactTo(steps: seq<Step>, r: Result) returns (r': Result)
      modifies this`store, this`createdFindings, this`updatedFindings, this`triggeredActions
      ensures (store, r') == ReactAll(engines, old(store), r, steps)
      ensures Tallied(|r'.actions| - |r.actions|)
    {
      r' := r;
      var i := 0;
      assert steps[0..] == steps;
      while i < |steps| && !r'.raised
        invariant 0 <= i <= |steps|
        invariant ReactAll(engines, store, r', steps[i..]) == ReactAll(engines, old(store), r, steps)
        invariant Tallied(|r'.actions| - |r.actions|)
      {
        assert steps[i..][0] == steps[i] && steps[i..][1..] == steps[i + 1..];
        if steps[i].Raise? {
          r' := r'.(raised := true);
          return;
        }
        r' := ReactToMatch(steps[i].m, r');
        i := i + 1;
      }
    }

    /** An exception anywhere ends the event, not the batch; what was produced before it is kept. */
    method ProcessEvent(e: Event) returns (r: Result)
      modifies this
      ensures (store, r) == Process(engines, anomalies, old(store), e)
      ensures errors == old(errors) + if r.raised then 1 else 0
      ensures processedEvents == old(processedEvents) + if Counted(engines, anomalies, old(store), e) then 1 else 0
      ensures Tallied(|r.actions|)
    {
      r := ReactTo(EventSteps(e, anomalies), EMPTY);
      if !r.raised {
        processedEvents := processedEvents + 1;
        if e.raisesMarking { r := r.(raised := true); }
      }
      if r.raised { errors := errors + 1; }
    }

    static method Collect(t: Table, r: Result, ghost ps: seq<Pair>) returns (t': Table)
      requires Collapses(t, ps)
      ensures Collapses(t', ps + Pairs(r))
    {
      t' := t;
      ghost var all := Pairs(r);
      assert ps + all[..0] == ps;
      for index := 0 to |r.findings|
        invariant Collapses(t', ps + all[..index])
      {
        var decision := if index < |r.decisions| then Some(r.decisions[index]) else None;
        var p := Pair(r.findings[index], decision);
        assert all[index] == p;
        InsertCollapses(t', ps + all[..index], p);
        OneMorePair(ps, all, index);
        t' := Insert(t', p);
      }
      assert all[..|r.findings|] == all;
    }

    /** The accepted events, one after the other, and one entry per finding at the end. */
    method ProcessBatch(events: seq<Event>) returns (t: Table)
      modifies this
      ensures store == ProcessAll(engines, anomalies, old(store), events).0
      ensures Collapses(t, ProcessAll(engines, anomalies, old(store), events).1)
    {
      t := Table([], map[]);
      ghost var done: seq<Pair> := [];
      ghost var goal := ProcessAll(engines, anomalies, store, events);
      assert events[0..] == events;
      assert [] + goal.1 == goal.1;
      var i := 0;
      while i < |events|
        invariant 0 <= i <= |events| && Collapses(t, done)
        invariant goal.0 == ProcessAll(engines, anomalies, store, events[i..]).0
        invariant goal.1 == done + ProcessAll(engines, anomalies, store, events[i..]).1
      {
        ProcessAllStep(engines, anomalies, store, events, i, done);
        var r := ProcessEvent(events[i]);
        t := Collect(t, r, done);
        done := done + Pairs(r);
        i := i + 1;
      }
      assert done + [] == done;
    }

    /** Events already in the store are refused in the counts, yet handled again like the others. */
    method Ingest(events: seq<Event>, tenants: set<string>, alreadyStored: nat, process: bool)
      returns (t: Table, counts: Counts)
      modifies this
      ensures var accepted := OfTenants(Taken(events), tenants);
              && store == (if process then ProcessAll(engines, anomalies, old(store), accepted).0 else old(store))
              && Collapses(t, if process then ProcessAll(engines, anomalies, old(store), accepted).1 else [])
              && Reported(counts, |Taken(events)|, |accepted|, alreadyStored)
              && counts.tooLarge == (|events| > MAX_BATCH)
    {
      var accepted;
      accepted, counts := Screen(events, tenants, alreadyStored);
      t := Table([], map[]);
      if process { t := ProcessBatch(accepted); }
    }
  }

  lemma OneMorePair(ps: seq<Pair>, all: seq<Pair>, n: nat)
    requires n < |all|
    ensures ps + all[..n] + [all[n]] == ps + all[..n + 1]
  {
  }

  lemma ProcessAllStep(eng: Engines, anomalies: bool, s: Store, events: seq<Event>, i: nat, done: seq<Pair>)
    requires i < |events|
    ensures var (s', r) := Process(eng, anomalies, s, events[i]);
            var before := ProcessAll(eng, anomalies, s, events[i..]);
            var after := ProcessAll(eng, anomalies, s', events[i + 1..]);
            before.0 == after.0 && done + before.1 == done + Pairs(r) + after.1
  {
    assert events[i..][1..] == events[i + 1..];
    var (s', r) := Process(eng, anomalies, s, events[i]);
    var after := ProcessAll(eng, anomalies, s', events[i + 1..]).1;
    assert done + (Pairs(r) + after) == done + Pairs(r) + after;
  }

  // ------------------------------------------------------- what every store keeps

  /** Identifiers are positions, and at most one finding per key is open. */
  ghost predicate Sound(s: Store) {
    && (forall i :: 0 <= i < |s| ==> s[i].id == i)
    && (forall i, j :: 0 <= i < j < |s| && s[i].open && s[j].open ==> s[i].key != s[j].key)
  }

  lemma {:induction false} FindOpenSpec(s: Store, key: Key, from: nat)
    requires from <= |s|
    ensures forall k :: from <= k < FindOpen(s, key, from) ==> !(s[k].open && s[k].key == key)
    decreases |s| - from
  {
    if from < |s| && !(s[from].open && s[from].key == key) { FindOpenSpec(s, key, from + 1); }
  }

  lemma SweptSound(s: Store, m: Match)
    requires Sound(s)
    ensures Sound(Swept(s, m)) && |Swept(s, m)| == |s|
  {
  }

  /** Whatever raises and wherever, a key never has two open findings. */
  lemma UpsertSound(s: Store, m: Match)
    requires Sound(s)
    ensures Sound(Upsert(s, m).1)
    ensures Upsert(s, m).0.Some? ==>
              var f := Upsert(s, m).0.value;
              f.id < |Upsert(s, m).1| && Upsert(s, m).1[f.id] == f && f.key == m.key && f.open
  {
    SweptSound(s, m);
    FindOpenSpec(s, m.key, 0);
  }

  /** All the matches counted for a key, over the findings opened and closed for it. */
  function Total(s: Store, key: Key): nat {
    if s == [] then 0
    else Total(s[..|s| - 1], key) + if s[|s| - 1].key == key then s[|s| - 1].count else 0
  }

  lemma {:induction false} TotalUpdate(s: Store, i: nat, f: Finding, key: Key)
    requires i < |s| && f.key == s[i].key
    ensures Total(s[i := f], key) == Total(s, key) + if f.key == key then f.count - s[i].count else 0
    decreases |s|
  {
    var n := |s| - 1;
    if i < n {
      assert s[i := f][..n] == s[..n][i := f];
      TotalUpdate(s[..n], i, f, key);
    } else {
      assert s[i := f][..n] == s[..n];
    }
  }

  lemma SweptTotal(s: Store, m: Match, key: Key)
    ensures Total(Swept(s, m), key) == Total(s, key)
  {
    var i := FindOpen(s, m.key, 0);
    if i < |s| && Expired(s[i], m) { TotalUpdate(s, i, s[i].(open := false), key); }
  }

  /** Whether handling the match reaches the write. */
  predicate Writes(s: Store, m: Match) {
    && m.raises !in {Some(Find), Some(Build), Some(Write)}
    && !(m.raises == Some(CloseOld) && FindOpen(s, m.key, 0) < |s| && Expired(s[FindOpen(s, m.key, 0)], m))
  }

  /** Closing a window loses no count: the totals grow by one for each match written, for its key only. */
  lemma UpsertTotal(s: Store, m: Match, key: Key)
    ensures Total(Upsert(s, m).1, key) == Total(s, key) + if Writes(s, m) && m.key == key then 1 else 0
  {
    SweptTotal(s, m, key);
    var s' := Swept(s, m);
    var j := Current(s, m);
    if j < |s'| {
      TotalUpdate(s', j, Refresh(s'[j], m), key);
    } else {
      assert (s' + [Fresh(s', m)])[..|s'|] == s';
    }
  }

  /** The matches an event gets to write, for one key. */
  function Written(e: Engines, s: Store, r: Result, steps: seq<Step>, key: Key): nat
    decreases |steps|
  {
    if steps == [] || r.raised || steps[0].Raise? then 0
    else
      var m := steps[0].m;
      var (s', r') := React(e, s, r, m);
      (if Writes(s, m) && m.key == key then 1 else 0) + Written(e, s', r', steps[1..], key)
  }

  lemma {:induction false} ReactAllKeeps(e: Engines, s: Store, r: Result, steps: seq<Step>, key: Key)
    requires Sound(s)
    ensures var (s', r') := ReactAll(e, s, r, steps);
            Sound(s') && Total(s', key) == Total(s, key) + Written(e, s, r, steps, key)
    decreases |steps|
  {
    if steps != [] && !r.raised && steps[0].Matched? {
      UpsertSound(s, steps[0].m);
      UpsertTotal(s, steps[0].m, key);
      var (s', r') := React(e, s, r, steps[0].m);
      ReactAllKeeps(e, s', r', steps[1..], key);
    }
  }

  function MatchesFor(steps: seq<Step>, key: Key): nat {
    if steps == [] then 0
    else (if steps[0].Matched? && steps[0].m.key == key then 1 else 0) + MatchesFor(steps[1..], key)
  }

  ghost predicate Quiet(steps: seq<Step>) {
    forall step <- steps :: step.Matched? && step.m.raises.None?
  }

  /** When nothing raises, every match of the event is counted. */
  lemma {:induction false} QuietCountsAll(e: Engines, s: Store, r: Result, steps: seq<Step>, key: Key)
    requires Quiet(steps) && !r.raised
    ensures Written(e, s, r, steps, key) == MatchesFor(steps, key)
    ensures !ReactAll(e, s, r, steps).1.raised
    decreases |steps|
  {
    if steps != [] {
      assert steps[0] in steps;
      var (s', r') := React(e, s, r, steps[0].m);
      QuietCountsAll(e, s', r', steps[1..], key);
    }
  }

  function BatchWritten(eng: Engines, anomalies: bool, s: Store, events: seq<Event>, key: Key): nat
    decreases |events|
  {
    if events == [] then 0
    else Written(eng, s, EMPTY, EventSteps(events[0], anomalies), key)
         + BatchWritten(eng, anomalies, Process(eng, anomalies, s, events[0]).0, events[1..], key)
  }

  /**
   * Over any sequence of events: at most one open finding per key, and the counts of all the
   * findings of a key add up to the matches written for it, across every window closed on the way.
   */
  lemma {:induction false} BatchKeeps(eng: Engines, anomalies: bool, s: Store, events: seq<Event>, key: Key)
    requires Sound(s)
    ensures var (s', ps) := ProcessAll(eng, anomalies, s, events);
            Sound(s') && Total(s', key) == Total(s, key) + BatchWritten(eng, anomalies, s, events, key)
    decreases |events|
  {
    if events != [] {
      ReactAllKeeps(eng, s, EMPTY, EventSteps(events[0], anomalies), key);
      BatchKeeps(eng, anomalies, Process(eng, anomalies, s, events[0]).0, events[1..], key);
    }
  }

  // ------------------------------------------------------------ what a raise does

  /** Handling the match raises: at any stage, but closing only when there is an expired window to close. */
  predicate RaisesOn(s: Store, m: Match) {
    var i := FindOpen(s, m.key, 0);
    m.raises.Some? && (m.raises == Some(CloseOld) ==> i < |s| && Expired(s[i], m))
  }

  /** A match that raises ends the event, and leaves in the result what was reached before it. */
  lemma ReactRaises(e: Engines, s: Store, r: Result, m: Match)
    requires !r.raised
    ensures var (f, (s', r')) := (Upsert(s, m).0, React(e, s, r, m));
            && (r'.raised <==> RaisesOn(s, m))
            && (f.None? <==> RaisesOn(s, m) && m.raises !in {Some(Decide), Some(Act)})
            && r'.findings == r.findings + (if f.Some? then [f.value] else [])
            && r'.decisions == r.decisions
                 + (if f.Some? && m.raises != Some(Decide) then [e.decide(f.value)] else [])
            && r'.actions == r.actions
                 + (if f.Some? && m.raises !in {Some(Decide), Some(Act)} && e.acts(f.value) then [f.value] else [])
  {
    assert r.findings + [] == r.findings && r.decisions + [] == r.decisions && r.actions + [] == r.actions;
    if m.raises.Some? {
      var at := m.raises.value;
      assert at.Find? || at.CloseOld? || at.Build? || at.Write? || at.AfterWrite? || at.Decide? || at.Act?;
    }
  }

  /** An event counts as failed when something raises on it, and only then. */
  lemma {:induction false} StepsRaise(e: Engines, s: Store, r: Result, steps: seq<Step>)
    ensures ReactAll(e, s, r, steps).1.raised ==>
              r.raised || exists step <- steps :: step.Raise? || step.m.raises.Some?
    ensures r.raised ==> ReactAll(e, s, r, steps) == (s, r)
    ensures (exists step <- steps :: step.Raise? || step.m.raises !in {None, Some(CloseOld)}) ==>
              ReactAll(e, s, r, steps).1.raised
    decreases |steps|
  {
    if steps != [] {
      assert forall x :: x in steps <==> x == steps[0] || x in steps[1..];
      if !r.raised && steps[0].Matched? {
        var (s', r') := React(e, s, r, steps[0].m);
        ReactRaises(e, s, r, steps[0].m);
        StepsRaise(e, s', r', steps[1..]);
      }
    }
  }

  lemma {:induction false} StepsOf(ms: seq<Match>, step: Step)
    ensures step in Steps(ms) <==> step.Matched? && step.m in ms
  {
    if ms != [] {
      StepsOf(ms[1..], step);
      assert step.Matched? ==> step == Matched(step.m);
      assert forall x :: x in Steps(ms) <==> x == Matched(ms[0]) || x in Steps(ms[1..]);
      assert forall x :: x in ms <==> x == ms[0] || x in ms[1..];
    }
  }

  // --------------------------------------------------- what an event asks for

  /** The matches of the stored signals, up to the first signal on which a component raises. */
  function UntilRaise(signals: seq<Signal>): seq<Match> {
    if signals == [] || signals[0].raises then []
    else (if signals[0].inserted then signals[0].matches else []) + UntilRaise(signals[1..])
  }

  ghost predicate SignalRaises(signals: seq<Signal>) {
    exists sg <- signals :: sg.raises
  }

  lemma {:induction false} StepsConcat(a: seq<Match>, b: seq<Match>)
    ensures Steps(a + b) == Steps(a) + Steps(b)
  {
    if a == [] { assert a + b == b; } else { assert (a + b)[1..] == a[1..] + b; StepsConcat(a[1..], b); }
  }

  /** Once something raises, the steps that follow do nothing. */
  lemma {:induction false} RaiseCuts(e: Engines, s: Store, r: Result, ms: seq<Match>, rest: seq<Step>)
    ensures ReactAll(e, s, r, Steps(ms) + ([Raise] + rest)) == ReactAll(e, s, r, Steps(ms) + [Raise])
    decreases |ms|
  {
    if ms == [] {
      assert Steps(ms) + ([Raise] + rest) == [Raise] + rest && Steps(ms) + [Raise] == [Raise];
    } else {
      var tail := Steps(ms[1..]);
      assert (Steps(ms) + ([Raise] + rest))[1..] == tail + ([Raise] + rest);
      assert (Steps(ms) + [Raise])[1..] == tail + [Raise];
      if !r.raised {
        var (s', r') := React(e, s, r, ms[0]);
        RaiseCuts(e, s', r', ms[1..], rest);
      }
    }
  }

  lemma {:induction false} SignalsAre(signals: seq<Signal>) returns (rest: seq<Step>)
    ensures SignalSteps(signals)
            == Steps(UntilRaise(signals)) + if SignalRaises(signals) then [Raise] + rest else []
  {
    rest := [];
    if signals != [] {
      var sg, more := signals[0], signals[1..];
      assert forall x :: x in signals <==> x == sg || x in more;
      if sg.raises {
        rest := SignalSteps(more);
        assert Steps([]) + ([Raise] + rest) == [Raise] + rest;
      } else {
        rest := SignalsAre(more);
        var ms := if sg.inserted then sg.matches else [];
        StepsConcat(ms, UntilRaise(more));
        Associate(Steps(ms), Steps(UntilRaise(more)), if SignalRaises(signals) then [Raise] + rest else []);
      }
    }
  }

  /** The matches an event brings, by its own fields: the rules' first, those of signals for an ordinary event only. */
  function Brings(e: Event, anomalies: bool): seq<Match> {
    if e.raisesFirst then []
    else e.matches + if e.isAnomaly || !anomalies then [] else UntilRaise(e.signals)
  }

  /** Whether a component other than a match's own raises on the event. */
  ghost predicate Breaks(e: Event, anomalies: bool) {
    e.raisesFirst || (!e.isAnomaly && anomalies && SignalRaises(e.signals))
  }

  lemma EventStepsAre(e: Event, anomalies: bool) returns (rest: seq<Step>)
    ensures EventSteps(e, anomalies)
            == Steps(Brings(e, anomalies)) + if Breaks(e, anomalies) then [Raise] + rest else []
  {
    var none: seq<Step> := [];
    var rules := Steps(e.matches);
    if e.raisesFirst {
      rest := EventSteps(e, anomalies)[1..];
      assert none + ([Raise] + rest) == [Raise] + rest;
    } else if e.isAnomaly || !anomalies {
      rest := none;
      assert e.matches + [] == e.matches && none + rules == rules && rules + none == rules;
    } else {
      rest := SignalsAre(e.signals);
      StepsConcat(e.matches, UntilRaise(e.signals));
      Associate(rules, Steps(UntilRaise(e.signals)), if SignalRaises(e.signals) then [Raise] + rest else []);
      assert none + rules == rules;
    }
  }

  /** An event is handled as its fields say: those matches in that order, then whatever cuts them short. */
  lemma EventReacts(eng: Engines, anomalies: bool, s: Store, e: Event)
    ensures ReactAll(eng, s, EMPTY, EventSteps(e, anomalies))
            == ReactAll(eng, s, EMPTY, Steps(Brings(e, anomalies)) + if Breaks(e, anomalies) then [Raise] else [])
  {
    var rest := EventStepsAre(e, anomalies);
    if Breaks(e, anomalies) { RaiseCuts(eng, s, EMPTY, Brings(e, anomalies), rest); }
  }

  /** Something raises on the event, or on one of the matches it brings. */
  ghost predicate MayFail(e: Event, anomalies: bool) {
    Breaks(e, anomalies) || exists m <- Brings(e, anomalies) :: m.raises.Some?
  }

  /** Something raises that does not depend on a window having expired. */
  ghost predicate MustFail(e: Event, anomalies: bool) {
    Breaks(e, anomalies) || exists m <- Brings(e, anomalies) :: m.raises !in {None, Some(CloseOld)}
  }

  lemma StepsFail(e: Event, anomalies: bool)
    ensures var steps := Steps(Brings(e, anomalies)) + if Breaks(e, anomalies) then [Raise] else [];
            && ((exists step <- steps :: step.Raise? || step.m.raises.Some?) ==> MayFail(e, anomalies))
            && (MustFail(e, anomalies) ==>
                  exists step <- steps :: step.Raise? || step.m.raises !in {None, Some(CloseOld)})
  {
    var ms := Brings(e, anomalies);
    var steps := Steps(ms) + if Breaks(e, anomalies) then [Raise] else [];
    if step :| step in steps && (step.Raise? || step.m.raises.Some?) { StepsOf(ms, step); }
    if Breaks(e, anomalies) {
      assert Raise in steps;
    } else if m :| m in ms && m.raises !in {None, Some(CloseOld)} {
      StepsOf(ms, Matched(m));
      assert Matched(m) in steps;
    }
  }

  /** From the event's own fields: it fails when something raises on it or while it is marked, and only then. */
  lemma EventFails(eng: Engines, anomalies: bool, s: Store, e: Event)
    ensures var r := Process(eng, anomalies, s, e).1;
            && (r.raised ==> e.raisesMarking || MayFail(e, anomalies))
            && (e.raisesMarking || MustFail(e, anomalies) ==> r.raised)
  {
    EventReacts(eng, anomalies, s, e);
    StepsRaise(eng, s, EMPTY, Steps(Brings(e, anomalies)) + if Breaks(e, anomalies) then [Raise] else []);
    StepsFail(e, anomalies);
  }

  /** How many of the matches are for one key. */
  function CountFor(ms: seq<Match>, key: Key): nat {
    if ms == [] then 0 else (if ms[0].key == key then 1 else 0) + CountFor(ms[1..], key)
  }

  /** How many matches for one key the signals bring that were stored for the first time. */
  function SignalsFor(signals: seq<Signal>, key: Key): nat {
    if signals == [] then 0
    else (if signals[0].inserted then CountFor(signals[0].matches, key) else 0) + SignalsFor(signals[1..], key)
  }

  ghost predicate Calm(ms: seq<Match>) {
    forall m <- ms :: m.raises.None?
  }

  /** Nothing raises on the event. */
  ghost predicate QuietEvent(e: Event, anomalies: bool) {
    && !e.raisesFirst && Calm(e.matches)
    && (anomalies && !e.isAnomaly ==> forall sg <- e.signals :: !sg.raises && (sg.inserted ==> Calm(sg.matches)))
  }

  lemma {:induction false} CountsConcat(a: seq<Match>, b: seq<Match>, key: Key)
    ensures CountFor(a + b, key) == CountFor(a, key) + CountFor(b, key)
  {
    if a == [] { assert a + b == b; } else { assert (a + b)[1..] == a[1..] + b; CountsConcat(a[1..], b, key); }
  }

  lemma {:induction false} StepsCount(ms: seq<Match>, key: Key)
    ensures MatchesFor(Steps(ms), key) == CountFor(ms, key) && (Calm(ms) ==> Quiet(Steps(ms)))
  {
    if ms != [] {
      assert Steps(ms)[1..] == Steps(ms[1..]);
      StepsCount(ms[1..], key);
      assert forall m :: m in ms <==> m == ms[0] || m in ms[1..];
    }
  }

  lemma {:induction false} SignalsCount(signals: seq<Signal>, key: Key)
    requires forall sg <- signals :: !sg.raises && (sg.inserted ==> Calm(sg.matches))
    ensures CountFor(UntilRaise(signals), key) == SignalsFor(signals, key) && Calm(UntilRaise(signals))
  {
    if signals != [] {
      assert signals[0] in signals;
      SignalsCount(signals[1..], key);
      CountsConcat(if signals[0].inserted then signals[0].matches else [], UntilRaise(signals[1..]), key);
    }
  }

  /** A quiet event reacts to its rules' matches and, if it is no anomaly itself, to those of its new signals. */
  lemma QuietEventCounts(eng: Engines, anomalies: bool, s: Store, e: Event, key: Key)
    requires Sound(s) && QuietEvent(e, anomalies)
    ensures Total(Process(eng, anomalies, s, e).0, key)
            == Total(s, key) + CountFor(e.matches, key)
               + if anomalies && !e.isAnomaly then SignalsFor(e.signals, key) else 0
    ensures Counted(eng, anomalies, s, e)
  {
    var ms := Brings(e, anomalies);
    EventReacts(eng, anomalies, s, e);
    assert Steps(ms) + [] == Steps(ms);
    if anomalies && !e.isAnomaly { SignalsCount(e.signals, key); }
    CountsConcat(e.matches, ms[|e.matches|..], key);
    StepsCount(ms, key);
    QuietCountsAll(eng, s, EMPTY, Steps(ms), key);
    ReactAllKeeps(eng, s, EMPTY, Steps(ms), key);
  }

  /** The matches of a batch for one key, from the fields of its events. */
  function BatchMatches(anomalies: bool, events: seq<Event>, key: Key): nat {
    if events == [] then 0
    else
      var e := events[0];
      CountFor(e.matches, key) + (if anomalies && !e.isAnomaly then SignalsFor(e.signals, key) else 0)
      + BatchMatches(anomalies, events[1..], key)
  }

  /** When nothing raises, the counts of a key's findings grow by exactly its matches in the batch. */
  lemma {:induction false} QuietBatchCountsAll(eng: Engines, anomalies: bool, s: Store, events: seq<Event>, key: Key)
    requires Sound(s)
    requires forall e <- events :: QuietEvent(e, anomalies)
    ensures Total(ProcessAll(eng, anomalies, s, events).0, key) == Total(s, key) + BatchMatches(anomalies, events, key)
    decreases |events|
  {
    if events != [] {
      assert events[0] in events;
      QuietEventCounts(eng, anomalies, s, events[0], key);
      ReactAllKeeps(eng, s, EMPTY, EventSteps(events[0], anomalies), key);
      QuietBatchCountsAll(eng, anomalies, Process(eng, anomalies, s, events[0]).0, events[1..], key);
    }
  }

  /**
   * The window, from the clock alone: a match that nothing disturbs refreshes the open finding of its key when
   * no more than the time to live has passed since the finding was last seen; otherwise that one is closed and
   * a new one opened. Without an open finding it opens one.
   */
  lemma WindowIff(s: Store, m: Match, i: nat)
    requires Sound(s) && m.raises.None? && i < |s| && s[i].open && s[i].key == m.key
    ensures var (f, s') := Upsert(s, m);
            && f.Some?
            && (m.now - s[i].lastSeen <= m.ttl <==> f.value.id == i)
            && (m.now - s[i].lastSeen <= m.ttl ==>
                  s' == s[i := Finding(i, m.key, s[i].count + 1, true, m.lastSeen, m.content)])
            && (m.now - s[i].lastSeen > m.ttl ==>
                  s' == s[i := s[i].(open := false)] + [Finding(|s|, m.key, 1, true, m.lastSeen, m.content)])
  {
    FindOpenSpec(s, m.key, 0);
  }

  lemma NoWindow(s: Store, m: Match)
    requires m.raises.None? && forall i :: 0 <= i < |s| ==> !(s[i].open && s[i].key == m.key)
    ensures Upsert(s, m).1 == s + [Finding(|s|, m.key, 1, true, m.lastSeen, m.content)]
  {
  }

  // ------------------------------------------------------------ honest pairing

  /** A decision stands at the same position as its finding; only the last finding can lack one. */
  ghost predicate Aligned(e: Engines, r: Result) {
    && |r.decisions| <= |r.findings| <= |r.decisions| + 1
    && (!r.raised ==> |r.findings| == |r.decisions|)
    && (forall i :: 0 <= i < |r.decisions| ==> r.decisions[i] == e.decide(r.findings[i]))
  }

  lemma {:induction false} ReactAllAligned(e: Engines, s: Store, r: Result, steps: seq<Step>)
    requires Aligned(e, r)
    ensures Aligned(e, ReactAll(e, s, r, steps).1)
    decreases |steps|
  {
    if steps != [] && !r.raised && steps[0].Matched? {
      var (s', r') := React(e, s, r, steps[0].m);
      ReactAllAligned(e, s', r', steps[1..]);
    }
  }

  /** Every pair of a batch carries the finding's own decision, or none if deciding raised. */
  lemma {:induction false} PairsHonest(eng: Engines, anomalies: bool, s: Store, events: seq<Event>)
    ensures forall p <- ProcessAll(eng, anomalies, s, events).1 ::
              p.decision.Some? ==> p.decision.value == eng.decide(p.finding)
    decreases |events|
  {
    if events != [] {
      ReactAllAligned(eng, s, EMPTY, EventSteps(events[0], anomalies));
      PairsHonest(eng, anomalies, Process(eng, anomalies, s, events[0]).0, events[1..]);
    }
  }

  // --------------------------------------------------- reported against stored

  function LastFinding(fs: seq<Finding>, id: nat): Option<Finding> {
    if fs == [] then None
    else if fs[|fs| - 1].id == id then Some(fs[|fs| - 1])
    else LastFinding(fs[..|fs| - 1], id)
  }

  function FindingsOf(ps: seq<Pair>): seq<Finding> {
    seq(|ps|, i requires 0 <= i < |ps| => ps[i].finding)
  }

  lemma {:induction false} LastPairFinding(ps: seq<Pair>, id: nat)
    ensures LastPair(ps, id).Some? <==> LastFinding(FindingsOf(ps), id).Some?
    ensures LastPair(ps, id).Some? ==> LastPair(ps, id).value.finding == LastFinding(FindingsOf(ps), id).value
  {
    if ps != [] {
      assert FindingsOf(ps)[..|ps| - 1] == FindingsOf(ps[..|ps| - 1]);
      LastPairFinding(ps[..|ps| - 1], id);
    }
  }

  /** The store holds the finding, except that its window may have been closed since. */
  predicate Holds(s: Store, id: nat, f: Finding) {
    id < |s| && s[id].(open := true) == f.(open := true)
  }

  /** A write to the store: the finding written, and whether the match went on to be reported. */
  datatype Touch = Touch(id: nat, told: bool)

  /** What handling a match writes; a raise after the write leaves it untold. */
  function TouchOf(s: Store, m: Match): seq<Touch> {
    if Writes(s, m) then [Touch(Current(s, m), m.raises != Some(AfterWrite))] else []
  }

  function Touches(e: Engines, s: Store, r: Result, steps: seq<Step>): seq<Touch>
    decreases |steps|
  {
    if steps == [] || r.raised || steps[0].Raise? then []
    else
      var (s', r') := React(e, s, r, steps[0].m);
      TouchOf(s, steps[0].m) + Touches(e, s', r', steps[1..])
  }

  /** The writes of a batch, in order. */
  function BatchTouches(eng: Engines, anomalies: bool, s: Store, events: seq<Event>): seq<Touch>
    decreases |events|
  {
    if events == [] then []
    else Touches(eng, s, EMPTY, EventSteps(events[0], anomalies))
         + BatchTouches(eng, anomalies, Process(eng, anomalies, s, events[0]).0, events[1..])
  }

  function LastTouch(ts: seq<Touch>, id: nat): Option<Touch> {
    if ts == [] then None
    else if ts[|ts| - 1].id == id then Some(ts[|ts| - 1])
    else LastTouch(ts[..|ts| - 1], id)
  }

  /** A finding is reported, and its last write was not. */
  predicate LeftBehind(ts: seq<Touch>, id: nat) {
    Touch(id, true) in ts && LastTouch(ts, id) == Some(Touch(id, false))
  }

  /** What the store has to say about the last report of a finding, given the writes so far. */
  predicate Tracks(s: Store, last: Option<Finding>, ts: seq<Touch>, id: nat) {
    && (last.Some? <==> Touch(id, true) in ts)
    && (LastTouch(ts, id).Some? ==> LastTouch(ts, id).value.id == id)
    && (last.Some? ==> LastTouch(ts, id).Some? && last.value.id == id < |s|)
    && (last.Some? && LastTouch(ts, id).value.told ==> Holds(s, id, last.value))
    && (last.Some? && !LastTouch(ts, id).value.told ==> s[id].count > last.value.count)
  }

  ghost predicate Tracked(s: Store, fs: seq<Finding>, ts: seq<Touch>) {
    forall id {:trigger LastFinding(fs, id)} :: Tracks(s, LastFinding(fs, id), ts, id)
  }

  lemma TouchAppend(ts: seq<Touch>, t: Touch, id: nat)
    ensures LastTouch(ts + [t], id) == if t.id == id then Some(t) else LastTouch(ts, id)
    ensures Touch(id, true) in ts + [t] <==> Touch(id, true) in ts || t == Touch(id, true)
  {
    assert (ts + [t])[..|ts|] == ts;
  }

  lemma LastFindingAppend(fs: seq<Finding>, f: Finding, id: nat)
    ensures LastFinding(fs + [f], id) == if f.id == id then Some(f) else LastFinding(fs, id)
  {
    assert (fs + [f])[..|fs|] == fs;
  }

  /** What an upsert does to the store, seen from one finding. */
  lemma UpsertTouch(s: Store, m: Match, id: nat)
    requires Sound(s) && id < |s|
    ensures var (f, s') := Upsert(s, m);
            && id < |s'|
            && (TouchOf(s, m) == [] || TouchOf(s, m)[0].id != id ==> Holds(s', id, s[id]))
            && (TouchOf(s, m) != [] && TouchOf(s, m)[0].id == id ==> s'[id].count == s[id].count + 1)
  {
    FindOpenSpec(s, m.key, 0);
  }

  lemma UpsertTold(s: Store, m: Match)
    requires Sound(s)
    ensures var (f, s') := Upsert(s, m);
            && (f.Some? <==> TouchOf(s, m) != [] && TouchOf(s, m)[0].told)
            && (f.Some? ==> f.value.id == TouchOf(s, m)[0].id && f.value.id < |s'| && Holds(s', f.value.id, f.value))
  {
    SweptSound(s, m);
    UpsertSound(s, m);
  }

  lemma UpsertTracks(s: Store, m: Match, fs: seq<Finding>, ts: seq<Touch>, id: nat)
    requires Sound(s) && Tracks(s, LastFinding(fs, id), ts, id)
    ensures var (f, s') := Upsert(s, m);
            Tracks(s', LastFinding(if f.Some? then fs + [f.value] else fs, id), ts + TouchOf(s, m), id)
  {
    var (f, s') := Upsert(s, m);
    UpsertTold(s, m);
    if id < |s| { UpsertTouch(s, m, id); }
    if f.Some? { LastFindingAppend(fs, f.value, id); }
    if TouchOf(s, m) == [] {
      assert ts + [] == ts;
    } else {
      assert TouchOf(s, m) == [TouchOf(s, m)[0]];
      TouchAppend(ts, TouchOf(s, m)[0], id);
    }
  }

  lemma UpsertTracked(s: Store, m: Match, fs: seq<Finding>, ts: seq<Touch>)
    requires Sound(s) && Tracked(s, fs, ts)
    ensures var (f, s') := Upsert(s, m);
            Tracked(s', if f.Some? then fs + [f.value] else fs, ts + TouchOf(s, m))
  {
    var (f, s') := Upsert(s, m);
    var fs' := if f.Some? then fs + [f.value] else fs;
    forall id ensures Tracks(s', LastFinding(fs', id), ts + TouchOf(s, m), id) {
      assert Tracks(s, LastFinding(fs, id), ts, id);
      UpsertTracks(s, m, fs, ts, id);
    }
  }

  /** One match: the findings of the result, and the writes, move on together. */
  lemma ReactTracked(e: Engines, s: Store, r: Result, m: Match, before: seq<Finding>, ts: seq<Touch>)
    requires Sound(s) && Tracked(s, before + r.findings, ts)
    ensures var (s', r') := React(e, s, r, m);
            Sound(s') && Tracked(s', before + r'.findings, ts + TouchOf(s, m))
  {
    var f := Upsert(s, m).0;
    UpsertSound(s, m);
    UpsertTracked(s, m, before + r.findings, ts);
    if f.Some? { assert before + (r.findings + [f.value]) == before + r.findings + [f.value]; }
  }

  lemma {:induction false} ReactAllTracks(e: Engines, s: Store, r: Result, steps: seq<Step>,
                                          before: seq<Finding>, ts: seq<Touch>)
    requires Sound(s) && Tracked(s, before + r.findings, ts)
    ensures var (s', r') := ReactAll(e, s, r, steps);
            Sound(s') && Tracked(s', before + r'.findings, ts + Touches(e, s, r, steps))
    decreases |steps|
  {
    if steps == [] || r.raised || steps[0].Raise? {
      assert ts + [] == ts;
    } else {
      var m := steps[0].m;
      ReactTracked(e, s, r, m, before, ts);
      var (s', r') := React(e, s, r, m);
      ReactAllTracks(e, s', r', steps[1..], before, ts + TouchOf(s, m));
      Associate(ts, TouchOf(s, m), Touches(e, s', r', steps[1..]));
    }
  }

  lemma {:induction false} BatchTracks(eng: Engines, anomalies: bool, s: Store, events: seq<Event>,
                                       before: seq<Finding>, ts: seq<Touch>)
    requires Sound(s) && Tracked(s, before, ts)
    ensures var (s', ps) := ProcessAll(eng, anomalies, s, events);
            Tracked(s', before + FindingsOf(ps), ts + BatchTouches(eng, anomalies, s, events))
    decreases |events|
  {
    if events == [] {
      assert before + [] == before && ts + [] == ts;
    } else {
      var steps := EventSteps(events[0], anomalies);
      assert before + EMPTY.findings == before;
      ReactAllTracks(eng, s, EMPTY, steps, before, ts);
      var (s', r) := Process(eng, anomalies, s, events[0]);
      var here := Touches(eng, s, EMPTY, steps);
      BatchTracks(eng, anomalies, s', events[1..], before + r.findings, ts + here);
      var (s'', ps) := ProcessAll(eng, anomalies, s', events[1..]);
      FindingsOfSum(before, r, ps);
      Associate(ts, here, BatchTouches(eng, anomalies, s', events[1..]));
    }
  }

  lemma FindingsOfSum(before: seq<Finding>, r: Result, ps: seq<Pair>)
    ensures before + r.findings + FindingsOf(ps) == before + FindingsOf(Pairs(r) + ps)
  {
    assert FindingsOf(Pairs(r) + ps) == r.findings + FindingsOf(ps);
  }

  /** Each finding of a batch is reported once, in the order findings first appeared. */
  lemma ReportedOnce(t: Table, ps: seq<Pair>)
    requires Collapses(t, ps)
    ensures forall i, j :: 0 <= i < j < |t.order| ==> FirstAt(Ids(ps), t.order[i]) < FirstAt(Ids(ps), t.order[j])
    ensures forall i, j :: 0 <= i < j < |t.order| ==> t.order[i] != t.order[j]
  {
    FirstSeenSpec(Ids(ps));
  }

  /**
   * The report of a finding is what the store holds at the end of the batch (same count and content,
   * whatever anomalies and later matches did on the way) exactly when the last write to the finding
   * was reported: no component raised between that write and the result.
   */
  lemma ReportMatchesStore(eng: Engines, anomalies: bool, s: Store, events: seq<Event>, t: Table, id: nat)
    requires Sound(s) && Collapses(t, ProcessAll(eng, anomalies, s, events).1)
    ensures var s' := ProcessAll(eng, anomalies, s, events).0;
            var ts := BatchTouches(eng, anomalies, s, events);
            && (id in t.entries <==> Touch(id, true) in ts)
            && (id in t.entries ==> (Holds(s', id, t.entries[id].finding) <==> !LeftBehind(ts, id)))
            && (id in t.entries && LeftBehind(ts, id) ==>
                  id < |s'| && s'[id].count > t.entries[id].finding.count)
  {
    var (s', ps) := ProcessAll(eng, anomalies, s, events);
    BatchTracks(eng, anomalies, s, events, [], []);
    assert [] + FindingsOf(ps) == FindingsOf(ps);
    var ts := BatchTouches(eng, anomalies, s, events);
    assert [] + ts == ts;
    assert Tracks(s', LastFinding(FindingsOf(ps), id), ts, id);
    assert Entry(t, id) == LastPair(ps, id);
    LastPairFinding(ps, id);
  }

  /** No component raises between a write and the result. */
  ghost predicate Reports(steps: seq<Step>) {
    forall step <- steps :: step.Matched? ==> step.m.raises != Some(AfterWrite)
  }

  ghost predicate AllTold(ts: seq<Touch>) {
    forall i :: 0 <= i < |ts| ==> ts[i].told
  }

  lemma {:induction false} TouchesTold(e: Engines, s: Store, r: Result, steps: seq<Step>)
    requires Reports(steps)
    ensures AllTold(Touches(e, s, r, steps))
    decreases |steps|
  {
    if steps != [] && !r.raised && steps[0].Matched? {
      assert steps[0] in steps;
      var (s', r') := React(e, s, r, steps[0].m);
      TouchesTold(e, s', r', steps[1..]);
    }
  }

  lemma {:induction false} LastTouchIn(ts: seq<Touch>, id: nat)
    ensures LastTouch(ts, id).Some? ==> LastTouch(ts, id).value in ts
  {
    if ts != [] && ts[|ts| - 1].id != id { LastTouchIn(ts[..|ts| - 1], id); }
  }

  /** So a batch in which none does leaves no finding behind: every report is the store's last word. */
  lemma {:induction false} NoneLeftBehind(eng: Engines, anomalies: bool, s: Store, events: seq<Event>, id: nat)
    requires forall e <- events :: Reports(EventSteps(e, anomalies))
    ensures AllTold(BatchTouches(eng, anomalies, s, events))
    ensures !LeftBehind(BatchTouches(eng, anomalies, s, events), id)
    decreases |events|
  {
    if events != [] {
      assert events[0] in events;
      TouchesTold(eng, s, EMPTY, EventSteps(events[0], anomalies));
      NoneLeftBehind(eng, anomalies, Process(eng, anomalies, s, events[0]).0, events[1..], id);
    }
    LastTouchIn(BatchTouches(eng, anomalies, s, events), id);
  }

  /** An event with one match. */
  function One(m: Match): Event {
    Event(m.key.tenant, false, false, [m], [], false)
  }

  lemma OneMatch(eng: Engines, anomalies: bool, s: Store, m: Match)
    ensures EventSteps(One(m), anomalies) == [Matched(m)]
    ensures Touches(eng, s, EMPTY, EventSteps(One(m), anomalies)) == TouchOf(s, m)
    ensures Process(eng, anomalies, s, One(m)).0 == Upsert(s, m).1
  {
    assert [m][1..] == [];
    assert Steps([m]) == [Matched(m)] + [];
    assert [Matched(m)][1..] == [];
    var (s', r') := React(eng, s, EMPTY, m);
    assert Touches(eng, s', r', []) == [] && ReactAll(eng, s', r', []) == (s', r');
    assert TouchOf(s, m) + [] == TouchOf(s, m);
  }

  /**
   * A batch that shows it: the same match twice within its window, a component raising on the second
   * between the write and the result. The report of the finding stays behind the store.
   */
  lemma RaiseAfterWriteHides(eng: Engines, anomalies: bool, s: Store, m: Match, t: Table)
    requires Sound(s) && m.raises.None?
    requires var again := m.(raises := Some(AfterWrite), now := m.lastSeen + m.ttl);
             Collapses(t, ProcessAll(eng, anomalies, s, [One(m), One(again)]).1)
    ensures var again := m.(raises := Some(AfterWrite), now := m.lastSeen + m.ttl);
            var s' := ProcessAll(eng, anomalies, s, [One(m), One(again)]).0;
            var id := Upsert(s, m).0.value.id;
            id in t.entries && id < |s'| && s'[id].count > t.entries[id].finding.count
  {
    var again := m.(raises := Some(AfterWrite), now := m.lastSeen + m.ttl);
    var events := [One(m), One(again)];
    var (f, s1) := Upsert(s, m);
    UpsertSound(s, m);
    OneMatch(eng, anomalies, s, m);
    OneMatch(eng, anomalies, s1, again);
    var id := f.value.id;
    StillOpen(s, m, again);
    assert events[1..] == [One(again)] && events[1..][1..] == [];
    var s2 := Upsert(s1, again).1;
    assert BatchTouches(eng, anomalies, s2, []) == [];
    assert BatchTouches(eng, anomalies, s1, [One(again)]) == TouchOf(s1, again) + [];
    var ts := BatchTouches(eng, anomalies, s, events);
    assert ts == [Touch(id, true), Touch(id, false)];
    assert ts[..1] == [Touch(id, true)];
    ReportMatchesStore(eng, anomalies, s, events, t, id);
  }

  lemma StillOpen(s: Store, m: Match, again: Match)
    requires Sound(s) && m.raises.None?
    requires again == m.(raises := Some(AfterWrite), now := m.lastSeen + m.ttl)
    ensures var (f, s1) := Upsert(s, m);
            f.Some? && TouchOf(s, m) == [Touch(f.value.id, true)] && TouchOf(s1, again) == [Touch(f.value.id, false)]
  {
    var (f, s1) := Upsert(s, m);
    UpsertSound(s, m);
    UpsertTold(s, m);
    FindOpenSpec(s1, m.key, 0);
  }
}
