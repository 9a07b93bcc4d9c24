/** The cursor that moves after the write, the overlap it leaves, and the memory that removes repeats. */
module Forwarder {
  import opened Basics
  import opened Dedupe

  datatype Source = AuditCef | AuditJsonl | FindingCef | FindingJsonl

  function Prefix(s: Source): string {
    match s
    case AuditCef => "audit-cef:"
    case AuditJsonl => "audit:"
    case FindingCef => "finding:"
    case FindingJsonl => "finding-jsonl:"
  }

  function FullKey(s: Source, ident: string): Key {
    Prefix(s) + ident
  }

  lemma PrefixesDiffer(s: Source, t: Source, i: string, j: string)
    requires FullKey(s, i) == FullKey(t, j)
    ensures s == t
  {
    assert FullKey(s, i)[..5] == FullKey(t, j)[..5];
    assert FullKey(s, i)[0] == Prefix(s)[0] && FullKey(t, j)[0] == Prefix(t)[0];
    assert FullKey(s, i)[5] == Prefix(s)[5] && FullKey(t, j)[5] == Prefix(t)[5];
    if s.FindingCef? || s.FindingJsonl? {
      assert FullKey(s, i)[7] == Prefix(s)[7] && FullKey(t, j)[7] == Prefix(t)[7];
    }
  }

  /** The four outputs never share a key, and within one output the identifier is the key. */
  lemma FullKeyInjective(s: Source, t: Source, i: string, j: string)
    requires FullKey(s, i) == FullKey(t, j)
    ensures s == t && i == j
  {
    PrefixesDiffer(s, t, i, j);
    assert i == FullKey(s, i)[|Prefix(s)|..];
    assert j == FullKey(t, j)[|Prefix(t)|..];
  }

  /** A line of an export: blank, without an identifier, or the line of an identified record. */
  datatype Line = Blank | Plain(record: nat) | Keyed(ident: string, record: nat)

  function KeyOf(s: Source, line: Line): Key {
    if line.Keyed? then FullKey(s, line.ident) else ""
  }

  // ------------------------------------------------------------ specification

  function KeyIn(s: Source): Line -> Key {
    (line: Line) => KeyOf(s, line)
  }

  /** The lines an export adds to what was sent before, and the memory once they are recorded. */
  function Filter(h: History, keyOf: Line -> Key, lines: seq<Line>): (seq<Line>, History)
    decreases |lines|
  {
    if lines == [] then ([], h)
    else if lines[0].Blank? then Filter(h, keyOf, lines[1..])
    else
      var key := keyOf(lines[0]);
      var (kept, h') := Filter(After(h, key), keyOf, lines[1..]);
      ((if IsNewTo(h, key) then [lines[0]] else []) + kept, h')
  }

  /** The lines kept so far, and what the rest will add. */
  function FilterFrom(kept: seq<Line>, h: History, keyOf: Line -> Key, lines: seq<Line>): (seq<Line>, History) {
    (kept + Filter(h, keyOf, lines).0, Filter(h, keyOf, lines).1)
  }

  lemma FilterStep(kept: seq<Line>, h: History, keyOf: Line -> Key, lines: seq<Line>, i: nat)
    requires i < |lines|
    ensures FilterFrom(kept, h, keyOf, lines[i..]) ==
            if lines[i].Blank? then FilterFrom(kept, h, keyOf, lines[i + 1..])
            else
              var key := keyOf(lines[i]);
              FilterFrom(if IsNewTo(h, key) then kept + [lines[i]] else kept, After(h, key), keyOf, lines[i + 1..])
  {
    assert lines[i..][1..] == lines[i + 1..];
    if !lines[i].Blank? {
      var key := keyOf(lines[i]);
      var rest := Filter(After(h, key), keyOf, lines[i + 1..]).0;
      if IsNewTo(h, key) {
        assert kept + ([lines[i]] + rest) == kept + [lines[i]] + rest;
      } else {
        assert [] + rest == rest;
      }
    }
  }

  lemma FilterEnds(h: History, keyOf: Line -> Key, lines: seq<Line>, kept: seq<Line>)
    ensures FilterFrom([], h, keyOf, lines[0..]) == Filter(h, keyOf, lines)
    ensures FilterFrom(kept, h, keyOf, lines[|lines|..]) == (kept, h)
  {
    assert lines[0..] == lines && lines[|lines|..] == [] && kept + [] == kept;
    assert [] + Filter(h, keyOf, lines).0 == Filter(h, keyOf, lines).0;
  }

  datatype Reply = Body(lines: seq<Line>) | Refused(status: int) | Unreachable

  /** One export, the listing it falls back to, and whether the write that follows succeeds. */
  datatype Job = Job(source: Source, reply: Reply, fallback: Reply, writeOk: bool)

  function Raw(j: Job): Option<seq<Line>> {
    if j.reply.Body? then Some(j.reply.lines)
    else if j.reply.Refused? && j.reply.status in {404, 405, 501} && j.source in {AuditCef, AuditJsonl}
      && j.fallback.Body? then Some(j.fallback.lines)
    else None
  }

  /** A listing stands in for an export only when the server says it has none, and only for the audit journal. */
  lemma FallbackIff(j: Job)
    ensures j.reply.Body? ==> Raw(j) == Some(j.reply.lines)
    ensures j.reply.Unreachable? ==> Raw(j) == None
    ensures j.reply.Refused? ==>
              (Raw(j).Some? <==>
               && (j.reply.status == 404 || j.reply.status == 405 || j.reply.status == 501)
               && (j.source == AuditCef || j.source == AuditJsonl) && j.fallback.Body?)
    ensures j.reply.Refused? && Raw(j).Some? ==> Raw(j).value == j.fallback.lines
  {
  }

  datatype Entry = Entry(source: Source, line: Line)

  function Tag(s: Source, lines: seq<Line>): seq<Entry> {
    if lines == [] then [] else [Entry(s, lines[0])] + Tag(s, lines[1..])
  }

  datatype State = State(
    audit: Option<int>,
    findings: Option<int>,
    savedAudit: Option<int>,
    savedFindings: Option<int>,
    memory: History,
    written: seq<Entry>,
    chainBroken: bool
  )

  function DoJob(st: State, j: Job): (bool, State) {
    var raw := Raw(j);
    if raw.None? then (false, st)
    else
      var (kept, memory) := Filter(st.memory, KeyIn(j.source), raw.value);
      if kept == [] then (true, st.(memory := memory))
      else if j.writeOk then (true, st.(memory := memory, written := st.written + Tag(j.source, kept)))
      else (false, st.(memory := memory))
  }

  function DoJobs(st: State, jobs: seq<Job>): (bool, State)
    decreases |jobs|
  {
    if jobs == [] then (true, st)
    else
      var (ok, st') := DoJob(st, jobs[0]);
      if ok then DoJobs(st', jobs[1..]) else (false, st')
  }

  /** The check of the audit chain: not due yet, answered, impossible, or refused to this key. */
  datatype Check = NotDue | Answered(valid: Option<bool>) | Unavailable | Denied

  /** Whether the cycle may go on, None when the check raises; and whether the chain is now known broken. */
  function Verify(broken: bool, check: Check): (Option<bool>, bool) {
    match check
    case Denied => (None, broken)
    case Answered(Some(valid)) => (Some(valid), broken || !valid)
    case _ => (Some(!broken), broken)
  }

  /** The options of the command line that set the window of an export. */
  datatype Options = Options(overlap: nat, start: Option<int>)

  /** The lower bound asked for: the cursor, or the first one given, less the overlap. */
  function Since(o: Options, cursor: Option<int>): Option<int> {
    if cursor.Some? then Some(cursor.value - o.overlap)
    else if o.start.Some? then Some(o.start.value - o.overlap)
    else None
  }

  /** What the outside answers to the exports of one source, whichever window is asked for. */
  type Answers = Option<int> -> seq<Job>

  /** What one cycle meets: `asked` is the time of the first export, not before `until` is read. */
  datatype Cycle = Cycle(
    check: Check,
    until: int,
    asked: int,
    audit: Option<Answers>,
    findings: Option<Answers>,
    saveOk: bool
  )

  function AuditJobs(o: Options, st: State, c: Cycle): seq<Job>
    requires c.audit.Some?
  {
    c.audit.value(Since(o, st.audit))
  }

  function FindingJobs(o: Options, st: State, c: Cycle): seq<Job>
    requires c.findings.Some?
  {
    c.findings.value(Since(o, st.findings))
  }

  function Saved(st: State, ok: bool): State {
    if ok then st.(savedAudit := st.audit, savedFindings := st.findings) else st
  }

  function AuditPart(o: Options, st: State, c: Cycle): (bool, State) {
    if c.audit.None? then (true, st)
    else
      var (ok, st') := DoJobs(st, AuditJobs(o, st, c));
      (ok, if ok then Saved(st'.(audit := Some(c.until)), c.saveOk) else st')
  }

  function FindingsPart(o: Options, st: State, c: Cycle): (bool, State) {
    if c.findings.None? then (true, st)
    else
      var (ok, st') := DoJobs(st, FindingJobs(o, st, c));
      (ok, if ok then Saved(st'.(findings := Some(c.until)), c.saveOk) else st')
  }

  function RunCycleSpec(o: Options, st: State, c: Cycle): (bool, State) {
    var (goOn, broken) := Verify(st.chainBroken, c.check);
    var m := st.(chainBroken := broken);
    if goOn != Some(true) then (goOn.Some?, m)
    else
      var (ok, st') := AuditPart(o, m, c);
      if ok then FindingsPart(o, st', c) else (false, st')
  }

  // ---------------------------------------------------------------- the code

  class SiemForwarder {
    const options: Options
    const memory: Memory
    var chainBroken: bool
    var audit: Option<int>
    var findings: Option<int>
    var savedAudit: Option<int>
    var savedFindings: Option<int>
    var written: seq<Entry>

    constructor (options: Options, memory: Memory, audit: Option<int>, findings: Option<int>)
      requires memory.Valid()
      ensures Valid() && this.memory == memory && this.options == options
      ensures View() == State(audit, findings, audit, findings, memory.history, [], false)
    {
      this.options, this.memory, this.audit, this.findings := options, memory, audit, findings;
      chainBroken := false;
      savedAudit, savedFindings, written := audit, findings, [];
    }

    ghost predicate Valid()
      reads this, memory
    {
      memory.Valid()
    }

    ghost function View(): State
      reads this, memory
    {
      State(audit, findings, savedAudit, savedFindings, memory.history, written, chainBroken)
    }

    method FilterLines(s: Source, lines: seq<Line>) returns (kept: seq<Line>)
      requires Valid()
      modifies memory
      ensures Valid() && (kept, memory.history) == Filter(old(memory.history), KeyIn(s), lines)
    {
      ghost var keyOf := KeyIn(s);
      ghost var goal := Filter(memory.history, keyOf, lines);
      FilterEnds(memory.history, keyOf, lines, []);
      kept := [];
      var i := 0;
      while i < |lines|
        invariant 0 <= i <= |lines| && Valid()
        invariant FilterFrom(kept, memory.history, keyOf, lines[i..]) == goal
      {
        FilterStep(kept, memory.history, keyOf, lines, i);
        if !lines[i].Blank? {
          var isNew := memory.IsNew(KeyOf(s, lines[i]));
          if isNew { kept := kept + [lines[i]]; }
        }
        i := i + 1;
      }
      FilterEnds(memory.history, keyOf, lines, kept);
    }

    method Forward(j: Job) returns (ok: bool)
      requires Valid()
      modifies this`written, memory
      ensures Valid() && (ok, View()) == DoJob(old(View()), j)
    {
      var raw := Raw(j);
      if raw.None? { return false; }
      var kept := FilterLines(j.source, raw.value);
      if kept == [] { return true; }
      if !j.writeOk { return false; }
      written := written + Tag(j.source, kept);
      return true;
    }

    method ForwardAll(jobs: seq<Job>) returns (ok: bool)
      requires Valid()
      modifies this`written, memory
      ensures Valid() && (ok, View()) == DoJobs(old(View()), jobs)
    {
      var i := 0;
      ok := true;
      while i < |jobs|
        invariant 0 <= i <= |jobs| && Valid() && ok
        invariant DoJobs(View(), jobs[i..]) == DoJobs(old(View()), jobs)
      {
        assert jobs[i..][1..] == jobs[i + 1..];
        ok := Forward(jobs[i]);
        if !ok { return; }
        i := i + 1;
      }
    }

    method Save(ok: bool)
      modifies this`savedAudit, this`savedFindings
      ensures View() == Saved(old(View()), ok)
    {
      if ok { savedAudit, savedFindings := audit, findings; }
    }

    /** Whether the cycle may go on; None when the check raises. */
    method VerifyChain(check: Check) returns (goOn: Option<bool>)
      modifies this`chainBroken
      ensures (goOn, chainBroken) == Verify(old(chainBroken), check)
    {
      match check {
        case Denied => return None;
        case Answered(Some(valid)) =>
          if !valid { chainBroken := true; }
          return Some(valid);
        case _ => return Some(!chainBroken);
      }
    }

    /** The window of an export goes back from the cursor by the overlap. */
    method CursorWindow(cursor: Option<int>) returns (since: Option<int>)
      ensures since == Since(options, cursor)
    {
      var from := if cursor.Some? then cursor else options.start;
      if from.None? { return None; }
      since := Some(from.value - options.overlap);
    }

    /** Check, export and write, and only then move the cursor; a failure leaves the cursor alone. */
    method RunCycle(c: Cycle) returns (ok: bool)
      requires Valid()
      modifies this, memory
      ensures Valid() && (ok, View()) == RunCycleSpec(options, old(View()), c)
    {
      var goOn := VerifyChain(c.check);
      if goOn != Some(true) { return goOn.Some?; }
      if c.audit.Some? {
        var since := CursorWindow(audit);
        ok := ForwardAll(c.audit.value(since));
        if !ok { return; }
        audit := Some(c.until);
        Save(c.saveOk);
      }
      if c.findings.Some? {
        var since := CursorWindow(findings);
        ok := ForwardAll(c.findings.value(since));
        if !ok { return; }
        findings := Some(c.until);
        Save(c.saveOk);
      }
      ok := true;
    }
  }

  // -------------------------------------------------------------- no record lost

  /** When records are stamped and created, which record a key stands for, and the options in force. */
  datatype World = World(
    stamp: nat -> int,
    created: nat -> int,
    owner: Key -> nat,
    formats: set<Source>,
    options: Options
  )

  ghost predicate IsAudit(s: Source) {
    s.AuditCef? || s.AuditJsonl?
  }

  ghost predicate Has(log: seq<Entry>, s: Source, r: nat) {
    exists e <- log :: e.source == s && !e.line.Blank? && e.line.record == r
  }

  /** A key in the memory stands for a record that has been written. */
  ghost predicate Honest(w: World, h: History, log: seq<Entry>) {
    forall s, ident :: IsAudit(s) && FullKey(s, ident) in h.accepted ==> Has(log, s, w.owner(FullKey(s, ident)))
  }

  /** Keys identify records. */
  ghost predicate Identify(w: World, s: Source, lines: seq<Line>) {
    forall line <- lines :: line.Keyed? ==> w.owner(FullKey(s, line.ident)) == line.record
  }

  ghost predicate AllWritten(log: seq<Entry>, s: Source, lines: seq<Line>) {
    forall line <- lines :: !line.Blank? ==> Has(log, s, line.record)
  }

  lemma HasGrows(a: seq<Entry>, b: seq<Entry>, s: Source, r: nat)
    requires Has(a, s, r)
    ensures Has(a + b, s, r)
  {
    var e :| e in a && e.source == s && !e.line.Blank? && e.line.record == r;
    assert e in a + b;
  }

  lemma HonestGrows(w: World, h: History, a: seq<Entry>, b: seq<Entry>)
    requires Honest(w, h, a)
    ensures Honest(w, h, a + b)
  {
    forall s, ident | IsAudit(s) && FullKey(s, ident) in h.accepted
      ensures Has(a + b, s, w.owner(FullKey(s, ident)))
    {
      HasGrows(a, b, s, w.owner(FullKey(s, ident)));
    }
  }

  /** One line through the memory: written now, or known to have been written before. */
  lemma LineHonest(w: World, h: History, log: seq<Entry>, s: Source, line: Line)
    requires Honest(w, h, log) && !line.Blank?
    requires line.Keyed? ==> w.owner(FullKey(s, line.ident)) == line.record
    ensures var key := KeyOf(s, line);
            var log' := log + if IsNewTo(h, key) then [Entry(s, line)] else [];
            Honest(w, After(h, key), log') && (IsAudit(s) ==> Has(log', s, line.record))
  {
    var key := KeyOf(s, line);
    if IsNewTo(h, key) {
      var log' := log + [Entry(s, line)];
      assert Entry(s, line) in log';
      HonestGrows(w, h, log, [Entry(s, line)]);
      forall t, ident | IsAudit(t) && FullKey(t, ident) in After(h, key).accepted
        ensures Has(log', t, w.owner(FullKey(t, ident)))
      {
        if FullKey(t, ident) !in h.accepted {
          FullKeyInjective(t, s, ident, line.ident);
        }
      }
    } else {
      assert log + [] == log;
      assert key in h.accepted;
    }
  }

  lemma {:induction false} FilterHonest(w: World, h: History, log: seq<Entry>, s: Source, lines: seq<Line>)
    requires Honest(w, h, log) && Identify(w, s, lines)
    ensures var (kept, h') := Filter(h, KeyIn(s), lines);
            var log' := log + Tag(s, kept);
            Honest(w, h', log') && (IsAudit(s) ==> AllWritten(log', s, lines))
    decreases |lines|
  {
    if lines == [] {
      assert log + [] == log;
    } else if lines[0].Blank? {
      FilterHonest(w, h, log, s, lines[1..]);
    } else {
      var line, key := lines[0], KeyOf(s, lines[0]);
      assert line in lines;
      LineHonest(w, h, log, s, line);
      var first := if IsNewTo(h, key) then [line] else [];
      TagFirst(s, first, IsNewTo(h, key), line);
      FilterHonest(w, After(h, key), log + Tag(s, first), s, lines[1..]);
      var rest := Filter(After(h, key), KeyIn(s), lines[1..]).0;
      LogGrows(log, s, first, rest);
      if IsAudit(s) { HasGrows(log + Tag(s, first), Tag(s, rest), s, line.record); }
    }
  }

  lemma TagFirst(s: Source, first: seq<Line>, isNew: bool, line: Line)
    requires first == if isNew then [line] else []
    ensures Tag(s, first) == if isNew then [Entry(s, line)] else []
  {
    if isNew { assert first[1..] == []; }
  }

  lemma LogGrows(log: seq<Entry>, s: Source, first: seq<Line>, rest: seq<Line>)
    ensures log + Tag(s, first) + Tag(s, rest) == log + Tag(s, first + rest)
  {
    TagConcat(s, first, rest);
    assert log + Tag(s, first) + Tag(s, rest) == log + (Tag(s, first) + Tag(s, rest));
  }

  lemma {:induction false} TagConcat(s: Source, a: seq<Line>, b: seq<Line>)
    ensures Tag(s, a + b) == Tag(s, a) + Tag(s, b)
  {
    if a == [] {
      assert a + b == b;
    } else {
      assert (a + b)[1..] == a[1..] + b;
      TagConcat(s, a[1..], b);
    }
  }

  /** The server answers with every record it holds in the window. */
  ghost predicate Complete(w: World, since: Option<int>, until: int, asked: int, lines: seq<Line>) {
    forall r: nat ::
      w.created(r) <= asked && (since.None? || since.value <= w.stamp(r)) && w.stamp(r) <= until ==>
      exists line <- lines :: !line.Blank? && line.record == r
  }

  ghost predicate GoodJob(w: World, j: Job) {
    j.writeOk && (Raw(j).Some? ==> Identify(w, j.source, Raw(j).value))
  }

  /**
   * What the environment owes a cycle, whatever its upper bound: exports of every format, complete
   * when they arrive at all, and writes that succeed.
   */
  ghost predicate Honoured(w: World, st: State, c: Cycle) {
    && (c.findings.Some? ==> forall since :: forall j <- c.findings.value(since) :: GoodJob(w, j))
    && (c.audit.Some? ==> AuditHonoured(w, Since(w.options, st.audit), c, AuditJobs(w.options, st, c)))
  }

  ghost predicate AuditHonoured(w: World, since: Option<int>, c: Cycle, jobs: seq<Job>) {
    && (forall j <- jobs :: GoodJob(w, j))
    && (forall j <- jobs :: Raw(j).Some? ==> Complete(w, since, c.until, c.asked, Raw(j).value))
    && (forall s <- w.formats :: exists j <- jobs :: j.source == s)
  }

  /** An upper bound not later than the query, or one before everything the forwarder was asked to send. */
  predicate BoundOk(o: Options, until: int, asked: int) {
    until <= asked || (o.start.Some? && until < o.start.value)
  }

  ghost predicate GoodCycle(w: World, st: State, c: Cycle) {
    BoundOk(w.options, c.until, c.asked) && Honoured(w, st, c)
  }

  ghost predicate Due(w: World, cursor: int, r: nat) {
    (w.options.start.None? || w.options.start.value - w.options.overlap <= w.stamp(r))
    && w.stamp(r) <= cursor - w.options.overlap
  }

  /** Everything stamped at or before the cursor minus the overlap is in every output. */
  ghost predicate NoGap(w: World, log: seq<Entry>, cursor: Option<int>) {
    cursor.Some? ==> forall s, r: nat :: s in w.formats && Due(w, cursor.value, r) ==> Has(log, s, r)
  }

  ghost predicate Inv(w: World, st: State) {
    && Honest(w, st.memory, st.written)
    && NoGap(w, st.written, st.audit) && NoGap(w, st.written, st.savedAudit)
  }

  ghost predicate Timely(w: World) {
    && (forall r: nat :: w.created(r) - w.options.overlap <= w.stamp(r))
    && (forall s <- w.formats :: IsAudit(s))
  }

  lemma NoGapGrows(w: World, a: seq<Entry>, b: seq<Entry>, cursor: Option<int>)
    requires NoGap(w, a, cursor)
    ensures NoGap(w, a + b, cursor)
  {
    if cursor.Some? {
      forall s, r: nat | s in w.formats && Due(w, cursor.value, r) ensures Has(a + b, s, r) {
        HasGrows(a, b, s, r);
      }
    }
  }

  lemma JobKeeps(w: World, st: State, j: Job)
    requires Inv(w, st) && GoodJob(w, j)
    ensures var (ok, st') := DoJob(st, j);
            && Inv(w, st') && st.written <= st'.written && st'.audit == st.audit && st'.savedAudit == st.savedAudit
            && ok == Raw(j).Some?
            && (ok && IsAudit(j.source) ==> AllWritten(st'.written, j.source, Raw(j).value))
  {
    if Raw(j).Some? {
      var (kept, h) := Filter(st.memory, KeyIn(j.source), Raw(j).value);
      FilterHonest(w, st.memory, st.written, j.source, Raw(j).value);
      assert st.written + [] == st.written;
      NoGapGrows(w, st.written, Tag(j.source, kept), st.audit);
      NoGapGrows(w, st.written, Tag(j.source, kept), st.savedAudit);
    }
  }

  lemma AllWrittenGrows(a: seq<Entry>, b: seq<Entry>, s: Source, lines: seq<Line>)
    requires AllWritten(a, s, lines) && a <= b
    ensures AllWritten(b, s, lines)
  {
    assert b == a + b[|a|..];
    forall line | line in lines && !line.Blank? ensures Has(b, s, line.record) {
      HasGrows(a, b[|a|..], s, line.record);
    }
  }

  lemma {:induction false} JobsKeep(w: World, st: State, jobs: seq<Job>)
    requires Inv(w, st) && forall j <- jobs :: GoodJob(w, j)
    ensures var (ok, st') := DoJobs(st, jobs);
            && Inv(w, st') && st.written <= st'.written && st'.audit == st.audit && st'.savedAudit == st.savedAudit
            && (ok ==> forall j <- jobs ::
                  Raw(j).Some? && (IsAudit(j.source) ==> AllWritten(st'.written, j.source, Raw(j).value)))
    decreases |jobs|
  {
    if jobs != [] {
      var j := jobs[0];
      JobKeeps(w, st, j);
      var (ok, m) := DoJob(st, j);
      if ok {
        JobsKeep(w, m, jobs[1..]);
        var (ok', st') := DoJobs(m, jobs[1..]);
        if ok' {
          if IsAudit(j.source) { AllWrittenGrows(m.written, st'.written, j.source, Raw(j).value); }
          forall k | k in jobs
            ensures Raw(k).Some? && (IsAudit(k.source) ==> AllWritten(st'.written, k.source, Raw(k).value))
          {
            assert k == j || k in jobs[1..];
          }
        }
      }
    }
  }

  /** A record due at the new cursor was in the export, or was due at the old one. */
  lemma DueIsWritten(w: World, st: State, st': State, c: Cycle, jobs: seq<Job>, s: Source, r: nat)
    requires Timely(w) && BoundOk(w.options, c.until, c.asked) && NoGap(w, st.written, st.audit)
    requires AuditHonoured(w, Since(w.options, st.audit), c, jobs)
    requires st.written <= st'.written
    requires forall j <- jobs ::
               Raw(j).Some? && (IsAudit(j.source) ==> AllWritten(st'.written, j.source, Raw(j).value))
    requires s in w.formats && Due(w, c.until, r)
    ensures Has(st'.written, s, r)
  {
    var since := Since(w.options, st.audit);
    if since.Some? && w.stamp(r) < since.value {
      assert st.audit.Some? && Due(w, st.audit.value, r);
      assert st'.written == st.written + st'.written[|st.written|..];
      HasGrows(st.written, st'.written[|st.written|..], s, r);
    } else {
      var j :| j in jobs && j.source == s;
      assert Complete(w, since, c.until, c.asked, Raw(j).value);
      assert w.created(r) - w.options.overlap <= w.stamp(r);
      var line :| line in Raw(j).value && !line.Blank? && line.record == r;
    }
  }

  lemma AuditPartKeeps(w: World, st: State, c: Cycle)
    requires Timely(w) && Inv(w, st) && BoundOk(w.options, c.until, c.asked)
    requires c.audit.Some? ==> AuditHonoured(w, Since(w.options, st.audit), c, AuditJobs(w.options, st, c))
    ensures Inv(w, AuditPart(w.options, st, c).1)
  {
    if c.audit.Some? {
      var jobs := AuditJobs(w.options, st, c);
      JobsKeep(w, st, jobs);
      var (ok, st') := DoJobs(st, jobs);
      if ok {
        forall s, r: nat | s in w.formats && Due(w, c.until, r) ensures Has(st'.written, s, r) {
          DueIsWritten(w, st, st', c, jobs, s, r);
        }
      }
    }
  }

  lemma CycleKeeps(w: World, st: State, c: Cycle)
    requires Timely(w) && Inv(w, st) && GoodCycle(w, st, c)
    ensures Inv(w, RunCycleSpec(w.options, st, c).1)
  {
    var (goOn, broken) := Verify(st.chainBroken, c.check);
    if goOn == Some(true) {
      var n := st.(chainBroken := broken);
      AuditPartKeeps(w, n, c);
      var (ok, m) := AuditPart(w.options, n, c);
      if ok && c.findings.Some? { JobsKeep(w, m, FindingJobs(w.options, m, c)); }
    }
  }

  /** A run: cycles, and restarts that forget the memory and go back to the saved cursors. */
  datatype Step = DoCycle(cycle: Cycle) | Restart(size: nat) | FromStart(size: nat)

  function Next(o: Options, st: State, step: Step): State {
    match step
    case DoCycle(c) => RunCycleSpec(o, st, c).1
    case Restart(size) =>
      st.(audit := st.savedAudit, findings := st.savedFindings, memory := History(size, []), chainBroken := false)
    case FromStart(size) => st.(audit := None, findings := None, memory := History(size, []), chainBroken := false)
  }

  function Run(o: Options, st: State, steps: seq<Step>): State
    decreases |steps|
  {
    if steps == [] then st else Run(o, Next(o, st, steps[0]), steps[1..])
  }

  ghost predicate GoodRun(w: World, st: State, steps: seq<Step>)
    decreases |steps|
  {
    steps == []
    || ((steps[0].DoCycle? ==> GoodCycle(w, st, steps[0].cycle))
        && GoodRun(w, Next(w.options, st, steps[0]), steps[1..]))
  }

  /**
   * In every run, whatever fails to answer and whenever the process restarts: each record stamped
   * at or before the cursor minus the overlap is in every audit output.
   */
  lemma {:induction false} RunLosesNothing(w: World, st: State, steps: seq<Step>)
    requires Timely(w) && Inv(w, st) && GoodRun(w, st, steps)
    ensures Inv(w, Run(w.options, st, steps))
    decreases |steps|
  {
    if steps != [] {
      if steps[0].DoCycle? { CycleKeeps(w, st, steps[0].cycle); }
      RunLosesNothing(w, Next(w.options, st, steps[0]), steps[1..]);
    }
  }

  function Fresh(size: nat): State {
    State(None, None, None, None, History(size, []), [], false)
  }

  lemma FreshInv(w: World, size: nat)
    ensures Inv(w, Fresh(size))
  {
  }

  /**
   * A cycle that fails leaves the findings cursor alone, and the audit cursor too unless every audit
   * export was written before.
   */
  lemma FailureKeepsCursors(o: Options, st: State, c: Cycle)
    ensures var (ok, st') := RunCycleSpec(o, st, c);
            !ok ==>
              && st'.findings == st.findings
              && ((st'.audit == st.audit && st'.savedAudit == st.savedAudit)
                  || (c.audit.Some? && DoJobs(st.(chainBroken := st'.chainBroken), AuditJobs(o, st, c)).0))
  {
    var m := st.(chainBroken := Verify(st.chainBroken, c.check).1);
    if c.audit.Some? { JobsKeepCursor(m, AuditJobs(o, m, c)); }
    var m' := AuditPart(o, m, c).1;
    if c.findings.Some? { JobsKeepCursor(m', FindingJobs(o, m', c)); }
  }

  /**
   * A cycle that goes through: each cursor it exports up to stands at the upper bound, and is saved there
   * unless the state could not be saved; a cursor it does not export stays. A restart resumes there.
   */
  lemma SuccessMovesCursors(o: Options, st: State, c: Cycle, size: nat)
    requires RunCycleSpec(o, st, c).0 && Verify(st.chainBroken, c.check).0 == Some(true)
    ensures var st' := RunCycleSpec(o, st, c).1;
            var resumed := Next(o, st', Restart(size));
            && st'.audit == (if c.audit.Some? then Some(c.until) else st.audit)
            && st'.findings == (if c.findings.Some? then Some(c.until) else st.findings)
            && (c.saveOk && (c.audit.Some? || c.findings.Some?) ==>
                  resumed.audit == st'.audit && resumed.findings == st'.findings)
            && (!c.saveOk ==> resumed.audit == st.savedAudit && resumed.findings == st.savedFindings)
            && resumed.memory == History(size, []) && !resumed.chainBroken && resumed.written == st'.written
            && Next(o, st', FromStart(size)) == resumed.(audit := None, findings := None)
  {
    var m := st.(chainBroken := Verify(st.chainBroken, c.check).1);
    if c.audit.Some? { JobsKeepCursor(m, AuditJobs(o, m, c)); }
    var m' := AuditPart(o, m, c).1;
    if c.findings.Some? { JobsKeepCursor(m', FindingJobs(o, m', c)); }
  }

  ghost predicate AllArrive(jobs: seq<Job>) {
    forall j <- jobs :: Raw(j).Some? && j.writeOk
  }

  lemma {:induction false} JobsSucceed(st: State, jobs: seq<Job>)
    requires AllArrive(jobs)
    ensures DoJobs(st, jobs).0
    decreases |jobs|
  {
    if jobs != [] {
      assert jobs[0] in jobs;
      JobsSucceed(DoJob(st, jobs[0]).1, jobs[1..]);
    }
  }

  /** Nothing but a check, a lost export or a failing write stops a cycle, whichever of its parts are asked for. */
  lemma CycleSucceeds(o: Options, st: State, c: Cycle)
    requires Verify(st.chainBroken, c.check).0 == Some(true)
    requires c.audit.Some? ==> AllArrive(AuditJobs(o, st, c))
    requires c.findings.Some? ==> AllArrive(FindingJobs(o, st, c))
    ensures RunCycleSpec(o, st, c).0
  {
    var m := st.(chainBroken := Verify(st.chainBroken, c.check).1);
    if c.audit.Some? {
      JobsSucceed(m, AuditJobs(o, m, c));
      JobsKeepCursor(m, AuditJobs(o, m, c));
    }
    var m' := AuditPart(o, m, c).1;
    if c.findings.Some? { JobsSucceed(m', FindingJobs(o, m', c)); }
  }

  /** The window asked for starts where the promise of the cursor ends: nothing is missed, nothing asked twice. */
  lemma WindowMeetsPromise(w: World, cursor: int, r: nat)
    requires w.options.start.None? || w.options.start.value - w.options.overlap <= w.stamp(r)
    ensures Since(w.options, Some(cursor)).Some?
    ensures var since := Since(w.options, Some(cursor)).value;
            && (since <= w.stamp(r) || Due(w, cursor, r))
            && (since <= w.stamp(r) && Due(w, cursor, r) ==> w.stamp(r) == since)
    ensures Since(w.options, None).Some? <==> w.options.start.Some?
    ensures Since(w.options, None).Some? ==> Since(w.options, None).value <= w.stamp(r)
  {
  }

  /** A chain found broken stops everything until a check answers that it is valid, or the process restarts. */
  lemma {:induction false} BrokenChainStops(o: Options, st: State, steps: seq<Step>)
    requires st.chainBroken
    requires forall step <- steps :: step.DoCycle? && step.cycle.check != Answered(Some(true))
    ensures Run(o, st, steps) == st
    decreases |steps|
  {
    if steps != [] {
      assert steps[0] in steps;
      BrokenChainStops(o, st, steps[1..]);
    }
  }

  /** So it is from the cycle on in which a check answers that the chain is broken: that cycle moves nothing either. */
  lemma FoundBrokenStops(o: Options, st: State, c: Cycle, steps: seq<Step>)
    requires c.check == Answered(Some(false))
    requires forall step <- steps :: step.DoCycle? && step.cycle.check != Answered(Some(true))
    ensures Run(o, st, [DoCycle(c)] + steps) == st.(chainBroken := true)
  {
    assert ([DoCycle(c)] + steps)[1..] == steps;
    assert Next(o, st, DoCycle(c)) == st.(chainBroken := true);
    BrokenChainStops(o, st.(chainBroken := true), steps);
  }

  ghost predicate FoundBroken(steps: seq<Step>) {
    exists step <- steps :: step.DoCycle? && step.cycle.check == Answered(Some(false))
  }

  /** While the process runs, the chain counts as broken exactly when it did before or some check said so. */
  lemma {:induction false} ChainBrokenIff(o: Options, st: State, steps: seq<Step>)
    requires forall step <- steps :: step.DoCycle?
    ensures Run(o, st, steps).chainBroken <==> st.chainBroken || FoundBroken(steps)
    decreases |steps|
  {
    if steps != [] {
      var c, rest := steps[0].cycle, steps[1..];
      CycleKeepsVerdict(o, st, c);
      ChainBrokenIff(o, Next(o, st, steps[0]), rest);
      assert FoundBroken(steps) <==> c.check == Answered(Some(false)) || FoundBroken(rest) by {
        assert forall step :: step in steps <==> step == steps[0] || step in rest;
      }
    }
  }

  lemma CycleKeepsVerdict(o: Options, st: State, c: Cycle)
    ensures RunCycleSpec(o, st, c).1.chainBroken <==> st.chainBroken || c.check == Answered(Some(false))
  {
    var m := st.(chainBroken := Verify(st.chainBroken, c.check).1);
    if c.audit.Some? { JobsKeepCursor(m, AuditJobs(o, m, c)); }
    var m' := AuditPart(o, m, c).1;
    if c.findings.Some? { JobsKeepCursor(m', FindingJobs(o, m', c)); }
  }

  /**
   * When a cycle exports anything: its own check says the chain is valid, or gives no verdict and no check
   * since the process started said that it is broken. A refusal of the check raises.
   */
  lemma GoesOnIff(o: Options, st: State, steps: seq<Step>, c: Cycle)
    requires (forall step <- steps :: step.DoCycle?) && !st.chainBroken
    ensures var (goOn, _) := Verify(Run(o, st, steps).chainBroken, c.check);
            && (goOn == Some(true) <==>
                c.check == Answered(Some(true))
                || (c.check in {NotDue, Unavailable, Answered(None)} && !FoundBroken(steps)))
            && (goOn == None <==> c.check == Denied)
            && (goOn != Some(true) ==>
                RunCycleSpec(o, Run(o, st, steps), c).1
                == Run(o, st, steps).(chainBroken := FoundBroken(steps + [DoCycle(c)])))
  {
    ChainBrokenIff(o, st, steps);
    assert forall step :: step in steps + [DoCycle(c)] <==> step in steps || step == DoCycle(c);
  }

  lemma {:induction false} JobsKeepCursor(st: State, jobs: seq<Job>)
    ensures var st' := DoJobs(st, jobs).1;
            && st'.audit == st.audit && st'.savedAudit == st.savedAudit && st'.findings == st.findings
            && st'.savedFindings == st.savedFindings && st'.chainBroken == st.chainBroken
    decreases |jobs|
  {
    if jobs != [] && DoJob(st, jobs[0]).0 { JobsKeepCursor(DoJob(st, jobs[0]).1, jobs[1..]); }
  }
}
