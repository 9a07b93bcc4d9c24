/** The Go client's retry policy, and the ingestion of events in chunks on top of it. */
module HttpRetry {
  import opened Basics

  // ------------------------------------------------------------------- waiting

  /** Durations are whole nanoseconds. */
  datatype RawPolicy = Policy(maxRetries: int, base: int, cap: int)

  predicate Usable(p: RawPolicy) {
    0 <= p.maxRetries && 0 <= p.base <= p.cap
  }

  type Policy = p: RawPolicy | Usable(p) witness Policy(0, 0, 0)

  /** What the constructor makes of any configuration. */
  function Normalised(p: RawPolicy): (r: Policy)
    ensures Usable(p) ==> r == p
    ensures p.maxRetries >= 0 ==> r.maxRetries == p.maxRetries
    ensures p.maxRetries <= 0 ==> r.maxRetries == 0
    ensures p.base >= 0 ==> r.base == p.base
    ensures p.base <= 0 ==> r.base == 0
    ensures r.cap == p.cap || r.cap == r.base > p.cap
  {
    var base := if p.base < 0 then 0 else p.base;
    Policy(if p.maxRetries < 0 then 0 else p.maxRetries, base, if p.cap < base then base else p.cap)
  }

  /** The exponential delay before jitter, never above the cap. */
  function Ceiling(p: Policy, attempt: nat): int {
    var raw := p.base * Pow2(attempt);
    if raw > p.cap then p.cap else raw
  }

  type Fraction = j: real | 0.5 <= j <= 1.0 witness 1.0

  /** A random sample outside the unit interval is brought back into it; one that is no number counts as 1. */
  function Jitter(sample: Option<real>): Fraction {
    var s := if sample.None? then 1.0 else sample.value;
    0.5 + 0.5 * (if s < 0.0 then 0.0 else if s > 1.0 then 1.0 else s)
  }

  lemma Scaled(c: nat, j: Fraction, x: real)
    requires x == c as real * j
    ensures 0.5 * c as real <= x <= c as real
  {
    assert x - 0.5 * c as real == c as real * (j - 0.5);
    assert c as real - x == c as real * (1.0 - j);
  }

  /** A fraction of the delay, cut to whole nanoseconds. */
  function Jittered(c: nat, j: Fraction): (d: nat)
    ensures d <= c && 2 * d >= c - 1
  {
    var x := c as real * j;
    Scaled(c, j, x);
    x.Floor
  }

  function Backoff(p: Policy, attempt: nat, sample: Option<real>): int {
    CeilingWithin(p, attempt);
    Jittered(Ceiling(p, attempt), Jitter(sample))
  }

  lemma CeilingWithin(p: Policy, attempt: nat)
    ensures 0 <= Ceiling(p, attempt) <= p.cap
    ensures Ceiling(p, attempt) <= Ceiling(p, attempt + 1)
  {
    var x := Pow2(attempt);
    assert p.base * (2 * x) == p.base * x + p.base * x;
    assert p.base * x >= 0;
  }

  /** It starts from the base and doubles from attempt to attempt, up to the cap. */
  lemma CeilingDoubles(p: Policy, attempt: nat)
    ensures Ceiling(p, 0) == p.base
    ensures Ceiling(p, attempt + 1) == if 2 * Ceiling(p, attempt) > p.cap then p.cap else 2 * Ceiling(p, attempt)
  {
    var x := Pow2(attempt);
    assert Pow2(0) == 1;
    assert p.base * (2 * x) == 2 * (p.base * x);
    assert p.base * x >= 0;
  }

  /** The jitter spreads over its whole range: half at sample 0, all at 1, in proportion between, clamped outside. */
  lemma JitterSpreads(a: real, b: real)
    ensures Jitter(Some(0.0)) == 0.5 && Jitter(Some(1.0)) == 1.0 && Jitter(None) == 1.0
    ensures a <= b ==> Jitter(Some(a)) <= Jitter(Some(b))
    ensures 0.0 <= a <= b <= 1.0 ==> Jitter(Some(b)) - Jitter(Some(a)) == 0.5 * (b - a)
  {
  }

  /** Every computed delay is within the cap, and at least half of the capped exponential. */
  lemma BackoffWithinCap(p: Policy, attempt: nat, sample: Option<real>)
    ensures 0 <= Backoff(p, attempt, sample) <= Ceiling(p, attempt) <= p.cap
    ensures 2 * Backoff(p, attempt, sample) >= Ceiling(p, attempt) - 1
  {
    CeilingWithin(p, attempt);
  }

  // ----------------------------------------------------------------- one call

  datatype Reply = NoReply | Unreadable | Status(code: int, retryAfter: int, decodable: bool)

  /** What the world does to one attempt. */
  datatype Answer = Answer(
    cancelledBefore: bool,
    reply: Reply,
    cancelledByThen: bool,
    sleepCancelled: bool,
    sample: Option<real>
  )

  datatype End = Cancelled | TransportFailed | ApiFailed(code: int) | Invalid | Succeeded | Rejected | CallbackFailed

  predicate RetryableStatus(code: int) {
    code == 429 || code == 502 || code == 503 || code == 504
  }

  predicate Transient(a: Answer) {
    match a.reply
    case NoReply => !a.cancelledByThen
    case Unreadable => true
    case Status(code, _, _) => code >= 400 && RetryableStatus(code)
  }

  /** Whether an attempt that may be retried leads to the next one. */
  predicate Again(a: Answer) {
    !a.cancelledBefore && Transient(a) && !a.sleepCancelled
  }

  /** The delay asked for after a transient failure: the server's advice, when it gave one. */
  function Delay(p: Policy, attempt: nat, a: Answer): int {
    if a.reply.Status? && a.reply.retryAfter > 0 then a.reply.retryAfter else Backoff(p, attempt, a.sample)
  }

  /** How the call ends on its last attempt. */
  function EndOf(a: Answer, mayRetry: bool): End {
    if a.cancelledBefore then Cancelled
    else if a.reply.NoReply? && a.cancelledByThen then Cancelled
    else if mayRetry && Transient(a) then Cancelled
    else
      match a.reply
      case Status(code, _, decodable) =>
        if code >= 400 then ApiFailed(code) else if decodable then Succeeded else Invalid
      case _ => TransportFailed
  }

  /** The last attempt: the first that does not lead to another, within the budget. */
  function Last(env: nat -> Answer, limit: nat, from: nat): (k: nat)
    requires from <= limit
    ensures from <= k <= limit
    decreases limit - from
  {
    if from == limit || !Again(env(from)) then from else Last(env, limit, from + 1)
  }

  /** That attempt is the only one to end the call: all before it were transient, and it was not. */
  lemma {:induction false} LastIff(env: nat -> Answer, limit: nat, from: nat, k: nat)
    requires from <= k <= limit
    ensures k == Last(env, limit, from) <==>
              (forall j :: from <= j < k ==> Again(env(j))) && (k == limit || !Again(env(k)))
    decreases limit - from
  {
    if from < limit && Again(env(from)) && from < k { LastIff(env, limit, from + 1, k); }
  }

  /**
   * The status decides: after 429, 502, 503 or 504 the call goes on while the budget and the caller let it;
   * any other status ends it at once.
   */
  lemma StatusDecides(env: nat -> Answer, limit: nat, k: nat)
    requires k <= limit && forall j :: 0 <= j < k ==> Again(env(j))
    requires env(k).reply.Status? && !env(k).cancelledBefore && !env(k).sleepCancelled
    ensures env(k).reply.code in {429, 502, 503, 504} ==> (Last(env, limit, 0) > k <==> k < limit)
    ensures env(k).reply.code !in {429, 502, 503, 504} ==> Last(env, limit, 0) == k
  {
    LastIff(env, limit, 0, k);
    LastIff(env, limit, 0, Last(env, limit, 0));
  }

  /** A cancelled wait, or a call cancelled before its attempt, ends it; a lost reply does not, unless cancelled too. */
  lemma CallerDecides(env: nat -> Answer, limit: nat, k: nat)
    requires k <= limit && forall j :: 0 <= j < k ==> Again(env(j))
    ensures env(k).cancelledBefore || env(k).sleepCancelled ==> Last(env, limit, 0) == k
    ensures !env(k).cancelledBefore && !env(k).sleepCancelled && !env(k).reply.Status? ==>
              (Last(env, limit, 0) > k <==> k < limit && !(env(k).reply.NoReply? && env(k).cancelledByThen))
  {
    LastIff(env, limit, 0, k);
    LastIff(env, limit, 0, Last(env, limit, 0));
  }

  /** Advice from the server is taken as it is, even above the cap; without any, the delay is within it. */
  lemma DelayIs(p: Policy, attempt: nat, a: Answer)
    ensures a.reply.Status? && a.reply.retryAfter > 0 ==> Delay(p, attempt, a) == a.reply.retryAfter
    ensures !a.reply.Status? || a.reply.retryAfter <= 0 ==>
              0 <= Delay(p, attempt, a) <= p.cap && Ceiling(p, attempt) - 1 <= 2 * Delay(p, attempt, a)
  {
    BackoffWithinCap(p, attempt, a.sample);
  }

  function Upper(s: string): string {
    seq(|s|, i requires 0 <= i < |s| => if 'a' <= s[i] <= 'z' then s[i] - ('a' - 'A') else s[i])
  }

  /** Method names are compared in upper case. */
  predicate IsIdempotent(verb: string) {
    Upper(verb) in IDEMPOTENT
  }

  lemma PostIsNotIdempotent()
    ensures !IsIdempotent("POST")
  {
    var post := Upper("POST");
    assert |post| == 4 && post[0] == 'P';
  }

  /** A call may be repeated when its method is idempotent or when it carries a key. */
  predicate RetrySafe(verb: string, key: string, noRetry: bool) {
    !noRetry && (IsIdempotent(verb) || key != "")
  }

  /** The same letters in either case. */
  predicate SameLetters(a: string, b: string) {
    && |a| == |b|
    && forall i :: 0 <= i < |a| ==>
         a[i] == b[i] || ('a' <= a[i] <= 'z' && 'A' <= b[i] <= 'Z' && a[i] - b[i] == 'a' - 'A')
  }

  const IDEMPOTENT := ["GET", "HEAD", "OPTIONS", "TRACE", "PUT", "DELETE"]

  predicate IsCapital(s: string) {
    forall i :: 0 <= i < |s| ==> 'A' <= s[i] <= 'Z'
  }

  lemma UpperIs(verb: string, name: string)
    requires IsCapital(name)
    ensures Upper(verb) == name <==> SameLetters(verb, name)
  {
    if SameLetters(verb, name) {
      forall i | 0 <= i < |verb| ensures Upper(verb)[i] == name[i] {}
    } else if |verb| == |name| {
      var i :| 0 <= i < |verb|
        && !(verb[i] == name[i] || ('a' <= verb[i] <= 'z' && 'A' <= name[i] <= 'Z' && verb[i] - name[i] == 'a' - 'A'));
      assert Upper(verb)[i] != name[i];
    }
  }

  lemma NamesAreCapital()
    ensures forall name <- IDEMPOTENT :: IsCapital(name)
  {
  }

  /** In words: with a key, or when the method is an idempotent one in any case, unless repeating is forbidden. */
  lemma RetrySafeIff(verb: string, key: string, noRetry: bool)
    ensures RetrySafe(verb, key, noRetry) <==>
            !noRetry && (key != "" || exists name <- IDEMPOTENT :: SameLetters(verb, name))
  {
    NamesAreCapital();
    forall name | name in IDEMPOTENT ensures Upper(verb) == name <==> SameLetters(verb, name) {
      UpperIs(verb, name);
    }
  }

  function Limit(p: Policy, safe: bool): nat {
    if safe then p.maxRetries else 0
  }

  function Sent(env: nat -> Answer, last: nat): nat {
    if env(last).cancelledBefore then last else last + 1
  }

  /** How a call ends: as its last attempt does. */
  function Ended(p: Policy, env: nat -> Answer, safe: bool): End {
    var last := Last(env, Limit(p, safe), 0);
    EndOf(env(last), last < Limit(p, safe))
  }

  function Repeat<T>(x: T, n: nat): seq<T> {
    seq(n, _ => x)
  }

  /**
   * The same request, once for each attempt; every wait but one the caller cancelled is followed by
   * another attempt; and the last attempt alone decides the outcome.
   */
  method Call<R>(p: Policy, env: nat -> Answer, safe: bool, request: R)
    returns (sent: seq<R>, waits: seq<int>, end: End)
    ensures var last := Last(env, Limit(p, safe), 0);
            && sent == Repeat(request, Sent(env, last))
            && end == Ended(p, env, safe)
            && last <= |waits| <= last + 1
            && (forall j :: 0 <= j < |waits| ==> waits[j] == Delay(p, j, env(j)))
            && (|waits| == last + 1 ==> end == Cancelled)
  {
    sent, waits := [], [];
    var attempt: nat := 0;
    while true
      invariant attempt <= Limit(p, safe)
      invariant Last(env, Limit(p, safe), attempt) == Last(env, Limit(p, safe), 0)
      invariant sent == Repeat(request, attempt) && |waits| == attempt
      invariant forall j :: 0 <= j < |waits| ==> waits[j] == Delay(p, j, env(j))
      decreases p.maxRetries - attempt
    {
      var a := env(attempt);
      if a.cancelledBefore { return sent, waits, Cancelled; }
      sent := sent + [request];
      var delay := 0;
      match a.reply {
      case NoReply =>
        if a.cancelledByThen { return sent, waits, Cancelled; }
        if !safe || attempt >= p.maxRetries { return sent, waits, TransportFailed; }
        delay := Backoff(p, attempt, a.sample);
      case Unreadable =>
        if !safe || attempt >= p.maxRetries { return sent, waits, TransportFailed; }
        delay := Backoff(p, attempt, a.sample);
      case Status(code, retryAfter, decodable) =>
        if code < 400 { return sent, waits, if decodable then Succeeded else Invalid; }
        if !(RetryableStatus(code) && safe && attempt < p.maxRetries) { return sent, waits, ApiFailed(code); }
        delay := retryAfter;
        if delay <= 0 { delay := Backoff(p, attempt, a.sample); }
      }
      waits := waits + [delay];
      if a.sleepCancelled { return sent, waits, Cancelled; }
      attempt := attempt + 1;
    }
  }

  /** At most one request more than the retries allowed, and only one when repeating is not safe. */
  lemma CallBounded(p: Policy, env: nat -> Answer, verb: string, key: string, noRetry: bool)
    ensures var safe := RetrySafe(verb, key, noRetry);
            var sent := Sent(env, Last(env, Limit(p, safe), 0));
            && sent <= p.maxRetries + 1
            && ((noRetry || (!IsIdempotent(verb) && key == "")) ==> sent <= 1)
  {
  }

  /** A call succeeds exactly when its last attempt does, and fails transiently only with its retries used up. */
  lemma CallOutcome(p: Policy, env: nat -> Answer, safe: bool)
    ensures var limit := Limit(p, safe);
            var last := Last(env, limit, 0);
            var a, end := env(last), Ended(p, env, safe);
            && (end == Succeeded <==> !a.cancelledBefore && a.reply.Status? && a.reply.code < 400 && a.reply.decodable)
            && (end.ApiFailed? && RetryableStatus(end.code) && end.code >= 400 ==> last == limit)
            && (end == TransportFailed ==> last == limit)
            && (end.ApiFailed? ==> a.reply.Status? && end.code == a.reply.code >= 400)
            && (end == Invalid ==> a.reply.Status? && a.reply.code < 400 && !a.reply.decodable)
            && (end == Cancelled ==>
                  a.cancelledBefore || a.sleepCancelled || (a.reply.NoReply? && a.cancelledByThen))
            && (forall j :: 0 <= j < last ==> Transient(env(j)) && !env(j).sleepCancelled)
  {
    LastIff(env, Limit(p, safe), 0, Last(env, Limit(p, safe), 0));
  }

  // ------------------------------------------------------- ingestion in chunks

  const MAX_BATCH := 500

  datatype Event = Event(tenant: string, body: nat)

  datatype Request = Request(body: seq<Event>, key: string)

  datatype IngestResult = IngestResult(accepted: nat, rejected: nat, ids: seq<string>, findings: seq<nat>)

  const NOTHING := IngestResult(0, 0, [], [])

  function Merge(a: IngestResult, b: IngestResult): IngestResult {
    IngestResult(a.accepted + b.accepted, a.rejected + b.rejected, a.ids + b.ids, a.findings + b.findings)
  }

  /** What the world does to each chunk: to its call, in its reply, and in the caller's callback. */
  datatype World = World(env: nat -> nat -> Answer, replies: nat -> IngestResult, callbackFails: nat -> bool)

  /** The merged replies of the first chunks. */
  function Merged(replies: nat -> IngestResult, n: nat): IngestResult {
    if n == 0 then NOTHING else Merge(Merged(replies, n - 1), replies(n - 1))
  }

  function Fill(events: seq<Event>, tenant: string): seq<Event> {
    seq(|events|, i requires 0 <= i < |events| =>
      if events[i].tenant == "" then events[i].(tenant := tenant) else events[i])
  }

  /** An event's own tenant is never replaced, a missing one is; nothing else changes. */
  lemma FillKeeps(events: seq<Event>, tenant: string, i: nat)
    requires i < |events|
    ensures |Fill(events, tenant)| == |events| && Fill(events, tenant)[i].body == events[i].body
    ensures Fill(events, tenant)[i].tenant == if events[i].tenant != "" then events[i].tenant else tenant
  {
  }

  function Total(f: nat -> nat, n: nat): nat {
    if n == 0 then 0 else Total(f, n - 1) + f(n - 1)
  }

  /** The total of the confirmed replies: counts are sums, and lists have the lengths of the replies' together. */
  lemma {:induction false} MergedTotals(replies: nat -> IngestResult, n: nat)
    ensures Merged(replies, n).accepted == Total(k => replies(k).accepted, n)
    ensures Merged(replies, n).rejected == Total(k => replies(k).rejected, n)
    ensures |Merged(replies, n).ids| == Total(k => |replies(k).ids|, n)
    ensures |Merged(replies, n).findings| == Total(k => |replies(k).findings|, n)
  {
    if n > 0 { MergedTotals(replies, n - 1); }
  }

  /** The lists of a reply stand after those of the replies before it. */
  lemma {:induction false} MergedLists(replies: nat -> IngestResult, n: nat, k: nat)
    requires k < n
    ensures Merged(replies, k).ids + replies(k).ids <= Merged(replies, n).ids
    ensures Merged(replies, k).findings + replies(k).findings <= Merged(replies, n).findings
  {
    if k < n - 1 { MergedLists(replies, n - 1, k); }
  }

  /** A copy with the missing tenants filled in; the caller's events stay as they are. */
  method FillTenant(events: seq<Event>, tenant: string) returns (out: seq<Event>)
    ensures out == Fill(events, tenant)
  {
    out := events;
    if tenant == "" { return; }
    for index := 0 to |out|
      invariant |out| == |events|
      invariant forall i :: index <= i < |out| ==> out[i] == events[i]
      invariant forall i :: 0 <= i < index ==> out[i] == Fill(events, tenant)[i]
    {
      if out[index].tenant == "" { out := out[index := out[index].(tenant := tenant)]; }
    }
  }

  function Chunks(events: seq<Event>, size: nat): (cs: seq<seq<Event>>)
    requires size > 0
  {
    if events == [] then []
    else if |events| <= size then [events]
    else [events[..size]] + Chunks(events[size..], size)
  }

  function Flatten(chunks: seq<seq<Event>>): seq<Event> {
    if chunks == [] then [] else chunks[0] + Flatten(chunks[1..])
  }

  /** The requests sent for each chunk attempted, the chunks confirmed, and how it ended. */
  datatype Run = Run(counts: seq<nat>, confirmed: nat, end: End)

  function CallEnd(p: Policy, w: World, safe: bool, i: nat): End {
    Ended(p, w.env(i), safe)
  }

  function CallSent(p: Policy, w: World, safe: bool, i: nat): nat {
    Sent(w.env(i), Last(w.env(i), Limit(p, safe), 0))
  }

  /** Chunks go one after the other until one fails, or the callback does. */
  function RunFrom(p: Policy, w: World, safe: bool, i: nat, n: nat): Run
    requires i <= n
    decreases n - i
  {
    if i == n then Run([], 0, Succeeded)
    else
      var sent, end := CallSent(p, w, safe, i), CallEnd(p, w, safe, i);
      if end != Succeeded then Run([sent], 0, end)
      else if w.callbackFails(i) then Run([sent], 1, CallbackFailed)
      else
        var rest := RunFrom(p, w, safe, i + 1, n);
        Run([sent] + rest.counts, 1 + rest.confirmed, rest.end)
  }

  lemma {:induction false} RunBounds(p: Policy, w: World, safe: bool, i: nat, n: nat)
    requires i <= n
    ensures var r := RunFrom(p, w, safe, i, n);
            && r.confirmed <= |r.counts| <= n - i
            && |r.counts| <= r.confirmed + 1
            && (r.end == Succeeded <==> r.confirmed == n - i && (forall j :: i <= j < n ==> !w.callbackFails(j)))
            && (forall j :: 0 <= j < |r.counts| ==>
                  r.counts[j] <= Limit(p, safe) + 1 && (j < r.confirmed ==> r.counts[j] >= 1))
            && (forall j :: i <= j < i + r.confirmed ==> CallEnd(p, w, safe, j) == Succeeded)
    decreases n - i
  {
    if i < n && CallEnd(p, w, safe, i) == Succeeded && !w.callbackFails(i) {
      RunBounds(p, w, safe, i + 1, n);
    }
  }

  /** The requests on the wire: each attempted chunk, filled, as often as it was sent. */
  function Spread(chunks: seq<seq<Event>>, counts: seq<nat>, tenant: string, key: string): seq<Request>
    requires |counts| <= |chunks|
  {
    if counts == [] then []
    else Repeat(Request(Fill(chunks[0], tenant), key), counts[0]) + Spread(chunks[1..], counts[1..], tenant, key)
  }

  method SendChunk(p: Policy, w: World, safe: bool, i: nat, chunk: seq<Event>, tenant: string, key: string)
    returns (requests: seq<Request>, end: End)
    ensures requests == Repeat(Request(Fill(chunk, tenant), key), CallSent(p, w, safe, i))
    ensures end == CallEnd(p, w, safe, i)
  {
    var batch := FillTenant(chunk, tenant);
    var waits;
    requests, waits, end := Call(p, w.env(i), safe, Request(batch, key));
  }

  /** A run that already sent some chunks. */
  function After(counts: seq<nat>, r: Run): Run {
    Run(counts + r.counts, |counts| + r.confirmed, r.end)
  }

  lemma RunStep(p: Policy, w: World, safe: bool, i: nat, n: nat, counts: seq<nat>)
    requires i < n
    ensures var sent, end := CallSent(p, w, safe, i), CallEnd(p, w, safe, i);
            After(counts, RunFrom(p, w, safe, i, n)) ==
              if end != Succeeded then Run(counts + [sent], |counts|, end)
              else if w.callbackFails(i) then Run(counts + [sent], |counts| + 1, CallbackFailed)
              else After(counts + [sent], RunFrom(p, w, safe, i + 1, n))
  {
    var sent, rest := CallSent(p, w, safe, i), RunFrom(p, w, safe, i + 1, n);
    assert counts + ([sent] + rest.counts) == counts + [sent] + rest.counts;
  }

  /** What was sent, merged and returned is what a run over the chunks says. */
  ghost predicate Ran(p: Policy, w: World, safe: bool, chunks: seq<seq<Event>>, tenant: string, key: string,
                      sent: seq<Request>, merged: IngestResult, end: End)
  {
    var run := RunFrom(p, w, safe, 0, |chunks|);
    && end == run.end
    && merged == Merged(w.replies, run.confirmed)
    && |run.counts| <= |chunks|
    && sent == Spread(chunks, run.counts, tenant, key)
  }

  /** Some chunks sent and confirmed, the others still to come. */
  ghost predicate Sending(p: Policy, w: World, safe: bool, chunks: seq<seq<Event>>, tenant: string, key: string,
                          sent: seq<Request>, merged: IngestResult, counts: seq<nat>)
  {
    && |counts| <= |chunks|
    && RunFrom(p, w, safe, 0, |chunks|) == After(counts, RunFrom(p, w, safe, |counts|, |chunks|))
    && merged == Merged(w.replies, |counts|)
    && sent == Spread(chunks, counts, tenant, key)
  }

  lemma Advance(p: Policy, w: World, safe: bool, chunks: seq<seq<Event>>, tenant: string, key: string,
                sent: seq<Request>, merged: IngestResult, counts: seq<nat>, requests: seq<Request>)
    requires Sending(p, w, safe, chunks, tenant, key, sent, merged, counts) && |counts| < |chunks|
    requires requests == Repeat(Request(Fill(chunks[|counts|], tenant), key), CallSent(p, w, safe, |counts|))
    ensures var i := |counts|;
            var end, all, next := CallEnd(p, w, safe, i), sent + requests, Merge(merged, w.replies(i));
            if end != Succeeded then Ran(p, w, safe, chunks, tenant, key, all, merged, end)
            else if w.callbackFails(i) then Ran(p, w, safe, chunks, tenant, key, all, next, CallbackFailed)
            else Sending(p, w, safe, chunks, tenant, key, all, next, counts + [CallSent(p, w, safe, i)])
  {
    RunStep(p, w, safe, |counts|, |chunks|, counts);
    SpreadStep(chunks, counts, CallSent(p, w, safe, |counts|), tenant, key);
  }

  lemma Finish(p: Policy, w: World, safe: bool, chunks: seq<seq<Event>>, tenant: string, key: string,
               sent: seq<Request>, merged: IngestResult, counts: seq<nat>)
    requires Sending(p, w, safe, chunks, tenant, key, sent, merged, counts) && |counts| == |chunks|
    ensures Ran(p, w, safe, chunks, tenant, key, sent, merged, Succeeded)
  {
    assert counts + [] == counts;
  }

  method SendChunks(p: Policy, w: World, safe: bool, events: seq<Event>, size: nat, tenant: string, key: string)
    returns (sent: seq<Request>, merged: IngestResult, end: End)
    requires size > 0
    ensures Ran(p, w, safe, Chunks(events, size), tenant, key, sent, merged, end)
  {
    ghost var chunks, counts, left := Chunks(events, size), [], Chunks(events, size);
    sent, merged, end := [], NOTHING, Succeeded;
    var start, i := 0, 0;
    assert events[0..] == events;
    ChunksRemain(events, size, 0);
    while start < |events|
      invariant 0 <= start && i == |counts| && end == Succeeded
      invariant Sending(p, w, safe, chunks, tenant, key, sent, merged, counts)
      invariant Remaining(events, size, start, left) && IsTail(chunks, i, left)
    {
      var stop := if start + size > |events| then |events| else start + size;
      NextChunk(events, chunks, left, start, size, i);
      left := left[1..];
      var requests;
      requests, end := SendChunk(p, w, safe, i, events[start..stop], tenant, key);
      Advance(p, w, safe, chunks, tenant, key, sent, merged, counts, requests);
      sent := sent + requests;
      if end != Succeeded { return; }
      merged := Merge(merged, w.replies(i));
      if w.callbackFails(i) { return sent, merged, CallbackFailed; }
      counts := counts + [CallSent(p, w, safe, i)];
      i, start := i + 1, start + size;
    }
    assert |left| == 0;
    Finish(p, w, safe, chunks, tenant, key, sent, merged, counts);
  }

  method IngestEvents(p: Policy, events: seq<Event>, batchSize: int, tenant: string, key: string, noRetry: bool,
                      w: World)
    returns (sent: seq<Request>, total: Option<IngestResult>, end: End)
    ensures batchSize > MAX_BATCH ==> sent == [] && total == None && end == Rejected
    ensures batchSize <= MAX_BATCH ==>
              && total.Some?
              && Ran(p, w, RetrySafe("POST", key, noRetry), Chunks(events, SizeOf(batchSize)), tenant, key,
                     sent, total.value, end)
  {
    if batchSize > MAX_BATCH { return [], None, Rejected; }
    var merged;
    sent, merged, end := SendChunks(p, w, RetrySafe("POST", key, noRetry), events, SizeOf(batchSize), tenant, key);
    total := Some(merged);
  }

  function SizeOf(batchSize: int): (size: nat)
    ensures size > 0
    ensures batchSize <= MAX_BATCH ==> size <= MAX_BATCH
  {
    if batchSize <= 0 then MAX_BATCH else batchSize
  }

  /** The chunks still to come are cut from the events one after the other, from a position on. */
  ghost predicate Remaining(events: seq<Event>, size: nat, start: nat, left: seq<seq<Event>>)
    requires size > 0
    decreases |events| - start
  {
    if start >= |events| then left == []
    else
      && left != []
      && left[0] == events[start..if start + size > |events| then |events| else start + size]
      && Remaining(events, size, start + size, left[1..])
  }

  lemma {:induction false} ChunksRemain(events: seq<Event>, size: nat, start: nat)
    requires size > 0 && start <= |events|
    ensures Remaining(events, size, start, Chunks(events[start..], size))
    decreases |events| - start
  {
    var rest := events[start..];
    if |rest| > size {
      assert rest[size..] == events[start + size..];
      assert rest[..size] == events[start..start + size];
      ChunksRemain(events, size, start + size);
      assert Chunks(rest, size)[1..] == Chunks(events[start + size..], size);
    } else if rest != [] {
      assert rest == events[start..|events|];
      assert [rest][1..] == [];
    }
  }

  ghost predicate IsTail(chunks: seq<seq<Event>>, i: nat, left: seq<seq<Event>>) {
    |chunks| == i + |left| && forall k {:trigger left[k]} :: 0 <= k < |left| ==> left[k] == chunks[i + k]
  }

  lemma NextChunk(events: seq<Event>, chunks: seq<seq<Event>>, left: seq<seq<Event>>, start: nat, size: nat, i: nat)
    requires start < |events| && size > 0
    requires Remaining(events, size, start, left) && IsTail(chunks, i, left)
    ensures var stop := if start + size > |events| then |events| else start + size;
            && i < |chunks|
            && chunks[i] == events[start..stop]
            && left != []
            && Remaining(events, size, start + size, left[1..])
            && IsTail(chunks, i + 1, left[1..])
  {
    assert left[0] == chunks[i];
    forall k | 0 <= k < |left[1..]| ensures left[1..][k] == chunks[i + 1 + k] {
      assert left[k + 1] == chunks[i + (k + 1)];
    }
  }

  lemma {:induction false} SpreadStep(chunks: seq<seq<Event>>, counts: seq<nat>, n: nat, tenant: string, key: string)
    requires |counts| < |chunks|
    ensures Spread(chunks, counts + [n], tenant, key)
            == Spread(chunks, counts, tenant, key) + Repeat(Request(Fill(chunks[|counts|], tenant), key), n)
    decreases |counts|
  {
    if counts == [] {
      assert Spread(chunks[1..], [], tenant, key) == [];
    } else {
      SpreadStep(chunks[1..], counts[1..], n, tenant, key);
      assert (counts + [n])[1..] == counts[1..] + [n];
    }
  }

  // ------------------------------------------------------- what a run promises

  function FillAll(chunks: seq<seq<Event>>, tenant: string): seq<seq<Event>> {
    seq(|chunks|, i requires 0 <= i < |chunks| => Fill(chunks[i], tenant))
  }

  lemma FlattenFront(first: seq<Event>, rest: seq<seq<Event>>)
    ensures Flatten([first] + rest) == first + Flatten(rest)
  {
    assert ([first] + rest)[1..] == rest;
  }

  /** Cutting loses nothing, reorders nothing, and every chunk has between one and `size` events. */
  lemma {:induction false} ChunksSpec(events: seq<Event>, size: nat)
    requires size > 0
    ensures Flatten(Chunks(events, size)) == events
    ensures forall i :: 0 <= i < |Chunks(events, size)| ==> 1 <= |Chunks(events, size)[i]| <= size
    decreases |events|
  {
    if |events| > size {
      var rest := Chunks(events[size..], size);
      ChunksSpec(events[size..], size);
      FlattenFront(events[..size], rest);
      assert events[..size] + events[size..] == events;
    } else if events != [] {
      assert [events][1..] == [];
      assert Flatten([]) == [];
    }
  }

  lemma {:induction false} FlattenFill(chunks: seq<seq<Event>>, tenant: string)
    ensures Flatten(FillAll(chunks, tenant)) == Fill(Flatten(chunks), tenant)
  {
    if chunks != [] {
      assert FillAll(chunks, tenant)[1..] == FillAll(chunks[1..], tenant);
      FlattenFill(chunks[1..], tenant);
    }
  }

  lemma {:induction false} FlattenTake(chunks: seq<seq<Event>>, n: nat)
    requires n <= |chunks|
    ensures Flatten(chunks[..n]) <= Flatten(chunks)
  {
    if n > 0 {
      assert chunks[..n][1..] == chunks[1..][..n - 1];
      FlattenTake(chunks[1..], n - 1);
    }
  }

  /**
   * The chunks attempted are consecutive, of at most `size` events, and concatenate to a prefix of the
   * filled input; they are all of it when the ingestion succeeds; the reply merges the confirmed ones,
   * which are the attempted ones but for the last, also after an error.
   */
  lemma AttemptedArePrefix(p: Policy, w: World, safe: bool, events: seq<Event>, size: nat, tenant: string)
    requires size > 0
    ensures var chunks := Chunks(events, size);
            var run := RunFrom(p, w, safe, 0, |chunks|);
            && |run.counts| <= |chunks|
            && Flatten(FillAll(chunks, tenant)[..|run.counts|]) <= Fill(events, tenant)
            && Flatten(FillAll(chunks, tenant)) == Fill(events, tenant)
            && (forall i :: 0 <= i < |chunks| ==> 1 <= |chunks[i]| <= size)
            && run.confirmed <= |run.counts| <= run.confirmed + 1
            && (run.end == Succeeded ==> run.confirmed == |chunks|)
            && (forall j :: 0 <= j < run.confirmed ==> CallEnd(p, w, safe, j) == Succeeded)
  {
    var chunks := Chunks(events, size);
    RunBounds(p, w, safe, 0, |chunks|);
    ChunksSpec(events, size);
    FlattenFill(chunks, tenant);
    FlattenTake(FillAll(chunks, tenant), |RunFrom(p, w, safe, 0, |chunks|).counts|);
  }

  function Bodies(sent: seq<Request>): seq<seq<Event>> {
    seq(|sent|, i requires 0 <= i < |sent| => sent[i].body)
  }

  // ------------------------------------------------------ one key, many chunks

  /** Two different bodies travel under one idempotency key: a server that deduplicates drops the second. */
  ghost predicate KeyReused(sent: seq<Request>) {
    exists x, y :: x in sent && y in sent && x.key == y.key != "" && x.body != y.body
  }

  ghost predicate SentFrom(chunks: seq<seq<Event>>, counts: seq<nat>, tenant: string, key: string, x: Request) {
    exists b :: 0 <= b < |counts| <= |chunks| && counts[b] >= 1 && x == Request(Fill(chunks[b], tenant), key)
  }

  /** What is on the wire comes from the chunks sent at least once, and from each of them. */
  lemma {:induction false} SpreadHas(chunks: seq<seq<Event>>, counts: seq<nat>, tenant: string, key: string, x: Request)
    requires |counts| <= |chunks|
    ensures x in Spread(chunks, counts, tenant, key) <==> SentFrom(chunks, counts, tenant, key, x)
    decreases |counts|
  {
    if counts != [] {
      var first, rest := Request(Fill(chunks[0], tenant), key), Spread(chunks[1..], counts[1..], tenant, key);
      SpreadHas(chunks[1..], counts[1..], tenant, key, x);
      InRepeat(first, counts[0], x);
      assert x in Spread(chunks, counts, tenant, key) <==> x in Repeat(first, counts[0]) || x in rest;
      if SentFrom(chunks[1..], counts[1..], tenant, key, x) {
        var b :| 0 <= b < |counts[1..]| && counts[1..][b] >= 1 && x == Request(Fill(chunks[1..][b], tenant), key);
        assert counts[b + 1] >= 1 && x == Request(Fill(chunks[b + 1], tenant), key);
      }
      if SentFrom(chunks, counts, tenant, key, x) && !(counts[0] >= 1 && x == first) {
        var b :| 0 <= b < |counts| && counts[b] >= 1 && x == Request(Fill(chunks[b], tenant), key);
        assert counts[1..][b - 1] >= 1 && x == Request(Fill(chunks[1..][b - 1], tenant), key);
      }
    }
  }

  lemma InRepeat(r: Request, n: nat, x: Request)
    ensures x in Repeat(r, n) <==> n >= 1 && x == r
  {
    if n >= 1 { assert Repeat(r, n)[0] == r; }
  }

  /** A chunk is attempted exactly when every call before it succeeded and no callback failed. */
  lemma {:induction false} AttemptedIff(p: Policy, w: World, safe: bool, i: nat, n: nat, b: nat)
    requires i <= b < n
    ensures var counts := RunFrom(p, w, safe, i, n).counts;
            && (b - i < |counts| <==> Cleared(p, w, safe, i, b))
            && (b - i < |counts| ==> counts[b - i] == CallSent(p, w, safe, b))
    decreases n - i
  {
    if i < b && CallEnd(p, w, safe, i) == Succeeded && !w.callbackFails(i) {
      AttemptedIff(p, w, safe, i + 1, n, b);
    }
  }

  ghost predicate Cleared(p: Policy, w: World, safe: bool, i: nat, b: nat) {
    forall j :: i <= j < b ==> CallEnd(p, w, safe, j) == Succeeded && !w.callbackFails(j)
  }

  /** A later chunk with another body goes out: everything before it went well, and its call sends something. */
  ghost predicate Reaches(p: Policy, w: World, safe: bool, chunks: seq<seq<Event>>, tenant: string, b: nat) {
    && 1 <= b < |chunks|
    && Cleared(p, w, safe, 0, b) && CallSent(p, w, safe, b) >= 1
    && Fill(chunks[b], tenant) != Fill(chunks[0], tenant)
  }

  lemma ReuseReaches(p: Policy, w: World, safe: bool, chunks: seq<seq<Event>>, counts: seq<nat>, tenant: string,
                     key: string, x: Request)
    requires counts == RunFrom(p, w, safe, 0, |chunks|).counts && |counts| <= |chunks| && chunks != []
    requires x in Spread(chunks, counts, tenant, key) && x.body != Fill(chunks[0], tenant)
    ensures exists b :: Reaches(p, w, safe, chunks, tenant, b)
  {
    SpreadHas(chunks, counts, tenant, key, x);
    var b :| 0 <= b < |counts| && counts[b] >= 1 && x == Request(Fill(chunks[b], tenant), key);
    AttemptedIff(p, w, safe, 0, |chunks|, b);
    assert Reaches(p, w, safe, chunks, tenant, b);
  }

  lemma ReachesReuse(p: Policy, w: World, safe: bool, chunks: seq<seq<Event>>, counts: seq<nat>, tenant: string,
                     key: string, b: nat)
    requires counts == RunFrom(p, w, safe, 0, |chunks|).counts && |counts| <= |chunks|
    requires key != "" && Reaches(p, w, safe, chunks, tenant, b)
    ensures KeyReused(Spread(chunks, counts, tenant, key))
  {
    AttemptedIff(p, w, safe, 0, |chunks|, b);
    AttemptedIff(p, w, safe, 0, |chunks|, 0);
    assert CallEnd(p, w, safe, 0) == Succeeded;
    ReusedBy(chunks, counts, tenant, key, b);
  }

  lemma {:induction false} EveryKey(chunks: seq<seq<Event>>, counts: seq<nat>, tenant: string, key: string, x: Request)
    requires |counts| <= |chunks| && x in Spread(chunks, counts, tenant, key)
    ensures x.key == key && chunks != []
  {
    SpreadHas(chunks, counts, tenant, key, x);
  }

  /**
   * A key is reused for different bodies exactly when there is one and a later chunk with another body
   * goes out: every chunk before it was confirmed, and no callback stopped the ingestion.
   */
  lemma KeyReusedIff(p: Policy, w: World, safe: bool, chunks: seq<seq<Event>>, tenant: string, key: string)
    ensures var counts := RunFrom(p, w, safe, 0, |chunks|).counts;
            && |counts| <= |chunks|
            && (KeyReused(Spread(chunks, counts, tenant, key)) <==>
                key != "" && exists b :: Reaches(p, w, safe, chunks, tenant, b))
  {
    var counts := RunFrom(p, w, safe, 0, |chunks|).counts;
    RunBounds(p, w, safe, 0, |chunks|);
    var sent := Spread(chunks, counts, tenant, key);
    if x, y :| x in sent && y in sent && x.key == y.key != "" && x.body != y.body {
      EveryKey(chunks, counts, tenant, key, x);
      var z := if x.body != Fill(chunks[0], tenant) then x else y;
      ReuseReaches(p, w, safe, chunks, counts, tenant, key, z);
    }
    if b :| key != "" && Reaches(p, w, safe, chunks, tenant, b) {
      ReachesReuse(p, w, safe, chunks, counts, tenant, key, b);
    }
  }

  lemma ReusedBy(chunks: seq<seq<Event>>, counts: seq<nat>, tenant: string, key: string, b: nat)
    requires 1 <= b < |counts| <= |chunks| && counts[0] >= 1 && counts[b] >= 1
    requires key != "" && Fill(chunks[b], tenant) != Fill(chunks[0], tenant)
    ensures KeyReused(Spread(chunks, counts, tenant, key))
  {
    var x, y := Request(Fill(chunks[0], tenant), key), Request(Fill(chunks[b], tenant), key);
    assert SentFrom(chunks, counts, tenant, key, x) && SentFrom(chunks, counts, tenant, key, y);
    SpreadHas(chunks, counts, tenant, key, x);
    SpreadHas(chunks, counts, tenant, key, y);
  }

  /** A chunk after the first starts with an event from beyond the first chunk. */
  lemma {:induction false} LaterChunk(events: seq<Event>, size: nat, b: nat) returns (k: nat)
    requires size > 0 && 1 <= b < |Chunks(events, size)|
    ensures size <= k < |events| && Chunks(events, size)[b] != [] && Chunks(events, size)[b][0] == events[k]
    decreases |events|
  {
    var rest := events[size..];
    assert Chunks(events, size)[b] == Chunks(rest, size)[b - 1];
    if b == 1 {
      k := size;
    } else {
      k := LaterChunk(rest, size, b - 1);
      k := k + size;
    }
  }

  lemma TwoChunks(events: seq<Event>, size: nat)
    requires size > 0
    ensures |Chunks(events, size)| >= 2 <==> |events| > size
    ensures |events| > size ==> Chunks(events, size)[0] == events[..size]
  {
    if |events| > size { assert events[size..] != []; }
  }

  ghost predicate AllDifferent(events: seq<Event>) {
    forall i, j :: 0 <= i < j < |events| ==> events[i].body != events[j].body
  }

  lemma ChunksDiffer(events: seq<Event>, size: nat, tenant: string, b: nat)
    requires size > 0 && AllDifferent(events) && 1 <= b < |Chunks(events, size)|
    ensures Fill(Chunks(events, size)[b], tenant) != Fill(Chunks(events, size)[0], tenant)
  {
    var k := LaterChunk(events, size, b);
    TwoChunks(events, size);
    var chunk := Chunks(events, size)[b];
    assert Fill(chunk, tenant)[0].body == events[k].body;
    assert Fill(events[..size], tenant)[0].body == events[0].body;
  }

  /** Whether the second chunk goes out: there is one, the first was confirmed, and nobody stopped. */
  predicate SecondChunkSent(p: Policy, w: World, safe: bool, events: seq<Event>, size: nat) {
    && |events| > size
    && CallEnd(p, w, safe, 0) == Succeeded && !w.callbackFails(0)
    && CallSent(p, w, safe, 1) >= 1
  }

  /** For events that all differ: two bodies share a key exactly when there is a key and a second chunk is sent. */
  lemma KeyReusedForEvents(p: Policy, w: World, safe: bool, events: seq<Event>, size: nat, tenant: string, key: string)
    requires size > 0 && AllDifferent(events)
    ensures var chunks := Chunks(events, size);
            var counts := RunFrom(p, w, safe, 0, |chunks|).counts;
            && |counts| <= |chunks|
            && (KeyReused(Spread(chunks, counts, tenant, key)) <==>
                key != "" && SecondChunkSent(p, w, safe, events, size))
  {
    var chunks := Chunks(events, size);
    KeyReusedIff(p, w, safe, chunks, tenant, key);
    TwoChunks(events, size);
    if SecondChunkSent(p, w, safe, events, size) {
      ChunksDiffer(events, size, tenant, 1);
      assert Reaches(p, w, safe, chunks, tenant, 1);
    }
    if b :| Reaches(p, w, safe, chunks, tenant, b) {
      assert CallEnd(p, w, safe, 0) == Succeeded;
      if b > 1 { assert CallEnd(p, w, safe, 1) == Succeeded; }
    }
  }

  /** Every call answered 202 at once. */
  const FINE := World(_ => _ => Answer(false, Status(202, 0, true), false, false, None), _ => NOTHING, _ => false)

  /** And it happens: whenever all goes well and there are more events than a chunk holds. */
  lemma KeyReusedWhenAllIsWell(p: Policy, events: seq<Event>, size: nat, tenant: string, key: string)
    requires size > 0 && AllDifferent(events) && |events| > size && key != ""
    ensures var chunks := Chunks(events, size);
            var counts := RunFrom(p, FINE, true, 0, |chunks|).counts;
            |counts| <= |chunks| && KeyReused(Spread(chunks, counts, tenant, key))
  {
    KeyReusedForEvents(p, FINE, true, events, size, tenant, key);
  }

  /** A call left unconfirmed may not even have sent its chunk. */
  function Delivered(counts: seq<nat>): nat {
    if counts != [] && counts[|counts| - 1] == 0 then |counts| - 1 else |counts|
  }

  lemma {:induction false} OnceEach(chunks: seq<seq<Event>>, counts: seq<nat>, tenant: string, key: string)
    requires |counts| <= |chunks|
    requires forall j :: 0 <= j < |counts| ==> counts[j] <= 1 && (j < |counts| - 1 ==> counts[j] == 1)
    ensures Bodies(Spread(chunks, counts, tenant, key)) == FillAll(chunks, tenant)[..Delivered(counts)]
    decreases |counts|
  {
    if counts != [] {
      OnceEach(chunks[1..], counts[1..], tenant, key);
      var rest, first := Spread(chunks[1..], counts[1..], tenant, key), Request(Fill(chunks[0], tenant), key);
      if counts[0] == 1 {
        assert Repeat(first, 1) + rest == [first] + rest;
        assert FillAll(chunks, tenant)[1..] == FillAll(chunks[1..], tenant);
      }
    }
  }

  /** Without a key, or without retries, no event is sent twice: the bodies concatenate to a prefix of the input. */
  lemma NoKeySendsOnce(p: Policy, w: World, key: string, noRetry: bool, events: seq<Event>, size: nat, tenant: string)
    requires size > 0 && (key == "" || noRetry)
    ensures var chunks := Chunks(events, size);
            var run := RunFrom(p, w, RetrySafe("POST", key, noRetry), 0, |chunks|);
            && |run.counts| <= |chunks|
            && Flatten(Bodies(Spread(chunks, run.counts, tenant, key))) <= Fill(events, tenant)
            && run.confirmed <= |Bodies(Spread(chunks, run.counts, tenant, key))| <= run.confirmed + 1
  {
    PostIsNotIdempotent();
    var chunks := Chunks(events, size);
    var counts := RunFrom(p, w, false, 0, |chunks|).counts;
    RunBounds(p, w, false, 0, |chunks|);
    OnceEach(chunks, counts, tenant, key);
    ChunksSpec(events, size);
    FlattenFill(chunks, tenant);
    FlattenTake(FillAll(chunks, tenant), Delivered(counts));
  }
}
