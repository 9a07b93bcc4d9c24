/** The log ingester's client: one batch, sent again under the server's back-pressure. */
module BatchClient {
  import opened Basics

  /** Delays in seconds. The constructor raises the number of attempts to one. */
  datatype RawSettings = Settings(maxAttempts: nat, base: real, cap: real)

  type Settings = s: RawSettings | s.maxAttempts >= 1 && s.base >= 0.0 witness Settings(1, 0.0, 0.0)

  datatype Reply = NoReply | Status(code: int, retryAfter: Option<real>, accepted: nat, rejected: nat)

  /** One attempt: the reply, and whether a stop is requested during the wait that follows. */
  datatype Answer = Answer(reply: Reply, stopped: bool)

  datatype Outcome =
    Accepted(accepted: nat) | Rejected(accepted: nat, rejected: nat)
    | Auth | Transport | Exhausted | Unexpected | Interrupted | TooLarge

  const MAX_BATCH := 500

  predicate Transient(r: Reply) {
    r.NoReply? || r.code == 429 || 500 <= r.code < 600
  }

  predicate Again(a: Answer) {
    Transient(a.reply) && !a.stopped
  }

  function Min(a: real, b: real): real {
    if a < b then a else b
  }

  /** The delay variable at an attempt counted from zero: doubled each time, up to the cap. */
  function DelayAt(s: Settings, k: nat): real {
    if k == 0 then s.base else Min(DelayAt(s, k - 1) * 2.0, s.cap)
  }

  /** The delay doubled at each attempt, with no cap. */
  function Doubled(base: real, k: nat): real {
    if k == 0 then base else 2.0 * Doubled(base, k - 1)
  }

  function Wait(s: Settings, k: nat, r: Reply): real {
    match r
    case NoReply => Min(DelayAt(s, k), s.cap)
    case Status(code, retryAfter, _, _) =>
      var wanted := if retryAfter.Some? then retryAfter.value else if code == 429 then 1.0 else DelayAt(s, k);
      var bounded := Min(wanted, s.cap);
      if bounded < 0.0 then 0.0 else bounded
  }

  /** How a batch ends on its last attempt. */
  function OutcomeOf(a: Answer, exhausted: bool): Outcome {
    match a.reply
    case NoReply => if exhausted then Transport else Interrupted
    case Status(code, _, accepted, rejected) =>
      if code == 200 || code == 202 then if rejected == 0 then Accepted(accepted) else Rejected(accepted, rejected)
      else if Transient(a.reply) then if exhausted then Exhausted else Interrupted
      else if code == 401 || code == 403 then Auth
      else if code == 400 || code == 409 || code == 422 then Rejected(0, 0)
      else Unexpected
  }

  /** Which replies are worth another attempt: none at all, 429, and any server error. */
  lemma TransientIff(r: Reply)
    ensures Transient(r) <==> r.NoReply? || r.code == 429 || r.code / 100 == 5
  {
  }

  /** What the caller is told, by the status that decided. */
  lemma OutcomeIs(a: Answer, exhausted: bool)
    requires a.reply.Status?
    ensures var code, outcome := a.reply.code, OutcomeOf(a, exhausted);
            && (outcome == Auth <==> code in {401, 403})
            && (outcome.Accepted? <==> code in {200, 202} && a.reply.rejected == 0)
            && (outcome.Rejected? <==> code in {400, 409, 422} || (code in {200, 202} && a.reply.rejected > 0))
            && (outcome in {Exhausted, Interrupted} <==> Transient(a.reply))
            && (outcome == Exhausted ==> exhausted) && (outcome == Interrupted ==> !exhausted)
            && (code in {200, 202} ==> outcome.accepted == a.reply.accepted)
            && (outcome.Rejected? ==> outcome.rejected == if code in {200, 202} then a.reply.rejected else 0)
  {
  }

  /** The last attempt, counted from zero. */
  ghost predicate IsLast(env: nat -> Answer, s: Settings, last: nat) {
    && last < s.maxAttempts
    && (forall j :: 0 <= j < last ==> Again(env(j)))
    && (last + 1 < s.maxAttempts ==> !Again(env(last)))
  }

  lemma LastUnique(env: nat -> Answer, s: Settings, a: nat, b: nat)
    requires IsLast(env, s, a) && IsLast(env, s, b)
    ensures a == b
  {
    assert a < b ==> Again(env(a));
    assert b < a ==> Again(env(b));
  }

  method PostBatch(s: Settings, size: nat, env: nat -> Answer)
    returns (outcome: Outcome, requests: nat, waits: seq<real>)
    ensures size == 0 ==> outcome == Accepted(0) && requests == 0
    ensures size > MAX_BATCH ==> outcome == TooLarge && requests == 0
    ensures 0 < size <= MAX_BATCH ==>
              && 1 <= requests <= s.maxAttempts
              && IsLast(env, s, requests - 1)
              && outcome == OutcomeOf(env(requests - 1), requests == s.maxAttempts)
              && requests - 1 <= |waits| <= requests
              && (|waits| == requests ==> outcome == Interrupted)
              && forall j :: 0 <= j < |waits| ==> waits[j] == Wait(s, j, env(j).reply)
  {
    waits, requests := [], 0;
    if size == 0 { return Accepted(0), 0, waits; }
    if size > MAX_BATCH { return TooLarge, 0, waits; }
    var delay := s.base;
    while true
      invariant requests < s.maxAttempts && delay == DelayAt(s, requests) && |waits| == requests
      invariant forall j :: 0 <= j < requests ==> Again(env(j))
      invariant forall j :: 0 <= j < |waits| ==> waits[j] == Wait(s, j, env(j).reply)
      decreases s.maxAttempts - requests
    {
      var a := env(requests);
      requests := requests + 1;
      var wait: real;
      match a.reply {
        case NoReply =>
          if requests >= s.maxAttempts { return Transport, requests, waits; }
          wait := Min(delay, s.cap);
        case Status(code, retryAfter, accepted, rejected) =>
          if code == 200 || code == 202 {
            return if rejected == 0 then Accepted(accepted) else Rejected(accepted, rejected), requests, waits;
          }
          if !(code == 429 || 500 <= code < 600) {
            if code == 401 || code == 403 { return Auth, requests, waits; }
            if code == 400 || code == 409 || code == 422 { return Rejected(0, 0), requests, waits; }
            return Unexpected, requests, waits;
          }
          if requests >= s.maxAttempts { return Exhausted, requests, waits; }
          wait := if retryAfter.Some? then retryAfter.value else if code == 429 then 1.0 else delay;
          wait := Min(wait, s.cap);
          if wait < 0.0 { wait := 0.0; }
      }
      waits := waits + [wait];
      if a.stopped { return Interrupted, requests, waits; }
      delay := Min(delay * 2.0, s.cap);
    }
  }

  /** No wait is above the cap, and without advice from the server they follow the capped exponential. */
  lemma {:induction false} WaitsCapped(s: Settings, k: nat, r: Reply)
    requires Transient(r) && s.cap >= 0.0
    ensures 0.0 <= Wait(s, k, r) <= s.cap
    ensures (r.NoReply? || (r.retryAfter.None? && r.code != 429)) ==> Wait(s, k, r) == Min(Doubled(s.base, k), s.cap)
    ensures r.Status? && r.retryAfter.None? && r.code == 429 ==> Wait(s, k, r) == Min(1.0, s.cap)
    ensures r.Status? && r.retryAfter.Some? && 0.0 <= r.retryAfter.value <= s.cap ==>
              Wait(s, k, r) == r.retryAfter.value
  {
    DelayClosedForm(s, k);
  }

  lemma {:induction false} DelayClosedForm(s: Settings, k: nat)
    requires s.cap >= 0.0
    ensures DelayAt(s, k) >= 0.0
    ensures Min(DelayAt(s, k), s.cap) == Min(Doubled(s.base, k), s.cap)
  {
    if k > 0 {
      DelayClosedForm(s, k - 1);
      Doubling(DelayAt(s, k - 1), Doubled(s.base, k - 1), s.cap);
    }
  }

  lemma Doubling(d: real, x: real, cap: real)
    requires cap >= 0.0 && d >= 0.0 && Min(d, cap) == Min(x, cap)
    ensures Min(d * 2.0, cap) >= 0.0 && Min(Min(d * 2.0, cap), cap) == Min(2.0 * x, cap)
  {
  }

  /**
   * A batch is given up exactly when every reply the settings allow was transient and no stop cut a wait
   * short: one reply of another kind, or one stop before the last attempt, and the outcome is another.
   */
  lemma GivenUpIff(s: Settings, env: nat -> Answer, last: nat)
    requires IsLast(env, s, last)
    ensures OutcomeOf(env(last), last + 1 == s.maxAttempts) in {Transport, Exhausted} <==>
            forall j :: 0 <= j < s.maxAttempts ==>
              Transient(env(j).reply) && (j + 1 < s.maxAttempts ==> !env(j).stopped)
    ensures OutcomeOf(env(last), last + 1 == s.maxAttempts) == Interrupted <==>
            exists k {:trigger env(k)} :: 0 <= k < s.maxAttempts - 1 && Transient(env(k).reply) && env(k).stopped
                      && forall j :: 0 <= j < k ==> Again(env(j))
  {
    if k :| 0 <= k < s.maxAttempts - 1 && Transient(env(k).reply) && env(k).stopped
            && forall j :: 0 <= j < k ==> Again(env(j)) {
      StopIsLast(s, env, last, k);
    }
  }

  lemma StopIsLast(s: Settings, env: nat -> Answer, last: nat, k: nat)
    requires IsLast(env, s, last)
    requires k < s.maxAttempts - 1 && env(k).stopped && forall j :: 0 <= j < k ==> Again(env(j))
    ensures k == last
  {
    var a, b := env(k), env(last);
    assert k < last ==> Again(a);
    assert last < k ==> Again(b);
  }
}
