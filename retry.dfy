/** The bounded retry-with-backoff controller that `InvokeDeepseekApi`
    (jdextract/llm.go) and `FetchJobDescription` (jdextract/fetch.go) each
    implement by calling themselves with an escalated `backoff`.

    The network, the clock and the caller's context are outside the model: a
    `Server` says what the k-th request of one top-level call receives and
    whether the context ends during the k-th wait. A `Call` records what the
    controller did: its outcome, the waits it began (in milliseconds) and the
    requests it sent. */
module Retry {
  import opened Wrappers

  type byte = b: int | 0 <= b < 256
  type Bytes = seq<byte>

  const InitialBackoff: nat := 500
  const BackoffFactor: nat := 5
  const MaxBackoff: nat := 10000
  const StatusOK: int := 200
  /** HTTP 429 Too Many Requests, section 4 of RFC 6585. */
  const StatusTooManyRequests: int := 429

  /** One HTTP round trip: the client failed (`c.Do` returned an error), or a
      status arrived with the body bytes that were delivered before the body
      stream ended, together with the error that ended it (None at a clean EOF). */
  datatype Exchange =
    | Refused(err: string)
    | Answered(status: int, body: Bytes, readErr: Option<string>)

  /** The world of one top-level call, indexed by recursion depth. */
  datatype Server = Server(respond: nat -> Exchange, cancelDuring: nat -> Option<string>)

  datatype Failure =
    | Cancelled(ctxErr: string)     // the context ended during a wait
    | BadRequest(reason: string)    // the request could not be built
    | Transport(err: string)        // the client returned an error
    | RateLimited                   // "rate limited: max retries exceeded"
    | BadStatus(status: int)        // any other status than 200 and 429
    | ReadFailed(err: string)       // reading the body failed

  datatype Call<Q> = Call(outcome: Result<Bytes, Failure>, sleeps: seq<nat>, sent: seq<Q>)

  predicate Throttled(e: Exchange) {
    e.Answered? && e.status == StatusTooManyRequests
  }

  predicate IsPrefix<T(==)>(a: seq<T>, b: seq<T>) {
    |a| <= |b| && b[..|a|] == a
  }

  /** The backoff after a 429: 500 ms stands in for "no backoff yet", then times five. */
  function Escalate(b: nat): (e: nat)
    ensures e > b && e % BackoffFactor == 0
    ensures b == 0 ==> e == InitialBackoff * BackoffFactor
  {
    (if b == 0 then InitialBackoff else b) * BackoffFactor
  }

  /** Termination measure: an escalated backoff is positive and, while it is
      retried, grows towards the cap. */
  function Budget(b: nat): nat {
    if b == 0 then MaxBackoff + 1 else if b <= MaxBackoff then MaxBackoff - b else 0
  }

  /** The backoff of each successive call when every answer is a 429. */
  function Schedule(b: nat): (s: seq<nat>)
    ensures |s| >= 1 && s[0] == b
    decreases Budget(b)
  {
    if Escalate(b) > MaxBackoff then [b] else [b] + Schedule(Escalate(b))
  }

  /** The waits those calls begin: a call waits only when its backoff is not 0. */
  function Planned(b: nat): seq<nat> {
    if b == 0 then Schedule(b)[1..] else Schedule(b)
  }

  /** `io.ReadAll` of the body, through an `io.LimitReader` of `limit` bytes when
      one is given; a limited read stops before an error that lies beyond it. */
  function ReadBody(body: Bytes, readErr: Option<string>, limit: Option<nat>): (r: Result<Bytes, Failure>)
    ensures r.Failure? <==> readErr.Some? && (limit.None? || |body| < limit.value)
    ensures r.Failure? ==> r.error == ReadFailed(readErr.value)
    ensures r.Success? ==> IsPrefix(r.value, body)
    ensures r.Success? && limit.Some? ==> |r.value| <= limit.value
    ensures r.Success? && (limit.None? || |body| <= limit.value) ==> r.value == body
  {
    match limit
    case None => if readErr.Some? then Failure(ReadFailed(readErr.value)) else Success(body)
    case Some(n) =>
      if |body| < n && readErr.Some? then Failure(ReadFailed(readErr.value))
      else if |body| <= n then Success(body)
      else Success(body[..n])
  }

  /** What the record `c` of a call at depth `k` with the given `backoff`
      says about the server: it sends at most one request per step of the
      schedule and waits a prefix of the planned backoffs; every request it
      sent is the prepared one; every answer before the last is a 429; and its
      outcome is the one that the last answer decides, or the context error of
      a cancelled next wait, or the reason the request could not be built, or
      "rate limited" after the whole schedule was answered with 429s. */
  predicate Accounts<Q(==)>(c: Call<Q>, prepared: Result<Q, string>, limit: Option<nat>, backoff: nat, k: nat, server: Server) {
    && |c.sent| <= |Schedule(backoff)|
    && IsPrefix(c.sleeps, Planned(backoff))
    && |c.sleeps| <= |c.sent| + 1
    && (forall q :: q in c.sent ==> prepared == Success(q))
    && Throttles(server, k, k + |c.sent| - 1)
    && (Settled(c.outcome) ==>
          |c.sent| >= 1 && !Throttled(server.respond(k + |c.sent| - 1)) &&
          c.outcome == Settle(server.respond(k + |c.sent| - 1), limit))
    && (c.outcome.Failure? && c.outcome.error.Cancelled? ==>
          |c.sleeps| >= 1 && server.cancelDuring(k + |c.sent|) == Some(c.outcome.error.ctxErr))
    && (c.outcome.Failure? && c.outcome.error.BadRequest? ==>
          c.sent == [] && prepared == Failure(c.outcome.error.reason))
    && (c.outcome == Failure(RateLimited) ==>
          |c.sent| == |Schedule(backoff)| && Throttled(server.respond(k + |c.sent| - 1)))
  }

  /** One call of the controller at recursion depth `k` with the given `backoff`:
      wait (cancellably) unless the backoff is 0, build the request, send it, and
      on a 429 either give up, when the escalated backoff exceeds the cap, or
      call again one level deeper with the escalated backoff. */
  function Retry<Q(==)>(prepared: Result<Q, string>, limit: Option<nat>, backoff: nat, k: nat, server: Server): (c: Call<Q>)
    ensures Accounts(c, prepared, limit, backoff, k, server)
    decreases Budget(backoff)
  {
    var waited := Waited(backoff);
    WaitedPlanned(backoff);
    if backoff != 0 && server.cancelDuring(k).Some? then
      Call(Failure(Cancelled(server.cancelDuring(k).value)), waited, [])
    else
      match prepared
      case Failure(reason) => Call(Failure(BadRequest(reason)), waited, [])
      case Success(request) =>
        var e := server.respond(k);
        if !Throttled(e) then Call(Settle(e, limit), waited, [request])
        else
          var next := Escalate(backoff);
          if next > MaxBackoff then Call(Failure(RateLimited), waited, [request])
          else
            var rest := Retry(prepared, limit, next, k + 1, server);
            AccountsAfter429(rest, request, limit, backoff, k, server);
            Call(rest.outcome, waited + rest.sleeps, [request] + rest.sent)
  }

  /** A retried 429 prepends its own request and wait to the record of the
      deeper call, and the record still accounts for the server. */
  lemma AccountsAfter429<Q>(rest: Call<Q>, request: Q, limit: Option<nat>, backoff: nat, k: nat, server: Server)
    requires Escalate(backoff) <= MaxBackoff && Throttled(server.respond(k))
    requires Accounts(rest, Success(request), limit, Escalate(backoff), k + 1, server)
    ensures Accounts(Call(rest.outcome, Waited(backoff) + rest.sleeps, [request] + rest.sent),
                     Success(request), limit, backoff, k, server)
  {
    var c := Call(rest.outcome, Waited(backoff) + rest.sleeps, [request] + rest.sent);
    PlannedSplit(backoff);
    PrefixAfter(Waited(backoff), rest.sleeps, Planned(Escalate(backoff)));
    assert |c.sent| == 1 + |rest.sent|;
    assert k + |c.sent| - 1 == k + 1 + |rest.sent| - 1;
    assert forall q :: q in c.sent ==> q == request || q in rest.sent;
  }

  /** A call's own wait is where its planned waits begin. */
  lemma WaitedPlanned(b: nat)
    ensures IsPrefix(Waited(b), Planned(b))
  {
    if b != 0 {
      assert Planned(b)[..1] == [b];
    }
  }

  /** On a retried 429 the planned waits are this call's wait followed by
      those planned from the escalated backoff. */
  lemma PlannedSplit(b: nat)
    requires Escalate(b) <= MaxBackoff
    ensures |Schedule(b)| == 1 + |Schedule(Escalate(b))|
    ensures Planned(b) == Waited(b) + Planned(Escalate(b))
  {
    assert Schedule(b) == [b] + Schedule(Escalate(b));
    assert Planned(Escalate(b)) == Schedule(Escalate(b));
  }

  lemma PrefixAfter<T>(w: seq<T>, a: seq<T>, b: seq<T>)
    requires IsPrefix(a, b)
    ensures IsPrefix(w + a, w + b)
  {
    assert (w + b)[..|w + a|] == w + b[..|a|];
  }

  /** The outcomes that an answer decides, as opposed to a cancelled wait, a
      request that could not be built or an exhausted schedule. */
  predicate Settled(r: Result<Bytes, Failure>) {
    r.Success? || r.error.Transport? || r.error.BadStatus? || r.error.ReadFailed?
  }

  /** What an answer that is not a 429 decides: the client's error, the body
      read under the limit for a 200, or the status otherwise. */
  function Settle(e: Exchange, limit: Option<nat>): (r: Result<Bytes, Failure>)
    ensures r.Success? ==>
      e.Answered? && e.status == StatusOK && r == ReadBody(e.body, e.readErr, limit)
    ensures Settled(r)
    ensures r.Failure? && r.error.Transport? <==> e.Refused?
    ensures r.Failure? && r.error.Transport? ==> e == Refused(r.error.err)
    ensures r.Failure? && r.error.BadStatus? <==> e.Answered? && e.status != StatusOK
    ensures r.Failure? && r.error.BadStatus? ==> e.status == r.error.status
    ensures r.Failure? && r.error.ReadFailed? ==>
      e.Answered? && e.status == StatusOK && e.readErr == Some(r.error.err)
  {
    match e
    case Refused(err) => Failure(Transport(err))
    case Answered(status, body, readErr) =>
      if status == StatusOK then ReadBody(body, readErr, limit) else Failure(BadStatus(status))
  }

  /** No wait of the calls at depths `lo` to `hi - 1` is cancelled. */
  predicate Calm(server: Server, lo: nat, hi: nat)
    decreases hi - lo
  {
    lo < hi ==> server.cancelDuring(lo).None? && Calm(server, lo + 1, hi)
  }

  /** The answers at depths `lo` to `hi - 1` are all 429s. */
  predicate Throttles(server: Server, lo: nat, hi: int)
    decreases hi - lo
  {
    lo < hi ==> Throttled(server.respond(lo)) && Throttles(server, lo + 1, hi)
  }

  lemma {:induction false} CalmFromAll(server: Server, lo: nat, hi: nat)
    requires forall i :: lo <= i < hi ==> server.cancelDuring(i).None?
    ensures Calm(server, lo, hi)
    decreases hi - lo
  {
    if lo < hi {
      CalmFromAll(server, lo + 1, hi);
    }
  }

  lemma {:induction false} ThrottlesFromAll(server: Server, lo: nat, hi: int)
    requires forall i :: lo <= i < hi ==> Throttled(server.respond(i))
    ensures Throttles(server, lo, hi)
    decreases hi - lo
  {
    if lo < hi {
      ThrottlesFromAll(server, lo + 1, hi);
    }
  }

  lemma {:induction false} ThrottlesAll(server: Server, lo: nat, hi: int)
    requires Throttles(server, lo, hi)
    ensures forall i :: lo <= i < hi ==> Throttled(server.respond(i))
    decreases hi - lo
  {
    if lo < hi {
      ThrottlesAll(server, lo + 1, hi);
    }
  }

  /** The wait a call begins with: none when its backoff is 0. */
  function Waited(b: nat): seq<nat> {
    if b != 0 then [b] else []
  }

  /** One step of the controller on a 429 that is retried. */
  lemma RetryOn429<Q>(request: Q, limit: Option<nat>, b: nat, k: nat, server: Server)
    requires server.cancelDuring(k).None? && Throttled(server.respond(k))
    requires Escalate(b) <= MaxBackoff
    ensures var rest := Retry(Success(request), limit, Escalate(b), k + 1, server);
      Retry(Success(request), limit, b, k, server) ==
        Call(rest.outcome, Waited(b) + rest.sleeps, [request] + rest.sent)
  {
  }

  /** The last step of the controller, on an answer that is not a 429. */
  lemma RetryOnLast<Q>(request: Q, limit: Option<nat>, b: nat, k: nat, server: Server)
    requires server.cancelDuring(k).None? && !Throttled(server.respond(k))
    ensures Retry(Success(request), limit, b, k, server) ==
      Call(Settle(server.respond(k), limit), Waited(b), [request])
  {
  }

  /** The planned waits of a retried 429: this call's wait, then the waits
      planned from the escalated backoff. */
  lemma PlannedStep(b: nat, m: nat)
    requires 1 <= m < |Schedule(b)|
    ensures Escalate(b) <= MaxBackoff && m - 1 < |Schedule(Escalate(b))|
    ensures Planned(b)[..if b == 0 then m else m + 1] == Waited(b) + Planned(Escalate(b))[..m]
  {
    var next := Escalate(b);
    assert Schedule(b) == [b] + Schedule(next);
    assert Planned(next) == Schedule(next);
    if b != 0 {
      assert Planned(b)[..m + 1] == [b] + Schedule(next)[..m];
    }
  }

  /** The outcome in closed form: when no wait is cancelled, the first `m`
      answers are 429s, `m` is within the schedule and answer `m` is not a
      429, the call sends `m + 1` requests, waits the first planned backoffs
      and settles on answer `m`. */
  lemma {:induction false} RetrySettles<Q>(request: Q, limit: Option<nat>, b: nat, k: nat, server: Server, m: nat)
    requires m < |Schedule(b)|
    requires Calm(server, k, k + m + 1) && Throttles(server, k, k + m)
    requires !Throttled(server.respond(k + m))
    ensures var c := Retry(Success(request), limit, b, k, server);
      |c.sent| == m + 1 && c.outcome == Settle(server.respond(k + m), limit) &&
      c.sleeps == Planned(b)[..if b == 0 then m else m + 1]
    decreases m
  {
    assert server.cancelDuring(k).None?;
    if m == 0 {
      assert Planned(b)[..if b == 0 then 0 else 1] == Waited(b) by {
        if b != 0 {
          assert Planned(b)[0] == b;
        }
      }
      RetryOnLast(request, limit, b, k, server);
    } else {
      var k1, m1 := k + 1, m - 1;
      assert k1 + m1 == k + m && Throttled(server.respond(k));
      PlannedStep(b, m);
      RetrySettles(request, limit, Escalate(b), k1, server, m1);
      SettlesAfter429(request, limit, b, k, server, m);
    }
  }

  /** The inductive step of `RetrySettles`: a retried 429 prepends its own
      request and wait to those of the deeper call. */
  lemma SettlesAfter429<Q>(request: Q, limit: Option<nat>, b: nat, k: nat, server: Server, m: nat)
    requires 1 <= m < |Schedule(b)|
    requires server.cancelDuring(k).None? && Throttled(server.respond(k))
    requires var rest := Retry(Success(request), limit, Escalate(b), k + 1, server);
      |rest.sent| == m && rest.outcome == Settle(server.respond(k + m), limit) &&
      rest.sleeps == Planned(Escalate(b))[..m]
    ensures var c := Retry(Success(request), limit, b, k, server);
      |c.sent| == m + 1 && c.outcome == Settle(server.respond(k + m), limit) &&
      c.sleeps == Planned(b)[..if b == 0 then m else m + 1]
  {
    PlannedStep(b, m);
    RetryOn429(request, limit, b, k, server);
  }

  /** When every answer of the schedule is a 429 and no wait is cancelled,
      the call gives up as rate limited after waiting every planned backoff. */
  lemma {:induction false} RetryExhausted<Q>(request: Q, limit: Option<nat>, b: nat, k: nat, server: Server)
    requires Calm(server, k, k + |Schedule(b)|) && Throttles(server, k, k + |Schedule(b)|)
    ensures var c := Retry(Success(request), limit, b, k, server);
      c.outcome == Failure(RateLimited) && |c.sent| == |Schedule(b)| && c.sleeps == Planned(b)
    decreases Budget(b)
  {
    assert server.cancelDuring(k).None? && Throttled(server.respond(k));
    if Escalate(b) <= MaxBackoff {
      PlannedSplit(b);
      RetryExhausted(request, limit, Escalate(b), k + 1, server);
      ExhaustedAfter429(request, limit, b, k, server);
    } else {
      assert |Schedule(b)| == 1 && Planned(b) == Waited(b);
    }
  }

  /** The inductive step of `RetryExhausted`. */
  lemma ExhaustedAfter429<Q>(request: Q, limit: Option<nat>, b: nat, k: nat, server: Server)
    requires Escalate(b) <= MaxBackoff
    requires server.cancelDuring(k).None? && Throttled(server.respond(k))
    requires var rest := Retry(Success(request), limit, Escalate(b), k + 1, server);
      rest.outcome == Failure(RateLimited) && |rest.sent| == |Schedule(Escalate(b))| &&
      rest.sleeps == Planned(Escalate(b))
    ensures var c := Retry(Success(request), limit, b, k, server);
      c.outcome == Failure(RateLimited) && |c.sent| == |Schedule(b)| && c.sleeps == Planned(b)
  {
    PlannedSplit(b);
    RetryOn429(request, limit, b, k, server);
  }

  /** A wait that the context ends returns the context's error before any
      request is sent. */
  lemma RetryCancelled<Q>(prepared: Result<Q, string>, limit: Option<nat>, backoff: nat, k: nat, server: Server)
    requires backoff != 0 && server.cancelDuring(k).Some?
    ensures Retry(prepared, limit, backoff, k, server) ==
      Call(Failure(Cancelled(server.cancelDuring(k).value)), [backoff], [])
  {
  }

  /** Starting from backoff 0 the whole schedule is one immediate attempt and
      one retry after 2500 ms; the next escalation, 12500 ms, exceeds the cap.
      Starting from 500 ms it is two attempts as well, after 500 and 2500 ms. */
  lemma ScheduleFromZero()
    ensures Schedule(0) == [0, 2500]
    ensures Planned(0) == [2500]
    ensures Schedule(InitialBackoff) == Planned(InitialBackoff) == [500, 2500]
  {
    assert Escalate(InitialBackoff) == 2500;
    assert Escalate(0) == 2500;
    assert Escalate(2500) == 12500;
    assert Schedule(2500) == [2500];
  }

  function Pow5(n: nat): nat {
    if n == 0 then 1 else 5 * Pow5(n - 1)
  }

  lemma {:induction false} ScheduleGraded(b: nat, n: nat)
    requires b >= 1 && b * Pow5(n) > MaxBackoff / BackoffFactor
    ensures |Schedule(b)| <= n + 1
    decreases n
  {
    if Escalate(b) <= MaxBackoff {
      assert n >= 1;
      assert b * Pow5(n) == (5 * b) * Pow5(n - 1);
      ScheduleGraded(5 * b, n - 1);
    }
  }

  /** Whatever the starting backoff, a call sends at most six requests. */
  lemma ScheduleBounded(b: nat)
    ensures |Schedule(b)| <= 6
  {
    if b == 0 {
      ScheduleFromZero();
    } else {
      assert Pow5(5) == 3125;
      ScheduleGraded(b, 5);
    }
  }

  /** The budget `GenerateAll` gets by starting at backoff 0: at most two
      requests and at most one wait, of 2500 ms. */
  lemma RetryFromZero<Q>(prepared: Result<Q, string>, limit: Option<nat>, k: nat, server: Server)
    ensures var c := Retry(prepared, limit, 0, k, server);
      |c.sent| <= 2 && (c.sleeps == [] || c.sleeps == [2500])
  {
    ScheduleFromZero();
  }

  /** From backoff 0 the call gives up as rate limited exactly when the first
      answer is a 429, the 2500 ms wait runs to the end and the second answer
      is a 429 again. */
  lemma RateLimitedFromZero<Q>(prepared: Result<Q, string>, limit: Option<nat>, k: nat, server: Server)
    ensures Retry(prepared, limit, 0, k, server).outcome == Failure(RateLimited) <==>
      prepared.Success? && Throttled(server.respond(k)) &&
      server.cancelDuring(k + 1).None? && Throttled(server.respond(k + 1))
    ensures Retry(prepared, limit, 0, k, server).outcome == Failure(RateLimited) ==>
      Retry(prepared, limit, 0, k, server).sleeps == [2500] &&
      |Retry(prepared, limit, 0, k, server).sent| == 2
  {
    ScheduleFromZero();
    var c := Retry(prepared, limit, 0, k, server);
    if prepared.Success? && Throttled(server.respond(k)) {
      assert Escalate(0) == 2500;
      var rest := Retry(prepared, limit, 2500, k + 1, server);
      assert c.outcome == rest.outcome;
      assert Escalate(2500) > MaxBackoff;
    }
  }

  /** A status other than 200 and 429 ends the call at once and is reported. */
  lemma TerminalStatus<Q>(request: Q, limit: Option<nat>, backoff: nat, k: nat, server: Server)
    requires backoff == 0 || server.cancelDuring(k).None?
    requires server.respond(k).Answered?
    requires server.respond(k).status != StatusOK && server.respond(k).status != StatusTooManyRequests
    ensures Retry(Success(request), limit, backoff, k, server) ==
      Call(Failure(BadStatus(server.respond(k).status)), if backoff != 0 then [backoff] else [], [request])
  {
  }

  /** `InvokeDeepseekApi`: the request body is opaque, the full body of a 200
      answer is returned unchanged. */
  function InvokeDeepseekApi<Q(==)>(requestBody: Q, backoff: nat, server: Server): (c: Call<Q>)
    ensures forall q :: q in c.sent ==> q == requestBody
    ensures !(c.outcome.Failure? && c.outcome.error.BadRequest?)
    ensures c.outcome.Success? ==>
      |c.sent| >= 1 && server.respond(|c.sent| - 1) == Answered(StatusOK, c.outcome.value, None)
  {
    Retry(Success(requestBody), None, backoff, 0, server)
  }

  /** Conversely, a 200 answer that reads cleanly, after `m` 429s within the
      schedule and with no wait cancelled, is returned unchanged. */
  lemma InvokeReturnsBody<Q>(requestBody: Q, backoff: nat, server: Server, m: nat, body: Bytes)
    requires m < |Schedule(backoff)|
    requires forall j :: 0 <= j <= m ==> server.cancelDuring(j).None?
    requires forall j :: 0 <= j < m ==> Throttled(server.respond(j))
    requires server.respond(m) == Answered(StatusOK, body, None)
    ensures InvokeDeepseekApi(requestBody, backoff, server).outcome == Success(body)
    ensures |InvokeDeepseekApi(requestBody, backoff, server).sent| == m + 1
  {
    CalmFromAll(server, 0, m + 1);
    ThrottlesFromAll(server, 0, m);
    RetrySettles(requestBody, None, backoff, 0, server, m);
  }

  const JinaUrl := "https://r.jina.ai/"
  const BodyLimit: nat := 100000

  /** `buildJinaUrl`: the reader prefix followed by the target, verbatim; the
      URL parser is outside the model and reports its error, if any, through
      `parseError`. */
  function BuildJinaUrl(target: string, parseError: string -> Option<string>): (r: Result<string, string>)
    ensures r.Success? <==> parseError(JinaUrl + target).None?
    ensures r.Success? ==> r.value == JinaUrl + target
  {
    var raw := JinaUrl + target;
    match parseError(raw)
    case None => Success(raw)
    case Some(err) => Failure(err)
  }

  /** `FetchJobDescription`: the same controller, building the reader URL on
      every call and reading at most 100000 bytes of a 200 answer. */
  function FetchJobDescription(target: string, backoff: nat, server: Server, parseError: string -> Option<string>): (c: Call<string>)
    ensures forall u :: u in c.sent ==> u == JinaUrl + target
    ensures c.outcome.Success? ==>
      |c.sent| >= 1 &&
      var last := server.respond(|c.sent| - 1);
      last.Answered? && last.status == StatusOK &&
      IsPrefix(c.outcome.value, last.body) && |c.outcome.value| <= BodyLimit &&
      (|last.body| <= BodyLimit ==> c.outcome.value == last.body)
    ensures c.outcome.Failure? && c.outcome.error.BadRequest? ==>
      c.sent == [] && parseError(JinaUrl + target) == Some(c.outcome.error.reason)
  {
    Retry(BuildJinaUrl(target, parseError), Some(BodyLimit), backoff, 0, server)
  }

  /** Conversely, when the URL parses, a 200 answer after `m` 429s within the
      schedule, with no wait cancelled, yields its body cut to 100000 bytes,
      unless reading fails before the limit. */
  lemma FetchReturnsCapped(target: string, backoff: nat, server: Server, parseError: string -> Option<string>,
                           m: nat, body: Bytes, readErr: Option<string>)
    requires parseError(JinaUrl + target).None?
    requires m < |Schedule(backoff)|
    requires forall j :: 0 <= j <= m ==> server.cancelDuring(j).None?
    requires forall j :: 0 <= j < m ==> Throttled(server.respond(j))
    requires server.respond(m) == Answered(StatusOK, body, readErr)
    ensures var c := FetchJobDescription(target, backoff, server, parseError);
      |c.sent| == m + 1 &&
      (readErr.None? || |body| >= BodyLimit ==>
        c.outcome == Success(if |body| <= BodyLimit then body else body[..BodyLimit])) &&
      (readErr.Some? && |body| < BodyLimit ==> c.outcome == Failure(ReadFailed(readErr.value)))
  {
    CalmFromAll(server, 0, m + 1);
    ThrottlesFromAll(server, 0, m);
    RetrySettles(JinaUrl + target, Some(BodyLimit), backoff, 0, server, m);
  }
}
