/**
 Polling for a token in the device authorization grant, section 3.5 of RFC 8628. Times are in
 seconds. The server's replies, the time each exchange takes, and how much longer than asked
 the client sleeps are inputs.
 */
module DevicePoll {
  import opened Wrappers

  const MAX_POLL_INTERVAL: nat := 60

  datatype Reply =
    | TimedOut
    | TransportError(message: string)
    | Token(parsed: Result<string, string>)
    | OAuthError(code: string)
    | Unparsable(text: string)

  datatype Outcome =
    | Success(token: string)
    | Expired
    | Denied
    | Refused(code: string)
    | Failed(message: string)

  datatype Attempt = Attempt(oversleep: nat, reply: Reply, duration: nat)

  datatype Request = Request(sentAt: nat, interval: nat)

  /** The requests sent, and the outcome unless the loop still runs when the replies are used up. */
  datatype Poll = Poll(requests: seq<Request>, outcome: Option<Outcome>)

  function Min(a: nat, b: nat): nat {
    if a < b then a else b
  }

  predicate IsRetry(reply: Reply) {
    reply.TimedOut? || (reply.OAuthError? && (reply.code == "authorization_pending" || reply.code == "slow_down"))
  }

  predicate IsSlowDown(reply: Reply) {
    reply == OAuthError("slow_down")
  }

  function NextInterval(interval: nat, reply: Reply): nat {
    if reply.TimedOut? then Min(interval * 2, MAX_POLL_INTERVAL)
    else if IsSlowDown(reply) then Min(interval + 5, MAX_POLL_INTERVAL)
    else interval
  }

  function OutcomeOf(reply: Reply): Outcome
    requires !IsRetry(reply)
  {
    match reply
    case TransportError(message) => Failed(message)
    case Token(Ok(token)) => Success(token)
    case Token(Err(e)) => Failed("failed to parse token response: " + e)
    case OAuthError(code) =>
      if code == "access_denied" then Denied
      else if code == "expired_token" then Expired
      else Refused(code)
    case Unparsable(text) => Failed("unexpected response: " + text)
  }

  function PollFrom(script: seq<Attempt>, now: nat, interval: nat, expiresAt: nat): (p: Poll)
    ensures |p.requests| <= |script|
  {
    if now >= expiresAt then Poll([], Some(Expired))
    else if script == [] then Poll([], None)
    else
      var a := script[0];
      var sentAt := now + interval + a.oversleep;
      if IsRetry(a.reply) then
        var rest := PollFrom(script[1..], sentAt + a.duration, NextInterval(interval, a.reply), expiresAt);
        Poll([Request(sentAt, interval)] + rest.requests, rest.outcome)
      else Poll([Request(sentAt, interval)], Some(OutcomeOf(a.reply)))
  }

  /** Handles one reply: either the loop goes on with a possibly longer interval, or it returns. */
  method HandleReply(reply: Reply, interval: nat) returns (next: nat, outcome: Option<Outcome>)
    ensures IsRetry(reply) ==> outcome == None && next == NextInterval(interval, reply)
    ensures !IsRetry(reply) ==> outcome == Some(OutcomeOf(reply))
  {
    next, outcome := interval, None;
    match reply {
      case TimedOut => next := Min(interval * 2, MAX_POLL_INTERVAL);
      case TransportError(message) => outcome := Some(Failed(message));
      case Token(Ok(token)) => outcome := Some(Success(token));
      case Token(Err(e)) => outcome := Some(Failed("failed to parse token response: " + e));
      case OAuthError(code) =>
        if code == "slow_down" {
          next := Min(interval + 5, MAX_POLL_INTERVAL);
        } else if code == "access_denied" {
          outcome := Some(Denied);
        } else if code == "expired_token" {
          outcome := Some(Expired);
        } else if code != "authorization_pending" {
          outcome := Some(Refused(code));
        }
      case Unparsable(text) => outcome := Some(Failed("unexpected response: " + text));
    }
  }

  lemma PollIdles(script: seq<Attempt>, now: nat, interval: nat, expiresAt: nat)
    requires now >= expiresAt || script == []
    ensures PollFrom(script, now, interval, expiresAt) == Poll([], if now >= expiresAt then Some(Expired) else None)
  {
  }

  lemma PollRetries(script: seq<Attempt>, now: nat, interval: nat, expiresAt: nat)
    requires now < expiresAt && script != [] && IsRetry(script[0].reply)
    ensures var sentAt := now + interval + script[0].oversleep;
            var next := NextInterval(interval, script[0].reply);
            var rest := PollFrom(script[1..], sentAt + script[0].duration, next, expiresAt);
            PollFrom(script, now, interval, expiresAt)
            == Poll([Request(sentAt, interval)] + rest.requests, rest.outcome)
  {
  }

  lemma PollStops(script: seq<Attempt>, now: nat, interval: nat, expiresAt: nat)
    requires now < expiresAt && script != [] && !IsRetry(script[0].reply)
    ensures PollFrom(script, now, interval, expiresAt)
         == Poll([Request(now + interval + script[0].oversleep, interval)], Some(OutcomeOf(script[0].reply)))
  {
  }

  /** The poll so far, followed by the rest. */
  function After(requests: seq<Request>, rest: Poll): Poll {
    Poll(requests + rest.requests, rest.outcome)
  }

  lemma AfterRequest(requests: seq<Request>, r: Request, rest: Poll)
    ensures After(requests, Poll([r] + rest.requests, rest.outcome)) == After(requests + [r], rest)
  {
    assert requests + ([r] + rest.requests) == (requests + [r]) + rest.requests;
  }

  method PollForToken(script: seq<Attempt>, start: nat, intervalSecs: nat, expiresAt: nat)
    returns (requests: seq<Request>, outcome: Option<Outcome>)
    ensures Poll(requests, outcome) == PollFrom(script, start, intervalSecs, expiresAt)
  {
    hide NextInterval, OutcomeOf, IsRetry, PollFrom;
    var interval: nat := intervalSecs;
    var now: nat := start;
    requests := [];
    ghost var whole := PollFrom(script, start, intervalSecs, expiresAt);
    assert [] + whole.requests == whole.requests && script[0..] == script;
    for i := 0 to |script|
      invariant whole == After(requests, PollFrom(script[i..], now, interval, expiresAt))
    {
      if now >= expiresAt {
        PollIdles(script[i..], now, interval, expiresAt);
        return requests, Some(Expired);
      }
      var a := script[i];
      ghost var left := script[i..];
      assert left[0] == a && left[1..] == script[i + 1..];
      var sentAt := now + interval + a.oversleep;
      var next;
      next, outcome := HandleReply(a.reply, interval);
      if outcome.Some? {
        PollStops(left, now, interval, expiresAt);
        return requests + [Request(sentAt, interval)], outcome;
      }
      PollRetries(left, now, interval, expiresAt);
      AfterRequest(requests, Request(sentAt, interval),
                   PollFrom(script[i + 1..], sentAt + a.duration, next, expiresAt));
      requests := requests + [Request(sentAt, interval)];
      now, interval := sentAt + a.duration, next;
    }
    PollIdles(script[|script|..], now, interval, expiresAt);
    outcome := if now >= expiresAt then Some(Expired) else None;
  }

  // ---------- Intervals ----------

  function SlowDowns(script: seq<Attempt>): nat {
    if script == [] then 0
    else SlowDowns(script[..|script| - 1]) + if IsSlowDown(script[|script| - 1].reply) then 1 else 0
  }

  lemma {:induction false} SlowDownsSplit(script: seq<Attempt>)
    requires script != []
    ensures SlowDowns(script) == (if IsSlowDown(script[0].reply) then 1 else 0) + SlowDowns(script[1..])
  {
    if |script| > 1 {
      SlowDownsSplit(script[..|script| - 1]);
      assert script[..|script| - 1][1..] == script[1..][..|script[1..]| - 1];
    }
  }

  lemma NextIntervalGrows(interval: nat, reply: Reply)
    ensures interval <= MAX_POLL_INTERVAL ==> interval <= NextInterval(interval, reply) <= MAX_POLL_INTERVAL
    ensures Min(interval, MAX_POLL_INTERVAL) <= NextInterval(interval, reply)
    ensures IsSlowDown(reply) ==> NextInterval(interval, reply) == Min(interval + 5, MAX_POLL_INTERVAL)
  {
  }

  /** For an initial interval of at most a minute: intervals never shrink, never exceed a minute, and
      have grown by at least five seconds for each `slow_down` received before. */
  lemma {:induction false} IntervalsGrow(script: seq<Attempt>, now: nat, interval: nat, expiresAt: nat, i: nat)
    requires interval <= MAX_POLL_INTERVAL && i < |PollFrom(script, now, interval, expiresAt).requests|
    ensures var rs := PollFrom(script, now, interval, expiresAt).requests;
            && Min(MAX_POLL_INTERVAL, interval + 5 * SlowDowns(script[..i])) <= rs[i].interval <= MAX_POLL_INTERVAL
            && forall j :: 0 <= j <= i ==> rs[j].interval <= rs[i].interval
  {
    hide NextInterval, IsSlowDown, OutcomeOf;
    var rs := PollFrom(script, now, interval, expiresAt).requests;
    var a := script[0];
    if i > 0 {
      var sentAt, next := now + interval + a.oversleep, NextInterval(interval, a.reply);
      NextIntervalGrows(interval, a.reply);
      IntervalsGrow(script[1..], sentAt + a.duration, next, expiresAt, i - 1);
      SlowDownsSplit(script[..i]);
      assert script[..i][1..] == script[1..][..i - 1];
      var rest := PollFrom(script[1..], sentAt + a.duration, next, expiresAt).requests;
      forall j | 0 <= j <= i
        ensures rs[j].interval <= rs[i].interval
      {
        if j == 0 {
          assert rest[0].interval == next;
        }
      }
    }
  }

  /** Each interval follows from the one before and the reply: twice as long after a timeout and five seconds longer
      after `slow_down`, but at most a minute then, and the same after `authorization_pending`. */
  ghost predicate Follows(before: nat, reply: Reply, after: nat) {
    match reply
    case TimedOut => after == Min(2 * before, 60)
    case OAuthError(code) =>
      || (code == "slow_down" && after == Min(before + 5, 60))
      || (code == "authorization_pending" && after == before)
    case _ => false
  }

  lemma {:induction false} IntervalsFollowReplies(
    script: seq<Attempt>, now: nat, interval: nat, expiresAt: nat, i: nat)
    requires i < |PollFrom(script, now, interval, expiresAt).requests|
    ensures var rs := PollFrom(script, now, interval, expiresAt).requests;
            if i == 0 then rs[0].interval == interval
            else Follows(rs[i - 1].interval, script[i - 1].reply, rs[i].interval)
  {
    hide OutcomeOf;
    if i > 0 {
      var a := script[0];
      var later := now + interval + a.oversleep + a.duration;
      IntervalsFollowReplies(script[1..], later, NextInterval(interval, a.reply), expiresAt, i - 1);
      var rest := PollFrom(script[1..], later, NextInterval(interval, a.reply), expiresAt).requests;
      var rs := PollFrom(script, now, interval, expiresAt).requests;
      assert rs == [Request(now + interval + a.oversleep, interval)] + rest;
    }
  }

  ghost predicate NeverShrinks(interval: nat) {
    forall script, now, expiresAt, j, i ::
      0 <= j <= i < |PollFrom(script, now, interval, expiresAt).requests| ==>
        PollFrom(script, now, interval, expiresAt).requests[j].interval
        <= PollFrom(script, now, interval, expiresAt).requests[i].interval
  }

  /** Intervals never shrink, whatever the server replies, exactly for initial intervals of at most a minute:
      the cap also applies to a larger one as soon as a request times out. */
  lemma NeverShrinksExactlyUpToMaximum(interval: nat)
    ensures NeverShrinks(interval) <==> interval <= MAX_POLL_INTERVAL
  {
    if interval <= MAX_POLL_INTERVAL {
      forall script, now, expiresAt, j, i | 0 <= j <= i < |PollFrom(script, now, interval, expiresAt).requests|
        ensures PollFrom(script, now, interval, expiresAt).requests[j].interval
             <= PollFrom(script, now, interval, expiresAt).requests[i].interval
      {
        IntervalsGrow(script, now, interval, expiresAt, i);
      }
    } else {
      var a := Attempt(0, TimedOut, 0);
      var p := PollFrom([a, a], 0, interval, interval + 1);
      var rest := PollFrom([a], interval, MAX_POLL_INTERVAL, interval + 1);
      assert [a, a][1..] == [a];
      assert p.requests == [Request(interval, interval)] + rest.requests;
      assert rest.requests[0].interval == MAX_POLL_INTERVAL;
      assert p.requests[0].interval > p.requests[1].interval;
    }
  }

  // ---------- Times ----------

  /** Every request is sent before the code expires, plus the interval slept and any oversleep; and each
      comes its interval, and any oversleep, after the reply to the one before. */
  lemma {:induction false} RequestsAreSpaced(script: seq<Attempt>, now: nat, interval: nat, expiresAt: nat, i: nat)
    requires i < |PollFrom(script, now, interval, expiresAt).requests|
    ensures var rs := PollFrom(script, now, interval, expiresAt).requests;
            && rs[i].sentAt < expiresAt + rs[i].interval + script[i].oversleep
            && rs[i].sentAt >= now + rs[i].interval
            && rs[i].sentAt == rs[i].interval + script[i].oversleep
                 + if i == 0 then now else rs[i - 1].sentAt + script[i - 1].duration
  {
    if i > 0 {
      var a := script[0];
      var later := now + interval + a.oversleep + a.duration;
      RequestsAreSpaced(script[1..], later, NextInterval(interval, a.reply), expiresAt, i - 1);
    }
  }

  lemma OneMore(m: nat, least: nat)
    requires m > 0
    ensures (m - 1) * least + least == m * least
  {
  }

  /** Request `i` waits for at least `i + 1` intervals, which are never below the smaller of the initial one
      and a minute. */
  lemma {:induction false} RequestsTakeTime(script: seq<Attempt>, now: nat, interval: nat, expiresAt: nat, least: nat)
    requires least <= interval && least <= MAX_POLL_INTERVAL
    ensures var n := |PollFrom(script, now, interval, expiresAt).requests|;
            n > 0 ==> now + (n - 1) * least < expiresAt
  {
    hide NextInterval, OutcomeOf, IsRetry;
    if now < expiresAt && script != [] && IsRetry(script[0].reply) {
      var a := script[0];
      NextIntervalGrows(interval, a.reply);
      var next := now + interval + a.oversleep + a.duration;
      RequestsTakeTime(script[1..], next, NextInterval(interval, a.reply), expiresAt, least);
      var m := |PollFrom(script[1..], next, NextInterval(interval, a.reply), expiresAt).requests|;
      if m > 0 {
        OneMore(m, least);
      }
    }
  }

  function CeilDiv(a: nat, b: nat): nat
    requires b > 0
  {
    (a + b - 1) / b
  }

  lemma {:induction false} FactorCancels(x: nat, y: nat, c: nat)
    requires x * c < y * c
    ensures x < y
    decreases x
  {
    if x > 0 {
      assert x * c == (x - 1) * c + c && (y > 0 ==> y * c == (y - 1) * c + c);
      FactorCancels(x - 1, y - 1, c);
    }
  }

  lemma CountFits(n: nat, span: nat, least: nat)
    requires least > 0 && n > 0 && (n - 1) * least < span
    ensures n <= CeilDiv(span, least)
  {
    var q := CeilDiv(span, least);
    assert q * least >= span;
    FactorCancels(n - 1, q, least);
  }

  lemma {:induction false} RetriesContinue(script: seq<Attempt>, now: nat, interval: nat, expiresAt: nat)
    requires PollFrom(script, now, interval, expiresAt).outcome.None?
    ensures |PollFrom(script, now, interval, expiresAt).requests| == |script|
  {
    if script != [] {
      var a := script[0];
      var later := now + interval + a.oversleep + a.duration;
      RetriesContinue(script[1..], later, NextInterval(interval, a.reply), expiresAt);
    }
  }

  /** For a positive interval the number of requests is at most the time to live divided by the interval,
      rounded up, so the loop ends no matter what the server replies. An interval above a minute counts as one. */
  lemma PollingEnds(script: seq<Attempt>, start: nat, intervalSecs: nat, expiresAt: nat)
    requires intervalSecs >= 1
    ensures var least := Min(intervalSecs, MAX_POLL_INTERVAL);
            var bound := if start < expiresAt then CeilDiv(expiresAt - start, least) else 0;
            var p := PollFrom(script, start, intervalSecs, expiresAt);
            && |p.requests| <= bound
            && (|script| > bound ==> p.outcome.Some?)
  {
    var least := Min(intervalSecs, MAX_POLL_INTERVAL);
    var p := PollFrom(script, start, intervalSecs, expiresAt);
    RequestsTakeTime(script, start, intervalSecs, expiresAt, least);
    if |p.requests| > 0 {
      CountFits(|p.requests|, expiresAt - start, least);
    }
    if p.outcome.None? {
      RetriesContinue(script, start, intervalSecs, expiresAt);
    }
  }

  function Pending(n: nat): seq<Attempt> {
    seq(n, _ => Attempt(0, OAuthError("authorization_pending"), 0))
  }

  /** With an interval of zero there is no such bound: instant `authorization_pending` replies keep the loop going. */
  lemma {:induction false} ZeroIntervalNeverEnds(n: nat, start: nat, expiresAt: nat)
    requires start < expiresAt
    ensures var p := PollFrom(Pending(n), start, 0, expiresAt);
            p.outcome.None? && |p.requests| == n
  {
    if n > 0 {
      assert Pending(n)[1..] == Pending(n - 1);
      ZeroIntervalNeverEnds(n - 1, start, expiresAt);
    }
  }

  // ---------- Outcomes ----------

  /** Only timeouts, `authorization_pending` and `slow_down` are retried; any other reply ends the loop with
      its own outcome, and otherwise the loop ends only because the code has expired. */
  lemma {:induction false} OnlyRetriesContinue(script: seq<Attempt>, now: nat, interval: nat, expiresAt: nat)
    ensures var p := PollFrom(script, now, interval, expiresAt);
            var n := |p.requests|;
            && (forall i :: 0 <= i < n - 1 ==> IsRetry(script[i].reply))
            && (n > 0 && !IsRetry(script[n - 1].reply) ==> p.outcome == Some(OutcomeOf(script[n - 1].reply)))
            && (n == 0 || IsRetry(script[n - 1].reply) ==>
                  p.outcome == Some(Expired) || (p.outcome == None && n == |script|))
  {
    if now < expiresAt && script != [] && IsRetry(script[0].reply) {
      var a := script[0];
      var later := now + interval + a.oversleep + a.duration;
      OnlyRetriesContinue(script[1..], later, NextInterval(interval, a.reply), expiresAt);
    }
  }

  /** What the last reply makes of the poll. After a retry the loop goes on unless the code has expired by then. */
  ghost predicate EndsWith(p: Poll, reply: Reply, repliedAt: nat, expiresAt: nat) {
    match reply
    case Token(Ok(token)) => p.outcome == Some(Success(token))
    case Token(Err(e)) => p.outcome == Some(Failed("failed to parse token response: " + e))
    case TransportError(message) => p.outcome == Some(Failed(message))
    case Unparsable(text) => p.outcome == Some(Failed("unexpected response: " + text))
    case TimedOut => p.outcome == if repliedAt >= expiresAt then Some(Expired) else None
    case OAuthError(code) =>
      if code == "authorization_pending" || code == "slow_down"
      then p.outcome == if repliedAt >= expiresAt then Some(Expired) else None
      else if code == "access_denied" then p.outcome == Some(Denied)
      else if code == "expired_token" then p.outcome == Some(Expired)
      else p.outcome == Some(Refused(code))
  }

  /** The outcome is what the last reply says. No request is sent only if the code has expired from the start or
      there are no more replies, and all but the last reply are retries before the expiry. */
  lemma {:induction false} PollEndsAsReplied(script: seq<Attempt>, now: nat, interval: nat, expiresAt: nat)
    ensures var p := PollFrom(script, now, interval, expiresAt);
            var n := |p.requests|;
            && (n == 0 <==> now >= expiresAt || script == [])
            && (n == 0 ==> p.outcome == if now >= expiresAt then Some(Expired) else None)
            && (n > 0 ==>
                  var repliedAt := p.requests[n - 1].sentAt + script[n - 1].duration;
                  EndsWith(p, script[n - 1].reply, repliedAt, expiresAt))
            && (n > 0 && p.outcome == None ==> n == |script|)
            && (forall i :: 0 <= i < n - 1 ==> p.requests[i].sentAt + script[i].duration < expiresAt)
  {
    hide NextInterval;
    if now < expiresAt && script != [] {
      var a := script[0];
      if IsRetry(a.reply) {
        hide OutcomeOf, EndsWith, IsRetry;
        var later := now + interval + a.oversleep + a.duration;
        PollEndsAsReplied(script[1..], later, NextInterval(interval, a.reply), expiresAt);
        var rest := PollFrom(script[1..], later, NextInterval(interval, a.reply), expiresAt);
        var p := PollFrom(script, now, interval, expiresAt);
        assert p == Poll([Request(now + interval + a.oversleep, interval)] + rest.requests, rest.outcome);
        if rest.requests == [] {
          RetryEnds(p, a.reply, later, expiresAt);
        } else {
          OutcomeDecides(p, rest, script[|p.requests| - 1].reply, expiresAt);
        }
      }
    }
  }

  lemma RetryEnds(p: Poll, reply: Reply, repliedAt: nat, expiresAt: nat)
    requires IsRetry(reply) && p.outcome == if repliedAt >= expiresAt then Some(Expired) else None
    ensures EndsWith(p, reply, repliedAt, expiresAt)
  {
  }

  lemma OutcomeDecides(p: Poll, q: Poll, reply: Reply, expiresAt: nat)
    requires p.outcome == q.outcome
    ensures forall repliedAt :: EndsWith(p, reply, repliedAt, expiresAt) == EndsWith(q, reply, repliedAt, expiresAt)
  {
  }
}
