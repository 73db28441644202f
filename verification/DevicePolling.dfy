/** Polling for the token of the device authorization flow (internal/auth/device_flow.go):
    section 3.5 of RFC 8628, with the client's own limits. */
module DevicePolling {
  const MIN_INTERVAL := 5
  const MAX_INTERVAL := 60
  const MIN_EXPIRES := 60
  const MAX_EXPIRES := 1800
  const MAX_POLL_COUNT: nat := 720
  const SLOW_DOWN_BUMP := 5
  const MAX_SLOW_DOWNS: nat := 8

  datatype Reply =
    | Token | BadToken | TransportError
    | AuthorizationPending | SlowDown
    | ExpiredToken | InvalidGrant | UnauthorizedClient | Other

  datatype Outcome =
    | GotToken | DecodeFailed | RequestFailed
    | Cancelled | SafetyCap | WindowTimeout | TooManySlowDowns
    | Expired | Rejected | ClientNotAllowed | Unexpected

  /** `now(k)`: seconds since the start when attempt k looks at the clock; `cancelled(k)`: the
      caller gives up while waiting for attempt k; `reply(k)`: the answer to attempt k. */
  datatype World = World(now: nat -> real, cancelled: nat -> bool, reply: nat -> Reply)

  function Clamp(n: int, min: int, max: int): (r: int)
    requires min <= max
    ensures min <= r <= max && (min <= n <= max ==> r == n) && (n < min ==> r == min) && (n > max ==> r == max)
  {
    if n < min then min else if n > max then max else n
  }

  /** The `slow_down` answers among the first `k` attempts. */
  function SlowDowns(w: World, k: nat): (n: nat)
    ensures n <= k
  {
    if k == 0 then 0 else SlowDowns(w, k - 1) + if w.reply(k).SlowDown? then 1 else 0
  }

  /** The wait in seconds after `k` attempts: five more per `slow_down`, at most sixty. */
  function IntervalAfter(w: World, start: int, k: nat): int {
    var raw := start + SLOW_DOWN_BUMP * SlowDowns(w, k);
    if raw > MAX_INTERVAL then MAX_INTERVAL else raw
  }

  /** The answer to attempt `k` leads to another attempt. */
  predicate GoesOn(w: World, k: nat) {
    w.reply(k).AuthorizationPending? || (w.reply(k).SlowDown? && SlowDowns(w, k) <= MAX_SLOW_DOWNS)
  }

  /** What the caller is told when it does not. */
  function Terminal(w: World, k: nat): Outcome {
    match w.reply(k)
    case Token => GotToken
    case BadToken => DecodeFailed
    case TransportError => RequestFailed
    case ExpiredToken => Expired
    case InvalidGrant => Rejected
    case UnauthorizedClient => ClientNotAllowed
    case SlowDown => TooManySlowDowns
    case AuthorizationPending => Unexpected
    case Other => Unexpected
  }

  /** Attempt `k` sends its request. */
  predicate Sends(w: World, expiresIn: int, k: nat) {
    && (k > 1 ==> !w.cancelled(k))
    && k <= MAX_POLL_COUNT
    && w.now(k).Floor <= expiresIn
  }

  /** Exactly the attempts 1..n are sent. */
  ghost predicate SentThrough(w: World, expiresIn: int, n: nat) {
    && (forall k :: 1 <= k <= n ==> Sends(w, expiresIn, k))
    && (forall k :: 1 <= k < n ==> GoesOn(w, k))
  }

  /** How a poll that sends `requests` requests stops. */
  ghost predicate StopsAs(w: World, interval0: int, expiresIn0: int, outcome: Outcome, requests: nat, interval: int) {
    var start, expiresIn := Clamp(interval0, MIN_INTERVAL, MAX_INTERVAL), Clamp(expiresIn0, MIN_EXPIRES, MAX_EXPIRES);
    && SentThrough(w, expiresIn, requests)
    && interval == IntervalAfter(w, start, if requests > 0 && !GoesOn(w, requests) then requests - 1 else requests)
    && (requests > 0 && !GoesOn(w, requests) ==> outcome == Terminal(w, requests))
    && (requests == 0 || GoesOn(w, requests) ==>
          && !Sends(w, expiresIn, requests + 1)
          && (outcome == Cancelled <==> requests > 0 && w.cancelled(requests + 1))
          && (outcome == SafetyCap <==> !(requests > 0 && w.cancelled(requests + 1)) && requests == MAX_POLL_COUNT)
          && outcome in {Cancelled, SafetyCap, WindowTimeout})
  }

  /** `PollForToken`.  `requests` counts the requests sent. */
  method PollForToken(interval0: int, expiresIn0: int, w: World)
    returns (outcome: Outcome, requests: nat, interval: int)
    ensures StopsAs(w, interval0, expiresIn0, outcome, requests, interval)
  {
    interval := Clamp(interval0, MIN_INTERVAL, MAX_INTERVAL);
    var expiresIn := Clamp(expiresIn0, MIN_EXPIRES, MAX_EXPIRES);
    ghost var start := interval;
    var attempt := 0;
    var slowDownCount := 0;
    requests := 0;
    while true
      invariant attempt == requests <= MAX_POLL_COUNT
      invariant slowDownCount == SlowDowns(w, requests) <= MAX_SLOW_DOWNS
      invariant SentThrough(w, expiresIn, requests) && (requests > 0 ==> GoesOn(w, requests))
      invariant interval == IntervalAfter(w, start, requests)
      decreases MAX_POLL_COUNT - attempt
    {
      if attempt > 0 {
        if w.cancelled(attempt + 1) {
          return Cancelled, requests, interval;
        }
      }
      attempt := attempt + 1;
      if attempt > MAX_POLL_COUNT {
        return SafetyCap, requests, interval;
      }
      if w.now(attempt).Floor > expiresIn {
        return WindowTimeout, requests, interval;
      }
      requests := requests + 1;
      match w.reply(attempt) {
        case Token => return GotToken, requests, interval;
        case BadToken => return DecodeFailed, requests, interval;
        case TransportError => return RequestFailed, requests, interval;
        case AuthorizationPending =>
        case SlowDown =>
          slowDownCount := slowDownCount + 1;
          if slowDownCount > MAX_SLOW_DOWNS {
            return TooManySlowDowns, requests, interval;
          }
          interval := interval + SLOW_DOWN_BUMP;
          if interval > MAX_INTERVAL {
            interval := MAX_INTERVAL;
          }
        case ExpiredToken => return Expired, requests, interval;
        case InvalidGrant => return Rejected, requests, interval;
        case UnauthorizedClient => return ClientNotAllowed, requests, interval;
        case Other => return Unexpected, requests, interval;
      }
    }
  }

  // ---- What the caller is told ----------------------------------------------

  /** The count is the number of those answers. */
  lemma {:induction false} SlowDownsAre(w: World, n: nat)
    ensures SlowDowns(w, n) == |set k: nat | 1 <= k <= n && w.reply(k).SlowDown?|
  {
    if n > 0 {
      SlowDownsAre(w, n - 1);
      var before := set k: nat | 1 <= k <= n - 1 && w.reply(k).SlowDown?;
      var now := set k: nat | 1 <= k <= n && w.reply(k).SlowDown?;
      if w.reply(n).SlowDown? {
        assert now == before + {n};
      } else {
        assert now == before;
      }
    }
  }

  /** Every request but the last was answered with `authorization_pending` or one of at most eight
      `slow_down`s, each of which made the wait five seconds longer up to a minute ... */
  lemma PollsPatiently(w: World, interval0: int, expiresIn0: int, outcome: Outcome, requests: nat, interval: int)
    requires StopsAs(w, interval0, expiresIn0, outcome, requests, interval)
    ensures var slow := |set k: nat | 1 <= k <= requests && w.reply(k).SlowDown?|;
            && requests <= 720 && slow <= 9
            && (forall k :: 1 <= k < requests ==> w.reply(k) == AuthorizationPending || w.reply(k) == SlowDown)
            && (forall k :: 1 <= k <= requests ==> w.now(k).Floor <= Clamp(expiresIn0, 60, 1800))
            && (forall k :: 1 < k <= requests ==> !w.cancelled(k))
            && interval == Clamp(Clamp(interval0, 5, 60) + 5 * (if slow <= 8 then slow else 8), 5, 60)
  {
    SlowDownsAre(w, requests);
    var before := if requests == 0 then 0 else requests - 1;
    SlowDownsBefore(w, before, 0);
    forall k: nat | 1 <= k <= requests
      ensures k <= 720 && w.now(k).Floor <= Clamp(expiresIn0, 60, 1800) && (k > 1 ==> !w.cancelled(k))
      ensures k < requests ==> w.reply(k) == AuthorizationPending || w.reply(k) == SlowDown
    {
      assert Sends(w, Clamp(expiresIn0, 60, 1800), k) && (k < requests ==> GoesOn(w, k));
    }
  }

  /** ... and the caller is told what ended it: the last answer, a ninth `slow_down`, or why no
      further request was sent. */
  lemma TellsWhy(w: World, interval0: int, expiresIn0: int, outcome: Outcome, requests: nat, interval: int)
    requires StopsAs(w, interval0, expiresIn0, outcome, requests, interval)
    ensures var slow := |set k: nat | 1 <= k <= requests && w.reply(k).SlowDown?|;
            if requests > 0 && !(w.reply(requests) == AuthorizationPending
                                 || (w.reply(requests) == SlowDown && slow <= 8)) then
              outcome ==
                match w.reply(requests)
                case Token => GotToken
                case BadToken => DecodeFailed
                case TransportError => RequestFailed
                case ExpiredToken => Expired
                case InvalidGrant => Rejected
                case UnauthorizedClient => ClientNotAllowed
                case SlowDown => TooManySlowDowns
                case _ => Unexpected
            else if requests > 0 && w.cancelled(requests + 1) then outcome == Cancelled
            else if requests == 720 then outcome == SafetyCap
            else outcome == WindowTimeout && w.now(requests + 1).Floor > Clamp(expiresIn0, 60, 1800)
  {
    SlowDownsAre(w, requests);
    PollsPatiently(w, interval0, expiresIn0, outcome, requests, interval);
  }

  // ---- Bounds ---------------------------------------------------------------

  /** The clock moves at least as far as each wait asked for. */
  ghost predicate ClockAdvances(w: World, start: int, upTo: nat) {
    && (upTo >= 1 ==> w.now(1) >= 0.0)
    && forall k :: 1 <= k < upTo ==> w.now(k + 1) >= w.now(k) + IntervalAfter(w, start, k) as real
  }

  lemma {:induction false} ElapsedGrows(w: World, start: int, k: nat)
    requires MIN_INTERVAL <= start <= MAX_INTERVAL && k >= 1 && ClockAdvances(w, start, k)
    ensures w.now(k) >= ((k - 1) * start) as real
  {
    if k > 1 {
      ElapsedGrows(w, start, k - 1);
      assert IntervalAfter(w, start, k - 1) >= start;
      assert (k - 1) * start == (k - 2) * start + start;
    }
  }

  /** With such a clock at most `expiresIn / interval + 1` requests are sent, never more than
      361, and the safety cap of 720 attempts is never reached. */
  lemma RequestBound(w: World, interval0: int, expiresIn0: int, n: nat)
    requires var start, expiresIn := Clamp(interval0, MIN_INTERVAL, MAX_INTERVAL),
        Clamp(expiresIn0, MIN_EXPIRES, MAX_EXPIRES);
             SentThrough(w, expiresIn, n) && ClockAdvances(w, start, n)
    ensures n <= Clamp(expiresIn0, MIN_EXPIRES, MAX_EXPIRES) / Clamp(interval0, MIN_INTERVAL, MAX_INTERVAL) + 1 <= 361
    ensures n < MAX_POLL_COUNT
  {
    var start, expiresIn := Clamp(interval0, MIN_INTERVAL, MAX_INTERVAL), Clamp(expiresIn0, MIN_EXPIRES, MAX_EXPIRES);
    QuotientBound(expiresIn, start, 0);
    if n >= 1 {
      ElapsedGrows(w, start, n);
      assert Sends(w, expiresIn, n);
      assert w.now(n).Floor >= (n - 1) * start;
      QuotientBound(expiresIn, start, n - 1);
    }
  }

  lemma QuotientBound(expiresIn: int, start: int, m: nat)
    requires MIN_INTERVAL <= start <= MAX_INTERVAL && MIN_EXPIRES <= expiresIn <= MAX_EXPIRES && m * start <= expiresIn
    ensures m <= expiresIn / start <= 360
  {
    var q, r := expiresIn / start, expiresIn % start;
    assert q * start + r == expiresIn;
    BelowQuotient(q, r, start, m);
    FiveAtLeast(q, start);
  }

  lemma BelowQuotient(q: int, r: int, start: int, m: int)
    requires 0 <= r < start && m * start <= q * start + r
    ensures m <= q
  {
    assert (q + 1) * start == q * start + start;
    LessByFactor(m, q + 1, start);
  }

  lemma FiveAtLeast(q: int, start: int)
    requires q >= 0 && start >= 5
    ensures 5 * q <= q * start
  {
  }

  lemma LessByFactor(x: int, y: int, s: int)
    requires s > 0 && x * s < y * s
    ensures x < y
  {
  }

  /** The bound is attained: a clock that advances exactly as asked, a pending server and the
      extreme parameters lead to 361 requests. */
  lemma BoundIsTight()
    ensures var w := World(k => (5 * (k - 1)) as real, _ => false, _ => AuthorizationPending);
            SentThrough(w, MAX_EXPIRES, 361) && ClockAdvances(w, MIN_INTERVAL, 361) && !Sends(w, MAX_EXPIRES, 362)
  {
    var w := World(k => (5 * (k - 1)) as real, _ => false, _ => AuthorizationPending);
    forall k | 1 <= k < 361 ensures w.now(k + 1) >= w.now(k) + IntervalAfter(w, MIN_INTERVAL, k) as real {
      NoSlowDowns(w, k);
    }
  }

  lemma {:induction false} NoSlowDowns(w: World, k: nat)
    requires forall i :: !w.reply(i).SlowDown?
    ensures SlowDowns(w, k) == 0
  {
    if k > 0 {
      NoSlowDowns(w, k - 1);
    }
  }

  /** Over any run at most nine `slow_down` answers are received, and the waits never shrink. */
  lemma {:induction false} SlowDownsAreLimited(w: World, start: int, expiresIn: int, n: nat)
    requires SentThrough(w, expiresIn, n) && start <= MAX_INTERVAL
    ensures SlowDowns(w, n) <= MAX_SLOW_DOWNS + 1
    ensures forall k :: 0 <= k < n ==> IntervalAfter(w, start, k) <= IntervalAfter(w, start, k + 1)
  {
    if n > 0 {
      SlowDownsAreLimited(w, start, expiresIn, n - 1);
      if n > 1 {
        assert GoesOn(w, n - 1);
        SlowDownsBefore(w, n - 1, expiresIn);
      }
    }
  }

  lemma {:induction false} SlowDownsBefore(w: World, k: nat, expiresIn: int)
    requires forall i :: 1 <= i <= k ==> GoesOn(w, i)
    ensures SlowDowns(w, k) <= MAX_SLOW_DOWNS
  {
    if k > 0 {
      SlowDownsBefore(w, k - 1, expiresIn);
      assert GoesOn(w, k);
    }
  }
}
