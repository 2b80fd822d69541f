/**
 * `_get` and the tenacity policy wrapped around it: one GET per attempt, a
 * 429 sleeps for `Retry-After` and raises `RateLimitError`, 4xx/5xx raise
 * `requests.HTTPError`; `RateLimitError` and every `requests.RequestException`
 * (which `HTTPError` is) are retried after an exponential wait, until 120 time
 * units have passed since the first attempt, and then the last exception is
 * re-raised as it is.
 *
 * Time is an explicit count of units: each attempt reports its own latency,
 * and sleeps add to the elapsed count.
 */
module Fetcher {
  import opened Wrappers
  import opened Upstream

  /** What the server does with one request: an HTTP response, or a transport fault (connection error, timeout). */
  datatype Reply = Response(status: int, retryAfter: Option<int>, body: Page) | TransportFault

  /** One request as the server answers it, with the time it took. */
  datatype Attempt = Attempt(reply: Reply, latency: nat)

  /** The upstream API: the answer to the `attempt`-th request for `url` within one retrying call. */
  type Server = (string, nat) -> Attempt

  /** The exceptions `_get` can raise. */
  datatype RequestFailure = ConnectionFailure | HTTPError(status: int)
  datatype FetchError =
    | RateLimitError
    | RequestException(cause: RequestFailure)
    | ValueError   // `time.sleep` of a negative `Retry-After`

  /** `retry_if_exception_type((RateLimitError, requests.RequestException))`. */
  predicate Retryable(e: FetchError) {
    e.RateLimitError? || e.RequestException?
  }

  /** The outcome of one attempt and the time it used, the `Retry-After` sleep included. */
  datatype Single = Single(result: Result<Page, FetchError>, duration: nat)

  /** `raise_for_status` raises exactly for these codes. */
  predicate IsErrorStatus(status: int) {
    400 <= status < 600
  }

  /** One undecorated call of `_get`. */
  function GetOnce(a: Attempt): (r: Single)
    ensures r.duration >= a.latency
    ensures r.duration > a.latency ==> r.result == Err(RateLimitError)
    ensures r.result.Ok? <==> a.reply.Response? && !IsErrorStatus(a.reply.status)
    ensures r.result.Ok? ==> r.result.value == a.reply.body
    ensures a.reply.Response? && a.reply.status == 429 && a.reply.retryAfter.GetOr(1) >= 0 ==>
              r == Single(Err(RateLimitError), a.latency + a.reply.retryAfter.GetOr(1))
    ensures r.result == Err(ValueError) <==>
              a.reply.Response? && a.reply.status == 429 && a.reply.retryAfter.GetOr(1) < 0
    ensures a.reply.TransportFault? ==> r == Single(Err(RequestException(ConnectionFailure)), a.latency)
    ensures a.reply.Response? && a.reply.status != 429 && IsErrorStatus(a.reply.status) ==>
              r == Single(Err(RequestException(HTTPError(a.reply.status))), a.latency)
  {
    match a.reply
    case TransportFault => Single(Err(RequestException(ConnectionFailure)), a.latency)
    case Response(status, retryAfter, body) =>
      if status == 429 then
        var secs := retryAfter.GetOr(1);
        if secs < 0 then Single(Err(ValueError), a.latency)
        else Single(Err(RateLimitError), a.latency + secs)
      else if IsErrorStatus(status) then Single(Err(RequestException(HTTPError(status))), a.latency)
      else Single(Ok(body), a.latency)
  }

  /** `stop_after_delay(120)` and `wait_exponential(multiplier=1, min=1, max=60)`. */
  const Budget: nat := 120
  const MinWait: nat := 1
  const MaxWait: nat := 60

  /** The most attempts one retrying call can make (see RetryAttemptsBounded). */
  const MaxAttempts: nat := 8

  function Pow2(n: nat): nat {
    if n == 0 then 1 else 2 * Pow2(n - 1)
  }

  /** The wait after failed attempt number `attempt`: `max(1, min(2^(attempt-1), 60))`. */
  function Wait(attempt: nat): (w: nat)
    requires attempt >= 1
    ensures MinWait <= w <= MaxWait
  {
    var e := Pow2(attempt - 1);
    var capped := if e < MaxWait then e else MaxWait;
    if capped > MinWait then capped else MinWait
  }

  lemma {:induction false} Pow2AtLeast64(n: nat)
    requires n >= 6
    ensures Pow2(n) >= 64
    decreases n
  {
    if n > 6 {
      Pow2AtLeast64(n - 1);
    } else {
      assert Pow2(1) == 2 && Pow2(2) == 4 && Pow2(3) == 8 && Pow2(4) == 16 && Pow2(5) == 32;
    }
  }

  /** The schedule is 1, 2, 4, 8, 16, 32 and then 60 for every later attempt. */
  lemma WaitSchedule(attempt: nat)
    requires attempt >= 1
    ensures attempt <= 6 ==> Wait(attempt) == Pow2(attempt - 1)
    ensures attempt >= 7 ==> Wait(attempt) == MaxWait
  {
    if attempt >= 7 {
      Pow2AtLeast64(attempt - 1);
    } else {
      assert Pow2(1) == 2 && Pow2(2) == 4 && Pow2(3) == 8 && Pow2(4) == 16 && Pow2(5) == 32;
    }
  }

  /** The total of the waits after attempts 1..k. */
  function CumWait(k: nat): nat {
    if k == 0 then 0 else CumWait(k - 1) + Wait(k)
  }

  lemma {:induction false} CumWaitMonotone(i: nat, j: nat)
    requires i <= j
    ensures CumWait(i) <= CumWait(j)
    decreases j
  {
    if i < j {
      CumWaitMonotone(i, j - 1);
    }
  }

  /** 1 + 2 + 4 + 8 + 16 + 32 + 60 = 123, already past the budget. */
  lemma CumWaitSeven()
    ensures CumWait(7) == 123
  {
    WaitSchedule(1); WaitSchedule(2); WaitSchedule(3); WaitSchedule(4);
    WaitSchedule(5); WaitSchedule(6); WaitSchedule(7);
    assert Pow2(1) == 2 && Pow2(2) == 4 && Pow2(3) == 8 && Pow2(4) == 16 && Pow2(5) == 32;
  }

  /** From the seventh wait on, the waits alone exceed the budget. */
  lemma CumWaitPastBudget(k: nat)
    ensures k >= 7 ==> CumWait(k) > Budget
  {
    CumWaitSeven();
    if k >= 7 {
      CumWaitMonotone(7, k);
    }
  }

  /** The result of a retrying call: the last outcome, the number of attempts, the time since the first attempt began. */
  datatype Fetched = Fetched(result: Result<Page, FetchError>, attempts: nat, elapsed: nat)

  /**
   * When attempt `k` begins, for a loop whose attempt `from` began at `at`:
   * each attempt in between adds its own duration and the wait after it.
   */
  function Start(server: Server, url: string, from: nat, at: nat, k: nat): nat
    requires 1 <= from <= k
    decreases k - from
  {
    if from == k then at
    else Start(server, url, from + 1, at + GetOnce(server(url, from)).duration + Wait(from), k)
  }

  /**
   * The tenacity loop from attempt number `attempt`, `elapsed` units after the
   * first attempt began. After each failed attempt the stop condition
   * (`elapsed >= 120`) is checked before the wait; on a stop the last
   * exception is returned unchanged.
   */
  function Retry(server: Server, url: string, attempt: nat, elapsed: nat): (r: Fetched)
    requires attempt >= 1
    ensures r.attempts >= attempt && r.elapsed >= elapsed
    ensures r.result == GetOnce(server(url, r.attempts)).result
    ensures r.result.Err? && Retryable(r.result.error) ==> r.elapsed >= Budget
    ensures forall j :: attempt <= j < r.attempts ==>
              GetOnce(server(url, j)).result.Err? && Retryable(GetOnce(server(url, j)).result.error)
    decreases Budget - elapsed
  {
    var s := GetOnce(server(url, attempt));
    var now := elapsed + s.duration;
    if s.result.Ok? || !Retryable(s.result.error) || now >= Budget then
      Fetched(s.result, attempt, now)
    else
      Retry(server, url, attempt + 1, now + Wait(attempt))
  }

  /** The loop ends after an attempt that succeeds, fails without retry, or ends past the budget. */
  lemma RetryStop(server: Server, url: string, attempt: nat, elapsed: nat)
    requires attempt >= 1
    requires var s := GetOnce(server(url, attempt));
             s.result.Ok? || !Retryable(s.result.error) || elapsed + s.duration >= Budget
    ensures Retry(server, url, attempt, elapsed) ==
              Fetched(GetOnce(server(url, attempt)).result, attempt, elapsed + GetOnce(server(url, attempt)).duration)
  {
  }

  /** One turn of the loop: a retryable failure inside the budget is followed by the next attempt, after `Wait(attempt)`. */
  lemma RetryStep(server: Server, url: string, attempt: nat, elapsed: nat)
    requires attempt >= 1
    requires GetOnce(server(url, attempt)).result.Err? && Retryable(GetOnce(server(url, attempt)).result.error)
    requires elapsed + GetOnce(server(url, attempt)).duration < Budget
    ensures Retry(server, url, attempt, elapsed) ==
              Retry(server, url, attempt + 1, elapsed + GetOnce(server(url, attempt)).duration + Wait(attempt))
  {
  }

  /**
   * The clock of the loop: the call returns when the last attempt ends, every
   * attempt begins after the previous one's duration and wait, and every
   * attempt before the last ended inside the budget (so a retryable failure
   * inside the budget is always followed by another attempt).
   */
  lemma {:induction false} RetryTiming(server: Server, url: string, attempt: nat, elapsed: nat)
    requires attempt >= 1
    ensures var r := Retry(server, url, attempt, elapsed);
            r.elapsed == Start(server, url, attempt, elapsed, r.attempts) + GetOnce(server(url, r.attempts)).duration
    ensures var r := Retry(server, url, attempt, elapsed);
            forall j :: attempt <= j < r.attempts ==>
              Start(server, url, attempt, elapsed, j) + GetOnce(server(url, j)).duration < Budget
    decreases Budget - elapsed
  {
    var s := GetOnce(server(url, attempt));
    var now := elapsed + s.duration;
    if !(s.result.Ok? || !Retryable(s.result.error) || now >= Budget) {
      var next := now + Wait(attempt);
      RetryTiming(server, url, attempt + 1, next);
      var r := Retry(server, url, attempt, elapsed);
      assert r == Retry(server, url, attempt + 1, next);
      forall j | attempt < j <= r.attempts
        ensures Start(server, url, attempt, elapsed, j) == Start(server, url, attempt + 1, next, j)
      {
      }
    }
  }

  /** A failure outside the retried kinds is returned after the attempt that raised it, with no wait. */
  lemma RetryPropagatesAtOnce(server: Server, url: string, attempt: nat, elapsed: nat)
    requires attempt >= 1
    requires GetOnce(server(url, attempt)).result.Err?
    requires !Retryable(GetOnce(server(url, attempt)).result.error)
    ensures Retry(server, url, attempt, elapsed) ==
              Fetched(GetOnce(server(url, attempt)).result, attempt, elapsed + GetOnce(server(url, attempt)).duration)
  {
  }

  /**
   * Since every wait is at least the schedule's, attempt k cannot start before
   * CumWait(k-1); the 8th wait total is 123, past the budget, so there is no
   * 9th attempt.
   */
  lemma {:induction false} RetryAttemptsBounded(server: Server, url: string, attempt: nat, elapsed: nat)
    requires 1 <= attempt <= MaxAttempts
    requires elapsed >= CumWait(attempt - 1)
    ensures Retry(server, url, attempt, elapsed).attempts <= MaxAttempts
    decreases Budget - elapsed
  {
    var s := GetOnce(server(url, attempt));
    var now := elapsed + s.duration;
    if !(s.result.Ok? || !Retryable(s.result.error) || now >= Budget) {
      CumWaitPastBudget(attempt - 1);
      assert CumWait(attempt) == CumWait(attempt - 1) + Wait(attempt);
      RetryStep(server, url, attempt, elapsed);
      RetryAttemptsBounded(server, url, attempt + 1, now + Wait(attempt));
    }
  }

  /**
   * The last attempt began less than `Budget + MaxWait` units after the first:
   * a retry is only scheduled while less than `Budget` has passed.
   */
  lemma {:induction false} RetryLastAttemptStart(server: Server, url: string, attempt: nat, elapsed: nat)
    requires attempt >= 1
    requires elapsed < Budget + MaxWait
    ensures var r := Retry(server, url, attempt, elapsed);
            r.elapsed < Budget + MaxWait + GetOnce(server(url, r.attempts)).duration
    decreases Budget - elapsed
  {
    var s := GetOnce(server(url, attempt));
    var now := elapsed + s.duration;
    if !(s.result.Ok? || !Retryable(s.result.error) || now >= Budget) {
      RetryLastAttemptStart(server, url, attempt + 1, now + Wait(attempt));
    }
  }

  /** The decorated `_get(url)`: a retrying call with its own fresh budget. */
  function Fetch(server: Server, url: string): (r: Fetched)
    ensures 1 <= r.attempts <= MaxAttempts
    ensures r.result == GetOnce(server(url, r.attempts)).result
    ensures r.result.Err? && Retryable(r.result.error) ==> r.elapsed >= Budget
    ensures r.elapsed < Budget + MaxWait + GetOnce(server(url, r.attempts)).duration
    ensures forall j :: 1 <= j < r.attempts ==>
              GetOnce(server(url, j)).result.Err? && Retryable(GetOnce(server(url, j)).result.error)
  {
    RetryAttemptsBounded(server, url, 1, 0);
    RetryLastAttemptStart(server, url, 1, 0);
    Retry(server, url, 1, 0)
  }

  /**
   * The clock of one decorated call: it returns when its last attempt ends,
   * and every attempt before the last ended inside the budget.
   */
  lemma FetchTiming(server: Server, url: string)
    ensures var r := Fetch(server, url);
            r.elapsed == Start(server, url, 1, 0, r.attempts) + GetOnce(server(url, r.attempts)).duration
    ensures var r := Fetch(server, url);
            forall j :: 1 <= j < r.attempts ==> Start(server, url, 1, 0, j) + GetOnce(server(url, j)).duration < Budget
  {
    RetryTiming(server, url, 1, 0);
  }

  /** A first attempt that returns a page ends the call: there is no retry after a success. */
  lemma FetchStopsOnSuccess(server: Server, url: string)
    requires GetOnce(server(url, 1)).result.Ok?
    ensures Fetch(server, url).attempts == 1
    ensures Fetch(server, url).result == GetOnce(server(url, 1)).result
  {
  }

  /** A server that rate-limits the first request with `Retry-After: 2` and then serves an empty page. */
  function RateLimitedOnce(url: string, attempt: nat): Attempt {
    if attempt == 1 then Attempt(Response(429, Some(2), Page([], Absent)), 0)
    else Attempt(Response(200, None, Page([], Absent)), 0)
  }

  /** The 429 sleeps 2 units, the backoff adds 1, and the second attempt succeeds. */
  lemma RateLimitedOnceThenServed()
    ensures Fetch(RateLimitedOnce, SomeUrl) == Fetched(Ok(Page([], Absent)), 2, 3)
  {
    assert GetOnce(RateLimitedOnce(SomeUrl, 1)) == Single(Err(RateLimitError), 2);
    assert Wait(1) == 1;
    assert Retry(RateLimitedOnce, SomeUrl, 2, 3) == Fetched(Ok(Page([], Absent)), 2, 3);
  }

  const SomeUrl: string := "https://example.invalid/page"

  /** A server whose connection always fails at once. */
  function AlwaysDown(url: string, attempt: nat): Attempt {
    Attempt(TransportFault, 0)
  }

  /**
   * With instant failures the attempts start at 0, 1, 3, 7, 15, 31, 63 and 123;
   * the eighth ends past the budget and its exception is re-raised.
   */
  lemma AlwaysDownGivesUpAfterEight()
    ensures Fetch(AlwaysDown, SomeUrl) == Fetched(Err(RequestException(ConnectionFailure)), MaxAttempts, 123)
  {
    AlwaysDownFromFour();
    WaitSchedule(1); WaitSchedule(2); WaitSchedule(3);
    var e := Err(RequestException(ConnectionFailure));
    assert Retry(AlwaysDown, SomeUrl, 3, 3) == Fetched(e, 8, 123);
    assert Retry(AlwaysDown, SomeUrl, 2, 1) == Fetched(e, 8, 123);
    assert Retry(AlwaysDown, SomeUrl, 1, 0) == Fetched(e, 8, 123);
  }

  /** The second half of that run: attempt 4, begun at 7 units, is followed by four more. */
  lemma AlwaysDownFromFour()
    ensures Retry(AlwaysDown, SomeUrl, 4, 7) == Fetched(Err(RequestException(ConnectionFailure)), MaxAttempts, 123)
  {
    WaitSchedule(4); WaitSchedule(5); WaitSchedule(6); WaitSchedule(7);
    assert Pow2(3) == 8 && Pow2(4) == 16 && Pow2(5) == 32;
    var e := Err(RequestException(ConnectionFailure));
    assert Retry(AlwaysDown, SomeUrl, 8, 123) == Fetched(e, 8, 123);
    assert Retry(AlwaysDown, SomeUrl, 7, 63) == Fetched(e, 8, 123);
    assert Retry(AlwaysDown, SomeUrl, 6, 31) == Fetched(e, 8, 123);
    assert Retry(AlwaysDown, SomeUrl, 5, 15) == Fetched(e, 8, 123);
  }

  /** With instant failures, attempts 1 to 8 begin at 0, 1, 3, 7, 15, 31, 63 and 123 units. */
  lemma AlwaysDownStartTimes()
    ensures forall k :: 1 <= k <= MaxAttempts ==>
              Start(AlwaysDown, SomeUrl, 1, 0, k) == [0, 1, 3, 7, 15, 31, 63, 123][k - 1]
  {
    WaitSchedule(1); WaitSchedule(2); WaitSchedule(3); WaitSchedule(4);
    WaitSchedule(5); WaitSchedule(6); WaitSchedule(7);
    assert Pow2(1) == 2 && Pow2(2) == 4 && Pow2(3) == 8 && Pow2(4) == 16 && Pow2(5) == 32;
  }

  /**
   * The retry loop as tenacity runs it: one `_get` body per iteration, then
   * either return, re-raise, or sleep and try again.
   */
  method Get(server: Server, url: string) returns (result: Result<Page, FetchError>, attempts: nat, elapsed: nat)
    ensures Fetched(result, attempts, elapsed) == Fetch(server, url)
    ensures 1 <= attempts <= MaxAttempts
    ensures result.Err? && Retryable(result.error) ==> elapsed >= Budget
  {
    var attempt: nat := 1;
    elapsed := 0;
    while true
      invariant attempt >= 1
      invariant Retry(server, url, attempt, elapsed) == Fetch(server, url)
      decreases Budget - elapsed
    {
      var s := GetOnce(server(url, attempt));
      var now := elapsed + s.duration;
      if s.result.Ok? || !Retryable(s.result.error) || now >= Budget {
        RetryStop(server, url, attempt, elapsed);
        return s.result, attempt, now;
      }
      RetryStep(server, url, attempt, elapsed);
      elapsed := now + Wait(attempt);
      attempt := attempt + 1;
    }
  }
}
