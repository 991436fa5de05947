/** fetchWithRetry: bounded retries of a request, backing off on 429 responses. */
module FetchRetry {
  import opened Basics
  import opened Ids

  const MAX_RETRY_DELAY_MS := 60_000

  // ---- Reading Retry-After ---------------------------------------------------------------------

  predicate IsDigit(c: char) {
    '0' <= c <= '9'
  }

  function DigitValue(c: char): nat
    requires IsDigit(c)
  {
    c as nat - '0' as nat
  }

  /** The longest prefix of decimal digits. */
  function LeadingDigits(s: string): (r: string)
    ensures r <= s && forall c :: c in r ==> IsDigit(c)
  {
    if s == [] || !IsDigit(s[0]) then []
    else
      assert s == [s[0]] + s[1..];
      [s[0]] + LeadingDigits(s[1..])
  }

  function DecimalValue(digits: string): nat
    requires forall c :: c in digits ==> IsDigit(c)
  {
    if digits == [] then 0
    else 10 * DecimalValue(digits[..|digits| - 1]) + DigitValue(digits[|digits| - 1])
  }

  function Unsigned(s: string): Option<nat> {
    var digits := LeadingDigits(s);
    if digits == [] then None else Some(DecimalValue(digits))
  }

  function Opposite(n: Option<nat>): Option<int> {
    if n.None? then None else Some(0 - (n.value as int))
  }

  /** parseInt(s, 10) of a trimmed string; None is NaN. */
  function ParseInt(s: string): Option<int> {
    if s != [] && s[0] == '-' then
      Opposite(Unsigned(s[1..]))
    else if s != [] && s[0] == '+' then Unsigned(s[1..])
    else Unsigned(s)
  }

  function Pow2(n: nat): (r: nat)
    ensures r >= 1
  {
    if n == 0 then 1 else 2 * Pow2(n - 1)
  }

  /** The integers that do not round to Infinity as a 64-bit float. */
  predicate IsFinite(n: nat) {
    n < Pow2(1024) - Pow2(970)
  }

  function Capped(ms: nat): nat {
    if ms < MAX_RETRY_DELAY_MS then ms else MAX_RETRY_DELAY_MS
  }

  /** resolveRetryAfterDelay: the server's seconds when it names a usable number, else 1 s doubled per attempt. */
  function RetryDelay(retryAfter: Option<string>, attempt: nat): nat {
    var seconds := if retryAfter.Some? then ParseInt(Trim(retryAfter.value)) else None;
    if seconds.Some? && seconds.value >= 0 && IsFinite(seconds.value) then Capped(seconds.value * 1000)
    else Capped(1000 * Pow2(attempt))
  }

  /** The decimal notation of n. */
  function Decimal(n: nat): (r: string)
    ensures r != [] && forall c :: c in r ==> IsDigit(c)
  {
    var last := ('0' as nat + n % 10) as char;
    if n < 10 then [last] else Decimal(n / 10) + [last]
  }

  lemma {:induction false} DecimalRoundTrip(n: nat)
    ensures DecimalValue(Decimal(n)) == n
  {
    if n >= 10 {
      var last := ('0' as nat + n % 10) as char;
      DecimalRoundTrip(n / 10);
      assert (Decimal(n / 10) + [last])[..|Decimal(n / 10)|] == Decimal(n / 10);
    }
  }

  lemma {:induction false} DigitsThenJunk(digits: string, junk: string)
    requires forall c :: c in digits ==> IsDigit(c)
    requires junk == [] || !IsDigit(junk[0])
    ensures LeadingDigits(digits + junk) == digits
  {
    if digits == [] {
      assert digits + junk == junk;
    } else {
      assert (digits + junk)[1..] == digits[1..] + junk;
      DigitsThenJunk(digits[1..], junk);
      assert digits == [digits[0]] + digits[1..];
      assert digits[0] in digits;
    }
  }

  lemma DecimalDigitsParse(n: nat)
    ensures ParseInt(Decimal(n)) == Some(n) && Trim(Decimal(n)) == Decimal(n)
  {
    var d := Decimal(n);
    DigitsThenJunk(d, "");
    assert d + "" == d && d[0] in d;
    DecimalRoundTrip(n);
    NoSpaceIsTrimmed(d);
  }

  /** A server that asks for n seconds is given them, up to the cap. */
  lemma ServerDelayIsHonoured(n: nat, attempt: nat)
    requires IsFinite(n)
    ensures RetryDelay(Some(Decimal(n)), attempt) == Capped(1000 * n)
  {
    DecimalDigitsParse(n);
  }

  lemma {:induction false} Pow2Grows(n: nat)
    ensures n >= 6 ==> Pow2(n) >= 64
    ensures n < 6 ==> Pow2(n) <= 32
  {
    if n > 6 {
      Pow2Grows(n - 1);
    }
  }

  /** Without a usable header the first wait is a second, and the waits double until, from the seventh
      attempt on, they are capped at a minute. */
  lemma BackoffDoublesToTheCap(attempt: nat)
    ensures RetryDelay(None, 0) == 1000 && MAX_RETRY_DELAY_MS == 60_000
    ensures attempt < 5 ==> RetryDelay(None, attempt + 1) == 2 * RetryDelay(None, attempt)
    ensures RetryDelay(None, attempt) == MAX_RETRY_DELAY_MS <==> attempt >= 6
  {
    Pow2Grows(attempt);
    Pow2Grows(attempt + 1);
  }

  // ---- The loop --------------------------------------------------------------------------------

  datatype Response = Response(status: nat, retryAfter: Option<string>) {
    predicate IsOk() {
      200 <= status < 300
    }
  }

  /** What one call of fetchImpl does: answer, or reject with a network error. */
  datatype Outcome = Responded(response: Response) | Rejected(message: string)

  datatype FetchError = Exhausted | Http(response: Response) | NonRetryable(response: Response) | Network(message: string)

  datatype Fetched = Success(response: Response) | Failure(error: FetchError)

  /** An outcome no further attempt follows: success, or a client error other than 429. */
  predicate Final(outcome: Outcome) {
    outcome.Responded? && (outcome.response.IsOk() || (400 <= outcome.response.status < 500 && outcome.response.status != 429))
  }

  predicate RateLimited(outcome: Outcome) {
    outcome.Responded? && outcome.response.status == 429
  }

  /** What the caller gets when this is the last outcome. */
  function Verdict(outcome: Outcome): Fetched {
    match outcome
    case Rejected(message) => Failure(Network(message))
    case Responded(response) =>
      if response.IsOk() then Success(response)
      else if Final(outcome) then Failure(NonRetryable(response))
      else Failure(Http(response))
  }

  /** What each status leads to: 2xx succeeds, 429 is waited for, any other 4xx is final, and everything else,
      redirects and network errors included, is simply tried again. */
  lemma StatusesDecide(r: Response)
    ensures Final(Responded(r)) <==> 200 <= r.status < 300 || 400 <= r.status < 429 || 429 < r.status < 500
    ensures RateLimited(Responded(r)) <==> r.status == 429
    ensures Verdict(Responded(r)).Success? <==> 200 <= r.status < 300
    ensures Verdict(Responded(r)) == Failure(NonRetryable(r)) <==> 400 <= r.status < 429 || 429 < r.status < 500
    ensures forall message :: !Final(Rejected(message)) && !RateLimited(Rejected(message)) && Verdict(Rejected(message)) == Failure(Network(message))
  {
  }

  /** The waits of the rate-limited ones among the first n attempts, in order. */
  function Waits(outcomes: nat -> Outcome, n: nat): seq<nat> {
    if n == 0 then []
    else Waits(outcomes, n - 1) +
         (if RateLimited(outcomes(n - 1)) then [RetryDelay(outcomes(n - 1).response.retryAfter, n - 1)] else [])
  }

  /** The number of calls: up to the first final outcome, and never more than maxRetries + 1. */
  ghost predicate IsCallCount(outcomes: nat -> Outcome, maxRetries: int, calls: nat) {
    && (calls == 0 || calls <= maxRetries + 1)
    && (forall k :: 0 <= k < calls - 1 ==> !Final(outcomes(k)))
    && (calls == 0 ==> maxRetries < 0)
    && (0 < calls <= maxRetries ==> Final(outcomes(calls - 1)))
  }

  /** At most one number of calls is possible. */
  lemma CallCountIsUnique(outcomes: nat -> Outcome, maxRetries: int, m: nat, n: nat)
    requires IsCallCount(outcomes, maxRetries, m) && IsCallCount(outcomes, maxRetries, n)
    ensures m == n
  {
    assert m > 0 ==> Final(outcomes(m - 1)) || n <= m;
    assert n > 0 ==> Final(outcomes(n - 1)) || m <= n;
  }

  /** fetchWithRetry. The calls made and the waits slept through are reported beside the result. */
  method FetchWithRetry(outcomes: nat -> Outcome, maxRetries: int) returns (result: Fetched, calls: nat, slept: seq<nat>)
    ensures IsCallCount(outcomes, maxRetries, calls)
    ensures result == if calls == 0 then Failure(Exhausted) else Verdict(outcomes(calls - 1))
    ensures slept == Waits(outcomes, if calls <= maxRetries || calls == 0 then calls else maxRetries)
  {
    var lastError := Exhausted;
    calls, slept := 0, [];
    var attempt := 0;
    while attempt <= maxRetries
      invariant 0 <= attempt == calls
      invariant attempt == 0 || attempt <= maxRetries + 1
      invariant forall k :: 0 <= k < calls ==> !Final(outcomes(k))
      invariant Failure(lastError) == if calls == 0 then Failure(Exhausted) else Verdict(outcomes(calls - 1))
      invariant slept == Waits(outcomes, if calls <= maxRetries || calls == 0 then calls else maxRetries)
    {
      var outcome := outcomes(attempt);
      calls := calls + 1;
      match outcome {
        case Rejected(message) =>
          lastError := Network(message);
        case Responded(response) =>
          if response.IsOk() {
            return Success(response), calls, slept;
          }
          if response.status == 429 {
            if attempt < maxRetries {
              slept := slept + [RetryDelay(response.retryAfter, attempt)];
            }
            lastError := Http(response);
          } else if 400 <= response.status < 500 {
            return Failure(NonRetryable(response)), calls, slept;
          } else {
            lastError := Http(response);
          }
      }
      attempt := attempt + 1;
    }
    return Failure(lastError), calls, slept;
  }

  // ---- What follows over whole runs ------------------------------------------------------------

  function Sum(s: seq<nat>): nat {
    if s == [] then 0 else Sum(s[..|s| - 1]) + s[|s| - 1]
  }

  lemma SumSnoc(s: seq<nat>, x: nat)
    ensures Sum(s + [x]) == Sum(s) + x
  {
    assert (s + [x])[..|s|] == s;
  }

  /** How many of the first n attempts were rate limited. */
  function RateLimitedCount(outcomes: nat -> Outcome, n: nat): nat {
    if n == 0 then 0 else RateLimitedCount(outcomes, n - 1) + (if RateLimited(outcomes(n - 1)) then 1 else 0)
  }

  /** One wait per non-final 429, none above a minute, and at most a minute per retry in all. */
  lemma {:induction false} WaitsAreBounded(outcomes: nat -> Outcome, n: nat)
    ensures |Waits(outcomes, n)| == RateLimitedCount(outcomes, n) <= n
    ensures forall w :: w in Waits(outcomes, n) ==> w <= MAX_RETRY_DELAY_MS
    ensures Sum(Waits(outcomes, n)) <= MAX_RETRY_DELAY_MS * RateLimitedCount(outcomes, n)
  {
    if n > 0 {
      WaitsAreBounded(outcomes, n - 1);
      var before := Waits(outcomes, n - 1);
      if RateLimited(outcomes(n - 1)) {
        var wait := RetryDelay(outcomes(n - 1).response.retryAfter, n - 1);
        SumSnoc(before, wait);
      } else {
        assert before + [] == before;
      }
    }
  }

  /** A whole run sleeps at most a minute per allowed retry, whatever the server says. */
  lemma TotalSleepIsBounded(outcomes: nat -> Outcome, maxRetries: nat, calls: nat)
    requires IsCallCount(outcomes, maxRetries, calls)
    ensures Sum(Waits(outcomes, if calls <= maxRetries then calls else maxRetries)) <= MAX_RETRY_DELAY_MS * maxRetries
  {
    WaitsAreBounded(outcomes, if calls <= maxRetries then calls else maxRetries);
  }

  /** A larger retry budget never loses a success or a definite refusal: the same call ends the run. */
  lemma BudgetOnlyExtends(outcomes: nat -> Outcome, small: nat, large: nat, m: nat, n: nat)
    requires small <= large
    requires IsCallCount(outcomes, small, m) && IsCallCount(outcomes, large, n)
    ensures m <= n
    ensures m == n <==> small == large || Final(outcomes(m - 1))
    ensures Verdict(outcomes(m - 1)).Success? ==> Verdict(outcomes(n - 1)) == Verdict(outcomes(m - 1))
  {
    assert Final(outcomes(n - 1)) || m <= n;
    assert Final(outcomes(m - 1)) ==> n <= m;
  }

  /** The run succeeds exactly when some allowed attempt is ok and nothing final precedes it. */
  lemma SuccessExactly(outcomes: nat -> Outcome, maxRetries: nat, calls: nat)
    requires IsCallCount(outcomes, maxRetries, calls)
    ensures Verdict(outcomes(calls - 1)).Success?
        <==> exists k: nat :: k <= maxRetries && Verdict(outcomes(k)).Success? && forall j :: 0 <= j < k ==> !Final(outcomes(j))
  {
    if Verdict(outcomes(calls - 1)).Success? {
      assert calls - 1 <= maxRetries;
    }
    if k: nat :| k <= maxRetries && Verdict(outcomes(k)).Success? && forall j :: 0 <= j < k ==> !Final(outcomes(j)) {
      assert Final(outcomes(k));
      assert k >= calls - 1;
    }
  }
}
