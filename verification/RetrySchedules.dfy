/** Retry schedules: how long to wait before the next attempt, given how many were already made. */
module RetrySchedules {

  /** Nanoseconds, as in Go's time.Duration. */
  type Duration = int

  /** Nanoseconds since Go's zero time; 0 is the "never set" timestamp. */
  type Time = int

  const SECOND: Duration := 1_000_000_000
  const MINUTE: Duration := 60 * SECOND

  /** A schedule with no entry would make After index out of range, so schedules are non-empty. */
  type Schedule = s: seq<Duration> | |s| > 0 witness [0]

  const RETRY_FAST: Schedule := [
    1 * SECOND, 1 * SECOND, 5 * SECOND, 5 * SECOND, 10 * SECOND, 10 * SECOND, 10 * SECOND,
    1 * MINUTE, 1 * MINUTE, 1 * MINUTE, 1 * MINUTE, 1 * MINUTE, 5 * MINUTE
  ]
  const RETRY_SLOW: Schedule := [1 * MINUTE, 5 * MINUTE, 10 * MINUTE]
  const HEALTHY_RETRY: Schedule := [5 * MINUTE]

  /** The wait before the attempt that follows `retries` earlier ones. */
  function After(r: Schedule, retries: nat): Duration {
    if retries >= |r| then r[|r| - 1] else r[retries]
  }

  datatype ProviderError =
    | NotFound
    | StillInProgress
    | NodeInUse
    | Retryable(text: string, schedule: Schedule)
    | Opaque(text: string)

  function ErrorToRetrySchedule(e: ProviderError): Schedule {
    match e
    case NotFound => RETRY_SLOW
    case StillInProgress => RETRY_FAST
    case NodeInUse => RETRY_SLOW
    case Retryable(_, schedule) => schedule
    case Opaque(_) => RETRY_SLOW
  }

  ghost predicate NonDecreasing(r: Schedule) {
    forall i, j :: 0 <= i <= j < |r| ==> r[i] <= r[j]
  }

  /** Delays of a sorted schedule only grow, and never pass the last entry. */
  lemma DelaysGrowToCap(r: Schedule, m: nat, n: nat)
    requires NonDecreasing(r) && m <= n
    ensures After(r, m) <= After(r, n) <= r[|r| - 1]
    ensures |r| - 1 <= m ==> After(r, m) == r[|r| - 1]
  {
  }

  /** Every error the providers define themselves is retried on one of the two built-in schedules, both sorted:
      one starts at a second, goes over to minutes after seven attempts and ends at five, the other goes from one
      minute over five to ten. */
  lemma BuiltInSchedules(e: ProviderError)
    requires !e.Retryable?
    ensures NonDecreasing(ErrorToRetrySchedule(e))
    ensures ErrorToRetrySchedule(e) == if e.StillInProgress? then RETRY_FAST else RETRY_SLOW
    ensures forall n: nat ::
      (if e.StillInProgress? then 1 * SECOND else 1 * MINUTE) <= After(ErrorToRetrySchedule(e), n)
      <= (if e.StillInProgress? then 5 * MINUTE else 10 * MINUTE)
    ensures forall n: nat ::
      After(ErrorToRetrySchedule(e), n) ==
        if e.StillInProgress? then
          if n < 2 then 1 * SECOND else if n < 4 then 5 * SECOND else if n < 7 then 10 * SECOND
          else if n < 12 then 1 * MINUTE else 5 * MINUTE
        else if n == 0 then 1 * MINUTE else if n == 1 then 5 * MINUTE else 10 * MINUTE
  {
  }

  /** Entry-by-entry comparison, as the source writes it, of any two lists of delays. */
  method Equal(r: seq<Duration>, o: seq<Duration>) returns (same: bool)
    ensures same <==> r == o
  {
    if |r| != |o| {
      return false;
    }
    for i := 0 to |r|
      invariant r[..i] == o[..i]
    {
      if o[i] != r[i] {
        return false;
      }
    }
    assert r == r[..|r|] && o == o[..|o|];
    return true;
  }
}
