/** The life of one webhook delivery: attempts, backoff, exhaustion. Times are in milliseconds. */
module WebhookRetry {
  import opened Common

  datatype Status = Pending | Failed | Delivered

  datatype Row = Row(status: Status, attemptCount: nat, nextAttemptAt: Option<int>)

  /** What one processing finds: nothing to send to, an inactive subscription, or the result of a POST. */
  datatype Outcome = Missing | Inactive | Accepted | Refused | Threw

  const RETRY_CAP_MS := 900_000

  function Power2(n: nat): nat {
    if n == 0 then 1 else 2 * Power2(n - 1)
  }

  function RetryDelayMs(attemptCount: nat): int {
    var doubled := 2_000 * Power2(if attemptCount >= 1 then attemptCount - 1 else 0);
    if doubled < RETRY_CAP_MS then doubled else RETRY_CAP_MS
  }

  predicate IsDue(row: Row, now: int) {
    row.status in {Pending, Failed} && row.nextAttemptAt.Some? && row.nextAttemptAt.value <= now
  }

  function RetryFailure(attemptCount: nat, maxAttempts: nat, now: int): Row {
    if attemptCount >= maxAttempts then Row(Failed, attemptCount, None)
    else Row(Failed, attemptCount, Some(now + RetryDelayMs(attemptCount)))
  }

  function Process(row: Row, outcome: Outcome, maxAttempts: nat, now: int): Row {
    match outcome
    case Missing => Row(Failed, row.attemptCount + 1, None)
    case Inactive => Row(Failed, row.attemptCount + 1, None)
    case Accepted => Row(Delivered, row.attemptCount + 1, None)
    case Refused => RetryFailure(row.attemptCount + 1, maxAttempts, now)
    case Threw => RetryFailure(row.attemptCount + 1, maxAttempts, now)
  }

  // ---------- the backoff ----------

  lemma {:induction false} Power2Monotone(a: nat, b: nat)
    requires a <= b
    ensures Power2(a) <= Power2(b)
  {
    if a < b { Power2Monotone(a, b - 1); }
  }

  /** Delays start at two seconds, double up to the ninth attempt, and stay at fifteen minutes from the tenth on. */
  lemma BackoffShape(n: nat)
    ensures RetryDelayMs(1) == 2_000
    ensures 1 <= n <= 8 ==> RetryDelayMs(n + 1) == 2 * RetryDelayMs(n)
    ensures n >= 10 ==> RetryDelayMs(n) == 900_000
    ensures 2_000 <= RetryDelayMs(n) <= RetryDelayMs(n + 1) <= 900_000
  {
    assert Power2(8) == 256 by { assert Power2(4) == 16; }
    assert Power2(9) == 512;
    var k := if n >= 1 then n - 1 else 0;
    Power2Monotone(0, k);
    Power2Monotone(k, n);
    if k <= 8 { Power2Monotone(k, 8); } else { Power2Monotone(9, k); }
  }

  // ---------- runs ----------

  datatype Attempt = Attempt(now: int, outcome: Outcome)

  /** The row after a run of attempts; attempts are made only when the row is due. */
  ghost function After(row: Row, attempts: seq<Attempt>, maxAttempts: nat): Row {
    if attempts == [] then row
    else
      var last := attempts[|attempts| - 1];
      Process(After(row, attempts[..|attempts| - 1], maxAttempts), last.outcome, maxAttempts, last.now)
  }

  ghost predicate MadeWhenDue(row: Row, attempts: seq<Attempt>, maxAttempts: nat, k: nat)
    requires k < |attempts|
  {
    IsDue(After(row, attempts[..k], maxAttempts), attempts[k].now)
  }

  ghost predicate IsDeliveryRun(created: int, attempts: seq<Attempt>, maxAttempts: nat) {
    forall k :: 0 <= k < |attempts| ==> MadeWhenDue(Row(Pending, 0, Some(created)), attempts, maxAttempts, k)
  }

  /** The count is the number of attempts; a retry is scheduled if and only if a POST failed below the maximum. */
  lemma {:induction false} RowAfterRun(created: int, attempts: seq<Attempt>, maxAttempts: nat)
    requires IsDeliveryRun(created, attempts, maxAttempts)
    ensures var row := After(Row(Pending, 0, Some(created)), attempts, maxAttempts);
      && row.attemptCount == |attempts|
      && (attempts != [] ==>
            var last := attempts[|attempts| - 1];
            && (row.nextAttemptAt.Some? <==> |attempts| < maxAttempts && last.outcome in {Refused, Threw})
            && (row.nextAttemptAt.Some? ==> row.nextAttemptAt.value == last.now + RetryDelayMs(|attempts|))
            && row.status == if last.outcome == Accepted then Delivered else Failed)
  {
    if attempts != [] {
      var n := |attempts| - 1;
      forall k | 0 <= k < n
        ensures MadeWhenDue(Row(Pending, 0, Some(created)), attempts[..n], maxAttempts, k)
      {
        assert MadeWhenDue(Row(Pending, 0, Some(created)), attempts, maxAttempts, k);
        assert attempts[..n][..k] == attempts[..k];
      }
      RowAfterRun(created, attempts[..n], maxAttempts);
    }
  }

  /**
   * A new delivery is due from its creation on, a failed POST below the maximum from the end of its backoff on,
   * and nothing else ever is.
   */
  lemma DueIff(created: int, attempts: seq<Attempt>, maxAttempts: nat, now: int)
    requires IsDeliveryRun(created, attempts, maxAttempts)
    ensures IsDue(After(Row(Pending, 0, Some(created)), attempts, maxAttempts), now) <==>
      if attempts == [] then now >= created
      else
        var last := attempts[|attempts| - 1];
        && |attempts| < maxAttempts && last.outcome in {Refused, Threw}
        && now >= last.now + RetryDelayMs(|attempts|)
  {
    RowAfterRun(created, attempts, maxAttempts);
  }

  /** No delivery is attempted more than the maximum, or more than once when the maximum is zero. */
  lemma AttemptsAreBounded(created: int, attempts: seq<Attempt>, maxAttempts: nat)
    requires IsDeliveryRun(created, attempts, maxAttempts)
    ensures |attempts| <= if maxAttempts > 1 then maxAttempts else 1
  {
    if |attempts| > 1 {
      AttemptFollows(created, attempts, maxAttempts, |attempts| - 1);
    }
  }

  /** Attempt k follows a failed POST, below the maximum, and no sooner than the backoff of the attempt before. */
  lemma AttemptFollows(created: int, attempts: seq<Attempt>, maxAttempts: nat, k: nat)
    requires IsDeliveryRun(created, attempts, maxAttempts) && 1 <= k < |attempts|
    ensures attempts[k - 1].outcome in {Refused, Threw} && k < maxAttempts
    ensures attempts[k].now >= attempts[k - 1].now + RetryDelayMs(k)
  {
    var start := Row(Pending, 0, Some(created));
    forall j | 0 <= j < k
      ensures MadeWhenDue(start, attempts[..k], maxAttempts, j)
    {
      assert MadeWhenDue(start, attempts, maxAttempts, j);
      assert attempts[..k][..j] == attempts[..j];
    }
    RowAfterRun(created, attempts[..k], maxAttempts);
    assert MadeWhenDue(start, attempts, maxAttempts, k);
  }
}
