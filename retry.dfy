/** The scraper's `goto_with_retry`: navigate, and on failure sleep and try again, up to a
    fixed number of attempts. The browser is an oracle that says how attempt number `k`
    (counting from 1) of `page.goto` ends; the sleeps are returned as whole seconds. */
module Retry {

  /** How one call of `page.goto` ends. */
  datatype Attempt = Succeeded | Failed(error: string)

  /** The outcome of the attempts from number `k` to `attempts`: the first success ends the
      walk, a failure before the last attempt goes on, a failure at the last attempt is
      re-raised. With no attempts left to make the call returns normally. */
  function Retried(goto: nat -> Attempt, k: nat, attempts: int): Attempt
    decreases attempts - k
  {
    if k > attempts then Succeeded
    else if goto(k).Succeeded? then Succeeded
    else if k < attempts then Retried(goto, k + 1, attempts)
    else goto(k)
  }

  /** The backoff before attempt `k + 1`: `2 * k` seconds. */
  function Backoffs(n: nat): (r: seq<int>)
    ensures |r| == n
    ensures forall i :: 0 <= i < n ==> r[i] == 2 * (i + 1)
  {
    if n == 0 then [] else Backoffs(n - 1) + [2 * n]
  }

  /** `goto_with_retry(page, url, attempts=attempts)`: `calls` is how many times `goto` was
      called and `sleeps` the delays slept between them. */
  method GotoWithRetry(goto: nat -> Attempt, attempts: int) returns (outcome: Attempt, calls: nat, sleeps: seq<int>)
    ensures outcome == Retried(goto, 1, attempts)
    ensures attempts <= 0 ==> outcome.Succeeded? && calls == 0
    ensures calls <= if attempts <= 0 then 0 else attempts
    ensures outcome.Succeeded? && attempts > 0 ==>
              1 <= calls && goto(calls).Succeeded? && forall k :: 1 <= k < calls ==> goto(k).Failed?
    ensures outcome.Failed? ==>
              calls == attempts && outcome == goto(attempts) && forall k :: 1 <= k <= attempts ==> goto(k).Failed?
    ensures outcome.Succeeded? <==> attempts <= 0 || exists k :: 1 <= k <= attempts && goto(k).Succeeded?
    ensures sleeps == Backoffs(if calls == 0 then 0 else calls - 1)
  {
    calls, sleeps := 0, [];
    var attempt: nat := 1;
    while attempt <= attempts
      invariant 1 <= attempt && (attempts >= 1 ==> attempt <= attempts) && (attempts < 1 ==> attempt == 1)
      invariant calls == attempt - 1
      invariant forall k :: 1 <= k < attempt ==> goto(k).Failed?
      invariant Retried(goto, 1, attempts) == Retried(goto, attempt, attempts)
      invariant sleeps == Backoffs(calls)
      decreases attempts - attempt
    {
      var result := goto(attempt);
      calls := calls + 1;
      if result.Succeeded? {
        return Succeeded, calls, sleeps;
      }
      if attempt < attempts {
        sleeps := sleeps + [2 * attempt];
        attempt := attempt + 1;
        continue;
      }
      return result, calls, sleeps;
    }
    outcome := Succeeded;
  }
}
