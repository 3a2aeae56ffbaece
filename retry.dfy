/** The retry schedule shared by the TMDB client and the translator: up to
    `retries` attempts, and after a failed attempt that is not the last one a
    sleep of the current delay, which then doubles. Sleeps are modelled as the
    list of delays slept, not as time. */
module Retry {
  import opened Wrappers

  function Pow2(k: nat): (r: nat)
    ensures r >= 1
  {
    if k == 0 then 1 else 2 * Pow2(k - 1)
  }

  /** The first `n` sleeps of a schedule starting at `delay`. */
  function Backoff(delay: int, n: nat): (ds: seq<int>)
    ensures |ds| == n
    ensures forall k :: 0 <= k < n ==> ds[k] == delay * Pow2(k)
  {
    if n == 0 then [] else Backoff(delay, n - 1) + [delay * Pow2(n - 1)]
  }

  /** Each sleep is twice the one before. */
  lemma BackoffDoubles(delay: int, n: nat)
    ensures forall k :: 0 <= k < n - 1 ==> Backoff(delay, n)[k + 1] == 2 * Backoff(delay, n)[k]
  {
  }

  /** The index of the first attempt below `retries`, from `from` on, whose reply is a value. */
  function FirstSuccess<T>(reply: nat -> Option<T>, from: nat, retries: int): (r: Option<nat>)
    ensures r.Some? ==> from <= r.value < retries && reply(r.value).Some?
    ensures r.Some? ==> forall a :: from <= a < r.value ==> reply(a).None?
    ensures r.None? ==> forall a :: from <= a < retries ==> reply(a).None?
    decreases retries - from
  {
    if from >= retries then None
    else if reply(from).Some? then Some(from)
    else FirstSuccess(reply, from + 1, retries)
  }

  /** The reply returned after the retries: the first successful one, or `None`. */
  function Outcome<T>(reply: nat -> Option<T>, retries: int): Option<T> {
    match FirstSuccess(reply, 0, retries)
    case Some(a) => reply(a)
    case None => None
  }

  /** The sleeps taken: one after every failed attempt except the last attempt allowed. */
  function Sleeps<T>(reply: nat -> Option<T>, retries: int, delay: int): seq<int> {
    match FirstSuccess(reply, 0, retries)
    case Some(a) => Backoff(delay, a)
    case None => if retries >= 1 then Backoff(delay, retries - 1) else []
  }

  /** The loop `for attempt in range(retries)` with an early return on success. */
  method Attempts<T>(reply: nat -> Option<T>, retries: int, delay: int) returns (r: Option<T>, sleeps: seq<int>)
    ensures r == Outcome(reply, retries)
    ensures sleeps == Sleeps(reply, retries, delay)
  {
    var currentDelay := delay;
    sleeps := [];
    var attempt: nat := 0;
    while attempt < retries
      invariant attempt == 0 || attempt < retries
      invariant forall a :: 0 <= a < attempt ==> reply(a).None?
      invariant sleeps == Backoff(delay, attempt)
      invariant currentDelay == delay * Pow2(attempt)
      decreases retries - attempt
    {
      var response := reply(attempt);
      if response.Some? {
        FirstSuccessIs(reply, 0, attempt, retries);
        return response, sleeps;
      }
      if attempt < retries - 1 {
        sleeps := sleeps + [currentDelay];
        currentDelay := currentDelay * 2;
      } else {
        FirstSuccessNone(reply, 0, retries);
        assert Sleeps(reply, retries, delay) == Backoff(delay, attempt);
        return None, sleeps;
      }
      attempt := attempt + 1;
    }
    FirstSuccessNone(reply, 0, retries);
    r := None;
  }

  lemma {:induction false} FirstSuccessIs<T>(reply: nat -> Option<T>, from: nat, a: nat, retries: int)
    requires from <= a < retries && reply(a).Some?
    requires forall b :: from <= b < a ==> reply(b).None?
    ensures FirstSuccess(reply, from, retries) == Some(a)
    decreases a - from
  {
    if from < a {
      FirstSuccessIs(reply, from + 1, a, retries);
    }
  }

  lemma {:induction false} FirstSuccessNone<T>(reply: nat -> Option<T>, from: nat, retries: int)
    requires forall b :: from <= b < retries ==> reply(b).None?
    ensures FirstSuccess(reply, from, retries) == None
    decreases retries - from
  {
    if from < retries {
      FirstSuccessNone(reply, from + 1, retries);
    }
  }

  /** At most `retries - 1` sleeps, and never one after the final attempt. */
  lemma SleepsBound<T>(reply: nat -> Option<T>, retries: int, delay: int)
    requires retries >= 1
    ensures |Sleeps(reply, retries, delay)| <= retries - 1
    ensures Outcome(reply, retries).None? ==> |Sleeps(reply, retries, delay)| == retries - 1
  {
  }
}
