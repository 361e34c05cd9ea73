/** Retrying a command with exponential back-off. */
module Retry {
  import opened Powers
  import opened Text

  /** An exception: `retryable` if it is a `RuntimeError` or an `OSError`. */
  datatype Failure = Failure(retryable: bool, message: string)
  datatype Outcome<T> = Returned(value: T) | Raised(exc: Failure)

  const TRANSIENT_PATTERNS := [
    "connection refused", "connection reset", "timed out", "timeout", "resource temporarily unavailable",
    "no route to host", "network is unreachable", "broken pipe"]

  predicate OccursAt(s: string, part: string, i: nat) {
    i + |part| <= |s| && s[i..i + |part|] == part
  }

  predicate Contains(s: string, part: string) {
    exists i: nat :: i <= |s| && OccursAt(s, part, i)
  }

  predicate IsTransient(errorText: string) {
    var lower := Lower(errorText);
    exists p :: p in TRANSIENT_PATTERNS && Contains(lower, p)
  }

  /** A failure that another attempt may follow. */
  predicate Retried<T>(o: Outcome<T>) {
    o.Raised? && o.exc.retryable && IsTransient(o.exc.message)
  }

  function Sum(delays: seq<real>): real {
    if delays == [] then 0.0 else Sum(delays[..|delays| - 1]) + delays[|delays| - 1]
  }

  /** `base_delay * 2**attempt` */
  function Delay(base: real, attempt: nat): real {
    base * Pow2(attempt) as real
  }

  /** The delay doubles with every retry. */
  ghost predicate BackedOff(sleeps: seq<real>, base: real) {
    forall i :: 0 <= i < |sleeps| ==> sleeps[i] == Delay(base, i)
  }

  /** `k` retries: every attempt before the last was retried, and the last ended the loop
      by itself or used up the attempts. */
  ghost predicate Attempted<T(!new)>(attempts: nat -> Outcome<T>, maxRetries: nat, k: nat) {
    && k <= maxRetries
    && (forall i: nat :: i < k ==> Retried(attempts(i)))
    && (k < maxRetries ==> !Retried(attempts(k)))
  }

  /** `with_retry`, where call number `i` of the coroutine ends in `attempts(i)`. The result
      is what the caller receives; `None` stands for the `TypeError` of `raise None`. */
  method WithRetry<T(!new)>(attempts: nat -> Outcome<T>, maxRetries: int, baseDelay: real, counter: nat)
    returns (result: Option<Outcome<T>>, sleeps: seq<real>, newCounter: nat)
    ensures result.None? <==> maxRetries < 0
    ensures newCounter == counter + |sleeps|
    ensures maxRetries < 0 ==> sleeps == []
    ensures maxRetries >= 0 ==>
              Attempted(attempts, maxRetries, |sleeps|) && result == Some(attempts(|sleeps|))
    ensures BackedOff(sleeps, baseDelay)
    ensures Sum(sleeps) == baseDelay * (Pow2(|sleeps|) - 1) as real
  {
    hide IsTransient, Pow2, Sum, BackedOff, Delay;
    var lastExc: Option<Failure> := None;
    sleeps, newCounter := [], counter;
    NoSleep(baseDelay);
    var attempt := 0;
    while attempt < 1 + maxRetries
      invariant 0 <= attempt && (maxRetries >= 0 ==> attempt <= 1 + maxRetries)
      invariant maxRetries < 0 ==> attempt == 0
      invariant |sleeps| == if attempt == 1 + maxRetries && maxRetries >= 0 then maxRetries else attempt
      invariant newCounter == counter + |sleeps|
      invariant forall i: nat :: i < attempt ==> Retried(attempts(i))
      invariant if attempt == 0 then lastExc == None else lastExc.Some? && attempts(attempt - 1) == Raised(lastExc.value)
      invariant BackedOff(sleeps, baseDelay)
    {
      var outcome := attempts(attempt);
      TotalSleep(sleeps, baseDelay);
      if outcome.Returned? {
        return Some(outcome), sleeps, newCounter;
      }
      if !outcome.exc.retryable {
        return Some(outcome), sleeps, newCounter;
      }
      lastExc := Some(outcome.exc);
      if !IsTransient(outcome.exc.message) {
        return Some(outcome), sleeps, newCounter;
      }
      if attempt < maxRetries {
        var delay := Delay(baseDelay, attempt);
        newCounter := newCounter + 1;
        assert attempt == |sleeps|;
        OneMoreSleep(sleeps, baseDelay);
        assert BackedOff(sleeps + [delay], baseDelay);
        sleeps := sleeps + [delay];
      }
      attempt := attempt + 1;
    }
    TotalSleep(sleeps, baseDelay);
    result := if lastExc.Some? then Some(Raised(lastExc.value)) else None;
  }

  lemma NoSleep(base: real)
    ensures BackedOff([], base)
  {
  }

  lemma OneMoreSleep(sleeps: seq<real>, base: real)
    requires BackedOff(sleeps, base)
    ensures BackedOff(sleeps + [Delay(base, |sleeps|)], base)
  {
    hide Delay;
  }

  /** The delays of `k` retries add up to `base * (2^k - 1)`. */
  lemma {:induction false} TotalSleep(sleeps: seq<real>, base: real)
    requires BackedOff(sleeps, base)
    ensures Sum(sleeps) == base * (Pow2(|sleeps|) - 1) as real
    decreases |sleeps|
  {
    if sleeps != [] {
      var k := |sleeps| - 1;
      TotalSleep(sleeps[..k], base);
      var p := Pow2(k) as real;
      assert (Pow2(k) - 1) as real == p - 1.0 && (Pow2(k + 1) - 1) as real == 2.0 * p - 1.0;
      assert sleeps[k] == Delay(base, k) == base * p;
      assert base * (p - 1.0) + base * p == base * (2.0 * p - 1.0);
    }
  }

  /** The outcomes alone fix the number of retries, and more permitted retries never change
      a run that ended before it used them up. */
  lemma RetriesDetermined<T(!new)>(attempts: nat -> Outcome<T>, maxRetries: nat, more: nat, j: nat, k: nat)
    requires maxRetries <= more
    requires Attempted(attempts, maxRetries, j) && Attempted(attempts, more, k)
    ensures j <= k
    ensures j < maxRetries || more == maxRetries || !Retried(attempts(j)) ==> j == k
  {
    hide Retried;
    assert k < j ==> Retried(attempts(k));
    assert j < k ==> Retried(attempts(j));
  }

  /** A success is preceded only by transient failures, and a failure is what the caller sees
      only if it is not transient or came from the last permitted attempt. */
  lemma RetryMeaning<T(!new)>(attempts: nat -> Outcome<T>, maxRetries: nat, k: nat)
    requires Attempted(attempts, maxRetries, k)
    ensures attempts(k).Returned? <==>
            exists i: nat :: i <= maxRetries && attempts(i).Returned? && forall j: nat :: j < i ==> Retried(attempts(j))
    ensures attempts(k).Raised? && Retried(attempts(k)) ==>
              k == maxRetries && forall i: nat :: i <= maxRetries ==> Retried(attempts(i))
  {
    if i: nat :| i <= maxRetries && attempts(i).Returned? && forall j: nat :: j < i ==> Retried(attempts(j)) {
      assert i == k;
    }
  }

  /** A message is transient exactly if, in lower case, one of eight phrases occurs in it. */
  lemma TransientIff(text: string)
    ensures IsTransient(text) <==>
            var l := Lower(text);
            || Contains(l, "connection refused") || Contains(l, "connection reset") || Contains(l, "timed out")
            || Contains(l, "timeout") || Contains(l, "resource temporarily unavailable")
            || Contains(l, "no route to host") || Contains(l, "network is unreachable") || Contains(l, "broken pipe")
  {
    hide Contains, Lower;
    var ps := TRANSIENT_PATTERNS;
    assert ps[0] in ps && ps[1] in ps && ps[2] in ps && ps[3] in ps && ps[4] in ps && ps[5] in ps && ps[6] in ps && ps[7] in ps;
  }

  /** Another attempt follows exactly a `RuntimeError` or an `OSError` with such a message. */
  lemma RetriedIff<T>(o: Outcome<T>)
    ensures Retried(o) <==> exists message :: o == Raised(Failure(true, message)) && IsTransient(message)
  {
    hide IsTransient;
    if Retried(o) {
      assert o == Raised(Failure(true, o.exc.message));
    }
  }

  /** The pattern test ignores the case and whatever surrounds the message. */
  lemma TransientInside(before: string, text: string, after: string)
    ensures IsTransient(Lower(text)) == IsTransient(text)
    ensures IsTransient(text) ==> IsTransient(before + text + after)
  {
    hide Contains;
    assert Lower(Lower(text)) == Lower(text);
    if IsTransient(text) {
      var p :| p in TRANSIENT_PATTERNS && Contains(Lower(text), p);
      ContainsInside(before, text, after, p);
    }
  }

  lemma ContainsInside(before: string, text: string, after: string, part: string)
    requires Contains(Lower(text), part)
    ensures Contains(Lower(before + text + after), part)
  {
    var i: nat :| i <= |Lower(text)| && OccursAt(Lower(text), part, i);
    var all, n: nat := Lower(before + text + after), |before| + i;
    assert all[n..n + |part|] == Lower(text)[i..i + |part|];
    assert OccursAt(all, part, n);
  }
}
