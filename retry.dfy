/**
  `withRetries` of scripts/downloadResumes.js and scripts/downloadResumesFlat.js: up to
  `retries + 1` calls of an operation, stopping at the first success, with an exponential
  back-off after rate-limit and server errors and a constant one after the others.
*/
module Retry {
  import opened Wrappers

  /** What one call of the operation did: a value, or an error with the HTTP status of its response, if any. */
  datatype Attempt<T> = Ok(value: T) | Err(status: Option<int>)

  /** `status === 429 || (status >= 500 && status <= 599)`. */
  predicate Transient(status: Option<int>) {
    status.Some? && (status.value == 429 || 500 <= status.value <= 599)
  }

  function Pow2(n: nat): (r: nat)
    ensures r >= 1
  {
    if n == 0 then 1 else 2 * Pow2(n - 1)
  }

  /** The wait after the failed call number `i` (counted from 0): `baseMs * 2^i` when transient, else `baseMs`. */
  function Backoff(status: Option<int>, i: nat, baseMs: nat): (ms: nat)
    ensures baseMs <= ms <= baseMs * Pow2(i)
    ensures !Transient(status) ==> ms == baseMs
  {
    if Transient(status) then baseMs * Pow2(i) else baseMs
  }

  function Sum(s: seq<nat>): nat {
    if s == [] then 0 else Sum(s[..|s| - 1]) + s[|s| - 1]
  }

  /** What `withRetries` settles on from call number `i` on: the first success, or the error of call number `retries`. */
  function FirstOk<T>(call: nat -> Attempt<T>, i: nat, retries: nat): Attempt<T>
    requires i <= retries
    decreases retries - i
  {
    if call(i).Ok? || i == retries then call(i) else FirstOk(call, i + 1, retries)
  }

  function Outcome<T>(call: nat -> Attempt<T>, retries: nat): Attempt<T> {
    FirstOk(call, 0, retries)
  }

  /** The outcome fails only when every one of the `retries + 1` calls fails. */
  lemma {:induction false} OutcomeFails<T>(call: nat -> Attempt<T>, i: nat, retries: nat)
    requires i <= retries
    ensures FirstOk(call, i, retries).Err? <==> forall j :: i <= j <= retries ==> call(j).Err?
    decreases retries - i
  {
    if i < retries && call(i).Err? {
      OutcomeFails(call, i + 1, retries);
    }
  }

  /**
    `withRetries(fn, {retries, baseMs})`, where `call(i)` is what the call number `i` does:
    it returns the first success, or the last error after `retries + 1` failures, together
    with how many calls were made and the waits between them (none after the last call).
  */
  method WithRetries<T>(call: nat -> Attempt<T>, retries: nat, baseMs: nat)
    returns (result: Attempt<T>, calls: nat, waits: seq<nat>)
    ensures 1 <= calls <= retries + 1
    ensures result == call(calls - 1) && result == Outcome(call, retries)
    ensures forall j :: 0 <= j < calls - 1 ==> call(j).Err?
    ensures result.Err? ==> calls == retries + 1
    ensures |waits| == calls - 1
    ensures forall j :: 0 <= j < |waits| ==> call(j).Err? && waits[j] == Backoff(call(j).status, j, baseMs)
    ensures Sum(waits) <= baseMs * (Pow2(calls - 1) - 1)
  {
    var last: Option<Attempt<T>> := None;
    waits := [];
    var i := 0;
    while i <= retries
      invariant i <= retries + 1
      invariant i > 0 ==> last == Some(call(i - 1))
      invariant forall j :: 0 <= j < i ==> call(j).Err?
      invariant i <= retries ==> Outcome(call, retries) == FirstOk(call, i, retries)
      invariant i > retries ==> Outcome(call, retries) == call(retries)
      invariant |waits| == (if i <= retries then i else retries)
      invariant Waited(call, waits, baseMs)
    {
      var outcome := call(i);
      if outcome.Ok? {
        result, calls := outcome, i + 1;
        return;
      }
      last := Some(outcome);
      FirstOkSkips(call, i, retries);
      if i < retries {
        var ms := Backoff(outcome.status, i, baseMs);
        WaitedGrows(call, waits, baseMs);
        waits := waits + [ms];
      }
      i := i + 1;
    }
    result, calls := last.value, retries + 1;
  }

  /** A failed call passes the decision on to the next one, or is the outcome when it is the last. */
  lemma FirstOkSkips<T>(call: nat -> Attempt<T>, i: nat, retries: nat)
    requires i <= retries && call(i).Err?
    ensures i < retries ==> FirstOk(call, i, retries) == FirstOk(call, i + 1, retries)
    ensures i == retries ==> FirstOk(call, i, retries) == call(i)
  {
  }

  /** The waits so far: one per failed call, each its back-off, and within the geometric bound in total. */
  ghost predicate Waited<T>(call: nat -> Attempt<T>, waits: seq<nat>, baseMs: nat) {
    && (forall j :: 0 <= j < |waits| ==> call(j).Err? && waits[j] == Backoff(call(j).status, j, baseMs))
    && Sum(waits) <= baseMs * (Pow2(|waits|) - 1)
  }

  /** Waiting after one more failed call keeps `Waited`. */
  lemma WaitedGrows<T>(call: nat -> Attempt<T>, waits: seq<nat>, baseMs: nat)
    requires Waited(call, waits, baseMs) && call(|waits|).Err?
    ensures Waited(call, waits + [Backoff(call(|waits|).status, |waits|, baseMs)], baseMs)
  {
    var ms := Backoff(call(|waits|).status, |waits|, baseMs);
    SumGrows(waits, ms, baseMs);
  }

  /** Adding the wait after call number `|waits|` keeps the total within the geometric bound. */
  lemma SumGrows(waits: seq<nat>, ms: nat, baseMs: nat)
    requires Sum(waits) <= baseMs * (Pow2(|waits|) - 1)
    requires ms <= baseMs * Pow2(|waits|)
    ensures Sum(waits + [ms]) <= baseMs * (Pow2(|waits + [ms]|) - 1)
  {
    assert (waits + [ms])[..|waits|] == waits;
  }
}
