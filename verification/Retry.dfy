/** Retrying HTTP requests with exponential backoff and jitter. Durations are real numbers. */
module Retry {
  import opened Wrappers

  datatype Response = Response(statusCode: int, body: string)

  /** What one attempt comes to. */
  datatype Attempt = Reply(response: Response) | NetworkError(message: string)

  datatype Error = FromNetwork(message: string) | ContextDone

  datatype Config = Config(maxWait: real, maxRetry: int, duration: real, factor: real, jitter: real)

  /** 429 is section 4 of RFC 6585; 408 is section 15.5.9 and 503 section 15.6.4 of RFC 9110. */
  predicate Retryable(r: Response) {
    r.statusCode == 429 || r.statusCode == 408 || r.statusCode == 503
  }

  function Pow(base: real, exponent: nat): real {
    if exponent == 0 then 1.0 else base * Pow(base, exponent - 1)
  }

  function Exponential(config: Config, attempt: nat): real {
    config.duration * Pow(config.factor, attempt)
  }

  function Jittered(config: Config, attempt: nat, draw: Option<real>): real {
    var base := Exponential(config, attempt);
    if config.jitter > 0.0 && draw.Some? then base + base * config.jitter * draw.value else base
  }

  function Backoff(config: Config, attempt: nat, draw: Option<real>): real {
    if attempt == 0 then config.duration
    else if Jittered(config, attempt, draw) > config.maxWait then config.maxWait
    else Jittered(config, attempt, draw)
  }

  /** `draw` is the random number, if one could be drawn. The first wait is the base duration;
      every later one is the exponential one with the jitter added, but never above the cap. */
  method CalculateBackoff(config: Config, attempt: nat, draw: Option<real>) returns (duration: real)
    ensures duration == Backoff(config, attempt, draw)
  {
    if attempt == 0 {
      return config.duration;
    }
    duration := Exponential(config, attempt);
    if config.jitter > 0.0 {
      var jitter := duration * config.jitter;
      if draw.Some? {
        duration := duration + jitter * draw.value;
      }
    }
    if duration > config.maxWait {
      duration := config.maxWait;
    }
  }

  /** What the attempts come to, whether the context is done while waiting after an attempt and for
      how long the wait has lasted then, and the random numbers. */
  datatype World = World(attempts: nat -> Attempt, doneAfter: nat -> bool, cutShort: nat -> real, draws: nat -> Option<real>)

  /** How long the wait after attempt `k` lasts: not at all but after a response that is retried, and
      no longer than until the context is done. */
  function WaitAfter(config: Config, w: World, k: nat): real {
    if w.attempts(k).NetworkError? || !Retryable(w.attempts(k).response) then 0.0
    else Cut(Backoff(config, k, w.draws(k)), if w.doneAfter(k) then Some(w.cutShort(k)) else None)
  }

  /** The backoff, or what of it has passed when the context is done. */
  function Cut(backoff: real, cut: Option<real>): real {
    var whole := if backoff > 0.0 then backoff else 0.0;
    if cut.None? || cut.value >= whole then whole else if cut.value > 0.0 then cut.value else 0.0
  }

  function TotalWait(config: Config, w: World, n: nat): real {
    if n == 0 then 0.0 else TotalWait(config, w, n - 1) + WaitAfter(config, w, n - 1)
  }

  /** Whether attempt `k` is the last one whatever the limit. */
  predicate Ends(w: World, k: nat) {
    w.attempts(k).Reply? && (Retryable(w.attempts(k).response) ==> w.doneAfter(k))
  }

  /** The last response among the first `n` attempts. */
  function LastResponse(w: World, n: nat): Option<Response> {
    if n == 0 then None
    else if w.attempts(n - 1).Reply? then Some(w.attempts(n - 1).response)
    else LastResponse(w, n - 1)
  }

  /** The error of the last of the first `n` attempts. */
  function LastError(w: World, n: nat): Option<Error> {
    if n > 0 && w.attempts(n - 1).NetworkError? then Some(FromNetwork(w.attempts(n - 1).message)) else None
  }

  lemma {:induction false} LastResponseIff(w: World, n: nat)
    ensures LastResponse(w, n).Some? <==> exists k: nat :: k < n && w.attempts(k).Reply?
  {
    if n > 0 {
      LastResponseIff(w, n - 1);
    }
  }

  /** Whether a response and an error are returned together after so many requests: the context was
      done while waiting, or the last of all attempts failed after an earlier one was answered. */
  ghost predicate BothReturned(w: World, requests: nat) {
    && requests > 0
    && if w.attempts(requests - 1).Reply? then Retryable(w.attempts(requests - 1).response) && w.doneAfter(requests - 1)
       else exists k: nat :: k < requests && w.attempts(k).Reply?
  }

  lemma BothReturnedIff(w: World, n: nat)
    requires n > 0 && !Ends(w, n - 1)
    ensures LastResponse(w, n).Some? && LastError(w, n).Some? <==> BothReturned(w, n)
  {
    LastResponseIff(w, n);
  }

  /** No more requests are sent than allowed, nor is the total wait longer. A reply that is not to
      be retried is returned as it is; so is one during whose wait the context is done, with that
      error. Otherwise the last reply and the error of the last attempt are returned. */
  method RoundTrip(config: Config, w: World)
    returns (resp: Option<Response>, err: Option<Error>, requests: nat, waited: real)
    ensures config.maxRetry < 0 ==> requests == 0 && resp == None && err == None
    ensures config.maxRetry >= 0 ==> 1 <= requests <= config.maxRetry + 1
    ensures waited == TotalWait(config, w, requests)
    ensures WithinBudget(config, waited)
    ensures forall k: nat | k + 1 < requests :: !Ends(w, k)
    ensures requests > 0 && Ends(w, requests - 1) ==>
              && resp == Some(w.attempts(requests - 1).response)
              && err == if Retryable(w.attempts(requests - 1).response) then Some(ContextDone) else None
    ensures requests > 0 && !Ends(w, requests - 1) ==>
              && requests == config.maxRetry + 1
              && resp == LastResponse(w, requests) && err == LastError(w, requests)
    ensures resp.Some? && err.Some? <==> BothReturned(w, requests)
  {
    var lastErr: Option<Error> := None;
    var lastResp: Option<Response> := None;
    requests, waited := 0, 0.0;
    var attempt := 0;
    while attempt <= config.maxRetry
      invariant requests == attempt && (attempt > 0 ==> attempt <= config.maxRetry + 1)
      invariant forall k: nat | k < attempt :: !Ends(w, k)
      invariant lastResp == LastResponse(w, attempt) && lastErr == LastError(w, attempt)
      invariant waited == TotalWait(config, w, attempt)
      decreases config.maxRetry + 1 - attempt
    {
      requests := requests + 1;
      WaitIsWithinBudget(config, w, requests);
      var result := w.attempts(attempt);
      if result.NetworkError? {
        lastErr := Some(FromNetwork(result.message));
        attempt := attempt + 1;
        continue;
      }
      if Retryable(result.response) {
        lastResp := Some(result.response);
        lastErr := None;
        var backoff := CalculateBackoff(config, attempt, w.draws(attempt));
        waited := Wait(waited, backoff, if w.doneAfter(attempt) then Some(w.cutShort(attempt)) else None);
        if w.doneAfter(attempt) {
          return Some(result.response), Some(ContextDone), requests, waited;
        }
        attempt := attempt + 1;
        continue;
      }
      return Some(result.response), None, requests, waited;
    }
    resp, err := lastResp, lastErr;
    if requests > 0 {
      BothReturnedIff(w, requests);
    }
    if config.maxRetry >= 0 {
      WaitIsWithinBudget(config, w, requests);
    }
  }

  // ----- waiting -----

  /** No longer than a wait after every attempt. */
  predicate WithinBudget(config: Config, waited: real) {
    config.maxRetry >= 0 && config.duration >= 0.0 && config.maxWait >= 0.0 ==>
      0.0 <= waited <= Budget(config, config.maxRetry + 1)
  }

  lemma WaitIsWithinBudget(config: Config, w: World, n: nat)
    requires n <= config.maxRetry + 1
    ensures WithinBudget(config, TotalWait(config, w, n))
  {
    WaitIsBounded(config, w, n, config.maxRetry + 1);
  }

  /** That is the base duration once, and the longest wait for each retry. */
  lemma WholeBudget(config: Config, retries: nat)
    ensures Budget(config, retries + 1) == config.duration + retries as real * config.maxWait
  {
  }

  /** The first wait is not capped, the others are. */
  function Budget(config: Config, waits: nat): real {
    if waits == 0 then 0.0 else config.duration + (waits - 1) as real * config.maxWait
  }

  /** Waits for the whole backoff or, if the context is done before, for a part of it. */
  method Wait(before: real, backoff: real, cut: Option<real>) returns (waited: real)
    ensures waited == before + Cut(backoff, cut)
  {
    var wait := if backoff > 0.0 then backoff else 0.0;
    if cut.Some? && cut.value < wait {
      wait := if cut.value > 0.0 then cut.value else 0.0;
    }
    waited := before + wait;
  }

  lemma OneMoreWait(config: Config, waits: nat)
    ensures Budget(config, waits + 1) == Budget(config, waits) + if waits == 0 then config.duration else config.maxWait
  {
    if waits > 0 {
      assert waits as real * config.maxWait == (waits - 1) as real * config.maxWait + config.maxWait;
    }
  }

  /** The first wait is the base duration and the others are capped, so all together are bounded. */
  lemma {:induction false} WaitIsBounded(config: Config, w: World, n: nat, most: nat)
    requires n <= most
    ensures config.duration >= 0.0 && config.maxWait >= 0.0 ==> 0.0 <= TotalWait(config, w, n) <= Budget(config, most)
    decreases most
  {
    if most > 0 {
      WaitIsBounded(config, w, if n == most then n - 1 else n, most - 1);
      OneMoreWait(config, most - 1);
    }
  }

  /** After a reply that is retried and a network error, the old reply is returned with the error. */
  lemma ReplyAndErrorTogether(w: World, r: Response, message: string)
    requires w.attempts(0) == Reply(r) && Retryable(r) && !w.doneAfter(0) && w.attempts(1) == NetworkError(message)
    ensures !Ends(w, 0) && !Ends(w, 1) && BothReturned(w, 2)
    ensures LastResponse(w, 2) == Some(r) && LastError(w, 2) == Some(FromNetwork(message))
  {
    assert LastResponse(w, 1) == Some(r);
  }


  // ----- in so many words -----

  /** A response is final unless its status is 429, 408 or 503 and the context lasts. */
  lemma EndsIff(w: World, k: nat)
    ensures Ends(w, k)
            <==> exists r :: w.attempts(k) == Reply(r)
                             && ((r.statusCode != 429 && r.statusCode != 408 && r.statusCode != 503) || w.doneAfter(k))
  {
    if w.attempts(k).Reply? {
      assert w.attempts(k) == Reply(w.attempts(k).response);
    }
  }

  /** Without jitter each wait is the one before times the factor, starting from the base duration. */
  lemma ExponentialGrows(config: Config, attempt: nat)
    ensures Exponential(config, 0) == config.duration
    ensures Exponential(config, attempt + 1) == Exponential(config, attempt) * config.factor
  {
    var power := Pow(config.factor, attempt);
    assert Pow(config.factor, attempt + 1) == config.factor * power;
    assert config.duration * (config.factor * power) == (config.duration * power) * config.factor;
  }

  /** The base duration first; then never above the cap and, below it, the exponential wait, which the
      jitter changes by the given part of it. */
  lemma BackoffIs(config: Config, k: nat, draw: Option<real>)
    ensures Backoff(config, 0, draw) == config.duration
    ensures k > 0 ==> Backoff(config, k, draw) <= config.maxWait
    ensures var wait := Exponential(config, k) * if config.jitter > 0.0 && draw.Some? then 1.0 + config.jitter * draw.value else 1.0;
            k > 0 ==> Backoff(config, k, draw) == if wait <= config.maxWait then wait else config.maxWait
  {
    var base := Exponential(config, k);
    if config.jitter > 0.0 && draw.Some? {
      assert base * (1.0 + config.jitter * draw.value) == base + base * config.jitter * draw.value;
    }
  }

  /** After each response with one of these statuses the whole backoff is waited for, unless the
      context is done; after a network error nothing. */
  lemma WaitsAre(config: Config, w: World, k: nat)
    ensures forall r | w.attempts(k) == Reply(r) && r.statusCode in {429, 408, 503} && !w.doneAfter(k) && Backoff(config, k, w.draws(k)) >= 0.0 ::
              TotalWait(config, w, k + 1) == TotalWait(config, w, k) + Backoff(config, k, w.draws(k))
    ensures w.attempts(k).NetworkError? ==> TotalWait(config, w, k + 1) == TotalWait(config, w, k)
  {
  }

  /** When all attempts are used up the last response there was is returned, and an error if and only
      if the last attempt ended in one. */
  lemma {:induction false} LastOfAttempts(w: World, n: nat, k: nat)
    requires k < n && forall j: nat | k < j < n :: w.attempts(j).NetworkError?
    ensures forall r | w.attempts(k) == Reply(r) :: LastResponse(w, n) == Some(r)
    ensures forall message :: LastError(w, n) == Some(FromNetwork(message)) <==> w.attempts(n - 1) == NetworkError(message)
    ensures LastError(w, n) != Some(ContextDone)
  {
    if k < n - 1 {
      LastOfAttempts(w, n - 1, k);
    }
  }
}
