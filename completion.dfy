/** The call to the completion service with its retry-on-rate-limit loop. The
    service itself is outside the model: it is given as the answer it would give
    to each attempt. */
module Completion {
  import opened Strings

  /** What one call of `generate_content` does: it returns a response whose text
      may be empty, or it raises an error whose text is `message`. */
  datatype Answer = Text(text: string) | Raised(message: string)

  /** The completion service: its answer to the attempt numbered `attempt`
      (0 for the first call) with the given prompt. */
  type Service = (string, nat) -> Answer

  /** `max_retries`: the loop makes at most this many calls. */
  const MaxRetries: nat := 3

  /** The rate-limit test of the loop: the error's text contains "429". */
  predicate RateLimited(answer: Answer) {
    answer.Raised? && Contains(answer.message, "429")
  }

  /** The loop from the call numbered `attempt` on: the answer it ends with and the
      number of calls made in all. Only a rate-limited error is retried, and only
      while fewer than MaxRetries - 1 retries have been made; any other error, or a
      rate limit on the last allowed attempt, propagates. */
  function RetryFrom(ask: Service, prompt: string, attempt: nat): (r: (Answer, nat))
    requires attempt < MaxRetries
    ensures attempt < r.1 <= MaxRetries
    ensures r.0 == ask(prompt, r.1 - 1)
    ensures forall j :: attempt <= j < r.1 - 1 ==> RateLimited(ask(prompt, j))
    ensures RateLimited(r.0) ==> r.1 == MaxRetries
    decreases MaxRetries - attempt
  {
    var answer := ask(prompt, attempt);
    if RateLimited(answer) && attempt < MaxRetries - 1 then RetryFrom(ask, prompt, attempt + 1)
    else (answer, attempt + 1)
  }

  /** The whole loop, from the first call. */
  function CallWithRetry(ask: Service, prompt: string): (r: (Answer, nat))
    ensures 1 <= r.1 <= MaxRetries
  {
    RetryFrom(ask, prompt, 0)
  }

  /** The retry loop of `process_message`: `retry_count` counts the retries made,
      so the call it makes is the one numbered `retry_count`. */
  method GenerateWithRetry(ask: Service, prompt: string) returns (answer: Answer, calls: nat)
    ensures (answer, calls) == CallWithRetry(ask, prompt)
  {
    var retryCount := 0;
    while retryCount < MaxRetries
      invariant retryCount < MaxRetries
      invariant RetryFrom(ask, prompt, retryCount) == CallWithRetry(ask, prompt)
    {
      answer := ask(prompt, retryCount);
      calls := retryCount + 1;
      if RateLimited(answer) && retryCount < MaxRetries - 1 {
        retryCount := retryCount + 1;
      } else {
        return;
      }
    }
  }

  /** The outcome is fixed by the answers: the loop stops at the first answer that
      is not a rate limit, or at the third call, whichever comes first. */
  lemma {:induction false} RetryOutcome(ask: Service, prompt: string, calls: nat)
    requires 1 <= calls <= MaxRetries
    requires forall j :: 0 <= j < calls - 1 ==> RateLimited(ask(prompt, j))
    requires !RateLimited(ask(prompt, calls - 1)) || calls == MaxRetries
    ensures CallWithRetry(ask, prompt) == (ask(prompt, calls - 1), calls)
  {
    var r := CallWithRetry(ask, prompt);
    var stop: nat, expected: nat := r.1 - 1, calls - 1;
    // The loop cannot stop before `calls`: every earlier answer is a rate limit.
    assert r.1 < calls ==> RateLimited(ask(prompt, stop));
    // Nor go past it: the answer to call `calls` would have to be a rate limit.
    assert r.1 > calls ==> RateLimited(ask(prompt, expected));
  }

  /** An error without "429" ends the loop at the first call, without retry. */
  lemma OtherErrorNotRetried(ask: Service, prompt: string)
    requires ask(prompt, 0).Raised? && !RateLimited(ask(prompt, 0))
    ensures CallWithRetry(ask, prompt) == (ask(prompt, 0), 1)
  {
    RetryOutcome(ask, prompt, 1);
  }

  /** Two rate limits and then a response: exactly three calls, and the response is used. */
  lemma SuccessAfterTwoRateLimits(ask: Service, prompt: string)
    requires RateLimited(ask(prompt, 0)) && RateLimited(ask(prompt, 1))
    requires ask(prompt, 2).Text?
    ensures CallWithRetry(ask, prompt) == (ask(prompt, 2), 3)
  {
    RetryOutcome(ask, prompt, 3);
  }

  /** A third rate limit is not retried: it propagates after exactly three calls. */
  lemma ThirdRateLimitPropagates(ask: Service, prompt: string)
    requires forall j :: 0 <= j < MaxRetries ==> RateLimited(ask(prompt, j))
    ensures CallWithRetry(ask, prompt) == (ask(prompt, 2), 3)
    ensures CallWithRetry(ask, prompt).0.Raised?
  {
    RetryOutcome(ask, prompt, 3);
  }
}
