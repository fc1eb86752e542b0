/** How long one request may wait on the identity provider: a jittered schedule of attempts, each
    under its own timeout, the whole under a deadline that later calls share. Times are
    nanoseconds; what the upstream answers and how the jitter falls are arbitrary. */
module Retry {
  import opened Wrappers

  const SECOND := 1_000_000_000
  const ATTEMPT_TIMEOUT := SECOND
  const DELAY_BUDGET := 10 * SECOND
  const UPSTREAM_BUDGET := 14 * SECOND
  const MAX_TIMES := 5

  datatype Upstream = Rejected | Unreachable

  /** What the upstream does with an attempt: answer after a while, or never. */
  datatype Reply<T> = Hangs | Answers(after: nat, result: Result<T, Upstream>)

  /** Replies may depend on which attempt it is and on when it starts. */
  type Behaviour<T> = (nat, int) -> Reply<T>

  /** The delay after attempt `k` without jitter: one second, doubled each time. */
  function Base(k: nat): (delay: nat)
    ensures delay >= SECOND
  {
    if k == 0 then SECOND else 2 * Base(k - 1)
  }

  /** Jitter only ever adds, and less than the base. */
  ghost predicate Jitter(extra: nat -> nat) {
    forall k :: extra(k) < Base(k)
  }

  predicate TimesOut<T>(reply: Reply<T>) {
    reply.Hangs? || reply.after > ATTEMPT_TIMEOUT
  }

  function Duration<T>(reply: Reply<T>): nat {
    if TimesOut(reply) then ATTEMPT_TIMEOUT else reply.after
  }

  function Verdict<T>(reply: Reply<T>): Result<T, Upstream> {
    if TimesOut(reply) then Err(Unreachable) else reply.result
  }

  /** How a call went: its result, when it was over, when its attempts began, how long it slept. */
  datatype Ended<T> = Ended(result: Result<T, Upstream>, at: int, starts: seq<int>, slept: nat)

  /** What becomes of one attempt: the call is over, or it sleeps before the next. */
  datatype Move<T> = Stop(result: Result<T, Upstream>, at: int) | Again(at: int, delay: nat)

  /** Attempt `k`, begun at `now`, with the delay after it that jitter is added to: what the
      schedule makes of the reply when nothing cuts it short. */
  function Uncut<T>(deadline: int, reply: Reply<T>, jitter: nat, k: nat, base: nat, now: int, slept: nat): Move<T> {
    var done, delay := now + Duration(reply), base + jitter;
    if Verdict(reply) == Err(Unreachable) && done < deadline && k < MAX_TIMES && slept + delay <= DELAY_BUDGET
    then Again(done + delay, delay)
    else Stop(Verdict(reply), done)
  }

  /** The timeout around the whole schedule: it strikes at `limit`, whether an attempt is running or
      the schedule sleeps. A timer due at the very instant comes after the work that is due then. */
  function Attempt<T>(deadline: int, limit: int, reply: Reply<T>, jitter: nat, k: nat, base: nat, now: int,
      slept: nat): Move<T> {
    var move := Uncut(deadline, reply, jitter, k, base, now, slept);
    if move.at > limit then Stop(Err(Unreachable), limit) else move
  }

  /** The schedule from attempt `k` on: the delay doubles from one attempt to the next. */
  function Within<T>(deadline: int, limit: int, behaves: Behaviour<T>, extra: nat -> nat, k: nat, base: nat,
      now: int, slept: nat): (ended: Ended<T>)
    requires k <= MAX_TIMES
    ensures |ended.starts| >= 1 && ended.starts[0] == now
    decreases MAX_TIMES - k, now
  {
    match Attempt(deadline, limit, behaves(k, now), extra(k), k, base, now, slept)
    case Stop(result, at) => Ended(result, at, [now], slept)
    case Again(next, delay) =>
      var rest := Within(deadline, limit, behaves, extra, k + 1, 2 * base, next, slept + delay);
      rest.(starts := [now] + rest.starts)
  }

  function Limit(deadline: int, now: int): int {
    if deadline > now then deadline else now
  }

  /** One call begun at `now` under a deadline. */
  function Call<T>(deadline: int, behaves: Behaviour<T>, extra: nat -> nat, now: int): Ended<T> {
    Within(deadline, Limit(deadline, now), behaves, extra, 0, SECOND, now, 0)
  }

  /** The schedule's first attempt split off. */
  lemma WithinStep<T>(deadline: int, limit: int, behaves: Behaviour<T>, extra: nat -> nat, k: nat, base: nat,
                      now: int, slept: nat, move: Move<T>, ended: Ended<T>) returns (rest: Ended<T>)
    requires k <= MAX_TIMES
    requires move == Attempt(deadline, limit, behaves(k, now), extra(k), k, base, now, slept)
    requires ended == Within(deadline, limit, behaves, extra, k, base, now, slept)
    ensures move.Stop? ==> ended == Ended(move.result, move.at, [now], slept)
    ensures move.Again? ==>
              && k < MAX_TIMES
              && rest == Within(deadline, limit, behaves, extra, k + 1, 2 * base, move.at, slept + move.delay)
              && ended == Ended(rest.result, rest.at, [now] + rest.starts, rest.slept)
  {
    rest := if move.Again? then Within(deadline, limit, behaves, extra, k + 1, 2 * base, move.at, slept + move.delay)
      else ended;
  }

  /** One attempt under its own timeout, and the decision whether another follows. */
  method Try<T>(deadline: int, limit: int, reply: Reply<T>, jitter: nat, k: nat, base: nat, now: int,
      slept: nat)
    returns (move: Move<T>)
    ensures move == Attempt(deadline, limit, reply, jitter, k, base, now, slept)
  {
    var done := now + ATTEMPT_TIMEOUT;
    var verdict: Result<T, Upstream> := Err(Unreachable);
    if reply.Answers? && reply.after <= ATTEMPT_TIMEOUT {
      done, verdict := now + reply.after, reply.result;
    }
    if done > limit {
      return Stop(Err(Unreachable), limit);
    }
    var retryable := verdict == Err(Unreachable) && done < deadline;
    if !retryable || k >= MAX_TIMES {
      return Stop(verdict, done);
    }
    var delay := base + jitter;
    if slept + delay > DELAY_BUDGET {
      return Stop(verdict, done);
    }
    if done + delay > limit {
      return Stop(Err(Unreachable), limit);
    }
    return Again(done + delay, delay);
  }

  /** Having made `k` attempts and reached this point, the call will end as `whole` does. */
  ghost predicate Reaches<T>(whole: Ended<T>, rest: Ended<T>, k: nat) {
    whole.result == rest.result && whole.at == rest.at && |whole.starts| == k + |rest.starts|
  }

  /** The retry loop a call really is. */
  method Retried<T>(deadline: int, limit: int, behaves: Behaviour<T>, extra: nat -> nat, start: int,
      ghost whole: Ended<T>)
      returns (result: Result<T, Upstream>, at: int, attempts: nat)
    requires whole == Within(deadline, limit, behaves, extra, 0, SECOND, start, 0)
    ensures result == whole.result && at == whole.at && attempts == |whole.starts|
  {
    var k: nat, base: nat, now: int, slept: nat := 0, SECOND, start, 0;
    ghost var rest := whole;
    while true
      invariant k <= MAX_TIMES
      invariant rest == Within(deadline, limit, behaves, extra, k, base, now, slept)
      invariant Reaches(whole, rest, k)
      decreases MAX_TIMES - k
    {
      var move := Try(deadline, limit, behaves(k, now), extra(k), k, base, now, slept);
      rest := WithinStep(deadline, limit, behaves, extra, k, base, now, slept, move, rest);
      match move {
        case Stop(verdict, over) => return verdict, over, k + 1;
        case Again(next, delay) => k, base, now, slept := k + 1, 2 * base, next, slept + delay;
      }
    }
  }

  method WithinOn<T>(deadline: int, behaves: Behaviour<T>, extra: nat -> nat, start: int)
      returns (result: Result<T, Upstream>, at: int, attempts: nat)
    ensures var ended := Call(deadline, behaves, extra, start);
            result == ended.result && at == ended.at && attempts == |ended.starts|
  {
    result, at, attempts := Retried(deadline, Limit(deadline, start), behaves, extra, start,
        Call(deadline, behaves, extra, start));
  }

  /** What so many attempts take at most, each its full second. */
  function AttemptTime(n: nat): nat { n * 1_000_000_000 }

  lemma {:induction false} Doubling(k: nat)
    requires k <= MAX_TIMES
    ensures Base(k) == (if k == 0 then 1 else if k == 1 then 2 else if k == 2 then 4 else if k == 3 then 8
            else if k == 4 then 16 else 32) * SECOND
  {
    if k > 0 { Doubling(k - 1); }
  }

  /** Whatever happens: at most four attempts, at most ten seconds asleep, over by the limit. */
  lemma {:induction false} WithinBounds<T>(deadline: int, limit: int, behaves: Behaviour<T>, extra: nat -> nat,
      k: nat, base: nat, now: int, slept: nat, ended: Ended<T>)
    requires k <= 3 && base == Base(k) && now <= limit
    requires base - SECOND <= slept <= DELAY_BUDGET
    requires ended == Within(deadline, limit, behaves, extra, k, base, now, slept)
    ensures 1 <= |ended.starts| <= 4 - k
    ensures slept <= ended.slept <= DELAY_BUDGET
    ensures now <= ended.at <= limit
    ensures ended.at <= now + AttemptTime(4 - k) + (DELAY_BUDGET - slept)
    decreases 4 - k
  {
    Doubling(k);
    var move := Attempt(deadline, limit, behaves(k, now), extra(k), k, base, now, slept);
    var rest := WithinStep(deadline, limit, behaves, extra, k, base, now, slept, move, ended);
    if move.Again? {
      WithinBounds(deadline, limit, behaves, extra, k + 1, 2 * base, move.at, slept + move.delay, rest);
    }
  }

  /** One call: four attempts of one second and ten seconds of delay at the very most, and never
      past its deadline unless it started past it. */
  lemma CallBounds<T>(deadline: int, behaves: Behaviour<T>, extra: nat -> nat, now: int)
    ensures var ended := Call(deadline, behaves, extra, now);
            && 1 <= |ended.starts| <= 4
            && ended.slept <= DELAY_BUDGET
            && now <= ended.at <= Limit(deadline, now)
            && ended.at <= now + 4 * ATTEMPT_TIMEOUT + DELAY_BUDGET
  {
    WithinBounds(deadline, Limit(deadline, now), behaves, extra, 0, SECOND, now, 0,
        Call(deadline, behaves, extra, now));
  }

  /** Any number of calls made one after the other, with other work in between, under a deadline
      the first one set. */
  function Chain<T>(deadline: int, calls: seq<(Behaviour<T>, nat -> nat)>, now: int): int
    decreases |calls|
  {
    if calls == [] then now
    else Chain(deadline, calls[1..], Call(deadline, calls[0].0, calls[0].1, now).at)
  }

  /** A resolution's calls share one budget: however many there are, they end within fourteen
      seconds of the first one's start. */
  lemma {:induction false} SharedBudget<T>(start: int, calls: seq<(Behaviour<T>, nat -> nat)>, now: int)
    requires start <= now <= start + UPSTREAM_BUDGET
    ensures now <= Chain(start + UPSTREAM_BUDGET, calls, now) <= start + UPSTREAM_BUDGET
    decreases |calls|
  {
    if calls != [] {
      CallBounds(start + UPSTREAM_BUDGET, calls[0].0, calls[0].1, now);
      SharedBudget(start, calls[1..], Call(start + UPSTREAM_BUDGET, calls[0].0, calls[0].1, now).at);
    }
  }

  /** On a fresh deadline the timeout around the schedule never strikes: a call is what it would be
      with all the time in the world. */
  lemma {:induction false} BudgetFits<T>(start: int, deadline: int, behaves: Behaviour<T>, extra: nat -> nat, k: nat,
      base: nat, now: int, slept: nat)
    requires k <= 3 && base == Base(k) && base - SECOND <= slept <= DELAY_BUDGET
    requires now <= start + AttemptTime(k) + slept
    requires deadline >= start + UPSTREAM_BUDGET
    ensures Within(deadline, deadline, behaves, extra, k, base, now, slept)
            == Within(start + UPSTREAM_BUDGET, start + UPSTREAM_BUDGET, behaves, extra, k, base, now, slept)
    decreases 4 - k
  {
    var move := Attempt(deadline, deadline, behaves(k, now), extra(k), k, base, now, slept);
    SameMove(start, deadline, behaves(k, now), extra(k), k, base, now, slept);
    if move.Again? {
      BudgetFits(start, deadline, behaves, extra, k + 1, 2 * base, move.at, slept + move.delay);
    }
  }

  lemma SameMove<T>(start: int, deadline: int, reply: Reply<T>, jitter: nat, k: nat, base: nat, now: int, slept: nat)
    requires k <= 3 && base == Base(k) && base - SECOND <= slept <= DELAY_BUDGET
    requires now <= start + AttemptTime(k) + slept
    requires deadline >= start + UPSTREAM_BUDGET
    ensures var move := Attempt(deadline, deadline, reply, jitter, k, base, now, slept);
            && move == Attempt(start + UPSTREAM_BUDGET, start + UPSTREAM_BUDGET, reply, jitter, k, base, now, slept)
            && (move.Again? ==> k < 3 && Base(k + 1) - SECOND <= slept + move.delay <= DELAY_BUDGET
                                && move.at <= start + AttemptTime(k + 1) + slept + move.delay)
  {
    Doubling(k);
    Doubling(k + 1);
  }

  lemma FreshDeadlineNeverCuts<T>(start: int, deadline: int, behaves: Behaviour<T>, extra: nat -> nat)
    requires deadline >= start + UPSTREAM_BUDGET
    ensures Call(deadline, behaves, extra, start) == Call(start + UPSTREAM_BUDGET, behaves, extra, start)
  {
    BudgetFits(start, deadline, behaves, extra, 0, SECOND, start, 0);
  }

  /** Every attempt but the last went unanswered. */
  ghost predicate SilentUntilLast<T>(behaves: Behaviour<T>, k: nat, starts: seq<int>)
    decreases |starts|
  {
    |starts| > 1 ==> Verdict(behaves(k, starts[0])) == Err(Unreachable) && SilentUntilLast(behaves, k + 1, starts[1..])
  }

  /** The result is the last attempt's verdict, unless the deadline cut that attempt short. */
  ghost predicate EndsWithLast<T>(ended: Ended<T>, limit: int, behaves: Behaviour<T>, k: nat) {
    var n := |ended.starts|;
    && n > 0
    && var reply := behaves(k + n - 1, ended.starts[n - 1]);
    && (ended.result == Verdict(reply)
        || (ended.result == Err(Unreachable) && ended.at == limit < ended.starts[n - 1] + Duration(reply)))
  }

  lemma EarlierStart<T>(ended: Ended<T>, limit: int, behaves: Behaviour<T>, k: nat, now: int)
    requires EndsWithLast(ended, limit, behaves, k + 1)
    ensures EndsWithLast(ended.(starts := [now] + ended.starts), limit, behaves, k)
  {
    var n := |ended.starts|;
    assert ([now] + ended.starts)[n] == ended.starts[n - 1];
    assert k + 1 + n - 1 == k + (n + 1) - 1;
  }

  lemma SilentStep<T>(behaves: Behaviour<T>, k: nat, now: int, rest: seq<int>)
    requires Verdict(behaves(k, now)) == Err(Unreachable) && SilentUntilLast(behaves, k + 1, rest)
    ensures SilentUntilLast(behaves, k, [now] + rest)
  {
    assert ([now] + rest)[1..] == rest;
  }

  /** What is promised of a schedule, from attempt `k` on. */
  ghost predicate RetriesSilence<T>(ended: Ended<T>, limit: int, behaves: Behaviour<T>, k: nat) {
    SilentUntilLast(behaves, k, ended.starts) && EndsWithLast(ended, limit, behaves, k)
  }

  lemma OneAttempt<T>(deadline: int, limit: int, behaves: Behaviour<T>, jitter: nat, k: nat, base: nat, now: int,
                      slept: nat, move: Move<T>)
    requires move == Attempt(deadline, limit, behaves(k, now), jitter, k, base, now, slept)
    ensures move.Again? ==> Verdict(behaves(k, now)) == Err(Unreachable)
    ensures move.Stop? ==> RetriesSilence(Ended(move.result, move.at, [now], slept), limit, behaves, k)
  {
  }

  lemma OneMore<T>(limit: int, behaves: Behaviour<T>, k: nat, now: int, rest: Ended<T>, ended: Ended<T>)
    requires Verdict(behaves(k, now)) == Err(Unreachable) && RetriesSilence(rest, limit, behaves, k + 1)
    requires ended == Ended(rest.result, rest.at, [now] + rest.starts, rest.slept)
    ensures RetriesSilence(ended, limit, behaves, k)
  {
    SilentStep(behaves, k, now, rest.starts);
    EarlierStart(rest, limit, behaves, k, now);
    assert ended == rest.(starts := [now] + rest.starts);
  }

  /** Only silence is retried: an answer that arrives, acceptance or refusal, is the result at once,
      and a result of silence means the last attempt went unanswered or the deadline cut it. */
  lemma {:induction false} OnlySilenceIsRetried<T>(deadline: int, limit: int, behaves: Behaviour<T>,
                                                   extra: nat -> nat, k: nat, base: nat, now: int, slept: nat,
                                                   ended: Ended<T>)
    requires k <= MAX_TIMES
    requires ended == Within(deadline, limit, behaves, extra, k, base, now, slept)
    ensures RetriesSilence(ended, limit, behaves, k)
    decreases MAX_TIMES - k, now
  {
    var move := Attempt(deadline, limit, behaves(k, now), extra(k), k, base, now, slept);
    OneAttempt(deadline, limit, behaves, extra(k), k, base, now, slept, move);
    var rest := WithinStep(deadline, limit, behaves, extra, k, base, now, slept, move, ended);
    if move.Again? {
      OnlySilenceIsRetried(deadline, limit, behaves, extra, k + 1, 2 * base, move.at, slept + move.delay, rest);
      OneMore(limit, behaves, k, now, rest, ended);
    }
  }

  ghost predicate Silent<T>(behaves: Behaviour<T>) {
    forall k, now :: Verdict(behaves(k, now)) == Err(Unreachable)
  }

  /** Jitter can cost one retry, never two: an upstream that never answers is asked three or four
      times on a fresh deadline. */
  lemma SilenceGetsThreeOrFour<T>(behaves: Behaviour<T>, extra: nat -> nat, start: int)
    requires Silent(behaves) && Jitter(extra)
    ensures var ended := Call(start + UPSTREAM_BUDGET, behaves, extra, start);
            3 <= |ended.starts| <= 4 && ended.result == Err(Unreachable)
  {
    CallBounds(start + UPSTREAM_BUDGET, behaves, extra, start);
    OnlySilenceIsRetried(start + UPSTREAM_BUDGET, start + UPSTREAM_BUDGET, behaves, extra, 0, SECOND, start, 0,
                         Call(start + UPSTREAM_BUDGET, behaves, extra, start));
    var _, _ := ThirdAttempt(behaves, extra, start);
  }

  /** While nothing answers, a third attempt always comes, no earlier than three seconds in. */
  lemma ThirdAttempt<T>(behaves: Behaviour<T>, extra: nat -> nat, start: int) returns (third: int, slept: nat)
    requires Jitter(extra)
    requires Verdict(behaves(0, start)) == Err(Unreachable)
    requires var second := start + Duration(behaves(0, start)) + Base(0) + extra(0);
             Verdict(behaves(1, second)) == Err(Unreachable)
    ensures start + 3 * SECOND <= third <= start + 8 * SECOND
    ensures var deadline := start + UPSTREAM_BUDGET;
            var ended := Call(deadline, behaves, extra, start);
            && |ended.starts| >= 3
            && ended.result == Within(deadline, deadline, behaves, extra, 2, 4 * SECOND, third, slept).result
  {
    var second, e1 := SecondAttempt(behaves, extra, start);
    var e2: Ended<T>;
    third, slept, e2 := AfterSecond(behaves, extra, start, second, Base(0) + extra(0), e1);
  }

  lemma SecondJitter(extra: nat -> nat)
    requires Jitter(extra)
    ensures extra(1) < 2 * SECOND
  {
    Doubling(1);
    assert extra(1) < Base(1);
  }

  lemma AfterSecond<T>(behaves: Behaviour<T>, extra: nat -> nat, start: int, second: int, slept: nat, e1: Ended<T>)
    returns (third: int, slept': nat, e2: Ended<T>)
    requires Jitter(extra) && Verdict(behaves(1, second)) == Err(Unreachable)
    requires SECOND <= slept < 2 * SECOND && start + slept <= second <= start + ATTEMPT_TIMEOUT + slept
    requires e1 == Within(start + UPSTREAM_BUDGET, start + UPSTREAM_BUDGET,
                          behaves, extra, 1, 2 * SECOND, second, slept)
    ensures start + 3 * SECOND <= third <= start + 2 * ATTEMPT_TIMEOUT + slept' < start + 8 * SECOND
    ensures slept' == slept + 2 * SECOND + extra(1)
    ensures e2 == Within(start + UPSTREAM_BUDGET, start + UPSTREAM_BUDGET, behaves, extra, 2, 4 * SECOND, third, slept')
    ensures e1.result == e2.result && |e1.starts| == 1 + |e2.starts|
  {
    var deadline := start + UPSTREAM_BUDGET;
    SecondJitter(extra);
    var reply, delay := behaves(1, second), 2 * SECOND + extra(1);
    SecondRetry(start, reply, extra(1), slept, second);
    third, slept' := second + Duration(reply) + delay, slept + delay;
    ThirdStart(start, Duration(reply), extra(1), slept, second, third, slept');
    e2 := WithinStep(deadline, deadline, behaves, extra, 1, 2 * SECOND, second, slept, Again(third, delay), e1);
  }

  lemma ThirdStart(start: int, took: nat, jitter: nat, slept: nat, second: int, third: int, slept': nat)
    requires took <= ATTEMPT_TIMEOUT && jitter < 2 * SECOND && SECOND <= slept < 2 * SECOND
    requires start + slept <= second <= start + ATTEMPT_TIMEOUT + slept
    requires slept' == slept + 2 * SECOND + jitter && third == second + took + 2 * SECOND + jitter
    ensures start + 3 * SECOND <= third <= start + 2 * ATTEMPT_TIMEOUT + slept' < start + 8 * SECOND
    ensures 3 * SECOND <= slept' < 6 * SECOND
  {
  }

  lemma SecondRetry<T>(start: int, reply: Reply<T>, jitter: nat, slept: nat, now: int)
    requires Verdict(reply) == Err(Unreachable) && jitter < 2 * SECOND && slept < 2 * SECOND
    requires start <= now <= start + ATTEMPT_TIMEOUT + slept
    ensures Attempt(start + UPSTREAM_BUDGET, start + UPSTREAM_BUDGET, reply, jitter, 1, 2 * SECOND, now, slept) ==
            Again(now + Duration(reply) + 2 * SECOND + jitter, 2 * SECOND + jitter)
  {
  }

  /** While nothing answers, a second attempt always comes. */
  lemma SecondAttempt<T>(behaves: Behaviour<T>, extra: nat -> nat, start: int) returns (second: int, rest: Ended<T>)
    requires Jitter(extra) && Verdict(behaves(0, start)) == Err(Unreachable)
    ensures second == start + Duration(behaves(0, start)) + Base(0) + extra(0) && Base(0) + extra(0) < 2 * SECOND
    ensures var deadline := start + UPSTREAM_BUDGET;
            var ended := Call(deadline, behaves, extra, start);
            && rest == Within(deadline, deadline, behaves, extra, 1, 2 * SECOND, second, Base(0) + extra(0))
            && ended.result == rest.result && |ended.starts| == 1 + |rest.starts|
  {
    var deadline := start + UPSTREAM_BUDGET;
    assert extra(0) < Base(0);
    second := start + Duration(behaves(0, start)) + Base(0) + extra(0);
    rest := WithinStep(deadline, deadline, behaves, extra, 0, SECOND, start, 0, Again(second, Base(0) + extra(0)),
                       Call(deadline, behaves, extra, start));
  }

  lemma ThirdRetry<T>(start: int, reply: Reply<T>, jitter: nat, slept: nat, now: int)
    requires Verdict(reply) == Err(Unreachable)
    requires 3 * SECOND <= slept < 6 * SECOND && start <= now <= start + 2 * ATTEMPT_TIMEOUT + slept
    ensures Attempt(start + UPSTREAM_BUDGET, start + UPSTREAM_BUDGET, reply, jitter, 2, 4 * SECOND, now, slept).Again?
            <==> slept + 4 * SECOND + jitter <= 10 * SECOND
  {
  }

  /** The fourth attempt comes exactly when the jitter of the three delays before it adds up to no more
      than three seconds: then the delays fit their ten, the tenth included. */
  lemma SilenceGetsFourExactly<T>(behaves: Behaviour<T>, extra: nat -> nat, start: int)
    requires Silent(behaves) && Jitter(extra)
    ensures |Call(start + UPSTREAM_BUDGET, behaves, extra, start).starts| == 4
            <==> extra(0) + extra(1) + extra(2) <= 3 * SECOND
  {
    var deadline := start + UPSTREAM_BUDGET;
    CallBounds(deadline, behaves, extra, start);
    var second, e1 := SecondAttempt(behaves, extra, start);
    var third, slept, e2 := AfterSecond(behaves, extra, start, second, Base(0) + extra(0), e1);
    ThirdRetry(start, behaves(2, third), extra(2), slept, third);
    var move := Attempt(deadline, deadline, behaves(2, third), extra(2), 2, 4 * SECOND, third, slept);
    var _ := WithinStep(deadline, deadline, behaves, extra, 2, 4 * SECOND, third, slept, move, e2);
  }

  /** Out of order for this long, and prompt from then on. */
  ghost predicate Outage<T>(behaves: Behaviour<T>, start: int, length: int) {
    forall k, now ::
      if now < start + length then behaves(k, now).Hangs? || behaves(k, now).result == Err(Unreachable)
      else behaves(k, now).Answers? && behaves(k, now).after <= ATTEMPT_TIMEOUT && behaves(k, now).result.Ok?
  }

  /** Every call survives every outage that is over this long after the call began. */
  ghost predicate Survives(length: int) {
    forall start, behaves: Behaviour<string>, extra | Jitter(extra) && Outage(behaves, start, length) ::
      Call(start + UPSTREAM_BUDGET, behaves, extra, start).result.Ok?
  }

  lemma ShortOutage<T>(length: int, start: int, behaves: Behaviour<T>, extra: nat -> nat)
    requires length <= 3 * SECOND && Jitter(extra) && Outage(behaves, start, length)
    ensures Call(start + UPSTREAM_BUDGET, behaves, extra, start).result.Ok?
  {
    var deadline := start + UPSTREAM_BUDGET;
    var up := start + length;
    assert start >= up ==> behaves(0, start).Answers? && behaves(0, start).result.Ok?;
    assert start < up ==> Verdict(behaves(0, start)) == Err(Unreachable);
    if start < up {
      var second, e1 := SecondAttempt(behaves, extra, start);
      if second >= up {
        assert behaves(1, second).Answers? && behaves(1, second).result.Ok?;
      } else {
        assert Verdict(behaves(1, second)) == Err(Unreachable);
        var third, _ := ThirdAttempt(behaves, extra, start);
        assert behaves(2, third).Answers? && behaves(2, third).result.Ok?;
      }
    }
  }

  /** Refused at once three times, with a jitter that leaves no room for a fourth try. */
  lemma LongOutage(length: int)
    requires length > 3 * SECOND
    ensures !Survives(length)
  {
    var up := length;
    var behaves: Behaviour<string> := (k: nat, now: int) => Answers(0, if now < up then Err(Unreachable) else Ok(""));
    var extra: nat -> nat := (k: nat) => if k == 2 then 4 * SECOND - 1 else 0;
    Doubling(0);
    Doubling(1);
    Doubling(2);
    forall k ensures extra(k) < Base(k) {}
    assert Jitter(extra) && Outage(behaves, 0, length);
    var deadline := UPSTREAM_BUDGET;
    assert behaves(2, 3 * SECOND) == Answers(0, Err(Unreachable));
    var e2 := Within(deadline, deadline, behaves, extra, 2, 4 * SECOND, 3 * SECOND, 3 * SECOND);
    assert e2.result == Err(Unreachable);
    assert behaves(1, SECOND) == Answers(0, Err(Unreachable));
    var e1 := Within(deadline, deadline, behaves, extra, 1, 2 * SECOND, SECOND, SECOND);
    assert e1.result == e2.result;
    assert behaves(0, 0) == Answers(0, Err(Unreachable));
    assert Call(0 + UPSTREAM_BUDGET, behaves, extra, 0).result == e1.result;
  }

  /** Three seconds is exactly what the schedule promises: an outage of that length is survived
      whatever the jitter, and a longer one is not. */
  lemma OutageSurvivedExactlyUpToThreeSeconds(length: int)
    ensures Survives(length) <==> length <= 3 * SECOND
  {
    if length <= 3 * SECOND {
      forall start, behaves: Behaviour<string>, extra | Jitter(extra) && Outage(behaves, start, length)
        ensures Call(start + UPSTREAM_BUDGET, behaves, extra, start).result.Ok?
      {
        ShortOutage(length, start, behaves, extra);
      }
    } else {
      LongOutage(length);
    }
  }
}
