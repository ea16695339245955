/** Runs of the retry loop told from the rounds alone. */
module RetryRounds {
  import opened Values
  import opened Retry
  import opened RetryLaws

  /** The retry of this round does not count against the budget. */
  predicate Exempt(r: Round) {
    r.outcome.Failed? && r.exemption.Some?
  }

  /** The rounds that count. */
  function Charged(rounds: seq<Round>): nat {
    if rounds == [] then 0 else (if Exempt(rounds[0]) then 0 else 1) + Charged(rounds[1..])
  }

  /** The round asks for another attempt and gets it, with `spent` of the budget gone before. */
  predicate Retried(config: Config, spent: nat, r: Round) {
    && !r.outcome.Succeeded? && r.mayRetry && (r.outcome.Failed? ==> r.retryable)
    && (if Exempt(r) then r.exemption.value.delay.Some? else spent < config.maxRetries)
  }

  predicate RetriedAt(config: Config, spent: nat, rounds: seq<Round>, j: nat)
    requires j < |rounds|
  {
    Retried(config, spent + Charged(rounds[..j]), rounds[j])
  }

  /** What is published for a retried round. */
  predicate Tells(config: Config, spent: nat, r: Round, retry: RetryInfo) {
    if Exempt(r) then
      var e := r.exemption.value;
      && retry.exempted && retry.attempt == e.attempt && retry.maxAttempts == e.maxAttempts
      && e.delay.Some? && e.delay.value <= retry.delay as real < e.delay.value + 1.0
    else
      && !retry.exempted && retry.attempt == spent + 1 && retry.maxAttempts == config.maxRetries
      && retry.delay == (if config.backoff == [] then 0
                         else if spent < |config.backoff| then config.backoff[spent]
                         else config.backoff[|config.backoff| - 1])
  }

  /** How a run ends whose last attempt is not retried. */
  function Verdict(r: Round): Ending {
    match r.outcome
    case Succeeded => Returned
    case Stalled => if r.mayRetry then StallExhausted else StallAfterCommit
    case Failed => if r.retryable && r.mayRetry && r.exemption.Some? then BadDelay else OriginalError
  }

  function Publications(events: seq<Event>): seq<RetryInfo> {
    if events == [] then []
    else
      var last := events[|events| - 1];
      Publications(events[..|events| - 1]) + (if last.Published? then [last.retry] else [])
  }

  /** The attempts of a run are exactly those that the rounds before ask for and get, each retry is published as its
      round says, and the run ends as its last round says, or cancelled, or not before the rounds are used up. */
  ghost predicate Earned(config: Config, spent: nat, rounds: seq<Round>, events: seq<Event>, ending: Option<Ending>) {
    var n, published := Attempts(events), Publications(events);
    && n <= |rounds|
    && (forall j :: 0 <= j < n ==> !rounds[j].interrupted)
    && (forall j: nat :: j + 1 < n ==> RetriedAt(config, spent, rounds, j) && !rounds[j].sleepInterrupted)
    && (var last := n > 0 && RetriedAt(config, spent, rounds, n - 1);
        && |published| == (if n == 0 || last then n else n - 1)
        && (if n > 0 && !last then ending == Some(Verdict(rounds[n - 1]))
            else if n > 0 && rounds[n - 1].sleepInterrupted then ending == Some(Cancelled)
            else if n < |rounds| then rounds[n].interrupted && ending == Some(Cancelled)
            else ending == None))
    && (forall k: nat :: k < |published| ==> k < |rounds| && Tells(config, spent + Charged(rounds[..k]), rounds[k], published[k]))
  }

  lemma {:induction false} PublicationsAdd(a: seq<Event>, b: seq<Event>)
    ensures Publications(a + b) == Publications(a) + Publications(b)
  {
    if b == [] {
      assert a + [] == a;
    } else {
      PublicationsAdd(a, b[..|b| - 1]);
      assert (a + b)[..|a + b| - 1] == a + b[..|b| - 1];
    }
  }

  lemma PublishedOnce(retry: RetryInfo)
    ensures Publications([Attempted, RolledBack, Published(retry), Slept(retry.delay)]) == [retry]
  {
    StopPublishes(true);
    assert [Attempted, RolledBack, Published(retry)][..2] == [Attempted] + [RolledBack];
    assert [Attempted, RolledBack, Published(retry), Slept(retry.delay)][..3] == [Attempted, RolledBack, Published(retry)];
    assert Publications([Attempted, RolledBack, Published(retry)]) == [retry];
  }

  lemma StopPublishes(rollback: bool)
    ensures Publications([Attempted] + (if rollback then [RolledBack] else [])) == []
  {
    assert [Attempted][..0] == [] && [Attempted] + [] == [Attempted];
    assert [Attempted, RolledBack][..1] == [Attempted];
  }

  /** The decision of a round, from the round alone. */
  lemma DecisionIs(config: Config, spent: nat, r: Round)
    ensures match Decide(config, spent, r)
      case Stop(ending, _) => !Retried(config, spent, r) && ending == Verdict(r)
      case Again(retry, next) =>
        && Retried(config, spent, r) && Tells(config, spent, r, retry)
        && next == spent + (if Exempt(r) then 0 else 1)
  {
    if Exempt(r) && r.exemption.value.delay.Some? {
      CeilingIs(r.exemption.value.delay.value);
    }
  }

  lemma CeilingIs(x: real)
    ensures x <= Ceiling(x) as real < x + 1.0
  {
  }

  lemma ChargedFirst(rounds: seq<Round>, j: nat)
    requires rounds != [] && j < |rounds|
    ensures Charged(rounds[..j + 1]) == (if Exempt(rounds[0]) then 0 else 1) + Charged(rounds[1..][..j])
    ensures Charged(rounds[..0]) == 0
  {
    assert rounds[..j + 1][1..] == rounds[1..][..j];
  }

  lemma RetriedLater(config: Config, spent: nat, rounds: seq<Round>, j: nat)
    requires rounds != [] && j + 1 < |rounds|
    ensures RetriedAt(config, spent, rounds, j + 1)
        <==> RetriedAt(config, spent + (if Exempt(rounds[0]) then 0 else 1), rounds[1..], j)
  {
    ChargedFirst(rounds, j);
  }

  /** A run that stops with its first round. */
  lemma EarnedStop(config: Config, spent: nat, rounds: seq<Round>, rollback: bool)
    requires rounds != [] && !rounds[0].interrupted && !Retried(config, spent, rounds[0])
    ensures Earned(config, spent, rounds, [Attempted] + (if rollback then [RolledBack] else []), Some(Verdict(rounds[0])))
  {
    hide Attempts, Retried;
    StopRetries(rollback, false);
    StopPublishes(rollback);
    ChargedFirst(rounds, 0);
  }

  /** A first round that is retried, and the rest. */
  lemma EarnedAgain(config: Config, spent: nat, rounds: seq<Round>, retry: RetryInfo, rest: seq<Event>, ending: Option<Ending>)
    requires rounds != [] && !rounds[0].interrupted && !rounds[0].sleepInterrupted && Retried(config, spent, rounds[0])
    requires Tells(config, spent, rounds[0], retry)
    requires Earned(config, spent + (if Exempt(rounds[0]) then 0 else 1), rounds[1..], rest, ending)
    ensures Earned(config, spent, rounds, [Attempted, RolledBack, Published(retry), Slept(retry.delay)] + rest, ending)
  {
    hide Attempts, Retried, Publications, Tells, Charged, Retries;
    var round, after := [Attempted, RolledBack, Published(retry), Slept(retry.delay)], rounds[1..];
    var events, next := round + rest, spent + (if Exempt(rounds[0]) then 0 else 1);
    RoundAdds(config, spent, retry, next, rest);
    PublicationsAdd(round, rest);
    PublishedOnce(retry);
    ChargedFirst(rounds, 0);
    var n := Attempts(rest);
    forall j: nat | j + 1 < n + 1
      ensures RetriedAt(config, spent, rounds, j) && !rounds[j].sleepInterrupted
    {
      if j > 0 {
        RetriedLater(config, spent, rounds, j - 1);
        assert RetriedAt(config, next, after, j - 1) && after[j - 1] == rounds[j];
      }
    }
    if n > 0 {
      RetriedLater(config, spent, rounds, n - 1);
    }
    forall k: nat | k < |Publications(events)|
      ensures k < |rounds| && Tells(config, spent + Charged(rounds[..k]), rounds[k], Publications(events)[k])
    {
      if k > 0 {
        assert Publications(events)[k] == Publications(rest)[k - 1] && after[k - 1] == rounds[k];
        ChargedFirst(rounds, k - 1);
      }
    }
  }

  /** A retried round whose sleep is interrupted. */
  lemma EarnedAsleep(config: Config, spent: nat, rounds: seq<Round>, retry: RetryInfo)
    requires rounds != [] && !rounds[0].interrupted && rounds[0].sleepInterrupted && Retried(config, spent, rounds[0])
    requires Tells(config, spent, rounds[0], retry)
    ensures Earned(config, spent, rounds, [Attempted, RolledBack, Published(retry), Slept(retry.delay)], Some(Cancelled))
  {
    hide Attempts, Retried, Publications, Tells;
    RoundRetries(retry, false);
    PublishedOnce(retry);
    ChargedFirst(rounds, 0);
  }

  lemma EarnedNothing(config: Config, spent: nat, rounds: seq<Round>)
    requires rounds != [] ==> rounds[0].interrupted
    ensures Earned(config, spent, rounds, [], if rounds == [] then None else Some(Cancelled))
  {
  }

  lemma {:induction false} RunsAreEarned(config: Config, spent: nat, rounds: seq<Round>)
    ensures var trace := Plan(config, spent, rounds); Earned(config, spent, rounds, trace.events, trace.ending)
    decreases |rounds|
  {
    hide Earned, Decide, Retried, Tells;
    if rounds == [] || rounds[0].interrupted {
      EarnedNothing(config, spent, rounds);
    } else {
      DecisionIs(config, spent, rounds[0]);
      match Decide(config, spent, rounds[0])
      case Stop(_, rollback) => EarnedStop(config, spent, rounds, rollback);
      case Again(retry, next) =>
        if rounds[0].sleepInterrupted {
          EarnedAsleep(config, spent, rounds, retry);
        } else {
          RunsAreEarned(config, next, rounds[1..]);
          EarnedAgain(config, spent, rounds, retry, Plan(config, next, rounds[1..]).events,
                      Plan(config, next, rounds[1..]).ending);
        }
    }
  }
}
