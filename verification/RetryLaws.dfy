/** What every run of the retry loop promises, whatever the callbacks answer. */
module RetryLaws {
  import opened Values
  import opened Retry

  /** The published retries, exempted or not. */
  function Retries(events: seq<Event>, exempted: bool): seq<RetryInfo> {
    if events == [] then []
    else
      var last := events[|events| - 1];
      Retries(events[..|events| - 1], exempted)
      + (if last.Published? && last.retry.exempted == exempted then [last.retry] else [])
  }

  lemma {:induction false} RetriesAdd(a: seq<Event>, b: seq<Event>, exempted: bool)
    ensures Retries(a + b, exempted) == Retries(a, exempted) + Retries(b, exempted)
  {
    if b == [] {
      assert a + [] == a;
    } else {
      RetriesAdd(a, b[..|b| - 1], exempted);
      assert (a + b)[..|a + b| - 1] == a + b[..|b| - 1];
    }
  }

  lemma RetriesOne(e: Event, exempted: bool)
    ensures Retries([e], exempted) == if e.Published? && e.retry.exempted == exempted then [e.retry] else []
    ensures Attempts([e]) == if e.Attempted? then 1 else 0
  {
    assert [e][..0] == [];
  }

  /** The retries of one round. */
  lemma RoundRetries(retry: RetryInfo, exempted: bool)
    ensures var events := [Attempted, RolledBack, Published(retry), Slept(retry.delay)];
      && Retries(events, exempted) == (if retry.exempted == exempted then [retry] else [])
      && Attempts(events) == 1
  {
    hide Retries, Attempts;
    StopRetries(true, exempted);
    RetriesOne(Published(retry), exempted);
    RetriesOne(Slept(retry.delay), exempted);
    RetriesAdd([Published(retry)], [Slept(retry.delay)], exempted);
    AttemptsAdd([Published(retry)], [Slept(retry.delay)]);
    assert [Published(retry)] + [Slept(retry.delay)] == [Published(retry), Slept(retry.delay)];
    RetriesAdd([Attempted, RolledBack], [Published(retry), Slept(retry.delay)], exempted);
    AttemptsAdd([Attempted, RolledBack], [Published(retry), Slept(retry.delay)]);
    assert [Attempted, RolledBack] + [Published(retry), Slept(retry.delay)]
        == [Attempted, RolledBack, Published(retry), Slept(retry.delay)];
    assert [Attempted] + [RolledBack] == [Attempted, RolledBack];
  }

  lemma StopRetries(rollback: bool, exempted: bool)
    ensures var events := [Attempted] + (if rollback then [RolledBack] else []);
      Retries(events, exempted) == [] && Attempts(events) == 1
  {
    hide Retries, Attempts;
    RetriesOne(Attempted, exempted);
    RetriesOne(RolledBack, exempted);
    RetriesAdd([Attempted], [RolledBack], exempted);
    AttemptsAdd([Attempted], [RolledBack]);
    assert [Attempted] + [] == [Attempted];
  }

  /** Retries that count against the budget are numbered without gaps from `first + 1`, with the scheduled delays. */
  ghost predicate Numbered(config: Config, retries: seq<RetryInfo>, first: nat) {
    forall k :: 0 <= k < |retries| ==>
      retries[k] == RetryInfo(first + k + 1, config.maxRetries, Delay(config, first + k), false)
  }

  function Budget(config: Config): nat {
    if config.maxRetries < 0 then 0 else config.maxRetries
  }

  ghost predicate Bounded(config: Config, transient: nat, events: seq<Event>) {
    && Numbered(config, Retries(events, false), transient)
    && transient + |Retries(events, false)| <= Budget(config)
    && Attempts(events) <= 1 + |Retries(events, false)| + |Retries(events, true)|
  }

  lemma BoundedAdds(config: Config, transient: nat, retry: RetryInfo, next: nat, rest: seq<Event>)
    requires Bounded(config, next, rest)
    requires retry.exempted ==> next == transient
    requires !retry.exempted ==>
               next == transient + 1 && retry == RetryInfo(transient + 1, config.maxRetries, Delay(config, transient), false)
    ensures Bounded(config, transient, [Attempted, RolledBack, Published(retry), Slept(retry.delay)] + rest)
  {
    hide Delay, Retries, Attempts;
    RoundAdds(config, transient, retry, next, rest);
  }

  lemma NothingIsBounded(config: Config, transient: nat)
    requires transient <= Budget(config)
    ensures Retries([], true) == Retries([], false) == [] && Attempts([]) == 0
  {
  }

  /** From any point of a run on: numbering, budget and the number of attempts. */
  lemma {:induction false} PlanIsBounded(config: Config, transient: nat, rounds: seq<Round>)
    requires transient <= Budget(config)
    ensures Bounded(config, transient, Plan(config, transient, rounds).events)
    decreases |rounds|
  {
    hide Delay, Retries, Attempts;
    NothingIsBounded(config, transient);
    if rounds != [] && !rounds[0].interrupted {
      match Decide(config, transient, rounds[0])
      case Stop(_, rollback) =>
        StopRetries(rollback, false);
        StopRetries(rollback, true);
      case Again(retry, next) =>
        if rounds[0].sleepInterrupted {
          RoundRetries(retry, false);
          RoundRetries(retry, true);
        } else {
          PlanIsBounded(config, next, rounds[1..]);
          BoundedAdds(config, transient, retry, next, Plan(config, next, rounds[1..]).events);
        }
    }
  }

  lemma RoundAdds(config: Config, transient: nat, retry: RetryInfo, next: nat, rest: seq<Event>)
    ensures var round := [Attempted, RolledBack, Published(retry), Slept(retry.delay)];
      && Retries(round + rest, false) == (if retry.exempted then [] else [retry]) + Retries(rest, false)
      && Retries(round + rest, true) == (if retry.exempted then [retry] else []) + Retries(rest, true)
      && Attempts(round + rest) == 1 + Attempts(rest)
  {
    var round := [Attempted, RolledBack, Published(retry), Slept(retry.delay)];
    RoundRetries(retry, false);
    RoundRetries(retry, true);
    RetriesAdd(round, rest, false);
    RetriesAdd(round, rest, true);
    AttemptsAdd(round, rest);
  }

  /** Every run: budgeted retries are numbered 1, 2, ... with the scheduled delays and never exceed the budget, and
      every attempt but the first is paid for by a retry. */
  lemma RunsAreBounded(config: Config, rounds: seq<Round>)
    ensures var events := Plan(config, 0, rounds).events;
      && Numbered(config, Retries(events, false), 0)
      && |Retries(events, false)| <= Budget(config)
      && Attempts(events) <= Budget(config) + 1 + |Retries(events, true)|
  {
    PlanIsBounded(config, 0, rounds);
  }

  /** Between two attempts: roll back, publish, sleep; nothing else, and no event without its attempt. */
  ghost predicate Shaped(events: seq<Event>) {
    && (forall i :: 0 <= i < |events| && events[i].Published? ==>
          && i >= 2 && events[i - 1].RolledBack? && events[i - 2].Attempted?
          && i + 1 < |events| && events[i + 1] == Slept(events[i].retry.delay))
    && (forall i :: 0 < i < |events| && events[i].Attempted? ==> events[i - 1].Slept?)
    && (forall i :: 0 <= i < |events| && events[i].Slept? ==> i > 0 && events[i - 1].Published?)
    && (forall i :: 0 <= i < |events| && events[i].RolledBack? ==> i > 0 && events[i - 1].Attempted?)
    && (events != [] ==> events[0].Attempted?)
  }

  lemma ShapedRound(retry: RetryInfo, rest: seq<Event>)
    requires Shaped(rest)
    ensures Shaped([Attempted, RolledBack, Published(retry), Slept(retry.delay)] + rest)
  {
    var round := [Attempted, RolledBack, Published(retry), Slept(retry.delay)];
    var events := round + rest;
    assert forall i :: 4 <= i < |events| ==> events[i] == rest[i - 4];
  }

  /** The trace of each retry is rollback, event, sleep. */
  lemma {:induction false} RunsAreShaped(config: Config, transient: nat, rounds: seq<Round>)
    ensures Shaped(Plan(config, transient, rounds).events)
    decreases |rounds|
  {
    hide Delay;
    if rounds != [] && !rounds[0].interrupted {
      match Decide(config, transient, rounds[0])
      case Stop(_, rollback) =>
      case Again(retry, next) =>
        if rounds[0].sleepInterrupted {
          assert Shaped([]);
          ShapedRound(retry, []);
          assert [Attempted, RolledBack, Published(retry), Slept(retry.delay)] + []
              == [Attempted, RolledBack, Published(retry), Slept(retry.delay)];
        } else {
          RunsAreShaped(config, next, rounds[1..]);
          ShapedRound(retry, Plan(config, next, rounds[1..]).events);
        }
    }
  }

  /** The last attempt stalled, could be retried, and was not. */
  predicate LastStallStands(rounds: seq<Round>, events: seq<Event>) {
    var n := Attempts(events);
    && 0 < n <= |rounds| && rounds[n - 1].outcome.Stalled? && rounds[n - 1].mayRetry
    && !events[|events| - 1].Slept?
  }

  lemma {:induction false} NoAttempts(events: seq<Event>)
    ensures events == [] ==> Attempts(events) == 0
    ensures Attempts(events) <= |events|
  {
    if events != [] {
      NoAttempts(events[..|events| - 1]);
    }
  }

  /** What comes after a round decides, if there is anything. */
  lemma LastStallOfRest(rounds: seq<Round>, retry: RetryInfo, rest: seq<Event>)
    requires rounds != [] && (rest != [] ==> Attempts(rest) > 0)
    ensures var round := [Attempted, RolledBack, Published(retry), Slept(retry.delay)];
      LastStallStands(rounds, round + rest) <==> Attempts(rest) > 0 && LastStallStands(rounds[1..], rest)
  {
    hide Retries, Attempts;
    var round := [Attempted, RolledBack, Published(retry), Slept(retry.delay)];
    RoundRetries(retry, false);
    AttemptsAdd(round, rest);
    NoAttempts(rest);
    if rest != [] {
      assert (round + rest)[|round + rest| - 1] == rest[|rest| - 1];
    }
  }

  lemma {:induction false} PlansStartWithAttempts(config: Config, transient: nat, rounds: seq<Round>)
    ensures var events := Plan(config, transient, rounds).events;
      (events != [] ==> Attempts(events) > 0) && Attempts(events) <= |rounds|
    decreases |rounds|
  {
    hide Delay, Retries, Attempts;
    NoAttempts([]);
    if rounds != [] && !rounds[0].interrupted {
      match Decide(config, transient, rounds[0])
      case Stop(_, rollback) => StopRetries(rollback, false);
      case Again(retry, next) =>
        RoundRetries(retry, false);
        PlansStartWithAttempts(config, next, rounds[1..]);
        RoundAdds(config, transient, retry, next, Plan(config, next, rounds[1..]).events);
    }
  }

  /** A run ends in stall exhaustion exactly if its last attempt stalled, could be retried, and was not; the budget is
      used up then. */
  lemma {:induction false} ExhaustionIsALastStall(config: Config, transient: nat, rounds: seq<Round>)
    requires transient <= Budget(config)
    ensures var trace := Plan(config, transient, rounds);
      && (trace.ending == Some(StallExhausted) <==> LastStallStands(rounds, trace.events))
      && (trace.ending == Some(StallExhausted) ==> transient + |Retries(trace.events, false)| == Budget(config))
    decreases |rounds|
  {
    hide Delay, Retries, Attempts, LastStallStands;
    NoAttempts([]);
    if rounds == [] || rounds[0].interrupted {
      assert !LastStallStands(rounds, []) by { NothingStands(rounds); }
    } else {
      match Decide(config, transient, rounds[0])
      case Stop(_, rollback) =>
        StopRetries(rollback, false);
        StopStands(rounds, rollback);
      case Again(retry, next) =>
        var rest := Plan(config, next, rounds[1..]);
        PlansStartWithAttempts(config, next, rounds[1..]);
        if rounds[0].sleepInterrupted {
          LastStallOfRest(rounds, retry, []);
          assert [Attempted, RolledBack, Published(retry), Slept(retry.delay)] + []
              == [Attempted, RolledBack, Published(retry), Slept(retry.delay)];
        } else {
          LastStallOfRest(rounds, retry, rest.events);
          ExhaustionIsALastStall(config, next, rounds[1..]);
          RoundAdds(config, transient, retry, next, rest.events);
          assert Attempts(rest.events) == 0 ==> !LastStallStands(rounds[1..], rest.events) by {
            StandingNeedsAttempt(rounds[1..], rest.events);
          }
        }
    }
  }

  lemma StandingNeedsAttempt(rounds: seq<Round>, events: seq<Event>)
    ensures LastStallStands(rounds, events) ==> Attempts(events) > 0
  {
  }

  lemma NothingStands(rounds: seq<Round>)
    ensures !LastStallStands(rounds, [])
  {
  }

  lemma StopStands(rounds: seq<Round>, rollback: bool)
    requires rounds != []
    ensures LastStallStands(rounds, [Attempted] + (if rollback then [RolledBack] else []))
            <==> rounds[0].outcome.Stalled? && rounds[0].mayRetry
  {
    StopRetries(rollback, false);
  }

  // ---------- Whether every attempt stalled ----------

  ghost predicate EveryAttemptStalled(config: Config, rounds: seq<Round>) {
    var n := Attempts(Plan(config, 0, rounds).events);
    forall i :: 0 <= i < n && i < |rounds| ==> rounds[i].outcome.Stalled?
  }

  predicate Exhausted(config: Config, rounds: seq<Round>) {
    Plan(config, 0, rounds).ending == Some(StallExhausted)
  }

  /** No failure is exempted from the budget. */
  predicate NoExemptions(rounds: seq<Round>) {
    forall i :: 0 <= i < |rounds| ==> rounds[i].exemption.None?
  }

  const STALL := Round(false, [], Stalled, true, true, None, false)
  const FAILURE := STALL.(outcome := Failed)
  const EXEMPTED := FAILURE.(exemption := Some(Exemption(1, 1, Some(0.0))))

  function Stalls(n: nat): seq<Round> {
    seq(n, _ => STALL)
  }

  /** Stalls alone use the budget up. */
  lemma {:induction false} StallsExhaust(config: Config, transient: nat, n: nat)
    requires transient + n == Budget(config)
    ensures Plan(config, transient, Stalls(n + 1)).ending == Some(StallExhausted)
    decreases n
  {
    hide Delay;
    if n > 0 {
      assert Stalls(n + 1)[1..] == Stalls(n);
      StallsExhaust(config, transient + 1, n - 1);
    }
  }

  /** One failure that is retried, then stalls. */
  function FailureFirst(failure: Round, n: nat): seq<Round> {
    [failure] + Stalls(n)
  }

  lemma FailureThenStalls(config: Config, failure: Round, n: nat)
    requires || (failure == EXEMPTED && n == Budget(config) + 1)
             || (failure == FAILURE && config.maxRetries > 0 && n == config.maxRetries)
    ensures Exhausted(config, FailureFirst(failure, n)) && !EveryAttemptStalled(config, FailureFirst(failure, n))
  {
    hide Delay, Attempts, Ceiling;
    var rounds := FailureFirst(failure, n);
    assert rounds[1..] == Stalls(n) && !rounds[0].outcome.Stalled?;
    StallsExhaust(config, if failure == FAILURE then 1 else 0, n - 1);
    PlansStartWithAttempts(config, 0, rounds);
  }

  /** It means that every attempt stalled, in all runs without exempted failures, exactly if there is no budget. */
  lemma ExhaustionMeansEveryStall(config: Config)
    ensures (forall rounds :: NoExemptions(rounds) && Exhausted(config, rounds) ==> EveryAttemptStalled(config, rounds))
            <==> config.maxRetries <= 0
  {
    hide EveryAttemptStalled, Exhausted;
    if config.maxRetries > 0 {
      FailureThenStalls(config, FAILURE, config.maxRetries);
      assert NoExemptions(FailureFirst(FAILURE, config.maxRetries));
    } else {
      forall rounds | NoExemptions(rounds) && Exhausted(config, rounds)
        ensures EveryAttemptStalled(config, rounds)
      {
        OnlyAttemptStalled(config, rounds);
      }
    }
  }

  lemma OnlyAttemptStalled(config: Config, rounds: seq<Round>)
    requires NoExemptions(rounds) && Exhausted(config, rounds) && config.maxRetries <= 0
    ensures EveryAttemptStalled(config, rounds)
  {
    StopRetries(config.restoreOnStallExhaustion, false);
  }

  /** With exempted failures it means that under no configuration. */
  lemma ExhaustionWithoutEveryStall(config: Config)
    ensures exists rounds :: Exhausted(config, rounds) && !EveryAttemptStalled(config, rounds)
  {
    FailureThenStalls(config, EXEMPTED, Budget(config) + 1);
  }
}
