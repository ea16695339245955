/** The retry loop: rollback before every retry, bounded attempts, numbered retries. */
module Retry {
  import opened Values
  import opened RetryHistory

  datatype Config = Config(maxRetries: int, backoff: seq<int>, restoreOnStallExhaustion: bool)

  /** What an exemption supplies; no delay stands for one that is not a number. */
  datatype Exemption = Exemption(attempt: int, maxAttempts: int, delay: Option<real>)

  datatype Outcome = Succeeded | Stalled | Failed

  /** What the injected callbacks and the attempt do in one round. */
  datatype Round = Round(
    interrupted: bool,
    edits: seq<Edit>,
    outcome: Outcome,
    retryable: bool,
    mayRetry: bool,
    exemption: Option<Exemption>,
    sleepInterrupted: bool)

  datatype Ending = Returned | Cancelled | StallAfterCommit | StallExhausted | OriginalError | BadDelay

  /** A retry as it is published before the loop sleeps. */
  datatype RetryInfo = RetryInfo(attempt: int, maxAttempts: int, delay: int, exempted: bool)

  datatype Event =
    | Attempted
    | RolledBack
    | Published(retry: RetryInfo)
    | Slept(delay: int)

  /** Smallest integer not below a number. */
  function Ceiling(x: real): int {
    -((-x).Floor)
  }

  function Min(a: int, b: int): int {
    if a < b then a else b
  }

  /** The scheduled delay before retry `attempt`, counted from zero. */
  function Delay(config: Config, attempt: nat): int {
    if config.backoff == [] then 0 else config.backoff[Min(attempt, |config.backoff| - 1)]
  }

  /** Where a round leaves the loop. */
  datatype Decision = Stop(ending: Ending, rollback: bool) | Again(retry: RetryInfo, transient: nat)

  function Decide(config: Config, transient: nat, r: Round): Decision {
    match r.outcome
    case Succeeded => Stop(Returned, false)
    case Stalled =>
      if !r.mayRetry then Stop(StallAfterCommit, false)
      else if transient >= config.maxRetries then Stop(StallExhausted, config.restoreOnStallExhaustion)
      else Again(RetryInfo(transient + 1, config.maxRetries, Delay(config, transient), false), transient + 1)
    case Failed =>
      if !r.retryable || !r.mayRetry then Stop(OriginalError, false)
      else if r.exemption.Some? then
        var info := r.exemption.value;
        if info.delay.None? then Stop(BadDelay, false)
        else Again(RetryInfo(info.attempt, info.maxAttempts, Ceiling(info.delay.value), true), transient)
      else if transient >= config.maxRetries then Stop(OriginalError, false)
      else Again(RetryInfo(transient + 1, config.maxRetries, Delay(config, transient), false), transient + 1)
  }

  /** The events of a run over the given rounds and how it ends; it does not when the rounds are used up first. */
  datatype Trace = Trace(events: seq<Event>, ending: Option<Ending>)

  function Plan(config: Config, transient: nat, rounds: seq<Round>): Trace
    decreases |rounds|
  {
    if rounds == [] then Trace([], None)
    else if rounds[0].interrupted then Trace([], Some(Cancelled))
    else
      match Decide(config, transient, rounds[0])
      case Stop(ending, rollback) => Trace([Attempted] + (if rollback then [RolledBack] else []), Some(ending))
      case Again(retry, next) =>
        var events := [Attempted, RolledBack, Published(retry), Slept(retry.delay)];
        if rounds[0].sleepInterrupted then Trace(events, Some(Cancelled))
        else
          var rest := Plan(config, next, rounds[1..]);
          Trace(events + rest.events, rest.ending)
  }

  // ---------- The loop ----------

  /** A snapshot of a history whose compressed blocks only ever grow. */
  ghost predicate Snapped(s: Snapshot, v: HistoryView)
    reads s.properties, InnersOf(set p | p in s.properties)
  {
    && s.messages == v.messages && s.compressedCount == |v.compressed|
    && s.session == v.session && s.floor == v.floor
    && Holds(s.properties, v.properties) && Consistent(s.messages, v.properties)
  }

  /** The restore callback. */
  method RestoreHistory(h: History, s: Snapshot, ghost v: HistoryView)
    requires h.Valid() && (forall m :: m in s.messages ==> m in h.roster && m in h.known)
    requires Snapped(s, v) && Apart(h, s.properties) && v.compressed <= h.compressed
    modifies h, s.messages
    ensures h.Valid() && h.View() == v && h.known == old(h.known) && h.roster == old(h.roster)
    ensures Snapped(s, v) && Apart(h, s.properties)
    ensures fresh(h.props - old(h.props)) && fresh(h.inners - old(h.inners))
  {
    InstallLists(h, s, v);
    RestoreProperties(h, s, v.properties);
  }

  /** Lists and scalars; compressed blocks the attempt appended go. */
  method InstallLists(h: History, s: Snapshot, ghost v: HistoryView)
    requires h.Valid() && (forall m :: m in s.messages ==> m in h.known)
    requires s.compressedCount == |v.compressed| && v.compressed <= h.compressed
    requires s.messages == v.messages && s.session == v.session && s.floor == v.floor
    modifies h`messages, h`session, h`floor, h`compressed
    ensures h.Valid() && h.messages == v.messages && h.compressed == v.compressed
    ensures h.session == v.session && h.floor == v.floor
  {
    h.messages, h.session, h.floor := s.messages, s.session, s.floor;
    if |h.compressed| > s.compressedCount {
      h.compressed := h.compressed[..s.compressedCount];
    }
  }

  /** The attempt, with whatever it does to the history on its way. */
  method Attempt(h: History, edits: seq<Edit>)
    requires h.Valid()
    modifies h, h.roster, h.props, h.inners
    ensures h.Valid() && old(h.known) <= h.known && fresh(h.roster - old(h.roster))
    ensures fresh(h.props - old(h.props)) && fresh(h.inners - old(h.inners))
    ensures old(h.compressed) <= h.compressed
  {
    for i := 0 to |edits|
      invariant h.Valid() && old(h.known) <= h.known && fresh(h.roster - old(h.roster))
      invariant fresh(h.props - old(h.props)) && fresh(h.inners - old(h.inners))
      invariant old(h.compressed) <= h.compressed
    {
      h.Apply(edits[i]);
    }
  }

  function Attempts(events: seq<Event>): nat {
    if events == [] then 0 else Attempts(events[..|events| - 1]) + (if events[|events| - 1].Attempted? then 1 else 0)
  }

  lemma {:induction false} AttemptsAdd(a: seq<Event>, b: seq<Event>)
    ensures Attempts(a + b) == Attempts(a) + Attempts(b)
  {
    if b == [] {
      assert a + [] == a;
    } else {
      AttemptsAdd(a, b[..|b| - 1]);
      assert (a + b)[..|a + b| - 1] == a + b[..|b| - 1];
    }
  }

  /** No attempt has run since the last rollback. */
  predicate Clean(events: seq<Event>) {
    events == [] || !events[|events| - 1].Attempted?
  }

  /** What the rest of a run adds to what has happened so far. */
  function Continued(before: seq<Event>, rest: Trace): Trace {
    Trace(before + rest.events, rest.ending)
  }

  ghost predicate InHand(h: History, s: Snapshot, entry: HistoryView)
    reads h, h.roster, h.props, s.properties, InnersOf(set p | p in s.properties)
  {
    && h.Valid() && (forall m :: m in s.messages ==> m in h.known)
    && Snapped(s, entry) && Apart(h, s.properties) && entry.compressed <= h.compressed
  }

  /** One attempt leaves the snapshot alone. */
  method AttemptInHand(h: History, edits: seq<Edit>, s: Snapshot, ghost entry: HistoryView)
    requires InHand(h, s, entry)
    modifies h, h.roster, h.props, h.inners
    ensures InHand(h, s, entry) && old(h.known) <= h.known && fresh(h.roster - old(h.roster))
    ensures fresh(h.props - old(h.props)) && fresh(h.inners - old(h.inners))
  {
    Attempt(h, edits);
  }

  /** A rollback gives the entry history back, and can be repeated. */
  method Rollback(h: History, s: Snapshot, ghost entry: HistoryView)
    requires InHand(h, s, entry)
    modifies h, h.roster
    ensures InHand(h, s, entry) && h.View() == entry && h.known == old(h.known) && h.roster == old(h.roster)
    ensures fresh(h.props - old(h.props)) && fresh(h.inners - old(h.inners))
  {
    RestoreHistory(h, s, entry);
  }

  /** One attempt, and the rollback that follows it unless the run stops there. */
  method OneRound(h: History, r: Round, rollback: bool, s: Snapshot, ghost entry: HistoryView)
    requires InHand(h, s, entry)
    modifies h, h.roster, h.props, h.inners
    ensures InHand(h, s, entry) && (rollback ==> h.View() == entry)
    ensures fresh(h.roster - old(h.roster))
    ensures fresh(h.props - old(h.props)) && fresh(h.inners - old(h.inners))
  {
    hide InHand;
    AttemptInHand(h, r.edits, s, entry);
    if rollback {
      Rollback(h, s, entry);
    }
  }

  lemma InHandIsSnapped(h: History, s: Snapshot, entry: HistoryView)
    requires InHand(h, s, entry)
    ensures Snapped(s, entry)
  {
  }

  /** Whether the history is rolled back before the round is over. */
  predicate RollsBack(decision: Decision) {
    decision.Again? || decision.rollback
  }

  /** What one round adds to the events. */
  function RoundEvents(decision: Decision): seq<Event> {
    match decision
    case Stop(_, rollback) => if rollback then [Attempted, RolledBack] else [Attempted]
    case Again(retry, _) => [Attempted, RolledBack, Published(retry), Slept(retry.delay)]
  }

  function RoundEnding(decision: Decision, r: Round): Option<Ending> {
    match decision
    case Stop(ending, _) => Some(ending)
    case Again(_, _) => if r.sleepInterrupted then Some(Cancelled) else None
  }

  method Begin(h: History) returns (s: Snapshot, ghost entry: HistoryView)
    requires h.Valid()
    ensures entry == old(h.View()) && h.View() == entry && InHand(h, s, entry)
  {
    entry := h.View();
    s := TakeSnapshot(h);
    assert ViewsOf(h.messages) == entry.properties;
  }

  /** `StreamRetryLoop.run`. Whatever the failed attempts did to the live history, every attempt starts from the
      history of the entry, as `starts` records, and the snapshot stays what it was. */
  method Run(h: History, config: Config, rounds: seq<Round>)
    returns (trace: Trace, ghost starts: seq<HistoryView>, s: Snapshot)
    requires h.Valid()
    modifies h, h.roster, h.props, h.inners
    ensures trace == Plan(config, 0, rounds)
    ensures |starts| == Attempts(trace.events) && forall i :: 0 <= i < |starts| ==> starts[i] == old(h.View())
    ensures Snapped(s, old(h.View()))
    ensures Clean(trace.events) ==> h.View() == old(h.View())
  {
    hide InHand, Snapped, Decide, Plan, Attempts, RoundEvents, RoundEnding, RollsBack;
    ghost var entry;
    s, entry := Begin(h);
    trace, starts := Trace([], None), [];
    var transient: nat, n: nat := 0, 0;
    StartOfPlan(config, rounds);
    while n < |rounds| && trace.ending.None?
      invariant n <= |rounds| && InHand(h, s, entry) && fresh(h.roster - old(h.roster))
      invariant fresh(h.props - old(h.props)) && fresh(h.inners - old(h.inners))
      invariant Plan(config, 0, rounds)
             == if trace.ending.Some? then trace else Continued(trace.events, Plan(config, transient, rounds[n..]))
      invariant |starts| == Attempts(trace.events) && forall i :: 0 <= i < |starts| ==> starts[i] == entry
      invariant Clean(trace.events) || trace.ending.None? ==> h.View() == entry
    {
      var r := rounds[n];
      var decision := Decide(config, transient, r);
      PlanFirst(config, transient, rounds, n, trace.events);
      n := n + 1;
      if r.interrupted {
        trace := trace.(ending := Some(Cancelled));
      } else {
        starts := starts + [h.View()];
        OneRound(h, r, RollsBack(decision), s, entry);
        RoundCounts(trace.events, decision, r);
        trace := Trace(trace.events + RoundEvents(decision), RoundEnding(decision, r));
        transient := if decision.Again? then decision.transient else transient;
      }
    }
    EndOfPlan(config, transient, rounds, n, trace);
    InHandIsSnapped(h, s, entry);
  }

  /** The first of the remaining rounds, unfolded. */
  lemma PlanFirst(config: Config, transient: nat, rounds: seq<Round>, n: nat, before: seq<Event>)
    requires n < |rounds|
    ensures var r, whole := rounds[n], Continued(before, Plan(config, transient, rounds[n..]));
      var decision := Decide(config, transient, r);
      if r.interrupted then whole == Trace(before, Some(Cancelled))
      else if RoundEnding(decision, r).Some? then whole == Trace(before + RoundEvents(decision), RoundEnding(decision, r))
      else
        && decision.Again?
        && whole == Continued(before + RoundEvents(decision), Plan(config, decision.transient, rounds[n + 1..]))
  {
    hide Decide;
    assert rounds[n..][0] == rounds[n] && rounds[n..][1..] == rounds[n + 1..];
    var decision := Decide(config, transient, rounds[n]);
    if decision.Again? {
      var rest := Plan(config, decision.transient, rounds[n + 1..]);
      assert before + (RoundEvents(decision) + rest.events) == before + RoundEvents(decision) + rest.events;
    } else {
      assert RoundEvents(decision) == [Attempted] + (if decision.rollback then [RolledBack] else []);
    }
  }

  /** A round holds one attempt, and ends rolled back unless the run stops there. */
  lemma RoundCounts(before: seq<Event>, decision: Decision, r: Round)
    ensures Attempts(before + RoundEvents(decision)) == Attempts(before) + 1
    ensures Clean(before + RoundEvents(decision)) || RoundEnding(decision, r).None? ==> RollsBack(decision)
  {
    OneAttempt(before, RoundEvents(decision));
  }

  lemma StartOfPlan(config: Config, rounds: seq<Round>)
    ensures Continued([], Plan(config, 0, rounds[0..])) == Plan(config, 0, rounds) && Attempts([]) == 0
  {
    assert rounds[0..] == rounds;
    assert [] + Plan(config, 0, rounds).events == Plan(config, 0, rounds).events;
  }

  lemma EndOfPlan(config: Config, transient: nat, rounds: seq<Round>, n: nat, trace: Trace)
    ensures n == |rounds| && trace.ending.None? ==> Continued(trace.events, Plan(config, transient, rounds[n..])) == trace
  {
    if n == |rounds| {
      assert rounds[n..] == [] && trace.events + [] == trace.events;
    }
  }

  lemma OneAttempt(before: seq<Event>, events: seq<Event>)
    requires events != [] && events[0].Attempted? && forall i :: 1 <= i < |events| ==> !events[i].Attempted?
    ensures Attempts(before + events) == Attempts(before) + 1
    decreases |events|
  {
    var last := |events| - 1;
    assert (before + events)[..|before + events| - 1] == before + events[..last];
    if last > 0 {
      OneAttempt(before, events[..last]);
    } else {
      assert before + [] == before;
    }
  }
}
