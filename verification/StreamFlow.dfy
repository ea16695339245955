/** Update filters along a chain of wrapped streams: where they are kept, pushed and applied. */
module StreamFlow {

  /** What was done to an update on its way out. */
  datatype Stamp = Filtered(id: nat) | Mapped(level: nat) | Hooked(level: nat)

  datatype Update = Update(raw: int, trace: seq<Stamp>)

  /** One stream of a chain; level 0 pulls the raw source, every other level pulls the level below. `lazy` streams wrap
      an awaitable of the level below. */
  datatype Flow = Flow(mapped: bool, wraps: bool, lazy: bool, resolved: bool, filters: seq<nat>, hooks: nat, updates: seq<Update>)

  predicate WellFormed(flow: seq<Flow>) {
    flow != [] && !flow[0].mapped && !flow[0].wraps && forall k :: 0 <= k < |flow| && flow[k].mapped ==> flow[k].wraps
  }

  /** `with_update_filter`: kept here, and pushed down unless this stream maps or is not resolved yet. */
  function Pushed(flow: seq<Flow>, k: nat, f: nat): (pushed: seq<Flow>)
    requires k < |flow|
    ensures |pushed| == |flow|
    decreases k
  {
    var kept := flow[k := flow[k].(filters := flow[k].filters + [f])];
    if k > 0 && !flow[k].mapped && flow[k].resolved then Pushed(kept, k - 1, f) else kept
  }

  function PushedAll(flow: seq<Flow>, k: nat, filters: seq<nat>): (pushed: seq<Flow>)
    requires k < |flow|
    ensures |pushed| == |flow|
  {
    if filters == [] then flow
    else Pushed(PushedAll(flow, k, filters[..|filters| - 1]), k, filters[|filters| - 1])
  }

  /** `_get_stream`: the first resolution hands the registered filters down. */
  function Resolved(flow: seq<Flow>, k: nat): (resolved: seq<Flow>)
    requires k < |flow|
    ensures |resolved| == |flow|
  {
    if flow[k].resolved then flow
    else
      var marked := flow[k := flow[k].(resolved := true)];
      if k > 0 && !flow[k].mapped then PushedAll(marked, k - 1, flow[k].filters) else marked
  }

  /** Resolution from the outside in. */
  function ResolvedDown(flow: seq<Flow>, k: nat): (resolved: seq<Flow>)
    requires k < |flow|
    ensures |resolved| == |flow|
    decreases k
  {
    if k == 0 then Resolved(flow, 0) else ResolvedDown(Resolved(flow, k), k - 1)
  }

  // ---------- Where filters are ----------

  /** The level hands its filters down. */
  predicate Hands(flow: seq<Flow>, k: nat)
    requires k < |flow|
  {
    k > 0 && !flow[k].mapped && flow[k].resolved
  }

  /** What a level must have received: its own registrations and those of the levels that hand theirs down to it. */
  function Received(flow: seq<Flow>, registered: seq<multiset<nat>>, j: nat): multiset<nat>
    requires j < |flow| == |registered|
    decreases |flow| - j
  {
    registered[j] + (if j + 1 < |flow| && Hands(flow, j + 1) then Received(flow, registered, j + 1) else multiset{})
  }

  ghost predicate Delivered(flow: seq<Flow>, registered: seq<multiset<nat>>) {
    |flow| == |registered| && forall j :: 0 <= j < |flow| ==> multiset(flow[j].filters) == Received(flow, registered, j)
  }

  /** What is handed to level `k` reaches level `j`. */
  predicate Reaches(flow: seq<Flow>, k: nat, j: nat)
    requires k < |flow|
    decreases k
  {
    j == k || (j < k && Hands(flow, k) && Reaches(flow, k - 1, j))
  }

  /** Two chains of the same shape. */
  ghost predicate SameShape(a: seq<Flow>, b: seq<Flow>) {
    |a| == |b| && forall j :: 0 <= j < |a| ==> b[j] == a[j].(filters := b[j].filters)
  }

  lemma {:induction false} ReachesSame(a: seq<Flow>, b: seq<Flow>, k: nat, j: nat)
    requires SameShape(a, b) && k < |a|
    ensures Reaches(a, k, j) <==> Reaches(b, k, j)
  {
    if k > 0 {
      ReachesSame(a, b, k - 1, j);
    }
  }

  lemma {:induction false} ReceivedSame(a: seq<Flow>, b: seq<Flow>, registered: seq<multiset<nat>>, j: nat)
    requires SameShape(a, b) && j < |a| == |registered|
    ensures Received(a, registered, j) == Received(b, registered, j)
    decreases |a| - j
  {
    if j + 1 < |a| {
      ReceivedSame(a, b, registered, j + 1);
    }
  }

  /** A pushed filter is kept once at every level it reaches, and nothing else changes. */
  lemma {:induction false} PushReaches(flow: seq<Flow>, k: nat, f: nat)
    requires k < |flow|
    ensures SameShape(flow, Pushed(flow, k, f))
    ensures forall j :: 0 <= j < |flow| ==>
              Pushed(flow, k, f)[j].filters == flow[j].filters + (if Reaches(flow, k, j) then [f] else [])
    decreases k
  {
    var kept := flow[k := flow[k].(filters := flow[k].filters + [f])];
    assert SameShape(flow, kept);
    if Hands(flow, k) {
      PushReaches(kept, k - 1, f);
      forall j | 0 <= j < |flow|
        ensures Pushed(flow, k, f)[j].filters == flow[j].filters + (if Reaches(flow, k, j) then [f] else [])
      {
        ReachesSame(flow, kept, k - 1, j);
        assert !Reaches(kept, k - 1, k);
      }
    }
  }

  lemma {:induction false} PushAllReaches(flow: seq<Flow>, k: nat, filters: seq<nat>)
    requires k < |flow|
    ensures SameShape(flow, PushedAll(flow, k, filters))
    ensures forall j :: 0 <= j < |flow| ==>
              PushedAll(flow, k, filters)[j].filters == flow[j].filters + (if Reaches(flow, k, j) then filters else [])
  {
    if filters == [] {
      assert forall j :: 0 <= j < |flow| ==> flow[j].filters + [] == flow[j].filters;
    } else {
      var init, last := filters[..|filters| - 1], filters[|filters| - 1];
      PushAllReaches(flow, k, init);
      var before := PushedAll(flow, k, init);
      PushReaches(before, k, last);
      forall j | 0 <= j < |flow|
        ensures PushedAll(flow, k, filters)[j].filters == flow[j].filters + (if Reaches(flow, k, j) then filters else [])
      {
        ReachesSame(flow, before, k, j);
        assert flow[j].filters + init + [last] == flow[j].filters + filters;
      }
    }
  }

  /** A registration is received wherever it reaches. */
  lemma {:induction false} RegistrationReaches(flow: seq<Flow>, registered: seq<multiset<nat>>, k: nat, more: multiset<nat>, j: nat)
    requires j < |flow| == |registered| && k < |flow|
    ensures Received(flow, registered[k := registered[k] + more], j)
         == Received(flow, registered, j) + (if Reaches(flow, k, j) then more else multiset{})
    decreases |flow| - j
  {
    if j + 1 < |flow| {
      RegistrationReaches(flow, registered, k, more, j + 1);
      ReachesFromAbove(flow, k, j);
    } else {
      ReachesDownOnly(flow, k, j);
    }
  }

  lemma {:induction false} ReachesDownOnly(flow: seq<Flow>, k: nat, j: nat)
    requires k < |flow|
    ensures Reaches(flow, k, j) ==> j <= k
  {
  }

  /** The last step of a path. */
  lemma {:induction false} ReachesFromAbove(flow: seq<Flow>, k: nat, j: nat)
    requires k < |flow| && j + 1 < |flow|
    ensures Reaches(flow, k, j) <==> k == j || (Hands(flow, j + 1) && Reaches(flow, k, j + 1))
    decreases k
  {
    ReachesDownOnly(flow, k, j + 1);
    if k > j + 1 {
      ReachesFromAbove(flow, k - 1, j);
    }
  }

  /** Registering a filter anywhere delivers it. */
  lemma RegistrationDelivers(flow: seq<Flow>, registered: seq<multiset<nat>>, k: nat, f: nat)
    requires Delivered(flow, registered) && k < |flow|
    ensures Delivered(Pushed(flow, k, f), registered[k := registered[k] + multiset{f}])
  {
    PushReaches(flow, k, f);
    var after, more := Pushed(flow, k, f), registered[k := registered[k] + multiset{f}];
    forall j | 0 <= j < |flow|
      ensures multiset(after[j].filters) == Received(after, more, j)
    {
      RegistrationReaches(flow, registered, k, multiset{f}, j);
      ReceivedSame(flow, after, more, j);
    }
  }

  /** Resolving a level delivers what was registered there before. */
  lemma ResolutionDelivers(flow: seq<Flow>, registered: seq<multiset<nat>>, k: nat)
    requires Delivered(flow, registered) && k < |flow|
    ensures Delivered(Resolved(flow, k), registered)
  {
    if !flow[k].resolved {
      var marked := flow[k := flow[k].(resolved := true)];
      if Hands(marked, k) {
        HandingDelivers(flow, registered, k);
      } else {
        forall j | 0 <= j < |flow|
          ensures Received(marked, registered, j) == Received(flow, registered, j)
        {
          MarkingAlone(flow, registered, k, j);
        }
      }
    }
  }

  lemma HandingDelivers(flow: seq<Flow>, registered: seq<multiset<nat>>, k: nat)
    requires Delivered(flow, registered) && 0 < k < |flow| && !flow[k].resolved && !flow[k].mapped
    ensures Delivered(Resolved(flow, k), registered)
  {
    hide PushedAll, Received, Reaches;
    var marked := flow[k := flow[k].(resolved := true)];
    var after := Resolved(flow, k);
    assert after == PushedAll(marked, k - 1, flow[k].filters);
    PushAllReaches(marked, k - 1, flow[k].filters);
    forall j | 0 <= j < |flow|
      ensures multiset(after[j].filters) == Received(after, registered, j)
    {
      ResolutionReaches(flow, registered, k, j);
      ReceivedSame(marked, after, registered, j);
      assert marked[j].filters == flow[j].filters;
    }
  }

  lemma {:induction false} MarkingAlone(flow: seq<Flow>, registered: seq<multiset<nat>>, k: nat, j: nat)
    requires j < |flow| == |registered| && k < |flow| && (k == 0 || flow[k].mapped || j >= k)
    ensures Received(flow[k := flow[k].(resolved := true)], registered, j) == Received(flow, registered, j)
    decreases |flow| - j
  {
    if j + 1 < |flow| {
      MarkingAlone(flow, registered, k, j + 1);
    }
  }

  lemma {:induction false} ResolutionReaches(flow: seq<Flow>, registered: seq<multiset<nat>>, k: nat, j: nat)
    requires j < |flow| == |registered| && 0 < k < |flow| && !flow[k].resolved && !flow[k].mapped
    ensures var marked := flow[k := flow[k].(resolved := true)];
      Received(marked, registered, j)
      == Received(flow, registered, j)
         + (if Reaches(marked, k - 1, j) then Received(flow, registered, k) else multiset{})
    decreases |flow| - j
  {
    var marked := flow[k := flow[k].(resolved := true)];
    ReachesDownOnly(marked, k - 1, j);
    if j >= k {
      MarkingAlone(flow, registered, k, j);
    } else if j == k - 1 {
      MarkingAlone(flow, registered, k, k);
    } else {
      ResolutionReaches(flow, registered, k, j + 1);
      ReachesFromAbove(marked, k - 1, j);
    }
  }

  lemma {:induction false} ResolutionDownDelivers(flow: seq<Flow>, registered: seq<multiset<nat>>, k: nat)
    requires Delivered(flow, registered) && k < |flow|
    ensures Delivered(ResolvedDown(flow, k), registered)
    decreases k
  {
    hide Delivered, Resolved;
    ResolutionDelivers(flow, registered, k);
    if k > 0 {
      ResolutionDownDelivers(Resolved(flow, k), registered, k - 1);
    }
  }

  /** Resolution changes what is resolved and kept, and only at the level and below. */
  ghost predicate SettlesAt(flow: seq<Flow>, after: seq<Flow>, k: nat, j: nat)
    requires |after| == |flow| && j < |flow|
  {
    && after[j] == flow[j].(resolved := after[j].resolved, filters := after[j].filters)
    && (flow[j].resolved ==> after[j].resolved)
    && (j > k ==> after[j] == flow[j])
  }

  ghost predicate Settles(flow: seq<Flow>, after: seq<Flow>, k: nat) {
    |after| == |flow| && forall j: nat :: j < |flow| ==> SettlesAt(flow, after, k, j)
  }

  lemma ResolutionSettles(flow: seq<Flow>, k: nat)
    requires k < |flow|
    ensures Settles(flow, Resolved(flow, k), k) && Resolved(flow, k)[k].resolved
  {
    if !flow[k].resolved && k > 0 && !flow[k].mapped {
      var marked := flow[k := flow[k].(resolved := true)];
      PushAllReaches(marked, k - 1, flow[k].filters);
      forall j: nat | j < |flow|
        ensures SettlesAt(flow, Resolved(flow, k), k, j)
      {
        ReachesDownOnly(marked, k - 1, j);
      }
    }
  }

  lemma {:induction false} ResolutionDownSettles(flow: seq<Flow>, k: nat)
    requires k < |flow|
    ensures Settles(flow, ResolvedDown(flow, k), k)
    ensures forall i :: 0 <= i <= k ==> ResolvedDown(flow, k)[i].resolved
    decreases k
  {
    ResolutionSettles(flow, k);
    if k > 0 {
      var once := Resolved(flow, k);
      ResolutionDownSettles(once, k - 1);
      forall j: nat | j < |flow|
        ensures SettlesAt(flow, ResolvedDown(flow, k), k, j)
      {
        assert SettlesAt(flow, once, k, j) && SettlesAt(once, ResolvedDown(once, k - 1), k - 1, j);
      }
      assert SettlesAt(once, ResolvedDown(once, k - 1), k - 1, k);
    }
  }

  // ---------- Where filters are applied ----------

  function Stamps(filters: seq<nat>): seq<Stamp> {
    seq(|filters|, i requires 0 <= i < |filters| => Filtered(filters[i]))
  }

  /** What joins the updates of level `k` when `below` comes out of what it pulls. */
  function Entered(flow: seq<Flow>, k: nat, below: Update): Update
    requires k < |flow|
  {
    Update(below.raw,
           below.trace + (if flow[k].mapped then [Mapped(k)] else [])
           + (if flow[k].mapped || k == 0 then Stamps(flow[k].filters) else []))
  }

  /** The transform hooks of a level run after accumulation. */
  function Leaving(flow: seq<Flow>, k: nat, u: Update): Update
    requires k < |flow|
  {
    u.(trace := u.trace + seq(flow[k].hooks, i requires 0 <= i < flow[k].hooks => Hooked(k)))
  }

  /** What a level yields for one raw update of the source. */
  function Yielded(flow: seq<Flow>, k: nat, raw: int): Update
    requires k < |flow|
    decreases k, 1
  {
    Leaving(flow, k, Joined(flow, k, raw))
  }

  /** What joins the updates of level `k` for one raw update of the source. */
  function Joined(flow: seq<Flow>, k: nat, raw: int): Update
    requires k < |flow|
    decreases k, 0
  {
    Entered(flow, k, if k == 0 then Update(raw, []) else Yielded(flow, k - 1, raw))
  }

  /** One raw update pulled through level `k`: every level from there down is resolved and accumulates what it sees. */
  ghost predicate Pulled(flow: seq<Flow>, after: seq<Flow>, k: nat, raw: int)
    requires k < |flow|
  {
    && |after| == |flow|
    && forall j: nat :: j < |flow| ==> after[j] == Accumulated(ResolvedDown(flow, k), k, j, raw)
  }

  function Accumulated(flow: seq<Flow>, k: nat, j: nat, raw: int): Flow
    requires j < |flow| && k < |flow|
  {
    if j <= k then flow[j].(updates := flow[j].updates + [Joined(flow, j, raw)]) else flow[j]
  }

  /** A pull through the source or through the level below, then through this one. */
  lemma PullComposes(flow: seq<Flow>, next: seq<Flow>, k: nat, raw: int, below: Update)
    requires k < |flow| == |next|
    requires if k == 0 then next == Resolved(flow, 0) && below == Update(raw, [])
             else Pulled(Resolved(flow, k), next, k - 1, raw)
                  && below == Yielded(ResolvedDown(Resolved(flow, k), k - 1), k - 1, raw)
    ensures Pulled(flow, next[k := next[k].(updates := next[k].updates + [Entered(next, k, below)])], k, raw)
    ensures Leaving(next, k, Entered(next, k, below)) == Yielded(ResolvedDown(flow, k), k, raw)
  {
    hide Resolved;
    if k > 0 {
      assert next[k] == Accumulated(ResolvedDown(flow, k), k - 1, k, raw) == ResolvedDown(flow, k)[k];
    }
    assert Entered(next, k, below) == Joined(ResolvedDown(flow, k), k, raw);
  }

  /** The filters an update has passed. */
  function FilterIds(trace: seq<Stamp>): multiset<nat> {
    if trace == [] then multiset{}
    else FilterIds(trace[..|trace| - 1]) + (match trace[|trace| - 1] case Filtered(id) => multiset{id} case _ => multiset{})
  }

  lemma {:induction false} FilterIdsAdd(a: seq<Stamp>, b: seq<Stamp>)
    ensures FilterIds(a + b) == FilterIds(a) + FilterIds(b)
  {
    if b == [] {
      assert a + [] == a;
    } else {
      FilterIdsAdd(a, b[..|b| - 1]);
      assert (a + b)[..|a + b| - 1] == a + b[..|b| - 1];
    }
  }

  lemma {:induction false} StampsAreFilters(filters: seq<nat>)
    ensures FilterIds(Stamps(filters)) == multiset(filters)
  {
    if filters != [] {
      var init := filters[..|filters| - 1];
      StampsAreFilters(init);
      assert Stamps(filters)[..|filters| - 1] == Stamps(init);
      assert filters == init + [filters[|filters| - 1]];
    }
  }

  lemma {:induction false} NoFilters(trace: seq<Stamp>)
    requires forall s :: s in trace ==> !s.Filtered?
    ensures FilterIds(trace) == multiset{}
  {
    if trace != [] {
      NoFilters(trace[..|trace| - 1]);
    }
  }

  /** The filters applied up to a level: at the source and behind every map. */
  function Applied(flow: seq<Flow>, k: nat): multiset<nat>
    requires k < |flow|
  {
    (if k == 0 then multiset{} else Applied(flow, k - 1)) + (if flow[k].mapped || k == 0 then Kept(flow, k) else multiset{})
  }

  function Kept(flow: seq<Flow>, k: nat): multiset<nat>
    requires k < |flow|
  {
    multiset(flow[k].filters)
  }

  lemma EnteredPassed(flow: seq<Flow>, k: nat, below: Update)
    requires k < |flow|
    ensures FilterIds(Entered(flow, k, below).trace)
         == FilterIds(below.trace) + (if flow[k].mapped || k == 0 then multiset(flow[k].filters) else multiset{})
  {
    hide FilterIds, Stamps;
    var mark := if flow[k].mapped then [Mapped(k)] else [];
    var stamps := if flow[k].mapped || k == 0 then Stamps(flow[k].filters) else [];
    FilterIdsAdd(below.trace, mark);
    FilterIdsAdd(below.trace + mark, stamps);
    NoFilters(mark);
    NoFilters([]);
    StampsAreFilters(flow[k].filters);
  }

  lemma YieldedPassed(flow: seq<Flow>, k: nat, raw: int)
    requires k < |flow|
    ensures FilterIds(Yielded(flow, k, raw).trace) == FilterIds(Joined(flow, k, raw).trace)
  {
    hide FilterIds, Joined;
    var hooks := seq(flow[k].hooks, i requires 0 <= i < flow[k].hooks => Hooked(k));
    FilterIdsAdd(Joined(flow, k, raw).trace, hooks);
    NoFilters(hooks);
  }

  lemma {:induction false} JoinedPassed(flow: seq<Flow>, k: nat, raw: int)
    requires k < |flow|
    ensures FilterIds(Joined(flow, k, raw).trace) == Applied(flow, k)
    ensures FilterIds(Yielded(flow, k, raw).trace) == Applied(flow, k)
    decreases k
  {
    hide Entered, Yielded;
    YieldedPassed(flow, k, raw);
    if k == 0 {
      EnteredPassed(flow, 0, Update(raw, []));
    } else {
      JoinedPassed(flow, k - 1, raw);
      EnteredPassed(flow, k, Yielded(flow, k - 1, raw));
    }
  }

  function Sum(registered: seq<multiset<nat>>, k: nat): multiset<nat>
    requires k < |registered|
  {
    registered[k] + (if k == 0 then multiset{} else Sum(registered, k - 1))
  }

  /** What the level above hands down to level `k`. */
  function Above(flow: seq<Flow>, registered: seq<multiset<nat>>, k: nat): multiset<nat>
    requires k < |flow| == |registered|
  {
    if k + 1 < |flow| && Hands(flow, k + 1) then Received(flow, registered, k + 1) else multiset{}
  }

  /** Up to a level whose inner streams are all resolved, exactly the filters registered there or below have been
      applied, and those handed down from above. */
  lemma {:induction false} AppliedIsRegistered(flow: seq<Flow>, registered: seq<multiset<nat>>, k: nat)
    requires Delivered(flow, registered) && k < |flow| == |registered|
    requires forall i :: 0 < i <= k ==> flow[i].resolved
    ensures Applied(flow, k) == Sum(registered, k) + Above(flow, registered, k)
    decreases k
  {
    hide Delivered, Applied, Sum, Above;
    KeptIsReceived(flow, registered, k);
    if k == 0 {
      AppliedFirst(flow, registered);
    } else {
      AppliedIsRegistered(flow, registered, k - 1);
      AppliedNext(flow, registered, k);
    }
  }

  lemma AppliedFirst(flow: seq<Flow>, registered: seq<multiset<nat>>)
    requires 0 < |flow| == |registered| && Kept(flow, 0) == registered[0] + Above(flow, registered, 0)
    ensures Applied(flow, 0) == Sum(registered, 0) + Above(flow, registered, 0)
  {
    hide Kept, Above;
  }

  lemma AppliedNext(flow: seq<Flow>, registered: seq<multiset<nat>>, k: nat)
    requires 0 < k < |flow| == |registered| && flow[k].resolved
    requires Kept(flow, k) == registered[k] + Above(flow, registered, k)
    requires Applied(flow, k - 1) == Sum(registered, k - 1) + Above(flow, registered, k - 1)
    requires Above(flow, registered, k - 1) == if flow[k].mapped then multiset{} else Kept(flow, k)
    ensures Applied(flow, k) == Sum(registered, k) + Above(flow, registered, k)
  {
    assert Sum(registered, k) == registered[k] + Sum(registered, k - 1);
    assert Applied(flow, k) == Applied(flow, k - 1) + (if flow[k].mapped then Kept(flow, k) else multiset{});
    hide Kept, Above, Applied, Sum;
    Accumulates(Sum(registered, k - 1), registered[k], Above(flow, registered, k), Applied(flow, k - 1), flow[k].mapped);
  }

  lemma KeptIsReceived(flow: seq<Flow>, registered: seq<multiset<nat>>, k: nat)
    requires Delivered(flow, registered) && k < |flow| == |registered|
    ensures Kept(flow, k) == registered[k] + Above(flow, registered, k)
    ensures k > 0 && flow[k].resolved ==>
              Above(flow, registered, k - 1) == if flow[k].mapped then multiset{} else Kept(flow, k)
  {
    assert Kept(flow, k) == Received(flow, registered, k);
  }

  lemma Accumulates(sum: multiset<nat>, registered: multiset<nat>, above: multiset<nat>, below: multiset<nat>, here: bool)
    requires below == sum + (if here then multiset{} else registered + above)
    ensures below + (if here then registered + above else multiset{}) == registered + sum + above
  {
  }

  /** An update pulled through the whole chain passes every registered filter exactly as often as it was registered. */
  lemma EveryFilterOnce(flow: seq<Flow>, registered: seq<multiset<nat>>, raw: int)
    requires Delivered(flow, registered) && flow != []
    requires forall i :: 0 < i < |flow| ==> flow[i].resolved
    ensures FilterIds(Yielded(flow, |flow| - 1, raw).trace) == Sum(registered, |flow| - 1)
    ensures FilterIds(Joined(flow, |flow| - 1, raw).trace) == Sum(registered, |flow| - 1)
  {
    JoinedPassed(flow, |flow| - 1, raw);
    AppliedIsRegistered(flow, registered, |flow| - 1);
  }

  /** The level that applies what level `k` registers. */
  function Home(flow: seq<Flow>, k: nat): nat
    requires k < |flow|
  {
    if k == 0 || flow[k].mapped then k else Home(flow, k - 1)
  }

  lemma {:induction false} HomeIsReached(flow: seq<Flow>, k: nat)
    requires k < |flow| && forall i :: 0 < i <= k ==> flow[i].resolved
    ensures Home(flow, k) <= k && Reaches(flow, k, Home(flow, k))
  {
    if k > 0 && !flow[k].mapped {
      HomeIsReached(flow, k - 1);
    }
  }

  lemma {:induction false} ReachedReceives(flow: seq<Flow>, registered: seq<multiset<nat>>, k: nat, j: nat)
    requires |flow| == |registered| && k < |flow| && Reaches(flow, k, j) && j <= k
    ensures registered[k] <= Received(flow, registered, j)
    decreases |flow| - j
  {
    if j < k {
      ReachesFromAbove(flow, k, j);
      ReachedReceives(flow, registered, k, j + 1);
    }
  }

  /** A filter has been applied by the time the update joins the updates of the stream that applies it. */
  lemma FilteredBeforeJoining(flow: seq<Flow>, registered: seq<multiset<nat>>, k: nat, raw: int)
    requires Delivered(flow, registered) && k < |flow|
    requires forall i :: 0 < i <= k ==> flow[i].resolved
    ensures var home := Home(flow, k);
      home < |flow| && registered[k] <= FilterIds(Joined(flow, home, raw).trace)
  {
    HomeIsReached(flow, k);
    var home := Home(flow, k);
    ReachedReceives(flow, registered, k, home);
    JoinedPassed(flow, home, raw);
    HomeApplies(flow, k);
  }

  lemma {:induction false} HomeApplies(flow: seq<Flow>, k: nat)
    requires k < |flow|
    ensures Home(flow, k) < |flow| && (flow[Home(flow, k)].mapped || Home(flow, k) == 0)
  {
    if k > 0 && !flow[k].mapped {
      HomeApplies(flow, k - 1);
    }
  }
}
