/** A queue of call slots that results fill first come, first served. */
module Fifo {
  import opened Values

  /** A call, or a result offered to the queue. */
  datatype Event<T> = Call(item: T) | Result(item: T)

  datatype Slot<T> = Slot(call: T, result: Option<T>)

  /** The slots in registration order, and the results no slot took. */
  datatype Queue<T> = Queue(slots: seq<Slot<T>>, overflow: seq<T>)

  function FirstOpenFrom<T>(slots: seq<Slot<T>>, from: nat): (index: nat)
    requires from <= |slots|
    ensures from <= index <= |slots|
    ensures index < |slots| ==> slots[index].result.None?
    ensures forall i :: from <= i < index ==> slots[i].result.Some?
    decreases |slots| - from
  {
    if from == |slots| || slots[from].result.None? then from else FirstOpenFrom(slots, from + 1)
  }

  /** The first slot without a result, or the length. */
  function FirstOpen<T>(slots: seq<Slot<T>>): (index: nat)
    ensures index <= |slots|
    ensures index < |slots| ==> slots[index].result.None?
    ensures forall i :: 0 <= i < index ==> slots[i].result.Some?
  {
    FirstOpenFrom(slots, 0)
  }

  function Fill<T>(slots: seq<Slot<T>>, result: T): (filled: seq<Slot<T>>)
    requires FirstOpen(slots) < |slots|
    ensures |filled| == |slots|
  {
    slots[FirstOpen(slots) := Slot(slots[FirstOpen(slots)].call, Some(result))]
  }

  function Step<T>(queue: Queue<T>, event: Event<T>): Queue<T> {
    match event
    case Call(call) => queue.(slots := queue.slots + [Slot(call, None)])
    case Result(result) =>
      if FirstOpen(queue.slots) < |queue.slots| then queue.(slots := Fill(queue.slots, result))
      else queue.(overflow := queue.overflow + [result])
  }

  /** The queue after the first `n` events. */
  function After<T>(events: seq<Event<T>>, n: nat): Queue<T>
    requires n <= |events|
  {
    if n == 0 then Queue([], []) else Step(After(events, n - 1), events[n - 1])
  }

  function Run<T>(events: seq<Event<T>>): Queue<T> {
    After(events, |events|)
  }

  // ---------- Positions ----------

  /** The positions of the calls among the first `n` events, ascending. */
  function Calls<T>(events: seq<Event<T>>, n: nat): seq<nat>
    requires n <= |events|
  {
    if n == 0 then [] else Calls(events, n - 1) + (if events[n - 1].Call? then [n - 1] else [])
  }

  /** The positions of the results a slot took among the first `n` events, ascending. */
  function Takers<T>(events: seq<Event<T>>, n: nat): seq<nat>
    requires n <= |events|
  {
    if n == 0 then []
    else
      var slots := After(events, n - 1).slots;
      Takers(events, n - 1) + (if events[n - 1].Result? && FirstOpen(slots) < |slots| then [n - 1] else [])
  }

  /** The positions of the results no slot took among the first `n` events, ascending. */
  function Leavers<T>(events: seq<Event<T>>, n: nat): seq<nat>
    requires n <= |events|
  {
    if n == 0 then []
    else
      var slots := After(events, n - 1).slots;
      Leavers(events, n - 1) + (if events[n - 1].Result? && FirstOpen(slots) == |slots| then [n - 1] else [])
  }

  ghost predicate Ascending(positions: seq<nat>, below: nat) {
    && (forall i :: 0 <= i < |positions| ==> positions[i] < below)
    && (forall i, j :: 0 <= i < j < |positions| ==> positions[i] < positions[j])
  }

  /** A queue described by positions: the slots are the calls in order, a prefix of them filled,
      the i-th slot by the i-th taker, which comes after the i-th call. */
  ghost predicate DescribedBy<T>(events: seq<Event<T>>, n: nat, slots: seq<Slot<T>>, calls: seq<nat>, takers: seq<nat>)
    requires n <= |events|
  {
    && Ascending(calls, n) && Ascending(takers, n)
    && |slots| == |calls| && |takers| <= |calls|
    && (forall i :: 0 <= i < |calls| ==> events[calls[i]] == Call(slots[i].call))
    && (forall i :: 0 <= i < |takers| ==>
          slots[i].result.Some? && events[takers[i]] == Result(slots[i].result.value) && calls[i] < takers[i])
    && (forall i :: |takers| <= i < |calls| ==> slots[i].result.None?)
  }

  ghost predicate Left<T>(events: seq<Event<T>>, n: nat, overflow: seq<T>, leavers: seq<nat>)
    requires n <= |events|
  {
    && Ascending(leavers, n)
    && |overflow| == |leavers|
    && (forall i :: 0 <= i < |leavers| ==> events[leavers[i]] == Result(overflow[i]))
  }

  ghost predicate Described<T>(events: seq<Event<T>>, n: nat)
    requires n <= |events|
  {
    var queue := After(events, n);
    && DescribedBy(events, n, queue.slots, Calls(events, n), Takers(events, n))
    && Left(events, n, queue.overflow, Leavers(events, n))
    && FirstOpen(queue.slots) == |Takers(events, n)|
  }

  lemma FirstOpenAt<T>(slots: seq<Slot<T>>, k: nat)
    requires k <= |slots|
    requires forall i :: 0 <= i < k ==> slots[i].result.Some?
    requires k < |slots| ==> slots[k].result.None?
    ensures FirstOpen(slots) == k
  {
  }

  lemma DescribedCall<T>(events: seq<Event<T>>, n: nat, slots: seq<Slot<T>>, calls: seq<nat>, takers: seq<nat>)
    requires n < |events| && events[n].Call?
    requires DescribedBy(events, n, slots, calls, takers) && FirstOpen(slots) == |takers|
    ensures var slots' := slots + [Slot(events[n].item, None)];
      DescribedBy(events, n + 1, slots', calls + [n], takers) && FirstOpen(slots') == |takers|
  {
    FirstOpenAt(slots + [Slot(events[n].item, None)], |takers|);
  }

  lemma DescribedFill<T>(events: seq<Event<T>>, n: nat, slots: seq<Slot<T>>, calls: seq<nat>, takers: seq<nat>)
    requires n < |events| && events[n].Result?
    requires DescribedBy(events, n, slots, calls, takers)
    requires FirstOpen(slots) == |takers| < |slots|
    ensures var slots' := Fill(slots, events[n].item);
      DescribedBy(events, n + 1, slots', calls, takers + [n]) && FirstOpen(slots') == |takers| + 1
  {
    FirstOpenAt(Fill(slots, events[n].item), |takers| + 1);
  }

  lemma DescribedOverflow<T>(events: seq<Event<T>>, n: nat, overflow: seq<T>, leavers: seq<nat>)
    requires n < |events| && events[n].Result?
    requires Left(events, n, overflow, leavers)
    ensures Left(events, n + 1, overflow + [events[n].item], leavers + [n])
  {
  }

  lemma DescribedLater<T>(events: seq<Event<T>>, n: nat, queue: Queue<T>, calls: seq<nat>, takers: seq<nat>,
                          leavers: seq<nat>)
    requires n < |events|
    ensures DescribedBy(events, n, queue.slots, calls, takers) ==> DescribedBy(events, n + 1, queue.slots, calls, takers)
    ensures Left(events, n, queue.overflow, leavers) ==> Left(events, n + 1, queue.overflow, leavers)
  {
  }

  lemma NextCall<T>(events: seq<Event<T>>, n: nat)
    requires n < |events| && events[n].Call?
    requires Described(events, n)
    ensures Described(events, n + 1)
  {
    var before := After(events, n);
    var calls, takers, leavers := Calls(events, n), Takers(events, n), Leavers(events, n);
    DescribedLater(events, n, before, calls, takers, leavers);
    DescribedCall(events, n, before.slots, calls, takers);
  }

  lemma NextFill<T>(events: seq<Event<T>>, n: nat)
    requires n < |events| && events[n].Result? && FirstOpen(After(events, n).slots) < |After(events, n).slots|
    requires Described(events, n)
    ensures Described(events, n + 1)
  {
    var before := After(events, n);
    var calls, takers, leavers := Calls(events, n), Takers(events, n), Leavers(events, n);
    DescribedLater(events, n, before, calls, takers, leavers);
    DescribedFill(events, n, before.slots, calls, takers);
  }

  lemma NextOverflow<T>(events: seq<Event<T>>, n: nat)
    requires n < |events| && events[n].Result? && FirstOpen(After(events, n).slots) == |After(events, n).slots|
    requires Described(events, n)
    ensures Described(events, n + 1)
  {
    var before := After(events, n);
    var calls, takers, leavers := Calls(events, n), Takers(events, n), Leavers(events, n);
    DescribedLater(events, n, before, calls, takers, leavers);
    DescribedOverflow(events, n, before.overflow, leavers);
  }

  lemma {:induction false} QueueIsDescribed<T>(events: seq<Event<T>>, n: nat)
    requires n <= |events|
    ensures Described(events, n)
  {
    if n == 0 {
      assert After(events, 0) == Queue([], []);
    } else {
      hide Described, After, FirstOpen;
      QueueIsDescribed(events, n - 1);
      if events[n - 1].Call? {
        NextCall(events, n - 1);
      } else if FirstOpen(After(events, n - 1).slots) < |After(events, n - 1).slots| {
        NextFill(events, n - 1);
      } else {
        NextOverflow(events, n - 1);
      }
    }
  }

  // ---------- Conservation ----------

  function Items<T>(events: seq<Event<T>>, calls: bool): multiset<T> {
    if events == [] then multiset{} else
    var last := events[|events| - 1];
    Items(events[..|events| - 1], calls) + (if last.Call? == calls then multiset{last.item} else multiset{})
  }

  function Filled<T>(slots: seq<Slot<T>>): multiset<T> {
    if slots == [] then multiset{} else
    var last := slots[|slots| - 1];
    Filled(slots[..|slots| - 1]) + (if last.result.Some? then multiset{last.result.value} else multiset{})
  }

  lemma {:induction false} FilledUpdate<T>(slots: seq<Slot<T>>, k: nat, result: T)
    requires k < |slots| && slots[k].result.None?
    ensures Filled(slots[k := Slot(slots[k].call, Some(result))]) == Filled(slots) + multiset{result}
  {
    hide Filled;
    var init, last := slots[..|slots| - 1], slots[|slots| - 1];
    var filled := Slot(slots[k].call, Some(result));
    UpdateSnoc(slots, k, filled);
    if k < |init| {
      FilledUpdate(init, k, result);
      FilledSnoc(init[k := filled], last);
    } else {
      FilledSnoc(init, filled);
    }
    FilledSnoc(init, last);
  }

  lemma UpdateSnoc<T>(items: seq<T>, k: nat, item: T)
    requires k < |items|
    ensures var init, last := items[..|items| - 1], items[|items| - 1];
      && items == init + [last]
      && items[k := item] == if k < |init| then init[k := item] + [last] else init + [item]
  {
  }

  lemma FilledSnoc<T>(slots: seq<Slot<T>>, slot: Slot<T>)
    ensures Filled(slots + [slot]) == Filled(slots) + (if slot.result.Some? then multiset{slot.result.value} else multiset{})
  {
    assert (slots + [slot])[..|slots|] == slots;
  }

  lemma {:induction false} AfterPrefix<T>(events: seq<Event<T>>, n: nat, m: nat)
    requires n <= m <= |events|
    ensures After(events[..m], n) == After(events, n)
  {
    if n > 0 {
      AfterPrefix(events, n - 1, m);
    }
  }

  lemma RunSnoc<T>(events: seq<Event<T>>, event: Event<T>)
    ensures Run(events + [event]) == Step(Run(events), event)
  {
    assert (events + [event])[..|events|] == events;
    AfterPrefix(events + [event], |events|, |events|);
  }

  /** Every result offered to the queue ends up in exactly one slot or in the overflow. */
  lemma {:induction false} QueueConserves<T>(events: seq<Event<T>>)
    ensures Filled(Run(events).slots) + multiset(Run(events).overflow) == Items(events, false)
  {
    if events != [] {
      var init := events[..|events| - 1];
      var last := events[|events| - 1];
      QueueConserves(init);
      AfterPrefix(events, |init|, |init|);
      var before := Run(init);
      assert Run(events) == Step(before, last);
      var k := FirstOpen(before.slots);
      if last.Call? {
        assert (before.slots + [Slot(last.item, None)])[..|before.slots|] == before.slots;
      } else if k < |before.slots| {
        FilledUpdate(before.slots, k, last.item);
      }
    }
  }

  // ---------- Maximality ----------

  /** A way to answer calls: pairs of a call position and a later result position, nothing used twice. */
  ghost predicate IsMatching<T>(events: seq<Event<T>>, n: nat, pairs: set<(nat, nat)>)
    requires n <= |events|
  {
    && (forall p :: p in pairs ==> p.0 < p.1 < n && events[p.0].Call? && events[p.1].Result?)
    && (forall p, q :: p in pairs && q in pairs && p != q ==> p.0 != q.0 && p.1 != q.1)
  }

  lemma {:induction false} CallsAreAll<T>(events: seq<Event<T>>, n: nat)
    requires n <= |events|
    ensures forall i :: 0 <= i < n && events[i].Call? ==> i in Calls(events, n)
  {
    if n > 0 {
      CallsAreAll(events, n - 1);
    }
  }

  lemma {:induction false} DistinctFirsts(pairs: set<(nat, nat)>, firsts: seq<nat>)
    requires forall p :: p in pairs ==> p.0 in firsts
    requires forall p, q :: p in pairs && q in pairs && p != q ==> p.0 != q.0
    ensures |pairs| <= |firsts|
  {
    if pairs != {} {
      var p :| p in pairs;
      var k :| 0 <= k < |firsts| && firsts[k] == p.0;
      var fewer := firsts[..k] + firsts[k + 1..];
      forall q | q in pairs - {p}
        ensures q.0 in fewer
      {
        var j :| 0 <= j < |firsts| && firsts[j] == q.0;
        if j < k {
          assert fewer[j] == q.0;
        } else {
          assert fewer[j - 1] == q.0;
        }
      }
      DistinctFirsts(pairs - {p}, fewer);
    }
  }

  lemma AllTaken<T>(events: seq<Event<T>>, n: nat)
    requires 0 < n <= |events|
    requires events[n - 1].Result? && FirstOpen(After(events, n - 1).slots) == |After(events, n - 1).slots|
    ensures |Takers(events, n)| == |Calls(events, n)|
  {
    QueueIsDescribed(events, n - 1);
  }

  /** Nobody was turned away at the last event. */
  lemma TakerOrNot<T>(events: seq<Event<T>>, n: nat)
    requires 0 < n <= |events|
    requires !(events[n - 1].Result? && FirstOpen(After(events, n - 1).slots) == |After(events, n - 1).slots|)
    ensures Takers(events, n) == Takers(events, n - 1) + (if events[n - 1].Result? then [n - 1] else [])
  {
  }

  /** Without the last event a matching loses one pair at most, and none if that event is a call. */
  lemma FewerPairs<T>(events: seq<Event<T>>, n: nat, pairs: set<(nat, nat)>) returns (fewer: set<(nat, nat)>)
    requires 0 < n <= |events| && IsMatching(events, n, pairs)
    ensures IsMatching(events, n - 1, fewer)
    ensures |pairs| <= |fewer| + if events[n - 1].Result? then 1 else 0
  {
    fewer := pairs;
    if p :| p in pairs && p.1 == n - 1 {
      fewer := pairs - {p};
      OneFewer(pairs, p);
    }
  }

  lemma MaximumIfAllTaken<T>(events: seq<Event<T>>, n: nat, pairs: set<(nat, nat)>)
    requires 0 < n <= |events| && IsMatching(events, n, pairs)
    requires events[n - 1].Result? && FirstOpen(After(events, n - 1).slots) == |After(events, n - 1).slots|
    ensures |pairs| <= |Takers(events, n)|
  {
    hide Calls, Takers, After, FirstOpen;
    AllTaken(events, n);
    CallsAreAll(events, n);
    DistinctFirsts(pairs, Calls(events, n));
  }

  lemma NoPairs<T>(events: seq<Event<T>>, pairs: set<(nat, nat)>)
    requires IsMatching(events, 0, pairs)
    ensures |pairs| == 0
  {
    assert pairs == {};
  }

  lemma OneFewer(pairs: set<(nat, nat)>, p: (nat, nat))
    requires p in pairs
    ensures |pairs| == |pairs - {p}| + 1
  {
  }

  /** First come, first served answers as many calls as any assignment can. */
  lemma {:induction false} QueueIsMaximum<T>(events: seq<Event<T>>, n: nat, pairs: set<(nat, nat)>)
    requires n <= |events|
    requires IsMatching(events, n, pairs)
    ensures |pairs| <= |Takers(events, n)|
  {
    if n == 0 {
      NoPairs(events, pairs);
    } else if events[n - 1].Result? && FirstOpen(After(events, n - 1).slots) == |After(events, n - 1).slots| {
      MaximumIfAllTaken(events, n, pairs);
    } else {
      TakerOrNot(events, n);
      var fewer := FewerPairs(events, n, pairs);
      QueueIsMaximum(events, n - 1, fewer);
    }
  }

  /** The assignment the queue makes, as a matching. */
  ghost function Assignment<T>(events: seq<Event<T>>): (pairs: set<(nat, nat)>)
  {
    QueueIsDescribed(events, |events|);
    set i | 0 <= i < |Takers(events, |events|)| :: (Calls(events, |events|)[i], Takers(events, |events|)[i])
  }

  lemma {:induction false} AssignmentIsMatching<T>(events: seq<Event<T>>)
    ensures IsMatching(events, |events|, Assignment(events))
    ensures |Assignment(events)| == |Takers(events, |events|)|
  {
    QueueIsDescribed(events, |events|);
    var calls := Calls(events, |events|);
    var takers := Takers(events, |events|);
    PairCount(calls, takers, |takers|);
  }

  lemma {:induction false} PairCount(firsts: seq<nat>, seconds: seq<nat>, n: nat)
    requires n <= |seconds| <= |firsts|
    requires forall i, j :: 0 <= i < j < |seconds| ==> seconds[i] < seconds[j]
    ensures |set i | 0 <= i < n :: (firsts[i], seconds[i])| == n
  {
    var s := set i | 0 <= i < n :: (firsts[i], seconds[i]);
    if n == 0 {
      assert s == {};
    } else {
      PairCount(firsts, seconds, n - 1);
      var smaller := set i | 0 <= i < n - 1 :: (firsts[i], seconds[i]);
      var p := (firsts[n - 1], seconds[n - 1]);
      assert p !in smaller;
      assert s == smaller + {p};
    }
  }
}
