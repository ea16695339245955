/** What the pairing walk promises of every exchange under every policy. */
module PairingLaws {
  import opened Values
  import opened Transcript
  import opened Exchanges
  import opened Fifo
  import opened Pairing

  // ---------- The walk is one first-come-first-served queue per key ----------

  /** The calls and results of one key, in walk order. */
  function KeyEvents(events: seq<Event<Occurrence>>, key: Key): seq<Event<Occurrence>> {
    if events == [] then [] else
    var last := events[|events| - 1];
    KeyEvents(events[..|events| - 1], key) + (if KeyOf(last.item) == Some(key) then [last] else [])
  }

  function QueueAt(view: PairingView, key: Key): Queue<Occurrence> {
    Queue(SlotsAt(view.truthy, key), ListAt(view.unconsumed, key))
  }

  ghost predicate Tidy(view: PairingView, key: Key) {
    && (key in view.truthy <==> SlotsAt(view.truthy, key) != [])
    && (key in view.unconsumed <==> ListAt(view.unconsumed, key) != [])
  }

  lemma FalsyKeepsKeyed(policy: PairingPolicy, view: PairingView, event: Event<Occurrence>)
    requires KeyOf(event.item).None?
    ensures var next := Next(policy, view, event);
      && next.truthy == view.truthy && next.unconsumed == view.unconsumed
      && next.firstCallSeq == view.firstCallSeq && next.eligibleTruthy == view.eligibleTruthy
      && next.sequence == view.sequence + 1
  {
    var next := Next(policy, view, event);
    if Ignored(policy, event.item) {
      assert next == view.(sequence := view.sequence + 1);
    } else if event.Call? {
      assert next == RegisterFalsy(policy, view, event.item);
    } else {
      assert next == ConsumeFalsy(policy, view, event.item);
    }
  }

  lemma RegisterStep(view: PairingView, call: Occurrence, own: Key, key: Key)
    requires Tidy(view, key)
    ensures var next := RegisterKeyed(view, own, call);
      && Tidy(next, key)
      && QueueAt(next, key) == if own == key then Step(QueueAt(view, key), Call(call)) else QueueAt(view, key)
  {
  }

  lemma ConsumeStep(view: PairingView, result: Occurrence, own: Key, key: Key)
    requires Tidy(view, key)
    ensures var next := ConsumeKeyed(view, own, result);
      && Tidy(next, key)
      && QueueAt(next, key) == if own == key then Step(QueueAt(view, key), Result(result)) else QueueAt(view, key)
  {
  }

  lemma KeyStep(policy: PairingPolicy, view: PairingView, event: Event<Occurrence>, key: Key)
    requires Tidy(view, key)
    ensures Tidy(Next(policy, view, event), key)
    ensures QueueAt(Next(policy, view, event), key)
         == if KeyOf(event.item) == Some(key) then Step(QueueAt(view, key), event) else QueueAt(view, key)
  {
    if KeyOf(event.item).None? {
      FalsyKeepsKeyed(policy, view, event);
    } else if event.Call? {
      assert Next(policy, view, event) == RegisterKeyed(view, KeyOf(event.item).value, event.item);
      RegisterStep(view, event.item, KeyOf(event.item).value, key);
    } else {
      assert Next(policy, view, event) == ConsumeKeyed(view, KeyOf(event.item).value, event.item);
      ConsumeStep(view, event.item, KeyOf(event.item).value, key);
    }
  }

  lemma {:induction false} KeyIsQueue(policy: PairingPolicy, events: seq<Event<Occurrence>>, key: Key)
    ensures QueueAt(Walk(policy, events), key) == Run(KeyEvents(events, key))
    ensures Tidy(Walk(policy, events), key)
  {
    if events == [] {
      assert Run(KeyEvents(events, key)) == Queue([], []);
    } else {
      assert KeyEvents(events[..|events| - 1], key) + [] == KeyEvents(events[..|events| - 1], key);
      var init, last := events[..|events| - 1], events[|events| - 1];
      KeyIsQueue(policy, init, key);
      KeyStep(policy, Walk(policy, init), last, key);
      RunSnoc(KeyEvents(init, key), last);
    }
  }

  /** The queue of an id-less stream: what rides it, and of the results only those allowed to consume. */
  predicate Rides(policy: PairingPolicy, event: Event<Occurrence>, stream: Stream) {
    && KeyOf(event.item).None?
    && !Ignored(policy, event.item)
    && !Unpairable(policy, event.item)
    && QueueOf(policy, event.item) == stream
    && (event.Result? ==> MayConsume(policy, event.item))
  }

  function StreamEvents(policy: PairingPolicy, events: seq<Event<Occurrence>>, stream: Stream): seq<Event<Occurrence>> {
    if events == [] then [] else
    var last := events[|events| - 1];
    StreamEvents(policy, events[..|events| - 1], stream) + (if Rides(policy, last, stream) then [last] else [])
  }

  lemma StreamRegister(policy: PairingPolicy, view: PairingView, call: Occurrence, stream: Stream)
    requires KeyOf(call).None? && !Ignored(policy, call)
    ensures SlotsAt(RegisterFalsy(policy, view, call).falsy, stream)
         == SlotsAt(view.falsy, stream) + if Rides(policy, Call(call), stream) then [Slot(call, None)] else []
  {
  }

  lemma StreamConsume(policy: PairingPolicy, view: PairingView, result: Occurrence, stream: Stream)
    requires KeyOf(result).None? && !Ignored(policy, result)
    ensures var slots := SlotsAt(view.falsy, stream);
      SlotsAt(ConsumeFalsy(policy, view, result).falsy, stream)
      == if Rides(policy, Result(result), stream) && FirstOpen(slots) < |slots| then Fill(slots, result) else slots
  {
  }

  lemma StreamStep(policy: PairingPolicy, view: PairingView, event: Event<Occurrence>, stream: Stream, overflow: seq<Occurrence>)
    requires KeyOf(event.item).None?
    ensures SlotsAt(Next(policy, view, event).falsy, stream)
         == if Rides(policy, event, stream) then Step(Queue(SlotsAt(view.falsy, stream), overflow), event).slots
            else SlotsAt(view.falsy, stream)
  {
    var next := Next(policy, view, event);
    if Ignored(policy, event.item) {
      assert next == view.(sequence := view.sequence + 1);
    } else if event.Call? {
      assert next == RegisterFalsy(policy, view, event.item);
      StreamRegister(policy, view, event.item, stream);
    } else {
      assert next == ConsumeFalsy(policy, view, event.item);
      StreamConsume(policy, view, event.item, stream);
    }
  }

  lemma KeyedKeepsFalsy(policy: PairingPolicy, view: PairingView, event: Event<Occurrence>)
    requires KeyOf(event.item).Some?
    ensures var next := Next(policy, view, event);
      && next.falsy == view.falsy && next.falsyUnconsumed == view.falsyUnconsumed
      && next.unpairableCalls == view.unpairableCalls && next.unpairableResults == view.unpairableResults
  {
    var next := Next(policy, view, event);
    if event.Call? {
      assert next == RegisterKeyed(view, KeyOf(event.item).value, event.item);
    } else {
      assert next == ConsumeKeyed(view, KeyOf(event.item).value, event.item);
    }
  }

  lemma {:induction false} StreamIsQueue(policy: PairingPolicy, events: seq<Event<Occurrence>>, stream: Stream)
    ensures SlotsAt(Walk(policy, events).falsy, stream) == Run(StreamEvents(policy, events, stream)).slots
  {
    if events == [] {
      assert Run(StreamEvents(policy, events, stream)) == Queue([], []);
    } else {
      assert StreamEvents(policy, events[..|events| - 1], stream) + [] == StreamEvents(policy, events[..|events| - 1], stream);
      var init, last := events[..|events| - 1], events[|events| - 1];
      StreamIsQueue(policy, init, stream);
      if KeyOf(last.item).Some? {
        KeyedKeepsFalsy(policy, Walk(policy, init), last);
      } else {
        StreamStep(policy, Walk(policy, init), last, stream, Run(StreamEvents(policy, init, stream)).overflow);
        RunSnoc(StreamEvents(policy, init, stream), last);
      }
    }
  }

  // ---------- Eligible and answered ----------

  ghost predicate EligibleState(view: PairingView, key: Key) {
    var slots := SlotsAt(view.truthy, key);
    var eligible := ListAt(view.eligibleTruthy, key);
    && (key in view.firstCallSeq <==> slots != [])
    && (key in view.firstCallSeq ==> view.firstCallSeq[key] <= view.sequence)
    && (key in view.eligibleTruthy <==> eligible != [])
    && (eligible != [] <==> FirstOpen(slots) > 0)
    && Filled(slots) <= multiset(eligible)
  }

  function CallsIn(slots: seq<Slot<Occurrence>>): multiset<Occurrence> {
    if slots == [] then multiset{}
    else CallsIn(slots[..|slots| - 1]) + multiset{slots[|slots| - 1].call}
  }

  lemma {:induction false} CallsInFill(slots: seq<Slot<Occurrence>>, k: nat, result: Occurrence)
    requires k < |slots|
    ensures CallsIn(slots[k := Slot(slots[k].call, Some(result))]) == CallsIn(slots)
  {
    var last := |slots| - 1;
    var after := slots[k := Slot(slots[k].call, Some(result))];
    if k < last {
      CallsInFill(slots[..last], k, result);
      assert after[..last] == slots[..last][k := Slot(slots[k].call, Some(result))];
    } else {
      assert after[..last] == slots[..last];
    }
  }

  lemma FirstOpenPush(slots: seq<Slot<Occurrence>>, call: Occurrence)
    ensures FirstOpen(slots + [Slot(call, None)]) == FirstOpen(slots)
    ensures Filled(slots + [Slot(call, None)]) == Filled(slots)
    ensures CallsIn(slots + [Slot(call, None)]) == CallsIn(slots) + multiset{call}
  {
    FirstOpenAt(slots + [Slot(call, None)], FirstOpen(slots));
    assert (slots + [Slot(call, None)])[..|slots|] == slots;
  }

  lemma FirstOpenFill(slots: seq<Slot<Occurrence>>, result: Occurrence)
    requires FirstOpen(slots) < |slots|
    ensures FirstOpen(Fill(slots, result)) > 0
    ensures Filled(Fill(slots, result)) == Filled(slots) + multiset{result}
    ensures CallsIn(Fill(slots, result)) == CallsIn(slots)
  {
    FilledUpdate(slots, FirstOpen(slots), result);
    CallsInFill(slots, FirstOpen(slots), result);
  }

  lemma EligibleRegister(view: PairingView, call: Occurrence, key: Key)
    requires EligibleState(view, key)
    ensures EligibleState(RegisterKeyed(view, key, call), key)
  {
    FirstOpenPush(SlotsAt(view.truthy, key), call);
  }

  lemma EligibleConsume(view: PairingView, result: Occurrence, key: Key)
    requires EligibleState(view, key)
    ensures EligibleState(ConsumeKeyed(view, key, result), key)
  {
    var slots := SlotsAt(view.truthy, key);
    if FirstOpen(slots) < |slots| {
      FirstOpenFill(slots, result);
    }
  }

  lemma EligibleElsewhere(policy: PairingPolicy, view: PairingView, event: Event<Occurrence>, key: Key)
    requires EligibleState(view, key) && KeyOf(event.item) != Some(key)
    ensures EligibleState(Next(policy, view, event), key)
  {
    if KeyOf(event.item).None? {
      FalsyKeepsKeyed(policy, view, event);
    }
  }

  lemma {:induction false} EligibleHolds(policy: PairingPolicy, events: seq<Event<Occurrence>>, key: Key)
    ensures EligibleState(Walk(policy, events), key)
  {
    if events != [] {
      var init, last := events[..|events| - 1], events[|events| - 1];
      EligibleHolds(policy, init, key);
      if KeyOf(last.item) != Some(key) {
        EligibleElsewhere(policy, Walk(policy, init), last, key);
      } else if last.Call? {
        EligibleRegister(Walk(policy, init), last.item, key);
      } else {
        EligibleConsume(Walk(policy, init), last.item, key);
      }
    }
  }

  /** A key is answered exactly when one of its results is eligible, and what its calls hold is eligible. */
  lemma AnsweredMeansEligible(policy: PairingPolicy, messages: seq<MessageView>, exchange: Exchange)
    requires InRange(exchange, messages)
    ensures var pairing := PairingOf(policy, messages, exchange);
      && pairing.AnsweredKeys() == pairing.eligibleTruthy.Keys
      && forall key :: Filled(SlotsAt(pairing.truthyAssignments, key)) <= multiset(ListAt(pairing.eligibleTruthy, key))
  {
    var events := EventsOf(policy, messages, exchange);
    var pairing := PairingOf(policy, messages, exchange);
    forall key
      ensures key in pairing.AnsweredKeys() <==> key in pairing.eligibleTruthy
      ensures Filled(SlotsAt(pairing.truthyAssignments, key)) <= multiset(ListAt(pairing.eligibleTruthy, key))
    {
      EligibleHolds(policy, events, key);
      KeyIsQueue(policy, events, key);
      QueueIsDescribed(KeyEvents(events, key), |KeyEvents(events, key)|);
      if key in pairing.eligibleTruthy {
        assert pairing.truthyAssignments[key][0].result.Some?;
      }
    }
  }

  // ---------- Conservation ----------

  /** Every result of a key lands exactly once: in a slot of that key or among its unconsumed results. */
  lemma KeyConserves(policy: PairingPolicy, events: seq<Event<Occurrence>>, key: Key)
    ensures var pairing := Finish(Walk(policy, events));
      Filled(SlotsAt(pairing.truthyAssignments, key)) + multiset(ListAt(pairing.unconsumedResults, key))
      == Items(KeyEvents(events, key), false)
  {
    KeyIsQueue(policy, events, key);
    QueueConserves(KeyEvents(events, key));
  }

  lemma {:induction false} HeldIsFilled(slots: seq<Slot<Occurrence>>)
    ensures multiset(Held(slots)) == Filled(slots)
  {
    if slots != [] {
      HeldIsFilled(slots[..|slots| - 1]);
    }
  }

  /** The inventory lists, for every key, exactly the results of that key the walk has seen. */
  lemma InventoryIsExact(policy: PairingPolicy, messages: seq<MessageView>, exchange: Exchange, key: Key)
    requires InRange(exchange, messages)
    ensures var pairing := PairingOf(policy, messages, exchange);
      var seen := Items(KeyEvents(EventsOf(policy, messages, exchange), key), false);
      && (key in pairing.ResultsByKey() <==> seen != multiset{})
      && (key in pairing.ResultsByKey() ==> multiset(pairing.ResultsByKey()[key]) == seen)
  {
    var events := EventsOf(policy, messages, exchange);
    var pairing := PairingOf(policy, messages, exchange);
    KeyConserves(policy, events, key);
    HeldIsFilled(SlotsAt(pairing.truthyAssignments, key));
    assert multiset(pairing.ResultsOf(key)) == Items(KeyEvents(events, key), false);
    if pairing.ResultsOf(key) != [] {
      assert pairing.ResultsOf(key)[0] in multiset(pairing.ResultsOf(key));
    }
  }

  /** The id-less results, by what becomes of them. */
  function FalsyItems(policy: PairingPolicy, events: seq<Event<Occurrence>>, calls: bool): multiset<Occurrence> {
    if events == [] then multiset{} else
    var last := events[|events| - 1];
    FalsyItems(policy, events[..|events| - 1], calls) + FalsyShare(policy, last, calls)
  }

  function FalsyShare(policy: PairingPolicy, event: Event<Occurrence>, calls: bool): multiset<Occurrence> {
    if KeyOf(event.item).None? && !Ignored(policy, event.item) && event.Call? == calls then multiset{event.item}
    else multiset{}
  }

  /** Where the id-less results are, and where the id-less calls are. */
  function FalsyResults(view: PairingView): multiset<Occurrence> {
    Filled(SlotsAt(view.falsy, NoneStream)) + Filled(SlotsAt(view.falsy, EmptyStream)) + FalsyLeft(view)
  }

  /** The id-less results no slot took. */
  function FalsyLeft(view: PairingView): multiset<Occurrence> {
    multiset(ListAt(view.falsyUnconsumed, NoneStream)) + multiset(ListAt(view.falsyUnconsumed, EmptyStream))
    + multiset(view.unpairableResults)
  }

  function FalsyCalls(view: PairingView): multiset<Occurrence> {
    CallsIn(SlotsAt(view.falsy, NoneStream)) + CallsIn(SlotsAt(view.falsy, EmptyStream))
    + multiset(view.unpairableCalls)
  }

  lemma AddToFirst(a: multiset<Occurrence>, b: multiset<Occurrence>, c: multiset<Occurrence>, x: multiset<Occurrence>)
    ensures (a + x) + b + c == a + b + c + x
    ensures a + (b + x) + c == a + b + c + x
    ensures a + b + (c + x) == a + b + c + x
  {
  }

  lemma FalsyRegister(policy: PairingPolicy, view: PairingView, call: Occurrence)
    ensures FalsyResults(RegisterFalsy(policy, view, call)) == FalsyResults(view)
    ensures FalsyCalls(RegisterFalsy(policy, view, call)) == FalsyCalls(view) + multiset{call}
  {
    hide QueueOf, Unpairable, FirstOpen;
    var queue := QueueOf(policy, call);
    var next := RegisterFalsy(policy, view, call);
    var none, empty := SlotsAt(view.falsy, NoneStream), SlotsAt(view.falsy, EmptyStream);
    AddToFirst(CallsIn(none), CallsIn(empty), multiset(view.unpairableCalls), multiset{call});
    if Unpairable(policy, call) {
      assert next.falsy == view.falsy;
    } else {
      FirstOpenPush(SlotsAt(view.falsy, queue), call);
      if queue.NoneStream? {
        assert SlotsAt(next.falsy, NoneStream) == none + [Slot(call, None)];
        assert SlotsAt(next.falsy, EmptyStream) == empty;
      } else {
        assert SlotsAt(next.falsy, NoneStream) == none;
        assert SlotsAt(next.falsy, EmptyStream) == empty + [Slot(call, None)];
      }
    }
  }

  lemma FalsyTake(view: PairingView, queue: Stream, result: Occurrence)
    requires FirstOpen(SlotsAt(view.falsy, queue)) < |SlotsAt(view.falsy, queue)|
    ensures var next := view.(falsy := view.falsy[queue := Fill(SlotsAt(view.falsy, queue), result)]);
      FalsyResults(next) == FalsyResults(view) + multiset{result} && FalsyCalls(next) == FalsyCalls(view)
  {
    var none, empty := SlotsAt(view.falsy, NoneStream), SlotsAt(view.falsy, EmptyStream);
    FirstOpenFill(SlotsAt(view.falsy, queue), result);
    AddToFirst(Filled(none), Filled(empty), FalsyLeft(view), multiset{result});
    var falsy := view.falsy[queue := Fill(SlotsAt(view.falsy, queue), result)];
    assert FalsyLeft(view.(falsy := falsy)) == FalsyLeft(view);
    if queue.NoneStream? {
      assert SlotsAt(falsy, NoneStream) == Fill(none, result);
      assert SlotsAt(falsy, EmptyStream) == empty;
    } else {
      assert SlotsAt(falsy, NoneStream) == none;
      assert SlotsAt(falsy, EmptyStream) == Fill(empty, result);
    }
  }

  lemma FalsyLeave(view: PairingView, stream: Stream, result: Occurrence)
    ensures var next := view.(falsyUnconsumed :=
                              view.falsyUnconsumed[stream := ListAt(view.falsyUnconsumed, stream) + [result]]);
      FalsyLeft(next) == FalsyLeft(view) + multiset{result}
  {
    var lists := view.falsyUnconsumed[stream := ListAt(view.falsyUnconsumed, stream) + [result]];
    var none, empty := ListAt(view.falsyUnconsumed, NoneStream), ListAt(view.falsyUnconsumed, EmptyStream);
    AddToFirst(multiset(none), multiset(empty), multiset(view.unpairableResults), multiset{result});
    if stream.NoneStream? {
      assert ListAt(lists, NoneStream) == none + [result];
      assert ListAt(lists, EmptyStream) == empty;
    } else {
      assert ListAt(lists, NoneStream) == none;
      assert ListAt(lists, EmptyStream) == empty + [result];
    }
  }

  lemma FalsyConsume(policy: PairingPolicy, view: PairingView, result: Occurrence)
    ensures FalsyResults(ConsumeFalsy(policy, view, result)) == FalsyResults(view) + multiset{result}
    ensures FalsyCalls(ConsumeFalsy(policy, view, result)) == FalsyCalls(view)
  {
    var queue, stream := QueueOf(policy, result), StreamOf(result);
    var slots := SlotsAt(view.falsy, queue);
    var next := ConsumeFalsy(policy, view, result);
    var none, empty := SlotsAt(view.falsy, NoneStream), SlotsAt(view.falsy, EmptyStream);
    AddToFirst(Filled(none), Filled(empty), FalsyLeft(view), multiset{result});
    if Unpairable(policy, result) {
      var lists := view.falsyUnconsumed;
      AddToFirst(multiset(ListAt(lists, NoneStream)), multiset(ListAt(lists, EmptyStream)),
        multiset(view.unpairableResults), multiset{result});
      assert next.falsy == view.falsy && next.falsyUnconsumed == lists;
    } else if MayConsume(policy, result) && FirstOpen(slots) < |slots| {
      assert next.falsy == view.falsy[queue := Fill(slots, result)];
      assert next.falsyUnconsumed == view.falsyUnconsumed;
      FalsyTake(view, queue, result);
    } else {
      assert next.falsy == view.falsy;
      FalsyLeave(view, stream, result);
    }
  }

  lemma NothingFalsy()
    ensures FalsyResults(START) == multiset{} && FalsyCalls(START) == multiset{}
  {
  }

  lemma SameFalsy(view: PairingView, next: PairingView)
    requires next.falsy == view.falsy && next.falsyUnconsumed == view.falsyUnconsumed
    requires next.unpairableCalls == view.unpairableCalls && next.unpairableResults == view.unpairableResults
    ensures FalsyResults(next) == FalsyResults(view) && FalsyCalls(next) == FalsyCalls(view)
  {
  }

  /** One event adds its occurrence to where it belongs, if it has no id and takes part. */
  lemma FalsyStep(policy: PairingPolicy, view: PairingView, event: Event<Occurrence>)
    ensures FalsyResults(Next(policy, view, event)) == FalsyResults(view) + FalsyShare(policy, event, false)
    ensures FalsyCalls(Next(policy, view, event)) == FalsyCalls(view) + FalsyShare(policy, event, true)
  {
    hide RegisterFalsy, ConsumeFalsy, RegisterKeyed, ConsumeKeyed, Ignored, Unpairable, FalsyResults, FalsyCalls;
    if KeyOf(event.item).Some? {
      KeyedKeepsFalsy(policy, view, event);
      SameFalsy(view, Next(policy, view, event));
    } else if Ignored(policy, event.item) {
      SameFalsy(view, Next(policy, view, event));
    } else {
      if event.Call? {
        FalsyRegister(policy, view, event.item);
      } else {
        FalsyConsume(policy, view, event.item);
      }
    }
  }

  /** Every id-less call and result the policy does not ignore is surfaced exactly once. */
  lemma {:induction false} FalsyConserves(policy: PairingPolicy, events: seq<Event<Occurrence>>)
    ensures FalsyResults(Walk(policy, events)) == FalsyItems(policy, events, false)
    ensures FalsyCalls(Walk(policy, events)) == FalsyItems(policy, events, true)
  {
    hide Next, FalsyResults, FalsyCalls, FalsyShare;
    if events == [] {
      NothingFalsy();
    } else {
      var init, last := events[..|events| - 1], events[|events| - 1];
      FalsyConserves(policy, init);
      FalsyStep(policy, Walk(policy, init), last);
    }
  }

  // ---------- Walk order is message order ----------

  /** A call precedes a result in the walk exactly when its message is not a later one. */
  ghost predicate PhaseOrdered(events: seq<Event<Occurrence>>) {
    forall p, q :: 0 <= p < |events| && 0 <= q < |events| && events[p].Call? && events[q].Result? ==>
      (p < q <==> events[p].item.messageIndex <= events[q].item.messageIndex)
  }

  lemma {:induction false} CallEventsAt(policy: PairingPolicy, message: MessageView, m: nat, from: nat)
    requires from <= |message.contents|
    ensures forall e :: e in CallEvents(policy, message, m, from) ==> e.Call? && e.item.messageIndex == m
    decreases |message.contents| - from
  {
    if from < |message.contents| {
      CallEventsAt(policy, message, m, from + 1);
    }
  }

  lemma {:induction false} ResultEventsAt(policy: PairingPolicy, message: MessageView, m: nat, from: nat)
    requires from <= |message.contents|
    ensures forall e :: e in ResultEvents(policy, message, m, from) ==> e.Result? && e.item.messageIndex == m
    decreases |message.contents| - from
  {
    if from < |message.contents| {
      ResultEventsAt(policy, message, m, from + 1);
    }
  }

  lemma {:induction false} OutputEventsAt(policy: PairingPolicy, messages: seq<MessageView>, from: nat, until: nat)
    requires from <= until <= |messages|
    ensures forall e :: e in OutputEvents(policy, messages, from, until) ==>
              e.Result? && from <= e.item.messageIndex < until
    decreases until - from
  {
    if from < until {
      ResultEventsAt(policy, messages[from], from, 0);
      OutputEventsAt(policy, messages, from + 1, until);
    }
  }

  lemma OrderedConcat(calls: seq<Event<Occurrence>>, results: seq<Event<Occurrence>>, rest: seq<Event<Occurrence>>, m: nat)
    requires forall e :: e in calls ==> e.Call? && e.item.messageIndex == m
    requires forall e :: e in results ==> e.Result? && e.item.messageIndex == m
    requires forall e :: e in rest ==> e.item.messageIndex > m
    requires PhaseOrdered(rest)
    ensures PhaseOrdered((calls + results) + rest)
  {
    var all := (calls + results) + rest;
    var n := |calls| + |results|;
    assert forall i :: 0 <= i < |calls| ==> all[i] in calls;
    assert forall i :: |calls| <= i < n ==> all[i] in results;
    assert forall i :: n <= i < |all| ==> all[i] == rest[i - n] && all[i] in rest;
  }

  lemma {:induction false} EventsAreOrdered(
    policy: PairingPolicy, messages: seq<MessageView>, from: nat, split: nat, end: nat)
    requires from <= split <= end <= |messages|
    ensures var events := ResponseEvents(policy, messages, from, split) + OutputEvents(policy, messages, split, end);
      && PhaseOrdered(events)
      && forall e :: e in events ==> from <= e.item.messageIndex < end && (e.Call? ==> e.item.messageIndex < split)
    decreases split - from
  {
    var outputs := OutputEvents(policy, messages, split, end);
    if from == split {
      OutputEventsAt(policy, messages, split, end);
      assert ResponseEvents(policy, messages, from, split) + outputs == outputs;
    } else {
      EventsAreOrdered(policy, messages, from + 1, split, end);
      var calls := CallEvents(policy, messages[from], from, 0);
      var results := ResultEvents(policy, messages[from], from, 0);
      var rest := ResponseEvents(policy, messages, from + 1, split) + outputs;
      CallEventsAt(policy, messages[from], from, 0);
      ResultEventsAt(policy, messages[from], from, 0);
      OrderedConcat(calls, results, rest, from);
      assert ResponseEvents(policy, messages, from, split) + outputs == (calls + results) + rest;
    }
  }

  lemma OrderedInit(init: seq<Event<Occurrence>>, last: Event<Occurrence>)
    requires PhaseOrdered(init + [last])
    ensures PhaseOrdered(init)
    ensures forall e :: e in init && e.Call? && last.Result? ==> e.item.messageIndex <= last.item.messageIndex
    ensures forall e :: e in init && e.Result? && last.Call? ==> e.item.messageIndex < last.item.messageIndex
  {
    var all := init + [last];
    assert forall i :: 0 <= i < |init| ==> all[i] == init[i];
    assert all[|init|] == last;
  }

  lemma OrderedKept(init: seq<Event<Occurrence>>, kept: seq<Event<Occurrence>>, last: Event<Occurrence>)
    requires PhaseOrdered(kept)
    requires forall e :: e in kept ==> e in init
    requires forall e :: e in init && e.Call? && last.Result? ==> e.item.messageIndex <= last.item.messageIndex
    requires forall e :: e in init && e.Result? && last.Call? ==> e.item.messageIndex < last.item.messageIndex
    ensures PhaseOrdered(kept + [last])
  {
    assert forall i :: 0 <= i < |kept| ==> kept[i] in init;
  }

  lemma {:induction false} KeyEventsFrom(events: seq<Event<Occurrence>>, key: Key)
    ensures forall e :: e in KeyEvents(events, key) <==> e in events && KeyOf(e.item) == Some(key)
    ensures PhaseOrdered(events) ==> PhaseOrdered(KeyEvents(events, key))
  {
    if events != [] {
      var init, last := events[..|events| - 1], events[|events| - 1];
      KeyEventsFrom(init, key);
      assert events == init + [last];
      var kept := KeyEvents(init, key);
      if PhaseOrdered(events) {
        OrderedInit(init, last);
        OrderedKept(init, kept, last);
      }
    }
  }

  lemma {:induction false} StreamEventsFrom(policy: PairingPolicy, events: seq<Event<Occurrence>>, stream: Stream)
    ensures forall e :: e in StreamEvents(policy, events, stream) <==> e in events && Rides(policy, e, stream)
    ensures PhaseOrdered(events) ==> PhaseOrdered(StreamEvents(policy, events, stream))
  {
    if events != [] {
      var init, last := events[..|events| - 1], events[|events| - 1];
      StreamEventsFrom(policy, init, stream);
      assert events == init + [last];
      var kept := StreamEvents(policy, init, stream);
      if PhaseOrdered(events) {
        OrderedInit(init, last);
        OrderedKept(init, kept, last);
      }
    }
  }

  // ---------- The walk sees every in-scope content once ----------

  ghost predicate InScope(policy: PairingPolicy, messages: seq<MessageView>, exchange: Exchange, e: Event<Occurrence>)
    requires InRange(exchange, messages)
  {
    var m, c := e.item.messageIndex, e.item.contentIndex;
    && exchange.start <= m < (if e.Call? then exchange.split else exchange.end)
    && c < |messages[m].contents|
    && messages[m].contents[c].kind.Some?
    && e.item == OccurrenceOf(policy, m, c, messages[m].contents[c])
    && (if e.Call? then Registers(policy, messages[m].contents[c])
        else KindIn(messages[m].contents[c], policy.resultTypes))
  }

  ghost predicate Distinct(events: seq<Event<Occurrence>>) {
    forall p, q :: 0 <= p < q < |events| ==> events[p] != events[q]
  }

  lemma {:induction false} CallEventsCover(policy: PairingPolicy, message: MessageView, m: nat, from: nat)
    requires from <= |message.contents|
    ensures forall e :: e in CallEvents(policy, message, m, from) <==>
              (exists c {:trigger message.contents[c]} :: from <= c < |message.contents|
                && Registers(policy, message.contents[c]) && e == Call(OccurrenceOf(policy, m, c, message.contents[c])))
    ensures Distinct(CallEvents(policy, message, m, from))
    decreases |message.contents| - from
  {
    if from < |message.contents| {
      CallEventsCover(policy, message, m, from + 1);
      assert forall e :: e in CallEvents(policy, message, m, from + 1) ==> e.item.contentIndex > from;
    }
  }

  lemma {:induction false} ResultEventsCover(policy: PairingPolicy, message: MessageView, m: nat, from: nat)
    requires from <= |message.contents|
    ensures forall e :: e in ResultEvents(policy, message, m, from) <==>
              (exists c {:trigger message.contents[c]} :: from <= c < |message.contents|
                && KindIn(message.contents[c], policy.resultTypes)
                && e == Result(OccurrenceOf(policy, m, c, message.contents[c])))
    ensures Distinct(ResultEvents(policy, message, m, from))
    decreases |message.contents| - from
  {
    if from < |message.contents| {
      ResultEventsCover(policy, message, m, from + 1);
      assert forall e :: e in ResultEvents(policy, message, m, from + 1) ==> e.item.contentIndex > from;
    }
  }

  lemma DistinctConcat(a: seq<Event<Occurrence>>, b: seq<Event<Occurrence>>)
    requires Distinct(a) && Distinct(b)
    requires forall e :: e in a ==> e !in b
    ensures Distinct(a + b)
  {
    forall p, q | 0 <= p < q < |a + b|
      ensures (a + b)[p] != (a + b)[q]
    {
      if p < |a| <= q {
        assert a[p] in a && b[q - |a|] in b;
      }
    }
  }

  predicate CallAt(policy: PairingPolicy, message: MessageView, m: nat, e: Event<Occurrence>) {
    var c := e.item.contentIndex;
    && e.Call? && c < |message.contents| && message.contents[c].kind.Some? && Registers(policy, message.contents[c])
    && e.item == OccurrenceOf(policy, m, c, message.contents[c])
  }

  predicate ResultAt(policy: PairingPolicy, message: MessageView, m: nat, e: Event<Occurrence>) {
    var c := e.item.contentIndex;
    && e.Result? && c < |message.contents| && message.contents[c].kind.Some?
    && KindIn(message.contents[c], policy.resultTypes)
    && e.item == OccurrenceOf(policy, m, c, message.contents[c])
  }

  lemma MessageCovers(policy: PairingPolicy, message: MessageView, m: nat)
    ensures Distinct(CallEvents(policy, message, m, 0)) && Distinct(ResultEvents(policy, message, m, 0))
    ensures forall e :: e in CallEvents(policy, message, m, 0) <==> CallAt(policy, message, m, e)
    ensures forall e :: e in ResultEvents(policy, message, m, 0) <==> ResultAt(policy, message, m, e)
  {
    CallEventsCover(policy, message, m, 0);
    ResultEventsCover(policy, message, m, 0);
  }

  ghost predicate Covers(policy: PairingPolicy, messages: seq<MessageView>, exchange: Exchange)
    requires InRange(exchange, messages)
  {
    && Distinct(EventsOf(policy, messages, exchange))
    && forall e :: e in EventsOf(policy, messages, exchange) <==> InScope(policy, messages, exchange, e)
  }

  lemma ResponseCovers(policy: PairingPolicy, messages: seq<MessageView>, exchange: Exchange)
    requires InRange(exchange, messages) && exchange.start < exchange.split
    requires Covers(policy, messages, exchange.(start := exchange.start + 1))
    ensures Covers(policy, messages, exchange)
  {
    hide CallEvents, ResultEvents, NormalizeId, Registers, KindIn;
    var m := exchange.start;
    var rest := EventsOf(policy, messages, exchange.(start := m + 1));
    var calls, results := CallEvents(policy, messages[m], m, 0), ResultEvents(policy, messages[m], m, 0);
    MessageCovers(policy, messages[m], m);
    DistinctConcat(calls, results);
    DistinctConcat(calls + results, rest);
    assert EventsOf(policy, messages, exchange) == (calls + results) + rest;
    forall e
      ensures e in EventsOf(policy, messages, exchange) <==> InScope(policy, messages, exchange, e)
    {
      assert e in (calls + results) + rest <==> e in calls || e in results || e in rest;
    }
  }

  lemma OutputCovers(policy: PairingPolicy, messages: seq<MessageView>, exchange: Exchange)
    requires InRange(exchange, messages) && exchange.start == exchange.split < exchange.end
    requires Covers(policy, messages, exchange.(start := exchange.split + 1, split := exchange.split + 1))
    ensures Covers(policy, messages, exchange)
  {
    hide ResultEvents, NormalizeId, Registers, KindIn;
    var m := exchange.split;
    var rest := EventsOf(policy, messages, exchange.(start := m + 1, split := m + 1));
    var results := ResultEvents(policy, messages[m], m, 0);
    MessageCovers(policy, messages[m], m);
    DistinctConcat(results, rest);
    assert rest == OutputEvents(policy, messages, m + 1, exchange.end);
    assert EventsOf(policy, messages, exchange) == results + rest;
    forall e
      ensures e in EventsOf(policy, messages, exchange) <==> InScope(policy, messages, exchange, e)
    {
      assert e in results + rest <==> e in results || e in rest;
    }
  }

  /** The walk registers exactly the in-scope calls and consumes exactly the in-scope results, each once. */
  lemma {:induction false} EventsCover(policy: PairingPolicy, messages: seq<MessageView>, exchange: Exchange)
    requires InRange(exchange, messages)
    ensures Distinct(EventsOf(policy, messages, exchange))
    ensures forall e :: e in EventsOf(policy, messages, exchange) <==> InScope(policy, messages, exchange, e)
    decreases exchange.end - exchange.start
  {
    hide Distinct, InScope;
    if exchange.start < exchange.split {
      EventsCover(policy, messages, exchange.(start := exchange.start + 1));
      ResponseCovers(policy, messages, exchange);
    } else if exchange.split < exchange.end {
      EventsCover(policy, messages, exchange.(start := exchange.split + 1, split := exchange.split + 1));
      OutputCovers(policy, messages, exchange);
    } else {
      EmptyCovers(policy, messages, exchange);
    }
  }

  lemma EmptyCovers(policy: PairingPolicy, messages: seq<MessageView>, exchange: Exchange)
    requires InRange(exchange, messages) && exchange.start == exchange.end
    ensures Covers(policy, messages, exchange)
  {
  }

  // ---------- The main laws ----------

  /** An assignment of results to calls that never answers a call of a later message. */
  ghost predicate NoForwardMatching(events: seq<Event<Occurrence>>, pairs: set<(nat, nat)>) {
    && (forall p :: p in pairs ==>
          && p.0 < |events| && p.1 < |events| && events[p.0].Call? && events[p.1].Result?
          && events[p.0].item.messageIndex <= events[p.1].item.messageIndex)
    && (forall p, q :: p in pairs && q in pairs && p != q ==> p.0 != q.0 && p.1 != q.1)
  }

  /** Slots laid over events: the calls in order, and a prefix of them holding later results in order. */
  ghost predicate FilledInOrder(events: seq<Event<Occurrence>>, slots: seq<Slot<Occurrence>>,
                                calls: seq<nat>, takers: seq<nat>) {
    && |calls| == |slots| && |takers| == FirstOpen(slots)
    && Ascending(calls, |events|) && Ascending(takers, |events|)
    && (forall i :: 0 <= i < |events| && events[i].Call? ==> i in calls)
    && (forall i :: 0 <= i < |slots| ==> events[calls[i]] == Call(slots[i].call))
    && (forall i :: 0 <= i < |takers| ==>
          && slots[i].result.Some? && events[takers[i]] == Result(slots[i].result.value)
          && slots[i].call.messageIndex <= slots[i].result.value.messageIndex)
    && (forall i :: |takers| <= i < |slots| ==> slots[i].result.None?)
  }

  lemma FillsInOrder(events: seq<Event<Occurrence>>, slots: seq<Slot<Occurrence>>, calls: seq<nat>, takers: seq<nat>)
    requires PhaseOrdered(events) && DescribedBy(events, |events|, slots, calls, takers) && FirstOpen(slots) == |takers|
    requires forall i :: 0 <= i < |events| && events[i].Call? ==> i in calls
    ensures FilledInOrder(events, slots, calls, takers)
  {
    hide FirstOpen;
    forall i | 0 <= i < |takers|
      ensures slots[i].call.messageIndex <= slots[i].result.value.messageIndex
    {
      assert events[calls[i]] == Call(slots[i].call) && events[takers[i]] == Result(slots[i].result.value);
    }
  }

  lemma QueueFillsInOrder(events: seq<Event<Occurrence>>)
    requires PhaseOrdered(events)
    ensures FilledInOrder(events, Run(events).slots, Calls(events, |events|), Takers(events, |events|))
  {
    hide Calls, Takers, After, FirstOpen, PhaseOrdered, FilledInOrder, DescribedBy;
    QueueIsDescribed(events, |events|);
    CallsAreAll(events, |events|);
    FillsInOrder(events, Run(events).slots, Calls(events, |events|), Takers(events, |events|));
  }

  lemma QueueBeatsMatching(events: seq<Event<Occurrence>>, pairs: set<(nat, nat)>)
    requires PhaseOrdered(events)
    requires NoForwardMatching(events, pairs)
    ensures |pairs| <= FirstOpen(Run(events).slots)
  {
    assert IsMatching(events, |events|, pairs);
    QueueIsMaximum(events, |events|, pairs);
    QueueIsDescribed(events, |events|);
  }

  lemma QueueIsMatching(events: seq<Event<Occurrence>>)
    requires PhaseOrdered(events)
    ensures NoForwardMatching(events, Assignment(events))
    ensures |Assignment(events)| == FirstOpen(Run(events).slots)
  {
    AssignmentIsMatching(events);
    QueueIsDescribed(events, |events|);
    assert forall p :: p in Assignment(events) ==> p.0 < p.1 < |events|;
  }

  /** The slots of a key: its calls in registration order, a prefix of them answered, in walk order, each by a
      result of the same or a later message (the same only when the result is embedded). */
  lemma KeyPairsInOrder(policy: PairingPolicy, messages: seq<MessageView>, exchange: Exchange, key: Key)
    requires InRange(exchange, messages)
    ensures var slots := SlotsAt(PairingOf(policy, messages, exchange).truthyAssignments, key);
      var events := KeyEvents(EventsOf(policy, messages, exchange), key);
      && FilledInOrder(events, slots, Calls(events, |events|), Takers(events, |events|))
      && (forall i :: 0 <= i < FirstOpen(slots) && slots[i].call.messageIndex == slots[i].result.value.messageIndex
            ==> slots[i].result.value.messageIndex < exchange.split)
  {
    var all := EventsOf(policy, messages, exchange);
    var events := KeyEvents(all, key);
    KeyIsQueue(policy, all, key);
    EventsAreOrdered(policy, messages, exchange.start, exchange.split, exchange.end);
    KeyEventsFrom(all, key);
    QueueFillsInOrder(events);
    var slots := Run(events).slots;
    var calls := Calls(events, |events|);
    forall i | 0 <= i < |slots|
      ensures slots[i].call.messageIndex < exchange.split
    {
      assert events[calls[i]] in events;
    }
  }

  /** No assignment that never answers a call of a later message answers more calls of a key. */
  lemma KeyPairingIsMaximum(
    policy: PairingPolicy, messages: seq<MessageView>, exchange: Exchange, key: Key, pairs: set<(nat, nat)>)
    requires InRange(exchange, messages)
    requires NoForwardMatching(KeyEvents(EventsOf(policy, messages, exchange), key), pairs)
    ensures var answered := FirstOpen(SlotsAt(PairingOf(policy, messages, exchange).truthyAssignments, key));
      && |pairs| <= answered
      && (exists best :: NoForwardMatching(KeyEvents(EventsOf(policy, messages, exchange), key), best)
            && |best| == answered)
  {
    var all := EventsOf(policy, messages, exchange);
    KeyIsQueue(policy, all, key);
    EventsAreOrdered(policy, messages, exchange.start, exchange.split, exchange.end);
    KeyEventsFrom(all, key);
    QueueBeatsMatching(KeyEvents(all, key), pairs);
    QueueIsMatching(KeyEvents(all, key));
  }

  /** The same for the queue of an id-less stream, over the results allowed to consume. */
  lemma StreamPairingIsMaximum(
    policy: PairingPolicy, messages: seq<MessageView>, exchange: Exchange, stream: Stream, pairs: set<(nat, nat)>)
    requires InRange(exchange, messages)
    requires NoForwardMatching(StreamEvents(policy, EventsOf(policy, messages, exchange), stream), pairs)
    ensures var slots := SlotsAt(PairingOf(policy, messages, exchange).falsyAssignments, stream);
      var events := StreamEvents(policy, EventsOf(policy, messages, exchange), stream);
      && |pairs| <= FirstOpen(slots)
      && FilledInOrder(events, slots, Calls(events, |events|), Takers(events, |events|))
      && (exists best :: NoForwardMatching(events, best) && |best| == FirstOpen(slots))
  {
    var all := EventsOf(policy, messages, exchange);
    StreamIsQueue(policy, all, stream);
    EventsAreOrdered(policy, messages, exchange.start, exchange.split, exchange.end);
    StreamEventsFrom(policy, all, stream);
    var events := StreamEvents(policy, all, stream);
    QueueBeatsMatching(events, pairs);
    QueueFillsInOrder(events);
    QueueIsMatching(events);
  }
}
