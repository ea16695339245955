/** What each list of a pairing holds, in walk order, read off the events alone. */
module PairingLists {
  import opened Values
  import opened Transcript
  import opened Exchanges
  import opened Fifo
  import opened Pairing
  import opened PairingLaws

  type Events = seq<Event<Occurrence>>

  /** The occurrences at which a walk satisfies `pick`, which sees the events up to and including that one. */
  ghost function Picked(events: Events, pick: Events -> bool): seq<Occurrence> {
    if events == [] then []
    else
      var last := |events| - 1;
      Picked(events[..last], pick) + (if pick(events) then [events[last].item] else [])
  }

  ghost predicate Called(events: Events, key: Key) {
    exists j :: 0 <= j < |events| && events[j].Call? && KeyOf(events[j].item) == Some(key)
  }

  predicate IdLess(policy: PairingPolicy, event: Event<Occurrence>) {
    KeyOf(event.item).None? && !Ignored(policy, event.item)
  }

  ghost predicate CalledIdLess(policy: PairingPolicy, events: Events) {
    exists j :: 0 <= j < |events| && events[j].Call? && IdLess(policy, events[j])
  }

  lemma CalledSnoc(policy: PairingPolicy, events: Events, last: Event<Occurrence>, key: Key)
    ensures Called(events + [last], key) <==> Called(events, key) || (last.Call? && KeyOf(last.item) == Some(key))
    ensures CalledIdLess(policy, events + [last]) <==> CalledIdLess(policy, events) || (last.Call? && IdLess(policy, last))
  {
    hide IdLess, KeyOf;
    var longer := events + [last];
    assert longer[|events|] == last;
    assert forall j :: 0 <= j < |events| ==> longer[j] == events[j];
  }

  /** A result of the key, after a call of the key. */
  ghost predicate AfterOwnCall(key: Key, events: Events) {
    var last := |events| - 1;
    last >= 0 && events[last].Result? && KeyOf(events[last].item) == Some(key) && Called(events[..last], key)
  }

  /** An id-less result of the stream, after an id-less call of either stream. */
  ghost predicate AfterIdLessCall(policy: PairingPolicy, stream: Stream, events: Events) {
    var last := |events| - 1;
    && last >= 0 && events[last].Result? && IdLess(policy, events[last])
    && StreamOf(events[last].item) == stream && CalledIdLess(policy, events[..last])
  }

  predicate UnpairableLast(policy: PairingPolicy, call: bool, events: Events) {
    var last := |events| - 1;
    last >= 0 && events[last].Call? == call && IdLess(policy, events[last]) && Unpairable(policy, events[last].item)
  }

  /** As many results took a slot as there are calls. */
  predicate Answered(events: Events) {
    |Takers(events, |events|)| == |Calls(events, |events|)|
  }

  /** An id-less result of the stream that may not consume, or found the calls of its queue answered. */
  predicate LeftOver(policy: PairingPolicy, stream: Stream, events: Events) {
    var last := |events| - 1;
    && last >= 0 && events[last].Result? && IdLess(policy, events[last]) && StreamOf(events[last].item) == stream
    && var result := events[last].item;
       && !Unpairable(policy, result)
       && (MayConsume(policy, result) ==> Answered(StreamEvents(policy, events[..last], QueueOf(policy, result))))
  }

  // ---------- What the walk remembers ----------

  ghost predicate Remembers(policy: PairingPolicy, view: PairingView, events: Events, key: Key) {
    && (key in view.firstCallSeq <==> Called(events, key))
    && (key in view.firstCallSeq ==> view.firstCallSeq[key] <= view.sequence)
    && (view.firstFalsyCallSeq.Some? <==> CalledIdLess(policy, events))
    && (view.firstFalsyCallSeq.Some? ==> view.firstFalsyCallSeq.value <= view.sequence)
  }

  /** What one event adds to the lists, by what the walk remembers. */
  ghost predicate Adds(policy: PairingPolicy, view: PairingView, last: Event<Occurrence>, key: Key, stream: Stream,
                       next: PairingView) {
    var result, slots := last.Result? && IdLess(policy, last), SlotsAt(view.falsy, QueueOf(policy, last.item));
    && ListAt(next.eligibleTruthy, key)
       == ListAt(view.eligibleTruthy, key)
          + (if last.Result? && KeyOf(last.item) == Some(key) && key in view.firstCallSeq
                && view.firstCallSeq[key] <= view.sequence + 1
             then [last.item] else [])
    && ListAt(next.eligibleFalsy, stream)
       == ListAt(view.eligibleFalsy, stream)
          + (if result && StreamOf(last.item) == stream && view.firstFalsyCallSeq.Some?
                && view.firstFalsyCallSeq.value <= view.sequence + 1
             then [last.item] else [])
    && next.unpairableCalls
       == view.unpairableCalls
          + (if last.Call? && IdLess(policy, last) && Unpairable(policy, last.item) then [last.item] else [])
    && next.unpairableResults
       == view.unpairableResults + (if result && Unpairable(policy, last.item) then [last.item] else [])
    && ListAt(next.falsyUnconsumed, stream)
       == ListAt(view.falsyUnconsumed, stream)
          + (if result && StreamOf(last.item) == stream && !Unpairable(policy, last.item)
                && (MayConsume(policy, last.item) ==> FirstOpen(slots) == |slots|)
             then [last.item] else [])
  }

  /** How the memory changes. */
  ghost predicate Recalls(policy: PairingPolicy, view: PairingView, last: Event<Occurrence>, key: Key, next: PairingView) {
    && next.sequence == view.sequence + 1
    && (key in view.firstCallSeq ==> key in next.firstCallSeq && next.firstCallSeq[key] == view.firstCallSeq[key])
    && (key in next.firstCallSeq && key !in view.firstCallSeq ==> next.firstCallSeq[key] == next.sequence)
    && (key in next.firstCallSeq <==> key in view.firstCallSeq || (last.Call? && KeyOf(last.item) == Some(key)))
    && (next.firstFalsyCallSeq.Some? <==> view.firstFalsyCallSeq.Some? || (last.Call? && IdLess(policy, last)))
    && (view.firstFalsyCallSeq.Some? ==> next.firstFalsyCallSeq == view.firstFalsyCallSeq)
    && (next.firstFalsyCallSeq.Some? && view.firstFalsyCallSeq.None? ==> next.firstFalsyCallSeq.value == next.sequence)
  }

  lemma KeyedAdds(policy: PairingPolicy, view: PairingView, last: Event<Occurrence>, key: Key, stream: Stream)
    requires KeyOf(last.item).Some?
    ensures var next := Next(policy, view, last);
      Adds(policy, view, last, key, stream, next) && Recalls(policy, view, last, key, next)
  {
    hide Ignored, Unpairable, MayConsume, KeyOf, FirstOpen, Fill, QueueOf, StreamOf;
  }

  lemma CallAdds(policy: PairingPolicy, view: PairingView, last: Event<Occurrence>, key: Key, stream: Stream)
    requires IdLess(policy, last) && last.Call?
    ensures var next := Next(policy, view, last);
      Adds(policy, view, last, key, stream, next) && Recalls(policy, view, last, key, next)
  {
    hide Ignored, Unpairable, MayConsume, KeyOf, FirstOpen, Fill, QueueOf, StreamOf;
    assert Next(policy, view, last) == RegisterFalsy(policy, view, last.item);
    hide Next;
  }

  lemma IgnoredAdds(policy: PairingPolicy, view: PairingView, last: Event<Occurrence>, key: Key, stream: Stream)
    requires KeyOf(last.item).None? && Ignored(policy, last.item)
    ensures var next := Next(policy, view, last);
      Adds(policy, view, last, key, stream, next) && Recalls(policy, view, last, key, next)
  {
    hide Ignored, Unpairable, MayConsume, KeyOf, FirstOpen, Fill, QueueOf, StreamOf;
  }

  lemma ResultAdds(policy: PairingPolicy, view: PairingView, last: Event<Occurrence>, key: Key, stream: Stream)
    requires IdLess(policy, last) && last.Result?
    ensures var next := Next(policy, view, last);
      Adds(policy, view, last, key, stream, next) && Recalls(policy, view, last, key, next)
  {
    hide Ignored, Unpairable, MayConsume, KeyOf, FirstOpen, Fill, QueueOf, StreamOf;
    assert Next(policy, view, last) == ConsumeFalsy(policy, view, last.item);
    hide Next, Adds;
    ConsumingAdds(policy, view, last.item, key, stream);
  }

  lemma ConsumingAdds(policy: PairingPolicy, view: PairingView, result: Occurrence, key: Key, stream: Stream)
    requires IdLess(policy, Result(result))
    ensures Adds(policy, view, Result(result), key, stream, ConsumeFalsy(policy, view, result))
  {
    hide Ignored, Unpairable, MayConsume, KeyOf, FirstOpen, Fill, QueueOf, StreamOf, SlotsAt;
    assert [result] != [];
  }

  lemma EventAdds(policy: PairingPolicy, view: PairingView, last: Event<Occurrence>, key: Key, stream: Stream)
    ensures var next := Next(policy, view, last);
      Adds(policy, view, last, key, stream, next) && Recalls(policy, view, last, key, next)
  {
    hide Adds, Recalls, Next;
    if KeyOf(last.item).Some? {
      KeyedAdds(policy, view, last, key, stream);
    } else if Ignored(policy, last.item) {
      IgnoredAdds(policy, view, last, key, stream);
    } else if last.Call? {
      CallAdds(policy, view, last, key, stream);
    } else {
      ResultAdds(policy, view, last, key, stream);
    }
  }

  lemma {:induction false} WalkRemembers(policy: PairingPolicy, events: Events, key: Key)
    ensures Remembers(policy, Walk(policy, events), events, key)
  {
    hide Next, Called, CalledIdLess, IdLess, KeyOf;
    if events == [] {
      NothingCalled(policy, key);
    } else {
      var init, last := events[..|events| - 1], events[|events| - 1];
      WalkRemembers(policy, init, key);
      EventAdds(policy, Walk(policy, init), last, key, NoneStream);
      hide Adds;
      CalledSnoc(policy, init, last, key);
      assert init + [last] == events;
    }
  }

  lemma NothingCalled(policy: PairingPolicy, key: Key)
    ensures !Called([], key) && !CalledIdLess(policy, [])
  {
  }

  // ---------- The lists ----------

  ghost predicate ListsMatch(policy: PairingPolicy, view: PairingView, events: Events, key: Key, stream: Stream) {
    && ListAt(view.eligibleTruthy, key) == Picked(events, prefix => AfterOwnCall(key, prefix))
    && ListAt(view.eligibleFalsy, stream) == Picked(events, prefix => AfterIdLessCall(policy, stream, prefix))
    && view.unpairableCalls == Picked(events, prefix => UnpairableLast(policy, true, prefix))
    && view.unpairableResults == Picked(events, prefix => UnpairableLast(policy, false, prefix))
    && ListAt(view.falsyUnconsumed, stream) == Picked(events, prefix => LeftOver(policy, stream, prefix))
  }

  lemma {:induction false} WalkLists(policy: PairingPolicy, events: Events, key: Key, stream: Stream)
    ensures ListsMatch(policy, Walk(policy, events), events, key, stream)
  {
    hide Next, Called, CalledIdLess, IdLess, KeyOf, Ignored, Unpairable, MayConsume, QueueOf, StreamOf, FirstOpen, Answered;
    if events != [] {
      var init, last := events[..|events| - 1], events[|events| - 1];
      WalkLists(policy, init, key, stream);
      WalkRemembers(policy, init, key);
      EventAdds(policy, Walk(policy, init), last, key, stream);
      QueueIsAnswered(policy, init, QueueOf(policy, last.item));
      hide Walk, Recalls;
    }
  }

  lemma QueueIsAnswered(policy: PairingPolicy, events: Events, stream: Stream)
    ensures var slots := SlotsAt(Walk(policy, events).falsy, stream);
      FirstOpen(slots) == |slots| <==> Answered(StreamEvents(policy, events, stream))
  {
    StreamIsQueue(policy, events, stream);
    QueueIsDescribed(StreamEvents(policy, events, stream), |StreamEvents(policy, events, stream)|);
  }

  /** Every list of a pairing, for every exchange and policy: eligible results are those after the first call of their
      key, or, without an id, after the first id-less call of either stream; unpairable occurrences and leftover results
      are where their policies put them; all in walk order. */
  lemma ListsAreExact(policy: PairingPolicy, messages: seq<MessageView>, exchange: Exchange, key: Key, stream: Stream)
    requires InRange(exchange, messages)
    ensures var pairing, events := PairingOf(policy, messages, exchange), EventsOf(policy, messages, exchange);
      && ListAt(pairing.eligibleTruthy, key) == Picked(events, prefix => AfterOwnCall(key, prefix))
      && ListAt(pairing.eligibleFalsy, stream) == Picked(events, prefix => AfterIdLessCall(policy, stream, prefix))
      && pairing.unpairableCalls == Picked(events, prefix => UnpairableLast(policy, true, prefix))
      && pairing.unpairableResults == Picked(events, prefix => UnpairableLast(policy, false, prefix))
      && ListAt(pairing.falsyUnconsumedResults, stream) == Picked(events, prefix => LeftOver(policy, stream, prefix))
  {
    WalkLists(policy, EventsOf(policy, messages, exchange), key, stream);
  }
}
