/** Pairing the results of one exchange with its calls, under one policy row. */
module Pairing {
  import opened Values
  import opened Transcript
  import opened Exchanges
  import opened Fifo

  datatype NoneIdPolicy = NoneIgnore | NoneUnpairable | NonePositionalFailures | NonePositional
  datatype EmptyIdPolicy = EmptyIgnore | EmptyCoerced | EmptyPositional | EmptyUnpairable

  /** What becomes of an id that is not a string; `Stringify` carries Python's `str`. */
  datatype MalformedId = Stringify(pystr: Value -> string) | TreatAsNone

  datatype PairingPolicy = PairingPolicy(
    callTypes: set<Kind>,
    includeInformational: bool,
    resultTypes: set<Kind>,
    noneId: NoneIdPolicy,
    emptyId: EmptyIdPolicy,
    malformedId: MalformedId)

  datatype Namespace = CallId | ImageId
  datatype Key = Key(space: Namespace, id: string)
  datatype Stream = NoneStream | EmptyStream

  function NormalizeId(id: Value, policy: PairingPolicy): Option<string> {
    if id.Null? then None
    else if id.Str? then Some(id.s)
    else if policy.malformedId.Stringify? then Some(if id.Truthy() then policy.malformedId.pystr(id) else "")
    else None
  }

  /** The pairing key of an occurrence with a non-empty id. */
  function KeyOf(occurrence: Occurrence): Option<Key> {
    if occurrence.rawId.None? || occurrence.rawId.value == "" then None
    else Some(Key(if occurrence.kind.Image() then ImageId else CallId, occurrence.rawId.value))
  }

  function StreamOf(occurrence: Occurrence): Stream {
    if occurrence.rawId.None? then NoneStream else EmptyStream
  }

  predicate Ignored(policy: PairingPolicy, occurrence: Occurrence) {
    && KeyOf(occurrence).None?
    && (if occurrence.rawId.None? then policy.noneId.NoneIgnore? else policy.emptyId.EmptyIgnore?)
  }

  predicate Unpairable(policy: PairingPolicy, occurrence: Occurrence) {
    && KeyOf(occurrence).None?
    && (if occurrence.rawId.None? then policy.noneId.NoneUnpairable? else policy.emptyId.EmptyUnpairable?)
  }

  /** The queue an id-less occurrence rides; a coerced empty id rides the queue of the absent ids. */
  function QueueOf(policy: PairingPolicy, occurrence: Occurrence): Stream {
    if occurrence.rawId.Some? && policy.emptyId.EmptyCoerced? then NoneStream else StreamOf(occurrence)
  }

  /** Whether an id-less result may take a slot at all. */
  predicate MayConsume(policy: PairingPolicy, result: Occurrence) {
    (result.rawId.None? && policy.noneId.NonePositionalFailures?)
    ==> (result.errorKind.Some? && result.errorKind.value.Prevalidation())
  }

  // ---------- The state as a value ----------

  function SlotsAt<K>(slots: map<K, seq<Slot<Occurrence>>>, key: K): seq<Slot<Occurrence>> {
    if key in slots then slots[key] else []
  }

  function ListAt<K>(lists: map<K, seq<Occurrence>>, key: K): seq<Occurrence> {
    if key in lists then lists[key] else []
  }

  datatype PairingView = PairingView(
    sequence: nat,
    truthy: map<Key, seq<Slot<Occurrence>>>,
    unconsumed: map<Key, seq<Occurrence>>,
    falsy: map<Stream, seq<Slot<Occurrence>>>,
    falsyUnconsumed: map<Stream, seq<Occurrence>>,
    unpairableCalls: seq<Occurrence>,
    unpairableResults: seq<Occurrence>,
    firstCallSeq: map<Key, nat>,
    firstFalsyCallSeq: Option<nat>,
    eligibleTruthy: map<Key, seq<Occurrence>>,
    eligibleFalsy: map<Stream, seq<Occurrence>>)

  const START := PairingView(
    0, map[], map[],
    map[NoneStream := [], EmptyStream := []],
    map[NoneStream := [], EmptyStream := []],
    [], [], map[], None, map[],
    map[NoneStream := [], EmptyStream := []])

  function RegisterKeyed(view: PairingView, key: Key, call: Occurrence): PairingView {
    view.(sequence := view.sequence + 1,
          firstCallSeq := if key in view.firstCallSeq then view.firstCallSeq
                          else view.firstCallSeq[key := view.sequence + 1],
          truthy := view.truthy[key := SlotsAt(view.truthy, key) + [Slot(call, None)]])
  }

  function ConsumeKeyed(view: PairingView, key: Key, result: Occurrence): PairingView {
    var slots := SlotsAt(view.truthy, key);
    var takes := FirstOpen(slots) < |slots|;
    view.(sequence := view.sequence + 1,
          eligibleTruthy :=
            if key in view.firstCallSeq && view.firstCallSeq[key] <= view.sequence + 1
            then view.eligibleTruthy[key := ListAt(view.eligibleTruthy, key) + [result]] else view.eligibleTruthy,
          truthy := if takes then view.truthy[key := Fill(slots, result)] else view.truthy,
          unconsumed := if takes then view.unconsumed
                        else view.unconsumed[key := ListAt(view.unconsumed, key) + [result]])
  }

  function RegisterFalsy(policy: PairingPolicy, view: PairingView, call: Occurrence): PairingView {
    var queue := QueueOf(policy, call);
    var unpairable := Unpairable(policy, call);
    view.(sequence := view.sequence + 1,
          firstFalsyCallSeq := if view.firstFalsyCallSeq.None? then Some(view.sequence + 1) else view.firstFalsyCallSeq,
          unpairableCalls := if unpairable then view.unpairableCalls + [call] else view.unpairableCalls,
          falsy := if unpairable then view.falsy
                   else view.falsy[queue := SlotsAt(view.falsy, queue) + [Slot(call, None)]])
  }

  function ConsumeFalsy(policy: PairingPolicy, view: PairingView, result: Occurrence): PairingView {
    var stream := StreamOf(result);
    var queue := QueueOf(policy, result);
    var slots := SlotsAt(view.falsy, queue);
    var unpairable := Unpairable(policy, result);
    var takes := !unpairable && MayConsume(policy, result) && FirstOpen(slots) < |slots|;
    view.(sequence := view.sequence + 1,
          eligibleFalsy :=
            if view.firstFalsyCallSeq.Some? && view.firstFalsyCallSeq.value <= view.sequence + 1
            then view.eligibleFalsy[stream := ListAt(view.eligibleFalsy, stream) + [result]] else view.eligibleFalsy,
          unpairableResults := if unpairable then view.unpairableResults + [result] else view.unpairableResults,
          falsy := if takes then view.falsy[queue := Fill(slots, result)] else view.falsy,
          falsyUnconsumed := if unpairable || takes then view.falsyUnconsumed
                             else view.falsyUnconsumed[stream := ListAt(view.falsyUnconsumed, stream) + [result]])
  }

  /** The walk state after registering a call or consuming a result. */
  function Next(policy: PairingPolicy, view: PairingView, event: Event<Occurrence>): PairingView {
    var key := KeyOf(event.item);
    if key.Some? then
      if event.Call? then RegisterKeyed(view, key.value, event.item) else ConsumeKeyed(view, key.value, event.item)
    else if Ignored(policy, event.item) then view.(sequence := view.sequence + 1)
    else if event.Call? then RegisterFalsy(policy, view, event.item)
    else ConsumeFalsy(policy, view, event.item)
  }

  function Walk(policy: PairingPolicy, events: seq<Event<Occurrence>>): PairingView {
    if events == [] then START
    else Next(policy, Walk(policy, events[..|events| - 1]), events[|events| - 1])
  }

  // ---------- The events of an exchange ----------

  predicate Registers(policy: PairingPolicy, content: ContentView) {
    KindIn(content, policy.callTypes) && (policy.includeInformational || !content.informational)
  }

  function OccurrenceOf(policy: PairingPolicy, m: nat, c: nat, content: ContentView): Occurrence
    requires content.kind.Some?
  {
    Occurrence(m, c, NormalizeId(content.id, policy), content.kind.value, content.errorKind)
  }

  function CallEvents(policy: PairingPolicy, message: MessageView, m: nat, from: nat): seq<Event<Occurrence>>
    requires from <= |message.contents|
    decreases |message.contents| - from
  {
    if from == |message.contents| then []
    else
      (if Registers(policy, message.contents[from])
       then [Call(OccurrenceOf(policy, m, from, message.contents[from]))] else [])
      + CallEvents(policy, message, m, from + 1)
  }

  function ResultEvents(policy: PairingPolicy, message: MessageView, m: nat, from: nat): seq<Event<Occurrence>>
    requires from <= |message.contents|
    decreases |message.contents| - from
  {
    if from == |message.contents| then []
    else
      (if KindIn(message.contents[from], policy.resultTypes)
       then [Result(OccurrenceOf(policy, m, from, message.contents[from]))] else [])
      + ResultEvents(policy, message, m, from + 1)
  }

  function MessageEvents(policy: PairingPolicy, message: MessageView, m: nat): seq<Event<Occurrence>> {
    CallEvents(policy, message, m, 0) + ResultEvents(policy, message, m, 0)
  }

  function ResponseEvents(policy: PairingPolicy, messages: seq<MessageView>, from: nat, until: nat)
    : seq<Event<Occurrence>>
    requires from <= until <= |messages|
    decreases until - from
  {
    if from == until then []
    else MessageEvents(policy, messages[from], from) + ResponseEvents(policy, messages, from + 1, until)
  }

  function OutputEvents(policy: PairingPolicy, messages: seq<MessageView>, from: nat, until: nat)
    : seq<Event<Occurrence>>
    requires from <= until <= |messages|
    decreases until - from
  {
    if from == until then []
    else ResultEvents(policy, messages[from], from, 0) + OutputEvents(policy, messages, from + 1, until)
  }

  predicate InRange(exchange: Exchange, messages: seq<MessageView>) {
    exchange.start <= exchange.split <= exchange.end <= |messages|
  }

  /** Each response message registers its calls before its own results consume; then the outputs consume. */
  function EventsOf(policy: PairingPolicy, messages: seq<MessageView>, exchange: Exchange): seq<Event<Occurrence>>
    requires InRange(exchange, messages)
  {
    ResponseEvents(policy, messages, exchange.start, exchange.split)
    + OutputEvents(policy, messages, exchange.split, exchange.end)
  }

  // ---------- The pairing ----------

  datatype ExchangePairing = ExchangePairing(
    truthyAssignments: map<Key, seq<Slot<Occurrence>>>,
    unconsumedResults: map<Key, seq<Occurrence>>,
    falsyAssignments: map<Stream, seq<Slot<Occurrence>>>,
    falsyUnconsumedResults: map<Stream, seq<Occurrence>>,
    unpairableCalls: seq<Occurrence>,
    unpairableResults: seq<Occurrence>,
    eligibleTruthy: map<Key, seq<Occurrence>>,
    eligibleFalsy: map<Stream, seq<Occurrence>>)
  {
    predicate Answers(key: Key) {
      key in truthyAssignments
      && exists i :: 0 <= i < |truthyAssignments[key]| && truthyAssignments[key][i].result.Some?
    }

    function AnsweredKeys(): set<Key> {
      set key | key in truthyAssignments && Answers(key)
    }

    /** The results of a key: those its calls hold, in call order, then the orphans. */
    function ResultsOf(key: Key): seq<Occurrence> {
      Held(SlotsAt(truthyAssignments, key)) + ListAt(unconsumedResults, key)
    }

    function ResultsByKey(): map<Key, seq<Occurrence>> {
      map key | key in truthyAssignments.Keys + unconsumedResults.Keys && ResultsOf(key) != [] :: ResultsOf(key)
    }
  }

  function Held(slots: seq<Slot<Occurrence>>): seq<Occurrence> {
    if slots == [] then [] else
    var last := slots[|slots| - 1];
    Held(slots[..|slots| - 1]) + (if last.result.Some? then [last.result.value] else [])
  }

  function Finish(view: PairingView): ExchangePairing {
    ExchangePairing(view.truthy, view.unconsumed, view.falsy, view.falsyUnconsumed,
      view.unpairableCalls, view.unpairableResults, view.eligibleTruthy, view.eligibleFalsy)
  }

  function PairingOf(policy: PairingPolicy, messages: seq<MessageView>, exchange: Exchange): ExchangePairing
    requires InRange(exchange, messages)
  {
    Finish(Walk(policy, EventsOf(policy, messages, exchange)))
  }

  // ---------- The walk as written ----------

  /** The mutable state of one pairing walk. */
  class PairingState {
    const policy: PairingPolicy
    var sequence: nat
    var truthy: map<Key, seq<Slot<Occurrence>>>
    var unconsumed: map<Key, seq<Occurrence>>
    var falsy: map<Stream, seq<Slot<Occurrence>>>
    var falsyUnconsumed: map<Stream, seq<Occurrence>>
    var unpairableCalls: seq<Occurrence>
    var unpairableResults: seq<Occurrence>
    var firstCallSeq: map<Key, nat>
    var firstFalsyCallSeq: Option<nat>
    var eligibleTruthy: map<Key, seq<Occurrence>>
    var eligibleFalsy: map<Stream, seq<Occurrence>>

    ghost function View(): PairingView
      reads this
    {
      PairingView(sequence, truthy, unconsumed, falsy, falsyUnconsumed, unpairableCalls, unpairableResults,
        firstCallSeq, firstFalsyCallSeq, eligibleTruthy, eligibleFalsy)
    }

    constructor (policy: PairingPolicy)
      ensures this.policy == policy && View() == START
    {
      this.policy := policy;
      sequence, truthy, unconsumed := 0, map[], map[];
      falsy, falsyUnconsumed := START.falsy, START.falsyUnconsumed;
      unpairableCalls, unpairableResults := [], [];
      firstCallSeq, firstFalsyCallSeq := map[], None;
      eligibleTruthy, eligibleFalsy := map[], START.eligibleFalsy;
    }

    method RegisterCall(occurrence: Occurrence)
      modifies this
      ensures View() == Next(policy, old(View()), Call(occurrence))
    {
      sequence := sequence + 1;
      var key := KeyOf(occurrence);
      if key.Some? {
        if key.value !in firstCallSeq {
          firstCallSeq := firstCallSeq[key.value := sequence];
        }
        truthy := truthy[key.value := SlotsAt(truthy, key.value) + [Slot(occurrence, None)]];
        return;
      }
      if Ignored(policy, occurrence) {
        return;
      }
      if firstFalsyCallSeq.None? {
        firstFalsyCallSeq := Some(sequence);
      }
      if Unpairable(policy, occurrence) {
        unpairableCalls := unpairableCalls + [occurrence];
        return;
      }
      var queue := QueueOf(policy, occurrence);
      falsy := falsy[queue := SlotsAt(falsy, queue) + [Slot(occurrence, None)]];
    }

    /** Puts the result into the first slot that has none. */
    static method FillFirst(slots: seq<Slot<Occurrence>>, result: Occurrence)
      returns (filled: bool, slots': seq<Slot<Occurrence>>)
      ensures filled == (FirstOpen(slots) < |slots|)
      ensures slots' == if filled then Fill(slots, result) else slots
    {
      for i := 0 to |slots|
        invariant forall j :: 0 <= j < i ==> slots[j].result.Some?
      {
        if slots[i].result.None? {
          FirstOpenAt(slots, i);
          return true, slots[i := Slot(slots[i].call, Some(result))];
        }
      }
      FirstOpenAt(slots, |slots|);
      return false, slots;
    }

    method ConsumeKeyedResult(key: Key, occurrence: Occurrence)
      modifies this
      ensures View() == ConsumeKeyed(old(View()), key, occurrence)
    {
      hide FirstOpen, Fill, SlotsAt, ListAt;
      sequence := sequence + 1;
      if key in firstCallSeq && firstCallSeq[key] <= sequence {
        eligibleTruthy := eligibleTruthy[key := ListAt(eligibleTruthy, key) + [occurrence]];
      }
      var filled, slots := FillFirst(SlotsAt(truthy, key), occurrence);
      if filled {
        truthy := truthy[key := slots];
        return;
      }
      unconsumed := unconsumed[key := ListAt(unconsumed, key) + [occurrence]];
    }

    method ConsumeFalsyResult(occurrence: Occurrence)
      modifies this
      ensures View() == ConsumeFalsy(policy, old(View()), occurrence)
    {
      hide Unpairable, MayConsume, QueueOf, StreamOf, FirstOpen, Fill, SlotsAt, ListAt;
      sequence := sequence + 1;
      var stream := StreamOf(occurrence);
      if firstFalsyCallSeq.Some? && firstFalsyCallSeq.value <= sequence {
        eligibleFalsy := eligibleFalsy[stream := ListAt(eligibleFalsy, stream) + [occurrence]];
      }
      if Unpairable(policy, occurrence) {
        unpairableResults := unpairableResults + [occurrence];
        return;
      }
      if MayConsume(policy, occurrence) {
        var queue := QueueOf(policy, occurrence);
        var filled, slots := FillFirst(SlotsAt(falsy, queue), occurrence);
        if filled {
          falsy := falsy[queue := slots];
          return;
        }
      }
      falsyUnconsumed := falsyUnconsumed[stream := ListAt(falsyUnconsumed, stream) + [occurrence]];
    }

    method ConsumeResult(occurrence: Occurrence)
      modifies this
      ensures View() == Next(policy, old(View()), Result(occurrence))
    {
      var key := KeyOf(occurrence);
      if key.Some? {
        ConsumeKeyedResult(key.value, occurrence);
      } else if Ignored(policy, occurrence) {
        sequence := sequence + 1;
      } else {
        ConsumeFalsyResult(occurrence);
      }
    }
  }

  lemma WalkStart(policy: PairingPolicy)
    ensures Walk(policy, []) == START
  {
  }

  lemma WalkSnoc(policy: PairingPolicy, events: seq<Event<Occurrence>>, event: Event<Occurrence>)
    ensures Walk(policy, events + [event]) == Next(policy, Walk(policy, events), event)
  {
    assert (events + [event])[..|events|] == events;
  }

  /** The results of one message consume; `done` is what the walk has seen. */
  method ConsumeMessage(state: PairingState, message: MessageView, m: nat, ghost done: seq<Event<Occurrence>>)
    requires state.View() == Walk(state.policy, done)
    modifies state
    ensures state.View() == Walk(state.policy, done + ResultEvents(state.policy, message, m, 0))
  {
    hide Next, Walk, PairingState.View;
    var policy := state.policy;
    ghost var seen := done;
    for c := 0 to |message.contents|
      invariant state.View() == Walk(policy, seen)
      invariant seen + ResultEvents(policy, message, m, c) == done + ResultEvents(policy, message, m, 0)
    {
      var content := message.contents[c];
      if KindIn(content, policy.resultTypes) {
        var occurrence := OccurrenceOf(policy, m, c, content);
        WalkSnoc(policy, seen, Result(occurrence));
        state.ConsumeResult(occurrence);
        assert seen + ResultEvents(policy, message, m, c)
            == (seen + [Result(occurrence)]) + ResultEvents(policy, message, m, c + 1);
        seen := seen + [Result(occurrence)];
      }
    }
    assert seen + [] == seen;
  }

  method RegisterMessage(state: PairingState, message: MessageView, m: nat, ghost done: seq<Event<Occurrence>>)
    requires state.View() == Walk(state.policy, done)
    modifies state
    ensures state.View() == Walk(state.policy, done + CallEvents(state.policy, message, m, 0))
  {
    hide Next, Walk, PairingState.View;
    var policy := state.policy;
    ghost var seen := done;
    for c := 0 to |message.contents|
      invariant state.View() == Walk(policy, seen)
      invariant seen + CallEvents(policy, message, m, c) == done + CallEvents(policy, message, m, 0)
    {
      var content := message.contents[c];
      if !KindIn(content, policy.callTypes) {
        continue;
      }
      if !policy.includeInformational && content.informational {
        continue;
      }
      var occurrence := OccurrenceOf(policy, m, c, content);
      WalkSnoc(policy, seen, Call(occurrence));
      state.RegisterCall(occurrence);
      assert seen + CallEvents(policy, message, m, c)
          == (seen + [Call(occurrence)]) + CallEvents(policy, message, m, c + 1);
      seen := seen + [Call(occurrence)];
    }
    assert seen + [] == seen;
  }

  method WalkMessage(state: PairingState, message: MessageView, m: nat, ghost done: seq<Event<Occurrence>>)
    requires state.View() == Walk(state.policy, done)
    modifies state
    ensures state.View() == Walk(state.policy, done + MessageEvents(state.policy, message, m))
  {
    hide Walk, CallEvents, ResultEvents, PairingState.View;
    ghost var calls := CallEvents(state.policy, message, m, 0);
    ghost var results := ResultEvents(state.policy, message, m, 0);
    RegisterMessage(state, message, m, done);
    ConsumeMessage(state, message, m, done + calls);
    assert (done + calls) + results == done + (calls + results);
  }

  method WalkResponse(state: PairingState, messages: seq<MessageView>, from: nat, until: nat)
    requires from <= until <= |messages|
    requires state.View() == START
    modifies state
    ensures state.View() == Walk(state.policy, ResponseEvents(state.policy, messages, from, until))
  {
    hide Walk, MessageEvents, PairingState.View;
    WalkStart(state.policy);
    var policy := state.policy;
    ghost var done: seq<Event<Occurrence>> := [];
    for m := from to until
      invariant state.View() == Walk(policy, done)
      invariant done + ResponseEvents(policy, messages, m, until) == ResponseEvents(policy, messages, from, until)
    {
      ghost var events := MessageEvents(policy, messages[m], m);
      WalkMessage(state, messages[m], m, done);
      assert done + ResponseEvents(policy, messages, m, until)
          == (done + events) + ResponseEvents(policy, messages, m + 1, until);
      done := done + events;
    }
    assert done + [] == done;
  }

  method WalkOutput(state: PairingState, messages: seq<MessageView>, from: nat, until: nat,
      ghost before: seq<Event<Occurrence>>)
    requires from <= until <= |messages|
    requires state.View() == Walk(state.policy, before)
    modifies state
    ensures state.View() == Walk(state.policy, before + OutputEvents(state.policy, messages, from, until))
  {
    hide Walk, ResultEvents, PairingState.View;
    var policy := state.policy;
    ghost var done := before;
    for m := from to until
      invariant state.View() == Walk(policy, done)
      invariant done + OutputEvents(policy, messages, m, until) == before + OutputEvents(policy, messages, from, until)
    {
      ghost var results := ResultEvents(policy, messages[m], m, 0);
      ConsumeMessage(state, messages[m], m, done);
      assert done + OutputEvents(policy, messages, m, until)
          == (done + results) + OutputEvents(policy, messages, m + 1, until);
      done := done + results;
    }
    assert done + [] == done;
  }

  /** `pair_results`. */
  method PairResults(messages: seq<MessageView>, exchange: Exchange, policy: PairingPolicy)
    returns (pairing: ExchangePairing)
    requires InRange(exchange, messages)
    ensures pairing == PairingOf(policy, messages, exchange)
  {
    var state := new PairingState(policy);
    WalkResponse(state, messages, exchange.start, exchange.split);
    WalkOutput(state, messages, exchange.split, exchange.end,
      ResponseEvents(policy, messages, exchange.start, exchange.split));
    pairing := ExchangePairing(state.truthy, state.unconsumed, state.falsy, state.falsyUnconsumed,
      state.unpairableCalls, state.unpairableResults, state.eligibleTruthy, state.eligibleFalsy);
  }
}
