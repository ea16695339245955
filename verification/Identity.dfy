/** Weak identity membership over every interleaving of births, deaths, registrations and late callbacks. */
module Identity {

  /** An object of the program. The serial number tells it apart from every other object there ever was, the address
      only from those alive at the same time. */
  datatype Object = Object(serial: nat, address: nat, usage: bool)

  /** A weak reference: an object of its own, with the callback that evicts it. */
  datatype Ref = Ref(serial: nat, target: Object)

  type Refs = map<nat, Ref>

  /** `ref() is obj`. */
  predicate Refers(ref: Ref, live: set<Object>, obj: Object) {
    ref.target in live && ref.target == obj
  }

  /** `obj in registry`. */
  predicate Contains(refs: Refs, live: set<Object>, obj: Object) {
    obj.address in refs && Refers(refs[obj.address], live, obj)
  }

  predicate Refused(ignoreUsage: bool, obj: Object) {
    ignoreUsage && obj.usage
  }

  function Registered(ignoreUsage: bool, refs: Refs, live: set<Object>, serial: nat, obj: Object): Refs {
    if Refused(ignoreUsage, obj) || Contains(refs, live, obj) then refs else refs[obj.address := Ref(serial, obj)]
  }

  /** What the callback of a dead reference does. */
  function Evicted(refs: Refs, dead: Ref): Refs {
    if dead.target.address in refs && refs[dead.target.address] == dead then refs - {dead.target.address} else refs
  }

  class WeakIdentityRegistry {
    const ignoreUsage: bool
    var refs: Refs

    constructor (ignoreUsage: bool)
      ensures this.ignoreUsage == ignoreUsage && refs == map[]
    {
      this.ignoreUsage := ignoreUsage;
      refs := map[];
    }

    /** `serial` is the identity of the reference object created here. */
    method Register(live: set<Object>, serial: nat, obj: Object)
      modifies this
      ensures refs == Registered(ignoreUsage, old(refs), live, serial, obj)
    {
      if ignoreUsage && obj.usage {
        return;
      }
      var key := obj.address;
      if key in refs {
        var existing := refs[key];
        if existing.target in live && existing.target == obj {
          return;
        }
      }
      refs := refs[key := Ref(serial, obj)];
    }

    method Evict(dead: Ref)
      modifies this
      ensures refs == Evicted(old(refs), dead)
    {
      var key := dead.target.address;
      if key in refs && refs[key] == dead {
        refs := refs - {key};
      }
    }
  }

  // ---------- Interleavings ----------

  /** `Fire` runs the callback of a reference whose target is dead, however late; `Lose` is the death of a reference
      object that the registry no longer holds, whose callback then never runs. */
  datatype Action =
    | Allocate(address: nat, usage: bool)
    | Die(obj: Object)
    | Register(obj: Object)
    | Fire(dead: Ref)
    | Lose(dead: Ref)

  datatype State = State(live: set<Object>, born: nat, refs: Refs, made: nat, pending: set<Ref>)

  const START := State({}, 0, map[], 0, {})

  predicate Enabled(s: State, a: Action) {
    match a
    case Allocate(address, _) => forall o :: o in s.live ==> o.address != address
    case Die(obj) => obj in s.live
    case Register(obj) => obj in s.live
    case Fire(dead) => dead in s.pending
    case Lose(dead) => dead in s.pending && dead !in s.refs.Values
  }

  function Next(ignoreUsage: bool, s: State, a: Action): State {
    match a
    case Allocate(address, usage) => s.(live := s.live + {Object(s.born, address, usage)}, born := s.born + 1)
    case Die(obj) => s.(live := s.live - {obj}, pending := s.pending + (set r | r in s.refs.Values && r.target == obj))
    case Register(obj) => s.(refs := Registered(ignoreUsage, s.refs, s.live, s.made, obj), made := s.made + 1)
    case Fire(dead) => s.(refs := Evicted(s.refs, dead), pending := s.pending - {dead})
    case Lose(dead) => s.(pending := s.pending - {dead})
  }

  function After(ignoreUsage: bool, trace: seq<Action>): State {
    if trace == [] then START
    else Next(ignoreUsage, After(ignoreUsage, trace[..|trace| - 1]), trace[|trace| - 1])
  }

  predicate Legal(ignoreUsage: bool, trace: seq<Action>) {
    trace != [] ==>
      var init := trace[..|trace| - 1];
      Legal(ignoreUsage, init) && Enabled(After(ignoreUsage, init), trace[|trace| - 1])
  }

  /** The objects registered; usage is not where it is ignored. */
  function Members(ignoreUsage: bool, trace: seq<Action>): set<Object> {
    set a | a in trace && a.Register? && !(ignoreUsage && a.obj.usage) :: a.obj
  }

  // ---------- The invariant ----------

  ghost predicate Sane(s: State) {
    && (forall o :: o in s.live ==> o.serial < s.born)
    && (forall o, p :: o in s.live && p in s.live && o.address == p.address ==> o == p)
    && (forall k :: k in s.refs ==> s.refs[k].target.address == k && s.refs[k].serial < s.made)
    && (forall r :: r in s.pending ==> r.target !in s.live && r.target.serial < s.born)
    && (forall k :: k in s.refs ==> s.refs[k].target.serial < s.born)
  }

  ghost predicate Exact(s: State, members: set<Object>) {
    && (forall o :: o in s.live && o in members ==> o.address in s.refs && s.refs[o.address].target == o)
    && (forall k :: k in s.refs ==> s.refs[k].target in members)
    && (forall o :: o in members ==> o.serial < s.born)
    && (forall k :: k in s.refs && s.refs[k].target !in s.live ==> s.refs[k] in s.pending)
  }

  lemma MembersAdd(ignoreUsage: bool, trace: seq<Action>, a: Action)
    ensures Members(ignoreUsage, trace + [a])
         == if a.Register? && !Refused(ignoreUsage, a.obj) then Members(ignoreUsage, trace) + {a.obj}
            else Members(ignoreUsage, trace)
  {
    assert forall b :: b in trace + [a] <==> b in trace || b == a;
    if a.Register? && !Refused(ignoreUsage, a.obj) {
      assert a in trace + [a];
    }
  }

  lemma StepIsSane(ignoreUsage: bool, s: State, a: Action)
    requires Sane(s) && Enabled(s, a)
    ensures Sane(Next(ignoreUsage, s, a))
  {
    var next := Next(ignoreUsage, s, a);
    if a.Die? {
      forall r | r in next.pending
        ensures r.target !in next.live && r.target.serial < next.born
      {
        if r !in s.pending {
          var k :| k in s.refs && s.refs[k] == r;
        }
      }
    }
  }

  lemma StepIsExact(ignoreUsage: bool, s: State, members: set<Object>, a: Action)
    requires Sane(s) && Exact(s, members) && Enabled(s, a)
    ensures Exact(Next(ignoreUsage, s, a),
                  if a.Register? && !Refused(ignoreUsage, a.obj) then members + {a.obj} else members)
  {
    match a
    case Fire(dead) =>
    case Die(obj) =>
      forall k | k in s.refs && s.refs[k].target !in s.live - {obj}
        ensures s.refs[k] in Next(ignoreUsage, s, a).pending
      {
        assert s.refs[k] in s.refs.Values;
      }
    case Lose(dead) =>
      forall k | k in s.refs
        ensures s.refs[k] != dead
      {
        assert s.refs[k] in s.refs.Values;
      }
    case _ =>
  }

  lemma {:induction false} RunsAreExact(ignoreUsage: bool, trace: seq<Action>)
    requires Legal(ignoreUsage, trace)
    ensures Sane(After(ignoreUsage, trace)) && Exact(After(ignoreUsage, trace), Members(ignoreUsage, trace))
  {
    if trace != [] {
      var init, last := trace[..|trace| - 1], trace[|trace| - 1];
      RunsAreExact(ignoreUsage, init);
      MembersAdd(ignoreUsage, init, last);
      assert trace == init + [last];
      var s := After(ignoreUsage, init);
      StepIsSane(ignoreUsage, s, last);
      StepIsExact(ignoreUsage, s, Members(ignoreUsage, init), last);
    }
  }

  // ---------- What callers rely on ----------

  /** Whatever happened before, an object is a member exactly if that very object was registered, was not refused as
      usage, and is alive. */
  lemma MembershipIsExact(ignoreUsage: bool, trace: seq<Action>, obj: Object)
    requires Legal(ignoreUsage, trace)
    ensures var s := After(ignoreUsage, trace);
      Contains(s.refs, s.live, obj) <==> obj in s.live && obj in Members(ignoreUsage, trace)
  {
    RunsAreExact(ignoreUsage, trace);
  }

  /** A late callback changes no membership and removes no entry but its own, even at a reused address. */
  lemma StaleCallbackIsHarmless(ignoreUsage: bool, trace: seq<Action>, dead: Ref)
    requires Legal(ignoreUsage, trace) && dead in After(ignoreUsage, trace).pending
    ensures var s := After(ignoreUsage, trace); var next := Next(ignoreUsage, s, Fire(dead));
      && (forall k :: k in s.refs && s.refs[k] != dead ==> k in next.refs && next.refs[k] == s.refs[k])
      && (forall o :: Contains(next.refs, next.live, o) <==> Contains(s.refs, s.live, o))
  {
    RunsAreExact(ignoreUsage, trace);
  }

  function AddressesOf(objects: set<Object>): set<nat> {
    set o | o in objects :: o.address
  }

  lemma {:induction false} AddressesCount(objects: set<Object>)
    requires forall o, p :: o in objects && p in objects && o.address == p.address ==> o == p
    ensures |AddressesOf(objects)| == |objects|
    decreases |objects|
  {
    if objects != {} {
      var o :| o in objects;
      var rest := objects - {o};
      AddressesCount(rest);
      assert AddressesOf(objects) == AddressesOf(rest) + {o.address};
    }
  }

  /** Once the callbacks have run, the registry holds one entry for each living member and nothing else. */
  lemma NothingLeaks(ignoreUsage: bool, trace: seq<Action>)
    requires Legal(ignoreUsage, trace) && After(ignoreUsage, trace).pending == {}
    ensures var s := After(ignoreUsage, trace); var alive := s.live * Members(ignoreUsage, trace);
      s.refs.Keys == AddressesOf(alive) && |s.refs| == |alive|
  {
    RunsAreExact(ignoreUsage, trace);
    var s := After(ignoreUsage, trace);
    var alive := s.live * Members(ignoreUsage, trace);
    forall k | k in s.refs
      ensures k in AddressesOf(alive)
    {
      assert s.refs[k].target in alive;
    }
    AddressesCount(alive);
    assert |s.refs| == |s.refs.Keys|;
  }
}
