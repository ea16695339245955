/** History shared between live messages and a reusable snapshot: two-level copies keep them apart. */
module RetryHistory {
  import opened Values

  /** A dictionary one level below a message's properties; what it holds is replaced, never mutated. */
  class Inner {
    var entries: map<string, Value>

    constructor (entries: map<string, Value>)
      ensures this.entries == entries
    {
      this.entries := entries;
    }
  }

  datatype Slot = Plain(value: Value) | Nested(dict: Inner)

  /** A message's additional properties. */
  class Properties {
    var slots: map<string, Slot>

    constructor (slots: map<string, Slot>)
      ensures this.slots == slots
    {
      this.slots := slots;
    }
  }

  class Message {
    var properties: Properties

    constructor (properties: Properties)
      ensures this.properties == properties
    {
      this.properties := properties;
    }
  }

  // ---------- What a reader sees ----------

  datatype SlotView = PlainView(value: Value) | DictView(entries: map<string, Value>)

  type PropertyView = map<string, SlotView>

  ghost function Inners(p: Properties): set<Inner>
    reads p
  {
    set k | k in p.slots && p.slots[k].Nested? :: p.slots[k].dict
  }

  ghost function SlotAsView(slot: Slot): SlotView
    reads if slot.Nested? then {slot.dict} else {}
  {
    if slot.Nested? then DictView(slot.dict.entries) else PlainView(slot.value)
  }

  ghost function PropertiesAsView(p: Properties): PropertyView
    reads p, Inners(p)
  {
    map k | k in p.slots :: SlotAsView(p.slots[k])
  }

  /** `_copy_message_properties`: fresh at both levels. */
  method CopyProperties(p: Properties) returns (copy: Properties)
    ensures fresh(copy) && fresh(Inners(copy))
    ensures PropertiesAsView(copy) == PropertiesAsView(p)
  {
    var slots: map<string, Slot> := map[];
    var rest := p.slots.Keys;
    while rest != {}
      invariant rest <= p.slots.Keys && slots.Keys == p.slots.Keys - rest
      invariant forall k :: k in slots && slots[k].Nested? ==> fresh(slots[k].dict)
      invariant forall k :: k in slots ==> SlotAsView(slots[k]) == SlotAsView(p.slots[k])
      decreases |rest|
    {
      var key :| key in rest;
      var slot := p.slots[key];
      if slot.Nested? {
        var inner := new Inner(slot.dict.entries);
        slots := slots[key := Nested(inner)];
      } else {
        slots := slots[key := slot];
      }
      rest := rest - {key};
    }
    copy := new Properties(slots);
  }

  // ---------- The live history ----------

  datatype HistoryView = HistoryView(
    messages: seq<Message>,
    properties: seq<PropertyView>,
    compressed: seq<string>,
    session: string,
    floor: Option<int>)

  ghost function InnersOf(ps: set<Properties>): set<Inner>
    reads ps
  {
    set p, i | p in ps && i in Inners(p) :: i
  }

  ghost function PropertiesOf(messages: seq<Message>): set<Properties>
    reads messages
  {
    set m | m in messages :: m.properties
  }

  /** What an attempt may do to the history it can reach: the messages list, every message it ever got hold of, their
      property dictionaries and the dictionaries inside. */
  datatype Edit =
    | SetPlain(at: nat, key: string, value: Value)
    | SetDict(at: nat, key: string, entries: map<string, Value>)
    | Delete(at: nat, key: string)
    | SetInner(at: nat, key: string, inner: string, value: Value)
    | DeleteInner(at: nat, key: string, inner: string)
    | Rebind(at: nat, entries: map<string, Value>)
    | Share(at: nat, other: nat)
    | ShareInner(at: nat, key: string, other: nat, otherKey: string)
    | Append(entries: map<string, Value>)
    | Reorder(order: seq<nat>)
    | AppendBlock(block: string)
    | SetSession(session: string)
    | SetFloor(floor: Option<int>)

  /** The history an attempt works on. `roster`, `props` and `inners` are the messages and
      dictionaries it may have got hold of. */
  class History {
    var messages: seq<Message>
    var known: seq<Message>
    var compressed: seq<string>
    var session: string
    var floor: Option<int>
    ghost var roster: set<Message>
    ghost var props: set<Properties>
    ghost var inners: set<Inner>

    ghost predicate Valid()
      reads this, roster, props
    {
      && (forall m :: m in messages ==> m in known)
      && (forall m :: m in known ==> m in roster)
      && (forall m :: m in roster ==> m.properties in props)
      && (forall p :: p in props ==> Inners(p) <= inners)
    }

    ghost function View(): HistoryView
      reads this, messages, PropertiesOf(messages), InnersOf(PropertiesOf(messages))
    {
      HistoryView(messages, ViewsOf(messages), compressed, session, floor)
    }

    constructor ()
      ensures Valid() && messages == []
    {
      messages, known, compressed, session, floor, roster, props, inners := [], [], [], "", None, {}, {}, {};
    }

    /** `message.additional_properties[key] = slot` or its deletion. */
    method Put(at: nat, key: string, slot: Option<Slot>)
      requires Valid() && at < |known|
      requires slot.Some? && slot.value.Nested? ==> slot.value.dict in inners
      modifies props
      ensures Valid()
    {
      var p := known[at].properties;
      p.slots := if slot.Some? then p.slots[key := slot.value] else p.slots - {key};
    }

    /** The same one level below. */
    method PutInner(at: nat, key: string, inner: string, value: Option<Value>)
      requires Valid() && at < |known|
      modifies inners
      ensures Valid()
    {
      var p := known[at].properties;
      if key in p.slots && p.slots[key].Nested? {
        var dict := p.slots[key].dict;
        assert dict in Inners(p);
        dict.entries := if value.Some? then dict.entries[inner := value.value] else dict.entries - {inner};
      }
    }

    method Rebind(at: nat, p: Properties)
      requires Valid() && at < |known| && Inners(p) <= inners
      modifies this`props, roster
      ensures Valid() && props == old(props) + {p}
    {
      props := props + {p};
      known[at].properties := p;
    }

    method Add(m: Message)
      requires Valid() && Inners(m.properties) <= inners
      modifies this`props, this`known, this`messages, this`roster
      ensures Valid() && props == old(props) + {m.properties} && known == old(known) + [m] && roster == old(roster) + {m}
    {
      props := props + {m.properties};
      known, messages, roster := known + [m], messages + [m], roster + {m};
    }

    /** `message.additional_properties = {...}`. */
    method RebindNew(at: nat, entries: map<string, Value>)
      requires Valid() && at < |known|
      modifies this`props, roster
      ensures Valid() && fresh(props - old(props))
    {
      var p := new Properties(map k | k in entries :: Plain(entries[k]));
      Rebind(at, p);
    }

    method PutDict(at: nat, key: string, entries: map<string, Value>)
      requires Valid() && at < |known|
      modifies this`inners, props
      ensures Valid() && fresh(inners - old(inners))
    {
      var inner := new Inner(entries);
      inners := inners + {inner};
      Put(at, key, Some(Nested(inner)));
    }

    method AddNew(entries: map<string, Value>)
      requires Valid()
      modifies this`props, this`known, this`messages, this`roster
      ensures Valid() && old(known) <= known && fresh(roster - old(roster)) && fresh(props - old(props))
    {
      var p := new Properties(map k | k in entries :: Plain(entries[k]));
      var m := new Message(p);
      Add(m);
    }

    /** A change of one known message's dictionaries. */
    method ApplyToMessage(e: Edit)
      requires Valid()
      modifies this`props, this`inners, roster, props, inners
      ensures Valid() && fresh(props - old(props)) && fresh(inners - old(inners))
    {
      hide Valid;
      match e
      case SetPlain(at, key, value) => if at < |known| { Put(at, key, Some(Plain(value))); }
      case SetDict(at, key, entries) => if at < |known| { PutDict(at, key, entries); }
      case Delete(at, key) => if at < |known| { Put(at, key, None); }
      case SetInner(at, key, inner, value) => if at < |known| { PutInner(at, key, inner, Some(value)); }
      case DeleteInner(at, key, inner) => if at < |known| { PutInner(at, key, inner, None); }
      case Rebind(at, entries) => if at < |known| { RebindNew(at, entries); }
      case Share(at, other) => if at < |known| && other < |known| { Alias(at, other); }
      case ShareInner(at, key, other, otherKey) =>
        if at < |known| && other < |known| { AliasInner(at, key, other, otherKey); }
      case _ =>
    }

    method Alias(at: nat, other: nat)
      requires Valid() && at < |known| && other < |known|
      modifies this`props, roster
      ensures Valid() && props == old(props)
    {
      Rebind(at, known[other].properties);
    }

    /** A message's slot takes what another's holds: the same dictionary, if it is one. */
    method AliasInner(at: nat, key: string, other: nat, otherKey: string)
      requires Valid() && at < |known| && other < |known|
      modifies props
      ensures Valid()
    {
      var p := known[other].properties;
      if otherKey in p.slots {
        var slot := p.slots[otherKey];
        assert slot.Nested? ==> slot.dict in Inners(p);
        Put(at, key, Some(slot));
      }
    }

    method Rearrange(order: seq<nat>)
      requires Valid()
      modifies this`messages
      ensures Valid()
    {
      if forall i :: 0 <= i < |order| ==> order[i] < |known| {
        messages := Picked(known, order);
      }
    }

    /** One in-place change of an attempt under way: it reaches what the history knows, and fresh objects. */
    method Apply(e: Edit)
      requires Valid()
      modifies this, roster, props, inners
      ensures Valid()
      ensures old(known) <= known && fresh(roster - old(roster))
      ensures fresh(props - old(props)) && fresh(inners - old(inners))
      ensures old(compressed) <= compressed
    {
      match e
      case Append(entries) => AddNew(entries);
      case Reorder(order) => Rearrange(order);
      case AppendBlock(block) => compressed := compressed + [block];
      case SetSession(id) => session := id;
      case SetFloor(length) => floor := length;
      case _ => ApplyToMessage(e);
    }
  }

  function Picked(known: seq<Message>, order: seq<nat>): (picked: seq<Message>)
    requires forall i :: 0 <= i < |order| ==> order[i] < |known|
    ensures forall m :: m in picked ==> m in known
  {
    seq(|order|, i requires 0 <= i < |order| => known[order[i]])
  }

  ghost function ViewsOf(messages: seq<Message>): seq<PropertyView>
    reads messages, PropertiesOf(messages), InnersOf(PropertiesOf(messages))
  {
    seq(|messages|, i requires 0 <= i < |messages|
                      reads messages, PropertiesOf(messages), InnersOf(PropertiesOf(messages))
                    => PropertiesAsView(messages[i].properties))
  }

  // ---------- Snapshots ----------

  datatype Snapshot = Snapshot(
    messages: seq<Message>,
    properties: seq<Properties>,
    compressedCount: nat,
    session: string,
    floor: Option<int>)

  ghost predicate Holds(properties: seq<Properties>, views: seq<PropertyView>)
    reads properties, InnersOf(set p | p in properties)
  {
    |properties| == |views| && forall i :: 0 <= i < |properties| ==> PropertiesAsView(properties[i]) == views[i]
  }

  /** No dictionary of the snapshot can be reached from the history. */
  ghost predicate Apart(h: History, properties: seq<Properties>)
    reads h, properties
  {
    forall i :: 0 <= i < |properties| ==> properties[i] !in h.props && Inners(properties[i]) !! h.inners
  }

  /** `snapshot_message_properties`. */
  method SnapshotProperties(messages: seq<Message>) returns (copies: seq<Properties>)
    ensures forall i :: 0 <= i < |copies| ==> fresh(copies[i]) && fresh(Inners(copies[i]))
    ensures Holds(copies, ViewsOf(messages))
  {
    copies := [];
    for n := 0 to |messages|
      invariant |copies| == n
      invariant forall i :: 0 <= i < n ==> fresh(copies[i]) && fresh(Inners(copies[i]))
      invariant forall i :: 0 <= i < n ==> PropertiesAsView(copies[i]) == PropertiesAsView(messages[i].properties)
    {
      var copy := CopyProperties(messages[n].properties);
      copies := copies + [copy];
    }
  }

  /** What one entry of a message list restores to does not depend on where the message stands in it. */
  ghost predicate Consistent(messages: seq<Message>, views: seq<PropertyView>) {
    |messages| == |views| && forall i, j :: 0 <= i < j < |messages| && messages[i] == messages[j] ==> views[i] == views[j]
  }

  method TakeSnapshot(h: History) returns (s: Snapshot)
    requires h.Valid()
    ensures s.messages == h.messages && s.compressedCount == |h.compressed|
    ensures s.session == h.session && s.floor == h.floor
    ensures Holds(s.properties, ViewsOf(h.messages)) && Consistent(h.messages, ViewsOf(h.messages))
    ensures forall i :: 0 <= i < |s.properties| ==> fresh(s.properties[i]) && fresh(Inners(s.properties[i]))
  {
    var copies := SnapshotProperties(h.messages);
    s := Snapshot(h.messages, copies, |h.compressed|, h.session, h.floor);
  }

  /** One message of a restoration. */
  method RestoreOne(h: History, m: Message, source: Properties)
    requires h.Valid() && m in h.roster
    modifies m, h`props, h`inners
    ensures h.Valid() && fresh(m.properties) && fresh(Inners(m.properties))
    ensures PropertiesAsView(m.properties) == old(PropertiesAsView(source))
    ensures h.props == old(h.props) + {m.properties} && h.inners == old(h.inners) + Inners(m.properties)
  {
    var copy := CopyProperties(source);
    h.props, h.inners := h.props + {copy}, h.inners + Inners(copy);
    m.properties := copy;
  }

  ghost predicate Restored(messages: seq<Message>, n: nat, views: seq<PropertyView>)
    requires n <= |messages| == |views|
    reads messages, PropertiesOf(messages), InnersOf(PropertiesOf(messages))
  {
    forall i :: 0 <= i < n ==> PropertiesAsView(messages[i].properties) == views[i]
  }

  /** The next message of a restoration: a message standing earlier in the list as well shows the same there. */
  method RestoreNext(h: History, s: Snapshot, n: nat, ghost views: seq<PropertyView>)
    requires h.Valid() && n < |s.messages| == |s.properties| == |views| && s.messages[n] in h.roster
    requires PropertiesAsView(s.properties[n]) == views[n]
    requires Consistent(s.messages, views) && Restored(s.messages, n, views)
    requires Holds(s.properties, views) && Apart(h, s.properties)
    modifies s.messages[n], h`props, h`inners
    ensures h.Valid() && Restored(s.messages, n + 1, views)
    ensures Holds(s.properties, views) && Apart(h, s.properties)
    ensures h.props == old(h.props) + {s.messages[n].properties}
    ensures h.inners == old(h.inners) + Inners(s.messages[n].properties)
    ensures fresh(s.messages[n].properties) && fresh(Inners(s.messages[n].properties))
  {
    hide History.Valid;
    RestoreOne(h, s.messages[n], s.properties[n]);
    forall i | 0 <= i < n
      ensures PropertiesAsView(s.messages[i].properties) == views[i]
    {
      if s.messages[i] != s.messages[n] {
        assert old(PropertiesAsView(s.messages[i].properties)) == views[i];
      }
    }
  }

  /** `restore_message_properties`: every message gets its own copy, so the snapshot can be restored again. */
  method RestoreProperties(h: History, s: Snapshot, ghost views: seq<PropertyView>)
    requires h.Valid() && (forall m :: m in s.messages ==> m in h.roster)
    requires |s.messages| == |views| && Consistent(s.messages, views)
    requires Holds(s.properties, views) && Apart(h, s.properties)
    modifies s.messages, h`props, h`inners
    ensures h.Valid() && ViewsOf(s.messages) == views
    ensures Holds(s.properties, views) && Apart(h, s.properties)
    ensures fresh(h.props - old(h.props)) && fresh(h.inners - old(h.inners))
  {
    hide History.Valid, Consistent, Restored, Holds, Apart;
    assert Restored(s.messages, 0, views) && |s.properties| == |views| by { NothingRestored(s, views); }
    for n := 0 to |s.messages|
      invariant h.Valid() && Restored(s.messages, n, views)
      invariant Holds(s.properties, views) && Apart(h, s.properties)
      invariant fresh(h.props - old(h.props)) && fresh(h.inners - old(h.inners))
    {
      assert PropertiesAsView(s.properties[n]) == views[n] by { HoldsAt(s.properties, views, n); }
      RestoreNext(h, s, n, views);
    }
    AllRestored(s.messages, views);
  }

  lemma NothingRestored(s: Snapshot, views: seq<PropertyView>)
    requires |s.messages| == |views| && Holds(s.properties, views)
    ensures Restored(s.messages, 0, views) && |s.properties| == |views|
  {
  }

  lemma HoldsAt(properties: seq<Properties>, views: seq<PropertyView>, n: nat)
    requires Holds(properties, views) && n < |properties|
    ensures n < |views| && PropertiesAsView(properties[n]) == views[n]
  {
  }

  lemma AllRestored(messages: seq<Message>, views: seq<PropertyView>)
    requires |messages| == |views| && Restored(messages, |messages|, views)
    ensures ViewsOf(messages) == views
  {
  }
}
