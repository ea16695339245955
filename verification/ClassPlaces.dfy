/** The places restoration visits in an approved class are those its full dump fills. */
module ClassPlaces {
  import opened Classes
  import opened Classifier
  import opened Policies
  import opened Restoration
  import opened RestorationLaws
  import opened FullDumps

  // ---------- Faithful mappings ----------

  /** A place of what the full dump holds under its key, faithful or, where `faithful` is false, perhaps not. */
  ghost predicate PlaceFaithful(world: World, policy: Policy, place: Place, full: map<string, Dump>,
                                faithful: bool := true) {
    && place.key in full
    && full[place.key] == FullDump(world, place.arg)
    && (faithful ==> Faithful(world, place.arg))
    && if place.arg.NullArg? then place.nulls
       else if place.nested then place.allowed <= policy.approved && Restorable(world, place.arg, place.allowed, faithful)
       else NullFree(full[place.key])
  }

  ghost predicate MappingFaithful(world: World, policy: Policy, places: seq<Place>, full: map<string, Dump>,
                                  faithful: bool := true) {
    && DistinctKeys(places)
    && (forall p :: p in places ==> PlaceFaithful(world, policy, p, full, faithful))
    && (forall key :: key in full && !HasKey(places, key) ==> NullFree(full[key]))
  }

  // ---------- One class ----------

  lemma {:induction false} FieldKeyIn(byAlias: bool, fields: seq<Field>, k: nat)
    requires k < |fields| && !fields[k].exclude
    ensures DumpKey(byAlias, fields[k]) in FieldKeys(byAlias, fields)
  {
    var init := fields[..|fields| - 1];
    if k < |init| {
      FieldKeyIn(byAlias, init, k);
    }
  }

  lemma {:induction false} FieldKeysApart(byAlias: bool, fields: seq<Field>, i: nat, j: nat)
    requires Distinct(FieldKeys(byAlias, fields))
    requires i < j < |fields| && !fields[i].exclude && !fields[j].exclude
    ensures DumpKey(byAlias, fields[i]) != DumpKey(byAlias, fields[j])
  {
    var init := fields[..|fields| - 1];
    var keys := FieldKeys(byAlias, init);
    assert keys == FieldKeys(byAlias, fields)[..|keys|];
    if j < |init| {
      FieldKeysApart(byAlias, init, i, j);
    } else {
      FieldKeyIn(byAlias, init, i);
      assert FieldKeys(byAlias, fields)[|keys|] == DumpKey(byAlias, fields[j]);
    }
  }

  lemma {:induction false} KeyTableIs(byAlias: bool, fields: seq<Field>, k: nat)
    requires NamesApart(fields) && k < |fields|
    ensures fields[k].name in KeyTable(byAlias, fields)
    ensures KeyTable(byAlias, fields)[fields[k].name] == DumpKey(byAlias, fields[k])
  {
    var init := fields[..|fields| - 1];
    if k < |init| {
      KeyTableIs(byAlias, init, k);
    }
  }

  /** The field entries of a full dump: their keys are pairwise distinct field keys. */
  lemma {:induction false} FieldEntriesApart(arg: Arg, byAlias: bool, fields: seq<Field>)
    requires arg.ModelArg? && Distinct(FieldKeys(byAlias, fields))
    ensures EntriesDistinct(FieldEntries(arg, byAlias, fields))
    ensures forall e :: e in FieldEntries(arg, byAlias, fields) ==> e.key in FieldKeys(byAlias, fields)
  {
    if fields != [] {
      var init, last := fields[..|fields| - 1], fields[|fields| - 1];
      var keys, entries := FieldKeys(byAlias, init), FieldEntries(arg, byAlias, init);
      assert keys == FieldKeys(byAlias, fields)[..|keys|];
      FieldEntriesApart(arg, byAlias, init);
      if Emitted(arg, last) {
        assert FieldKeys(byAlias, fields)[|keys|] == DumpKey(byAlias, last);
        assert forall i :: 0 <= i < |entries| ==> entries[i] in entries;
      }
    }
  }

  lemma {:induction false} FieldEntryAt(arg: Arg, byAlias: bool, fields: seq<Field>, k: nat)
    requires arg.ModelArg? && k < |fields| && Emitted(arg, fields[k])
    ensures Entry(DumpKey(byAlias, fields[k]), arg.attributes[fields[k].name]) in FieldEntries(arg, byAlias, fields)
  {
    var init := fields[..|fields| - 1];
    if k < |init| {
      FieldEntryAt(arg, byAlias, init, k);
    }
  }

  lemma {:induction false} FieldEntryFrom(arg: Arg, byAlias: bool, fields: seq<Field>, entry: Entry) returns (k: nat)
    requires arg.ModelArg? && entry in FieldEntries(arg, byAlias, fields)
    ensures k < |fields| && Emitted(arg, fields[k])
    ensures entry == Entry(DumpKey(byAlias, fields[k]), arg.attributes[fields[k].name])
  {
    var init := fields[..|fields| - 1];
    if entry in FieldEntries(arg, byAlias, init) {
      k := FieldEntryFrom(arg, byAlias, init, entry);
    } else {
      k := |fields| - 1;
    }
  }

  lemma {:induction false} EntryPlacesAre(owner: Arg, entries: seq<Entry>, allowed: set<Cls>)
    requires forall e :: e in entries ==> e.arg < owner
    ensures var places := EntryPlaces(owner, entries, allowed, {});
      && |places| == |entries|
      && forall k :: 0 <= k < |entries| ==> places[k] == Place(entries[k].key, entries[k].arg, allowed, true, true)
  {
    if entries != [] {
      EntryPlacesAre(owner, entries[1..], allowed);
    }
  }

  lemma {:induction false} ModelSlotAt(fields: seq<Field>, k: nat)
    requires k < |fields| && !fields[k].exclude
    ensures Slot(fields[k].name, fields[k].annotation) in ModelSlots(fields)
  {
    var init := fields[..|fields| - 1];
    if k < |init| {
      ModelSlotAt(init, k);
    }
  }

  lemma {:induction false} KeyTableFrom(byAlias: bool, fields: seq<Field>, name: string) returns (k: nat)
    requires name in KeyTable(byAlias, fields)
    ensures k < |fields| && fields[k].name == name
  {
    var last := |fields| - 1;
    if fields[last].name == name {
      k := last;
    } else {
      k := KeyTableFrom(byAlias, fields[..last], name);
    }
  }

  /** A model value of an approved class, attribute by attribute as `Restorable` asks. */
  ghost predicate ModelReady(world: World, policy: Policy, arg: Arg, faithful: bool := true)
    requires arg.ModelArg? && IsModel(world, arg.cls)
  {
    var info := world.classes[arg.cls];
    && arg.cls in policy.approved
    && ModelShape(info, arg)
    && (forall f :: f in info.fields && Emitted(arg, f) ==> FieldRestorable(world, arg, f, faithful))
    && (forall k :: 0 <= k < |arg.extras| ==>
          (faithful ==> Faithful(world, arg.extras[k].arg)) && Restorable(world, arg.extras[k].arg, {}, faithful))
  }

  /** What the policy records of an approved model. */
  ghost predicate ModelRow(policy: Policy, cls: Cls, info: ClassInfo)
    requires info.ModelInfo?
  {
    && RowAt(policy.tables.dumpKeys, cls) == KeyTable(info.byAlias, info.fields)
    && NamesAt(policy.tables.neverRestore, cls) == NeverRestored(info.fields)
    && NamesAt(policy.tables.computedKeys, cls) == ItemSet(ComputedKeys(info.byAlias, info.computed))
    && Distinct(FieldKeys(info.byAlias, info.fields) + ComputedKeys(info.byAlias, info.computed))
    && NamesApart(info.fields)
  }

  lemma ApprovedIsSettled(world: World, policy: Policy, cls: Cls)
    requires Backed(world, policy) && cls in policy.approved
    ensures Settled(world, policy.tables, policy.approved, cls)
  {
    assert policy.approved + {} == policy.approved;
  }

  lemma ModelIsRecorded(world: World, policy: Policy, cls: Cls)
    requires Backed(world, policy) && FieldsNamed(world) && cls in policy.approved && IsModel(world, cls)
    ensures ModelRow(policy, cls, world.classes[cls])
  {
    hide KeyTable, ComputedKeys, FieldKeys, NeverRestored, Backed;
    ApprovedIsSettled(world, policy, cls);
    assert FlagsPlain(world.classes[cls]) && RowRecorded(world.classes[cls], policy.tables, cls);
  }

  /** The recorded slot of an approved class allows what its annotation declares, all of it approved. */
  lemma SlotIsRecorded(world: World, policy: Policy, cls: Cls, slot: Slot)
    requires Backed(world, policy) && cls in policy.approved
    requires cls in world.classes && slot in Slots(world.classes[cls])
    ensures SlotAt(policy, cls, slot.name) == SlotClasses(world, slot.annotation, {})
    ensures SlotClasses(world, slot.annotation, {}) <= policy.approved
  {
    hide Sound, SlotClasses;
    ApprovedIsSettled(world, policy, cls);
    assert SlotRecorded(world, policy.tables, cls, slot);
    assert slot.annotation in Descended(world.classes[cls]);
    DescendedIsApproved(world, policy, cls, slot.annotation);
    SlotIsApproved(world, policy, slot.annotation, {});
  }

  lemma NoCollisions(world: World, policy: Policy, cls: Cls, extras: seq<Entry>)
    requires IsModel(world, cls) && ModelRow(policy, cls, world.classes[cls]) && ExtrasApart(world.classes[cls], extras)
    ensures Collisions(world, policy, cls, extras) == {}
  {
    hide KeyTable, ComputedKeys, FieldKeys, NeverRestored;
    var info := world.classes[cls];
    var keys := KeyTable(info.byAlias, info.fields);
    forall name | name in keys && name !in Excluded(world, cls)
      ensures keys[name] !in ExtraKeys(extras)
    {
      var k := KeyTableFrom(info.byAlias, info.fields, name);
      KeyTableIs(info.byAlias, info.fields, k);
      assert info.fields[k] in info.fields;
    }
  }

  /** The walk visits exactly the set fields that are never excluded, under their dump keys. */
  lemma OpenField(world: World, policy: Policy, arg: Arg, k: nat)
    requires arg.ModelArg? && IsModel(world, arg.cls) && ModelRow(policy, arg.cls, world.classes[arg.cls])
    requires ExtrasApart(world.classes[arg.cls], arg.extras) && k < |world.classes[arg.cls].fields|
    ensures var info := world.classes[arg.cls]; var f := info.fields[k];
      && (FieldOpen(world, policy, arg, f.name) <==> !f.exclude && !f.excludeIf)
      && f.name in RowAt(policy.tables.dumpKeys, arg.cls)
      && RowAt(policy.tables.dumpKeys, arg.cls)[f.name] == DumpKey(info.byAlias, f)
  {
    hide KeyTable, ComputedKeys, FieldKeys;
    var info := world.classes[arg.cls];
    NoCollisions(world, policy, arg.cls, arg.extras);
    KeyTableIs(info.byAlias, info.fields, k);
    assert info.fields[k] in info.fields;
  }

  lemma OpenName(world: World, policy: Policy, arg: Arg, name: string) returns (k: nat)
    requires arg.ModelArg? && IsModel(world, arg.cls) && FieldOpen(world, policy, arg, name)
    ensures k < |world.classes[arg.cls].fields| && world.classes[arg.cls].fields[k].name == name
  {
    var f :| f in world.classes[arg.cls].fields && f.name == name;
    k :| 0 <= k < |world.classes[arg.cls].fields| && world.classes[arg.cls].fields[k] == f;
  }

  function FieldPlace(policy: Policy, arg: Arg, name: string): Place
    requires arg.ModelArg? && name in RowAt(policy.tables.dumpKeys, arg.cls)
  {
    Place(RowAt(policy.tables.dumpKeys, arg.cls)[name], AttributeOf(arg.attributes, name),
          SlotAt(policy, arg.cls, name), true, true)
  }

  lemma {:induction false} FieldPlaceFrom(world: World, policy: Policy, arg: Arg, names: seq<string>, place: Place)
    returns (name: string)
    requires arg.ModelArg? && IsModel(world, arg.cls) && place in FieldPlaces(world, policy, arg, names)
    ensures name in names && FieldOpen(world, policy, arg, name) && place == FieldPlace(policy, arg, name)
  {
    hide FieldOpen;
    if place in FieldPlaces(world, policy, arg, names[1..]) {
      name := FieldPlaceFrom(world, policy, arg, names[1..], place);
    } else {
      name := names[0];
      assert FieldOpen(world, policy, arg, name);
    }
  }

  lemma {:induction false} FieldPlaceAt(world: World, policy: Policy, arg: Arg, names: seq<string>, name: string)
    requires arg.ModelArg? && IsModel(world, arg.cls) && name in names && FieldOpen(world, policy, arg, name)
    ensures FieldPlace(policy, arg, name) in FieldPlaces(world, policy, arg, names)
  {
    if names[0] != name {
      FieldPlaceAt(world, policy, arg, names[1..], name);
    }
  }

  /** A visited field is never excluded, and its key is claimed by no extra. */
  lemma OpenIs(world: World, policy: Policy, arg: Arg, name: string) returns (k: nat)
    requires arg.ModelArg? && IsModel(world, arg.cls) && ModelRow(policy, arg.cls, world.classes[arg.cls])
    requires FieldOpen(world, policy, arg, name)
    ensures var info := world.classes[arg.cls]; var key := RowAt(policy.tables.dumpKeys, arg.cls)[name];
      && k < |info.fields| && info.fields[k].name == name && !info.fields[k].exclude
      && key == DumpKey(info.byAlias, info.fields[k])
      && key !in Collisions(world, policy, arg.cls, arg.extras)
  {
    hide KeyTable, ComputedKeys, FieldKeys, Collisions;
    k := OpenName(world, policy, arg, name);
    KeyTableIs(world.classes[arg.cls].byAlias, world.classes[arg.cls].fields, k);
  }

  lemma OpenKeysApart(world: World, policy: Policy, arg: Arg, a: string, b: string)
    requires arg.ModelArg? && IsModel(world, arg.cls) && ModelRow(policy, arg.cls, world.classes[arg.cls])
    requires a != b && FieldOpen(world, policy, arg, a) && FieldOpen(world, policy, arg, b)
    ensures RowAt(policy.tables.dumpKeys, arg.cls)[a] != RowAt(policy.tables.dumpKeys, arg.cls)[b]
  {
    hide FieldKeys, KeyTable, ComputedKeys, NeverRestored, Collisions;
    var info := world.classes[arg.cls];
    var i := OpenIs(world, policy, arg, a);
    var j := OpenIs(world, policy, arg, b);
    var keys := FieldKeys(info.byAlias, info.fields);
    assert keys == (keys + ComputedKeys(info.byAlias, info.computed))[..|keys|];
    if i < j {
      FieldKeysApart(info.byAlias, info.fields, i, j);
    } else {
      FieldKeysApart(info.byAlias, info.fields, j, i);
    }
  }

  lemma {:induction false} FieldPlacesApart(world: World, policy: Policy, arg: Arg, names: seq<string>)
    requires arg.ModelArg? && IsModel(world, arg.cls) && ModelRow(policy, arg.cls, world.classes[arg.cls])
    requires Distinct(names)
    ensures DistinctKeys(FieldPlaces(world, policy, arg, names))
  {
    hide ModelRow, Collisions;
    if names != [] {
      FieldPlacesApart(world, policy, arg, names[1..]);
      var rest := FieldPlaces(world, policy, arg, names[1..]);
      if FieldOpen(world, policy, arg, names[0]) {
        forall p | p in rest
          ensures p.key != FieldPlace(policy, arg, names[0]).key
        {
          var name := FieldPlaceFrom(world, policy, arg, names[1..], p);
          OpenKeysApart(world, policy, arg, names[0], name);
        }
        assert FieldPlaces(world, policy, arg, names) == [FieldPlace(policy, arg, names[0])] + rest;
      }
    }
  }

  lemma {:induction false} EntryPlaceFrom(owner: Arg, entries: seq<Entry>, allowed: set<Cls>, skipped: set<string>,
                                          place: Place)
    requires forall e :: e in entries ==> e.arg < owner
    requires place in EntryPlaces(owner, entries, allowed, skipped)
    ensures place.key !in skipped && Entry(place.key, place.arg) in entries && place.allowed == allowed
  {
    if place in EntryPlaces(owner, entries[1..], allowed, skipped) {
      EntryPlaceFrom(owner, entries[1..], allowed, skipped, place);
    }
  }

  lemma {:induction false} EntryPlacesApart(owner: Arg, entries: seq<Entry>, allowed: set<Cls>, skipped: set<string>)
    requires forall e :: e in entries ==> e.arg < owner
    requires EntriesDistinct(entries)
    ensures DistinctKeys(EntryPlaces(owner, entries, allowed, skipped))
  {
    if entries != [] {
      EntryPlacesApart(owner, entries[1..], allowed, skipped);
      var rest := EntryPlaces(owner, entries[1..], allowed, skipped);
      forall i | 0 <= i < |rest|
        ensures rest[i].key != entries[0].key
      {
        EntryPlaceFrom(owner, entries[1..], allowed, skipped, rest[i]);
      }
    }
  }

  /** Two places of one model value never share a key: colliding extras switch both sides off. */
  lemma ModelPlacesApart(world: World, policy: Policy, arg: Arg)
    requires arg.ModelArg? && IsModel(world, arg.cls) && ModelRow(policy, arg.cls, world.classes[arg.cls])
    requires Distinct(arg.fieldsSet) && EntriesDistinct(arg.extras)
    ensures DistinctKeys(ModelPlaces(world, policy, arg))
  {
    hide ModelRow, FieldOpen, DumpKey, FieldPlaces, EntryPlaces;
    var collisions := Collisions(world, policy, arg.cls, arg.extras);
    FieldPlacesApart(world, policy, arg, arg.fieldsSet);
    EntryPlacesApart(arg, arg.extras, {}, collisions);
    var fields, extras := FieldPlaces(world, policy, arg, arg.fieldsSet), EntryPlaces(arg, arg.extras, {}, collisions);
    forall p, q | p in fields && q in extras
      ensures p.key != q.key
    {
      var name := FieldPlaceFrom(world, policy, arg, arg.fieldsSet, p);
      OpenKeyIsNoExtra(world, policy, arg, name);
      EntryPlaceFrom(arg, arg.extras, {}, collisions, q);
      assert q.key in ExtraKeys(arg.extras);
    }
    assert forall i :: 0 <= i < |fields| ==> fields[i] in fields;
    assert forall i :: 0 <= i < |extras| ==> extras[i] in extras;
  }

  lemma OpenKeyIsNoExtra(world: World, policy: Policy, arg: Arg, name: string)
    requires arg.ModelArg? && IsModel(world, arg.cls) && FieldOpen(world, policy, arg, name)
    requires ModelRow(policy, arg.cls, world.classes[arg.cls])
    ensures RowAt(policy.tables.dumpKeys, arg.cls)[name] !in ExtraKeys(arg.extras)
  {
    var k := OpenIs(world, policy, arg, name);
    OpenNotExcluded(world, arg.cls, k);
  }

  lemma OpenNotExcluded(world: World, cls: Cls, k: nat)
    requires IsModel(world, cls) && NamesApart(world.classes[cls].fields)
    requires k < |world.classes[cls].fields| && !world.classes[cls].fields[k].exclude
    ensures world.classes[cls].fields[k].name !in Excluded(world, cls)
  {
    var fields := world.classes[cls].fields;
    forall f | f in fields && f.exclude
      ensures f.name != fields[k].name
    {
      var j :| 0 <= j < |fields| && fields[j] == f;
    }
  }

  /** What a dump that drops nothing holds of a model. */
  function ModelFull(world: World, arg: Arg): map<string, Dump>
    requires arg.ModelArg? && IsModel(world, arg.cls)
  {
    arg.computed + FullEntries(world, arg, ModelEntries(world, arg))
  }

  lemma ModelEntriesApart(world: World, policy: Policy, arg: Arg)
    requires arg.ModelArg? && IsModel(world, arg.cls) && ModelRow(policy, arg.cls, world.classes[arg.cls])
    requires ExtrasApart(world.classes[arg.cls], arg.extras)
    ensures EntriesDistinct(ModelEntries(world, arg))
  {
    hide FieldKeys, FieldEntries, KeyTable, ComputedKeys, NeverRestored;
    var info := world.classes[arg.cls];
    var keys := FieldKeys(info.byAlias, info.fields);
    assert keys == (keys + ComputedKeys(info.byAlias, info.computed))[..|keys|];
    FieldEntriesApart(arg, info.byAlias, info.fields);
    var entries := FieldEntries(arg, info.byAlias, info.fields);
    forall i, j | 0 <= i < |entries| && 0 <= j < |arg.extras|
      ensures entries[i].key != arg.extras[j].key
    {
      var k := FieldEntryFrom(arg, info.byAlias, info.fields, entries[i]);
      assert info.fields[k] in info.fields;
      assert arg.extras[j].key in ExtraKeys(arg.extras);
    }
  }

  lemma FullHolds(world: World, policy: Policy, arg: Arg, entry: Entry)
    requires arg.ModelArg? && IsModel(world, arg.cls) && ModelRow(policy, arg.cls, world.classes[arg.cls])
    requires ExtrasApart(world.classes[arg.cls], arg.extras) && entry in ModelEntries(world, arg)
    ensures entry.key in ModelFull(world, arg) && ModelFull(world, arg)[entry.key] == FullDump(world, entry.arg)
  {
    hide FullDump, ModelRow, ExtrasApart, ModelEntries;
    ModelEntriesApart(world, policy, arg);
    var entries := ModelEntries(world, arg);
    var k: nat :| k < |entries| && entries[k] == entry;
    FullEntryIs(world, arg, entries, k);
  }

  /** The place of a set field is faithful. */
  lemma FieldPlaceFaithful(world: World, policy: Policy, arg: Arg, name: string, faithful: bool := true)
    requires arg.ModelArg? && Backed(world, policy) && FieldsNamed(world)
    requires IsModel(world, arg.cls) && ModelReady(world, policy, arg, faithful)
    requires name in arg.fieldsSet && FieldOpen(world, policy, arg, name)
    ensures PlaceFaithful(world, policy, FieldPlace(policy, arg, name), ModelFull(world, arg), faithful)
  {
    hide FullDump, Restorable, Backed, FieldsNamed, ModelRow, ModelFull;
    var info := world.classes[arg.cls];
    ModelIsRecorded(world, policy, arg.cls);
    var k := OpenName(world, policy, arg, name);
    var f := info.fields[k];
    OpenField(world, policy, arg, k);
    assert f in info.fields && Emitted(arg, f) && FieldRestorable(world, arg, f, faithful);
    FieldEntryAt(arg, info.byAlias, info.fields, k);
    FullHolds(world, policy, arg, Entry(DumpKey(info.byAlias, f), arg.attributes[name]));
    ModelSlotAt(info.fields, k);
    SlotIsRecorded(world, policy, arg.cls, Slot(name, f.annotation));
  }

  lemma ExtraPlaceFaithful(world: World, policy: Policy, arg: Arg, k: nat, faithful: bool := true)
    requires arg.ModelArg? && Backed(world, policy) && FieldsNamed(world)
    requires IsModel(world, arg.cls) && ModelReady(world, policy, arg, faithful) && k < |arg.extras|
    ensures PlaceFaithful(world, policy, Place(arg.extras[k].key, arg.extras[k].arg, {}, true, true), ModelFull(world, arg),
                          faithful)
  {
    hide FullDump, Restorable, Backed, FieldsNamed, ModelRow, ModelFull;
    ModelIsRecorded(world, policy, arg.cls);
    assert arg.extras[k] in ModelEntries(world, arg);
    FullHolds(world, policy, arg, arg.extras[k]);
  }

  /** A key of the full dump without a place holds no null. */
  lemma UnplacedIsNullFree(world: World, policy: Policy, arg: Arg, key: string, faithful: bool := true)
    requires arg.ModelArg? && Backed(world, policy) && FieldsNamed(world)
    requires IsModel(world, arg.cls) && ModelReady(world, policy, arg, faithful)
    requires key in ModelFull(world, arg) && !HasKey(ModelPlaces(world, policy, arg), key)
    ensures NullFree(ModelFull(world, arg)[key])
  {
    hide FullDump, Restorable, Backed, FieldsNamed, ModelRow, NullFree;
    var info := world.classes[arg.cls];
    ModelIsRecorded(world, policy, arg.cls);
    var entries := ModelEntries(world, arg);
    FullKeys(world, arg, entries);
    if key in ExtraKeys(entries) {
      var e :| e in entries && e.key == key;
      FullHolds(world, policy, arg, e);
      if e in arg.extras {
        var k: nat :| k < |arg.extras| && arg.extras[k] == e;
        ExtraHasPlace(world, policy, arg, k);
        assert false;
      } else {
        var k := FieldEntryFrom(arg, info.byAlias, info.fields, e);
        UnplacedField(world, policy, arg, k, faithful);
      }
    }
  }

  lemma ExtraHasPlace(world: World, policy: Policy, arg: Arg, k: nat)
    requires arg.ModelArg? && IsModel(world, arg.cls) && ModelRow(policy, arg.cls, world.classes[arg.cls])
    requires ExtrasApart(world.classes[arg.cls], arg.extras) && k < |arg.extras|
    ensures HasKey(ModelPlaces(world, policy, arg), arg.extras[k].key)
  {
    NoCollisions(world, policy, arg.cls, arg.extras);
    EntryPlacesAre(arg, arg.extras, {});
    assert EntryPlaces(arg, arg.extras, {}, {})[k] in ModelPlaces(world, policy, arg);
  }

  lemma UnplacedField(world: World, policy: Policy, arg: Arg, k: nat, faithful: bool := true)
    requires arg.ModelArg? && Backed(world, policy) && FieldsNamed(world)
    requires IsModel(world, arg.cls) && ModelReady(world, policy, arg, faithful)
    requires k < |world.classes[arg.cls].fields| && Emitted(arg, world.classes[arg.cls].fields[k])
    requires !HasKey(ModelPlaces(world, policy, arg), DumpKey(world.classes[arg.cls].byAlias, world.classes[arg.cls].fields[k]))
    ensures NullFree(FullDump(world, arg.attributes[world.classes[arg.cls].fields[k].name]))
  {
    hide FullDump, Restorable, Backed, FieldsNamed, ModelRow, NullFree;
    var f := world.classes[arg.cls].fields[k];
    ModelIsRecorded(world, policy, arg.cls);
    OpenField(world, policy, arg, k);
    assert f in world.classes[arg.cls].fields && FieldRestorable(world, arg, f, faithful);
    if f.name in arg.fieldsSet && !f.excludeIf {
      FieldHasPlace(world, policy, arg, f.name);
      assert false;
    }
  }

  lemma FieldHasPlace(world: World, policy: Policy, arg: Arg, name: string)
    requires arg.ModelArg? && IsModel(world, arg.cls)
    requires name in arg.fieldsSet && FieldOpen(world, policy, arg, name)
    ensures HasKey(ModelPlaces(world, policy, arg), RowAt(policy.tables.dumpKeys, arg.cls)[name])
  {
    FieldPlaceAt(world, policy, arg, arg.fieldsSet, name);
    assert FieldPlace(policy, arg, name) in ModelPlaces(world, policy, arg);
  }

  lemma ModelIsFaithful(world: World, policy: Policy, arg: Arg, faithful: bool := true)
    requires arg.ModelArg? && Backed(world, policy) && FieldsNamed(world)
    requires IsModel(world, arg.cls) && ModelReady(world, policy, arg, faithful)
    ensures MappingFaithful(world, policy, ModelPlaces(world, policy, arg), ModelFull(world, arg), faithful)
  {
    hide FullDump, Restorable, Backed, FieldsNamed, ModelRow, NullFree, PlaceFaithful, ModelFull, FieldOpen;
    ModelIsRecorded(world, policy, arg.cls);
    ModelPlacesApart(world, policy, arg);
    var places := ModelPlaces(world, policy, arg);
    forall p | p in places
      ensures PlaceFaithful(world, policy, p, ModelFull(world, arg), faithful)
    {
      ModelPlaceFaithful(world, policy, arg, p, faithful);
    }
    forall key | key in ModelFull(world, arg) && !HasKey(places, key)
      ensures NullFree(ModelFull(world, arg)[key])
    {
      UnplacedIsNullFree(world, policy, arg, key, faithful);
    }
  }

  lemma ModelPlaceFaithful(world: World, policy: Policy, arg: Arg, place: Place, faithful: bool := true)
    requires arg.ModelArg? && Backed(world, policy) && FieldsNamed(world)
    requires IsModel(world, arg.cls) && ModelReady(world, policy, arg, faithful)
    requires place in ModelPlaces(world, policy, arg)
    ensures PlaceFaithful(world, policy, place, ModelFull(world, arg), faithful)
  {
    hide FullDump, Restorable, Backed, FieldsNamed, ModelRow, NullFree, PlaceFaithful, ModelFull, FieldOpen;
    if place in FieldPlaces(world, policy, arg, arg.fieldsSet) {
      var name := FieldPlaceFrom(world, policy, arg, arg.fieldsSet, place);
      FieldPlaceFaithful(world, policy, arg, name, faithful);
    } else {
      ModelIsRecorded(world, policy, arg.cls);
      NoCollisions(world, policy, arg.cls, arg.extras);
      EntryPlacesAre(arg, arg.extras, {});
      var extras := EntryPlaces(arg, arg.extras, {}, {});
      var k: nat :| k < |extras| && extras[k] == place;
      ExtraPlaceFaithful(world, policy, arg, k, faithful);
    }
  }

  // ---------- Dataclasses ----------

  lemma {:induction false} DataSlotAt(fields: seq<DataField>, k: nat)
    requires k < |fields| && Taken(fields[k])
    ensures Slot(fields[k].name, fields[k].annotation) in DataSlots(fields)
  {
    var init := fields[..|fields| - 1];
    if k < |init| {
      DataSlotAt(init, k);
    }
  }

  lemma {:induction false} DataEntriesApart(arg: Arg, fields: seq<DataField>)
    requires arg.DataArg? && DataNamesApart(fields)
    ensures EntriesDistinct(DataEntries(arg, fields))
    ensures forall e :: e in DataEntries(arg, fields) ==> exists k :: 0 <= k < |fields| && fields[k].name == e.key
  {
    if fields != [] {
      var init, last := fields[..|fields| - 1], fields[|fields| - 1];
      var entries := DataEntries(arg, init);
      DataEntriesApart(arg, init);
      forall e | e in entries
        ensures e.key != last.name && exists k :: 0 <= k < |fields| && fields[k].name == e.key
      {
        var k :| 0 <= k < |init| && init[k].name == e.key;
        assert fields[k].name == e.key;
      }
      assert forall i :: 0 <= i < |entries| ==> entries[i] in entries;
      assert fields[|fields| - 1].name == last.name;
    }
  }

  lemma {:induction false} DataEntryAt(arg: Arg, fields: seq<DataField>, k: nat)
    requires arg.DataArg? && k < |fields| && EmittedData(arg, fields[k])
    ensures Entry(fields[k].name, arg.attributes[fields[k].name]) in DataEntries(arg, fields)
  {
    var init := fields[..|fields| - 1];
    if k < |init| {
      DataEntryAt(arg, init, k);
    }
  }

  lemma {:induction false} DataEntryFrom(arg: Arg, fields: seq<DataField>, entry: Entry) returns (k: nat)
    requires arg.DataArg? && entry in DataEntries(arg, fields)
    ensures k < |fields| && EmittedData(arg, fields[k])
    ensures entry == Entry(fields[k].name, arg.attributes[fields[k].name])
  {
    var init := fields[..|fields| - 1];
    if entry in DataEntries(arg, init) {
      k := DataEntryFrom(arg, init, entry);
    } else {
      k := |fields| - 1;
    }
  }

  ghost predicate DataReady(world: World, policy: Policy, arg: Arg, faithful: bool := true)
    requires arg.DataArg? && IsData(world, arg.cls)
  {
    && arg.cls in policy.approved
    && forall f :: f in world.classes[arg.cls].dataFields && f.name in arg.attributes ==> DataRestorable(world, arg, f, faithful)
  }

  /** What the policy records of an approved dataclass. */
  ghost predicate DataRow(policy: Policy, cls: Cls, fields: seq<DataField>) {
    && DataNamesApart(fields)
    && RowAt(policy.tables.dumpKeys, cls) == DataKeys(fields)
    && NamesAt(policy.tables.neverRestore, cls) == DataNever(fields)
    && NamesAt(policy.tables.nullRestorable, cls) == DataNullable(fields)
    && NamesAt(policy.tables.requiredFields, cls) == DataRequired(fields)
  }

  lemma DataIsRecorded(world: World, policy: Policy, cls: Cls)
    requires Backed(world, policy) && FieldsNamed(world) && cls in policy.approved && IsData(world, cls)
    ensures DataRow(policy, cls, world.classes[cls].dataFields)
  {
    hide DataKeys, DataNever, DataNullable, DataRequired, Backed, FlagsPlain;
    ApprovedIsSettled(world, policy, cls);
    assert RowRecorded(world.classes[cls], policy.tables, cls);
  }

  /** What the tables say of one field is what the field says. */
  lemma DataFieldRow(policy: Policy, cls: Cls, fields: seq<DataField>, k: nat)
    requires DataRow(policy, cls, fields) && k < |fields|
    ensures var name := fields[k].name;
      && name in RowAt(policy.tables.dumpKeys, cls) && RowAt(policy.tables.dumpKeys, cls)[name] == name
      && (name in NamesAt(policy.tables.neverRestore, cls) <==> !Taken(fields[k]))
      && (name in NamesAt(policy.tables.nullRestorable, cls)
          <==> Taken(fields[k]) && (fields[k].required || fields[k].nonNullDefault))
      && (name in NamesAt(policy.tables.requiredFields, cls) <==> Taken(fields[k]) && fields[k].required)
  {
    var f := fields[k];
    assert forall g :: g in fields && g.name == f.name ==> g == f by {
      forall g | g in fields && g.name == f.name
        ensures g == f
      {
        var j :| 0 <= j < |fields| && fields[j] == g;
      }
    }
    assert f in fields;
  }

  function DataPlace(policy: Policy, arg: Arg, name: string): Place
    requires arg.DataArg? && name in arg.attributes
  {
    Place(name, arg.attributes[name], SlotAt(policy, arg.cls, name),
          name in NamesAt(policy.tables.nullRestorable, arg.cls), name in NamesAt(policy.tables.requiredFields, arg.cls))
  }

  predicate Placed(arg: Arg, field: DataField)
    requires arg.DataArg?
  {
    Taken(field) && field.name in arg.attributes
  }

  lemma {:induction false} DataPlaceFrom(policy: Policy, arg: Arg, fields: seq<DataField>, k: nat, place: Place)
    returns (j: nat)
    requires arg.DataArg? && DataRow(policy, arg.cls, fields) && k <= |fields|
    requires place in DataPlaces(policy, arg, fields[k..])
    ensures k <= j < |fields| && Placed(arg, fields[j]) && place == DataPlace(policy, arg, fields[j].name)
    decreases |fields| - k
  {
    hide DataRow;
    DataFieldRow(policy, arg.cls, fields, k);
    assert fields[k..][1..] == fields[k + 1..];
    if place in DataPlaces(policy, arg, fields[k + 1..]) {
      j := DataPlaceFrom(policy, arg, fields, k + 1, place);
    } else {
      j := k;
    }
  }

  lemma {:induction false} DataPlaceAt(policy: Policy, arg: Arg, fields: seq<DataField>, k: nat, j: nat)
    requires arg.DataArg? && DataRow(policy, arg.cls, fields) && k <= j < |fields| && Placed(arg, fields[j])
    ensures DataPlace(policy, arg, fields[j].name) in DataPlaces(policy, arg, fields[k..])
    decreases |fields| - k
  {
    hide DataRow;
    DataFieldRow(policy, arg.cls, fields, k);
    assert fields[k..][1..] == fields[k + 1..];
    if k < j {
      DataPlaceAt(policy, arg, fields, k + 1, j);
    }
  }

  lemma {:induction false} DataPlacesApart(policy: Policy, arg: Arg, fields: seq<DataField>, k: nat)
    requires arg.DataArg? && DataRow(policy, arg.cls, fields) && k <= |fields| && DataNamesApart(fields)
    ensures DistinctKeys(DataPlaces(policy, arg, fields[k..]))
    decreases |fields| - k
  {
    hide DataRow;
    if k < |fields| {
      DataPlacesApart(policy, arg, fields, k + 1);
      DataFieldRow(policy, arg.cls, fields, k);
      assert fields[k..][1..] == fields[k + 1..];
      var rest := DataPlaces(policy, arg, fields[k + 1..]);
      if Placed(arg, fields[k]) {
        forall i | 0 <= i < |rest|
          ensures rest[i].key != fields[k].name
        {
          var j := DataPlaceFrom(policy, arg, fields, k + 1, rest[i]);
        }
        assert DataPlaces(policy, arg, fields[k..]) == [DataPlace(policy, arg, fields[k].name)] + rest;
      }
    }
  }

  function DataFull(world: World, arg: Arg): map<string, Dump>
    requires arg.DataArg? && IsData(world, arg.cls)
  {
    FullEntries(world, arg, DataEntries(arg, world.classes[arg.cls].dataFields))
  }

  lemma DataFullHolds(world: World, arg: Arg, entry: Entry)
    requires arg.DataArg? && IsData(world, arg.cls) && DataNamesApart(world.classes[arg.cls].dataFields)
    requires entry in DataEntries(arg, world.classes[arg.cls].dataFields)
    ensures entry.key in DataFull(world, arg) && DataFull(world, arg)[entry.key] == FullDump(world, entry.arg)
  {
    hide FullDump, DataEntries;
    var entries := DataEntries(arg, world.classes[arg.cls].dataFields);
    DataEntriesApart(arg, world.classes[arg.cls].dataFields);
    var k: nat :| k < |entries| && entries[k] == entry;
    FullEntryIs(world, arg, entries, k);
  }

  lemma DataPlaceFaithful(world: World, policy: Policy, arg: Arg, k: nat, faithful: bool := true)
    requires arg.DataArg? && Backed(world, policy) && FieldsNamed(world)
    requires IsData(world, arg.cls) && DataReady(world, policy, arg, faithful)
    requires k < |world.classes[arg.cls].dataFields| && Placed(arg, world.classes[arg.cls].dataFields[k])
    ensures PlaceFaithful(world, policy, DataPlace(policy, arg, world.classes[arg.cls].dataFields[k].name),
                          DataFull(world, arg), faithful)
  {
    hide FullDump, Restorable, Backed, FieldsNamed, NullFree, DataFull;
    var fields := world.classes[arg.cls].dataFields;
    var f := fields[k];
    DataIsRecorded(world, policy, arg.cls);
    DataFieldRow(policy, arg.cls, fields, k);
    assert f in fields && DataRestorable(world, arg, f, faithful);
    DataEntryAt(arg, fields, k);
    DataFullHolds(world, arg, Entry(f.name, arg.attributes[f.name]));
    DataSlotAt(fields, k);
    SlotIsRecorded(world, policy, arg.cls, Slot(f.name, f.annotation));
  }

  lemma DataHasPlace(world: World, policy: Policy, arg: Arg, k: nat)
    requires arg.DataArg? && IsData(world, arg.cls) && DataRow(policy, arg.cls, world.classes[arg.cls].dataFields)
    requires k < |world.classes[arg.cls].dataFields| && Placed(arg, world.classes[arg.cls].dataFields[k])
    ensures HasKey(DataPlaces(policy, arg, world.classes[arg.cls].dataFields), world.classes[arg.cls].dataFields[k].name)
  {
    var fields := world.classes[arg.cls].dataFields;
    DataPlaceAt(policy, arg, fields, 0, k);
    assert fields[0..] == fields;
    assert DataPlace(policy, arg, fields[k].name) in DataPlaces(policy, arg, fields);
  }

  lemma DataIsFaithful(world: World, policy: Policy, arg: Arg, faithful: bool := true)
    requires arg.DataArg? && Backed(world, policy) && FieldsNamed(world)
    requires IsData(world, arg.cls) && DataReady(world, policy, arg, faithful)
    ensures MappingFaithful(world, policy, DataPlaces(policy, arg, world.classes[arg.cls].dataFields), DataFull(world, arg),
                            faithful)
  {
    hide FullDump, Restorable, Backed, FieldsNamed, DataRow, NullFree, PlaceFaithful;
    var fields := world.classes[arg.cls].dataFields;
    DataIsRecorded(world, policy, arg.cls);
    assert DataNamesApart(fields) by { DataNamed(world, arg.cls); }
    var places := DataPlaces(policy, arg, fields);
    assert fields[0..] == fields;
    DataPlacesApart(policy, arg, fields, 0);
    forall p | p in places
      ensures PlaceFaithful(world, policy, p, DataFull(world, arg), faithful)
    {
      var k := DataPlaceFrom(policy, arg, fields, 0, p);
      DataPlaceFaithful(world, policy, arg, k, faithful);
    }
    var entries := DataEntries(arg, fields);
    FullKeys(world, arg, entries);
    forall key | key in DataFull(world, arg) && !HasKey(places, key)
      ensures NullFree(DataFull(world, arg)[key])
    {
      var e :| e in entries && e.key == key;
      DataFullHolds(world, arg, e);
      var k := DataEntryFrom(arg, fields, e);
      assert fields[k] in fields && DataRestorable(world, arg, fields[k], faithful);
      if Taken(fields[k]) {
        DataHasPlace(world, policy, arg, k);
        assert false;
      }
    }
  }

  lemma DataNamed(world: World, cls: Cls)
    requires FieldsNamed(world) && IsData(world, cls)
    ensures DataNamesApart(world.classes[cls].dataFields)
  {
  }

  // ---------- Plain mappings ----------

  lemma DictIsFaithful(world: World, policy: Policy, arg: Arg, allowed: set<Cls>, faithful: bool := true)
    requires arg.DictArg? && allowed <= policy.approved && Restorable(world, arg, allowed, faithful)
    ensures MappingFaithful(world, policy, EntryPlaces(arg, arg.entries, allowed, {}),
                            FullEntries(world, arg, arg.entries), faithful)
  {
    hide FullDump, NullFree, FullEntries, EntryPlaces;
    var places, full := EntryPlaces(arg, arg.entries, allowed, {}), FullEntries(world, arg, arg.entries);
    EntryPlacesAre(arg, arg.entries, allowed);
    FullKeys(world, arg, arg.entries);
    forall k | 0 <= k < |places|
      ensures PlaceFaithful(world, policy, places[k], full, faithful)
    {
      FullEntryIs(world, arg, arg.entries, k);
      hide Restorable;
    }
    hide Restorable, PlaceFaithful;
    forall key | key in full
      ensures HasKey(places, key)
    {
      var k :| 0 <= k < |arg.entries| && arg.entries[k].key == key;
      assert places[k] in places && places[k].key == key;
    }
  }
}
