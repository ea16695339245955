/** Under a classified policy, restoring twice is restoring once, whatever the value and the dump. */
module Repetition {
  import opened Classes
  import opened Policies
  import opened Restoration
  import opened RestorationLaws
  import opened FullDumps
  import opened ClassPlaces

  /** Sets list their members once and dictionaries their keys, at every depth. */
  ghost predicate WellKeyed(arg: Arg) {
    match arg
    case ModelArg(_, attributes, fieldsSet, extras, _, _) =>
      && Distinct(fieldsSet)
      && EntriesDistinct(extras)
      && (forall name :: name in attributes ==> WellKeyed(attributes[name]))
      && (forall k :: 0 <= k < |extras| ==> WellKeyed(extras[k].arg))
    case DataArg(_, attributes, _) => forall name :: name in attributes ==> WellKeyed(attributes[name])
    case DictArg(entries) => EntriesDistinct(entries) && forall k :: 0 <= k < |entries| ==> WellKeyed(entries[k].arg)
    case ListArg(items) => forall k :: 0 <= k < |items| ==> WellKeyed(items[k])
    case TupleArg(items) => forall k :: 0 <= k < |items| ==> WellKeyed(items[k])
    case _ => true
  }

  lemma ModelPlacesAreKeyed(world: World, policy: Policy, arg: Arg)
    requires arg.ModelArg? && IsModel(world, arg.cls) && WellKeyed(arg)
    ensures forall p :: p in ModelPlaces(world, policy, arg) ==> WellKeyed(p.arg)
  {
    hide FieldOpen, Collisions;
    forall p | p in ModelPlaces(world, policy, arg)
      ensures WellKeyed(p.arg)
    {
      if p in FieldPlaces(world, policy, arg, arg.fieldsSet) {
        var name := FieldPlaceFrom(world, policy, arg, arg.fieldsSet, p);
      } else {
        EntryPlaceFrom(arg, arg.extras, {}, Collisions(world, policy, arg.cls, arg.extras), p);
      }
    }
  }

  lemma DataPlacesAreKeyed(policy: Policy, arg: Arg, fields: seq<DataField>)
    requires arg.DataArg? && DataRow(policy, arg.cls, fields) && WellKeyed(arg)
    ensures DistinctKeys(DataPlaces(policy, arg, fields))
    ensures forall p :: p in DataPlaces(policy, arg, fields) ==> WellKeyed(p.arg)
  {
    assert fields[0..] == fields;
    DataPlacesApart(policy, arg, fields, 0);
    forall p | p in DataPlaces(policy, arg, fields)
      ensures WellKeyed(p.arg)
    {
      var j := DataPlaceFrom(policy, arg, fields, 0, p);
    }
  }

  lemma EntryPlacesAreKeyed(arg: Arg, allowed: set<Cls>)
    requires arg.DictArg? && WellKeyed(arg)
    ensures DistinctKeys(EntryPlaces(arg, arg.entries, allowed, {}))
    ensures forall p :: p in EntryPlaces(arg, arg.entries, allowed, {}) ==> WellKeyed(p.arg)
  {
    EntryPlacesApart(arg, arg.entries, allowed, {});
    forall p | p in EntryPlaces(arg, arg.entries, allowed, {})
      ensures WellKeyed(p.arg)
    {
      EntryPlaceFrom(arg, arg.entries, allowed, {}, p);
    }
  }

  /** Classification leaves no two places of any value under one key. */
  lemma {:induction false} ClassifiedKeysApart(world: World, policy: Policy, arg: Arg, allowed: set<Cls>)
    requires Backed(world, policy) && FieldsNamed(world) && WellKeyed(arg)
    ensures KeysApart(world, policy, arg, allowed)
    decreases arg, 1
  {
    hide Backed, FieldsNamed;
    match arg
    case ModelArg(cls, attributes, _, _, _, _) =>
      if cls in policy.approved && IsModel(world, cls) {
        if world.classes[cls].rootModel {
          if "root" in attributes {
            ClassifiedKeysApart(world, policy, attributes["root"], SlotAt(policy, cls, "root"));
          }
        } else {
          ModelIsRecorded(world, policy, cls);
          ModelPlacesApart(world, policy, arg);
          ModelPlacesAreKeyed(world, policy, arg);
          NestedKeysApart(world, policy, arg, ModelPlaces(world, policy, arg));
        }
      }
    case DataArg(cls, _, _) =>
      if cls in policy.approved && IsData(world, cls) {
        DataIsRecorded(world, policy, cls);
        DataPlacesAreKeyed(policy, arg, world.classes[cls].dataFields);
        NestedKeysApart(world, policy, arg, DataPlaces(policy, arg, world.classes[cls].dataFields));
      }
    case DictArg(entries) =>
      EntryPlacesAreKeyed(arg, allowed);
      NestedKeysApart(world, policy, arg, EntryPlaces(arg, entries, allowed, {}));
    case ListArg(items) =>
      forall k | 0 <= k < |items|
        ensures KeysApart(world, policy, items[k], allowed)
      {
        ClassifiedKeysApart(world, policy, items[k], allowed);
      }
    case TupleArg(items) =>
      forall k | 0 <= k < |items|
        ensures KeysApart(world, policy, items[k], allowed)
      {
        ClassifiedKeysApart(world, policy, items[k], allowed);
      }
    case _ =>
  }

  lemma NestedKeysApart(world: World, policy: Policy, owner: Arg, places: seq<Place>)
    requires Backed(world, policy) && FieldsNamed(world)
    requires forall p :: p in places ==> p.arg.NullArg? || p.arg < owner
    requires DistinctKeys(places) && forall p :: p in places ==> WellKeyed(p.arg)
    ensures PlacesApart(world, policy, owner, places)
    decreases owner, 0
  {
    hide KeysApart, WellKeyed, Backed, FieldsNamed;
    forall p | p in places && !p.arg.NullArg?
      ensures KeysApart(world, policy, p.arg, p.allowed)
    {
      ClassifiedKeysApart(world, policy, p.arg, p.allowed);
    }
  }

  /** Without descending, the second walk finds every null in place. */
  lemma {:induction false} FlatPlacesTwice(world: World, policy: Policy, owner: Arg, places: seq<Place>,
                                           dumped: map<string, Dump>)
    requires forall p :: p in places ==> p.arg.NullArg? || p.arg < owner
    requires forall p :: p in places ==> !p.nested
    ensures var once := RestorePlaces(world, policy, owner, places, dumped);
      && dumped.Keys <= once.Keys
      && (forall p :: p in places && p.arg.NullArg? && p.nulls ==> p.key in once)
      && forall more: map<string, Dump> :: once.Keys <= more.Keys ==> RestorePlaces(world, policy, owner, places, more) == more
    decreases |places|
  {
    hide Restore;
    if places != [] {
      var next := RestorePlace(world, policy, owner, places[0], dumped);
      FlatPlacesTwice(world, policy, owner, places[1..], next);
      var once := RestorePlaces(world, policy, owner, places, dumped);
      assert once == RestorePlaces(world, policy, owner, places[1..], next);
      forall more: map<string, Dump> | once.Keys <= more.Keys
        ensures RestorePlaces(world, policy, owner, places, more) == more
      {
        assert RestorePlace(world, policy, owner, places[0], more) == more;
      }
    }
  }

  lemma {:induction false} TopLevelIsFlat(policy: Policy, arg: Arg, names: seq<string>)
    requires arg.ModelArg?
    ensures forall p :: p in TopLevelPlaces(policy, arg, names) ==> !p.nested
  {
    if names != [] {
      TopLevelIsFlat(policy, arg, names[1..]);
    }
  }

  /** The entry point, under any policy classification issues. */
  lemma RestoresOnce(world: World, validated: Arg, dumped: map<string, Dump>, policy: Policy)
    requires validated.ModelArg? && WellKeyed(validated) && FieldsNamed(world)
    requires policy.tier.Full? ==> Backed(world, policy)
    ensures var once := RestoreExplicitNulls(world, validated, dumped, policy);
      RestoreExplicitNulls(world, validated, once, policy) == once
  {
    hide Restore, RestorePlaces, TopLevelPlaces, Backed, FieldsNamed, WellKeyed, KeysApart;
    if policy.tier.TopLevel? {
      TopLevelIsFlat(policy, validated, validated.fieldsSet);
      FlatPlacesTwice(world, policy, validated, TopLevelPlaces(policy, validated, validated.fieldsSet), dumped);
    } else if policy.tier.Full? {
      ClassifiedKeysApart(world, policy, validated, {policy.root});
      RestoreTwice(world, policy, validated, DictDump(dumped), {policy.root});
      RestoreExtends(world, policy, validated, DictDump(dumped), {policy.root});
    }
  }
}
