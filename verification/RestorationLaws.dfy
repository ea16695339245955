/** Restoration only adds nulls, and adds them once. */
module RestorationLaws {
  import opened Values
  import opened Classes
  import opened Classifier
  import opened Policies
  import opened Restoration

  // ---------- Conservative extension ----------

  /** `restored` is `dumped` with nulls inserted: nothing is removed or overwritten, every new entry is null. */
  ghost predicate Extends(dumped: Dump, restored: Dump)
    decreases restored, 0
  {
    match restored
    case DictDump(after) =>
      && dumped.DictDump?
      && dumped.entries.Keys <= after.Keys
      && forall key :: key in after ==>
           if key in dumped.entries then Extends(dumped.entries[key], after[key]) else after[key].NullDump?
    case ListDump(after) => dumped.ListDump? && ItemsExtend(dumped.items, after)
    case TupleDump(after) => dumped.TupleDump? && ItemsExtend(dumped.items, after)
    case SetDump(hasNull, atoms) => dumped.SetDump? && dumped.atoms == atoms && (dumped.hasNull ==> hasNull)
    case FrozenDump(hasNull, atoms) => dumped.FrozenDump? && dumped.atoms == atoms && (dumped.hasNull ==> hasNull)
    case _ => restored == dumped
  }

  ghost predicate ItemsExtend(dumped: seq<Dump>, restored: seq<Dump>)
    decreases restored, 1
  {
    if restored == [] then dumped == []
    else
      || (dumped != [] && Extends(dumped[0], restored[0]) && ItemsExtend(dumped[1..], restored[1..]))
      || (restored[0].NullDump? && ItemsExtend(dumped, restored[1..]))
  }

  lemma {:induction false} ExtendsItself(dumped: Dump)
    ensures Extends(dumped, dumped)
    decreases dumped, 0
  {
    match dumped
    case DictDump(entries) =>
      forall key | key in entries
        ensures Extends(entries[key], entries[key])
      {
        ExtendsItself(entries[key]);
      }
    case ListDump(items) => ItemsExtendThemselves(items);
    case TupleDump(items) => ItemsExtendThemselves(items);
    case _ =>
  }

  lemma {:induction false} ItemsExtendThemselves(items: seq<Dump>)
    ensures ItemsExtend(items, items)
    decreases items, 1
  {
    if items != [] {
      ExtendsItself(items[0]);
      ItemsExtendThemselves(items[1..]);
    }
  }

  lemma {:induction false} ExtendsTwice(a: Dump, b: Dump, c: Dump)
    requires Extends(a, b) && Extends(b, c)
    ensures Extends(a, c)
    decreases c, 0
  {
    match c
    case DictDump(after) =>
      forall key | key in a.entries
        ensures Extends(a.entries[key], after[key])
      {
        ExtendsTwice(a.entries[key], b.entries[key], after[key]);
      }
    case ListDump(after) => ItemsExtendTwice(a.items, b.items, after);
    case TupleDump(after) => ItemsExtendTwice(a.items, b.items, after);
    case _ =>
  }

  lemma {:induction false} ItemsExtendTwice(a: seq<Dump>, b: seq<Dump>, c: seq<Dump>)
    requires ItemsExtend(a, b) && ItemsExtend(b, c)
    ensures ItemsExtend(a, c)
    decreases c, 1
  {
    if c != [] {
      if c[0].NullDump? && ItemsExtend(b, c[1..]) {
        ItemsExtendTwice(a, b, c[1..]);
      } else if a != [] && Extends(a[0], b[0]) && ItemsExtend(a[1..], b[1..]) {
        ExtendsTwice(a[0], b[0], c[0]);
        ItemsExtendTwice(a[1..], b[1..], c[1..]);
      } else {
        ItemsExtendTwice(a, b[1..], c[1..]);
      }
    }
  }

  lemma {:induction false} AlignedExtend(dumped: seq<Dump>, restored: seq<Dump>)
    requires |dumped| == |restored|
    requires forall k :: 0 <= k < |dumped| ==> Extends(dumped[k], restored[k])
    ensures ItemsExtend(dumped, restored)
  {
    if dumped != [] {
      AlignedExtend(dumped[1..], restored[1..]);
    }
  }

  lemma {:induction false} DroppedExtend(items: seq<Arg>, dumped: seq<Dump>, restored: seq<Dump>, k: nat)
    requires k <= |items| == |restored| && |dumped| == NonNull(items) && NonNull(items[..k]) <= |dumped|
    requires forall j :: 0 <= j < |items| ==>
               if items[j].NullArg? then restored[j].NullDump? else Extends(DroppedAt(items, dumped, j), restored[j])
    ensures ItemsExtend(dumped[NonNull(items[..k])..], restored[k..])
    decreases |items| - k
  {
    if k == |items| {
      assert items[..k] == items;
    } else {
      assert items[..k + 1][..k] == items[..k];
      NonNullBelow(items, k + 1);
      NonNullBelow(items, k);
      DroppedExtend(items, dumped, restored, k + 1);
      assert restored[k..][1..] == restored[k + 1..];
      if !items[k].NullArg? {
        assert dumped[NonNull(items[..k])..][1..] == dumped[NonNull(items[..k + 1])..];
      }
    }
  }

  /** Whatever the value, the policy and the dump, restoration extends the dump. */
  lemma {:induction false} RestoreExtends(world: World, policy: Policy, arg: Arg, dumped: Dump, allowed: set<Cls>)
    ensures Extends(dumped, Restore(world, policy, arg, dumped, allowed))
    decreases arg
  {
    ExtendsItself(dumped);
    match arg
    case ModelArg(cls, attributes, _, _, _, _) =>
      if cls in policy.approved && cls in allowed && IsModel(world, cls) {
        if world.classes[cls].rootModel {
          if "root" in attributes {
            RestoreExtends(world, policy, attributes["root"], dumped, SlotAt(policy, cls, "root"));
          }
        } else if dumped.DictDump? {
          PlacesExtend(world, policy, arg, ModelPlaces(world, policy, arg), dumped.entries);
        }
      }
    case DataArg(cls, _, _) =>
      if cls in policy.approved && cls in allowed && dumped.DictDump? && IsData(world, cls) {
        PlacesExtend(world, policy, arg, DataPlaces(policy, arg, world.classes[cls].dataFields), dumped.entries);
      }
    case DictArg(entries) =>
      if dumped.DictDump? {
        PlacesExtend(world, policy, arg, EntryPlaces(arg, entries, allowed, {}), dumped.entries);
      }
    case ListArg(items) =>
      if dumped.ListDump? {
        ItemsRestoredExtend(world, policy, arg, items, dumped.items, allowed);
      }
    case TupleArg(items) =>
      if dumped.TupleDump? {
        ItemsRestoredExtend(world, policy, arg, items, dumped.items, allowed);
      }
    case _ =>
  }

  lemma {:induction false} PlacesExtend(world: World, policy: Policy, owner: Arg, places: seq<Place>,
                                        dumped: map<string, Dump>)
    requires forall p :: p in places ==> p.arg.NullArg? || p.arg < owner
    ensures Extends(DictDump(dumped), DictDump(RestorePlaces(world, policy, owner, places, dumped)))
    decreases owner, 1, |places|
  {
    if places == [] {
      ExtendsItself(DictDump(dumped));
    } else {
      var next := RestorePlace(world, policy, owner, places[0], dumped);
      PlaceExtends(world, policy, owner, places[0], dumped);
      PlacesExtend(world, policy, owner, places[1..], next);
      ExtendsTwice(DictDump(dumped), DictDump(next), DictDump(RestorePlaces(world, policy, owner, places, dumped)));
    }
  }

  lemma PlaceExtends(world: World, policy: Policy, owner: Arg, place: Place, dumped: map<string, Dump>)
    requires place.arg.NullArg? || place.arg < owner
    ensures Extends(DictDump(dumped), DictDump(RestorePlace(world, policy, owner, place, dumped)))
    decreases owner, 0
  {
    hide Restore;
    forall key | key in dumped
      ensures Extends(dumped[key], dumped[key])
    {
      ExtendsItself(dumped[key]);
    }
    if !place.arg.NullArg? && place.nested && place.key in dumped {
      RestoreExtends(world, policy, place.arg, dumped[place.key], place.allowed);
    }
  }

  lemma ItemsRestoredExtend(world: World, policy: Policy, owner: Arg, items: seq<Arg>, dumped: seq<Dump>, allowed: set<Cls>)
    requires forall k :: 0 <= k < |items| ==> items[k] < owner
    ensures ItemsExtend(dumped, RestoreItems(world, policy, owner, items, dumped, allowed))
    decreases owner, 1
  {
    hide Restore;
    var restored := RestoreItems(world, policy, owner, items, dumped, allowed);
    if |dumped| == |items| {
      assert restored == RestoreAligned(world, policy, owner, items, dumped, allowed);
      forall k | 0 <= k < |items|
        ensures Extends(dumped[k], restored[k])
      {
        if items[k].NullArg? {
          ExtendsItself(dumped[k]);
        } else {
          RestoreExtends(world, policy, items[k], dumped[k], allowed);
        }
      }
      AlignedExtend(dumped, restored);
    } else if |dumped| == NonNull(items) {
      assert restored == RestoreDropped(world, policy, owner, items, dumped, allowed);
      forall k | 0 <= k < |items| && !items[k].NullArg?
        ensures Extends(DroppedAt(items, dumped, k), restored[k])
      {
        RestoreExtends(world, policy, items[k], DroppedAt(items, dumped, k), allowed);
      }
      DroppedExtend(items, dumped, restored, 0);
      assert items[..0] == [] && dumped[0..] == dumped && restored[0..] == restored;
    } else {
      ItemsExtendThemselves(dumped);
    }
  }

  /** The entry point extends its dump under every tier. */
  lemma ExplicitNullsExtend(world: World, validated: Arg, dumped: map<string, Dump>, policy: Policy)
    requires validated.ModelArg?
    ensures Extends(DictDump(dumped), DictDump(RestoreExplicitNulls(world, validated, dumped, policy)))
  {
    ExtendsItself(DictDump(dumped));
    if policy.tier.TopLevel? {
      PlacesExtend(world, policy, validated, TopLevelPlaces(policy, validated, validated.fieldsSet), dumped);
    } else if policy.tier.Full? {
      RestoreExtends(world, policy, validated, DictDump(dumped), {policy.root});
    }
  }

  // ---------- Places with distinct keys ----------

  ghost predicate DistinctKeys(places: seq<Place>) {
    forall i, j :: 0 <= i < j < |places| ==> places[i].key != places[j].key
  }

  ghost predicate HasKey(places: seq<Place>, key: string) {
    exists p :: p in places && p.key == key
  }

  /** What a place makes of the entry under its key. */
  ghost predicate PlaceDone(world: World, policy: Policy, place: Place, before: map<string, Dump>, after: map<string, Dump>) {
    if place.key in before then
      && place.key in after
      && after[place.key] == if !place.arg.NullArg? && place.nested
                             then Restore(world, policy, place.arg, before[place.key], place.allowed)
                             else before[place.key]
    else if place.arg.NullArg? && place.nulls then place.key in after && after[place.key].NullDump?
    else place.key !in after
  }

  ghost predicate SameAt(before: map<string, Dump>, after: map<string, Dump>, key: string) {
    (key in before <==> key in after) && (key in before ==> after[key] == before[key])
  }

  /** With distinct keys every place acts on its own entry only. */
  lemma {:induction false} PlacesActApart(world: World, policy: Policy, owner: Arg, places: seq<Place>,
                                          dumped: map<string, Dump>)
    requires forall p :: p in places ==> p.arg.NullArg? || p.arg < owner
    requires DistinctKeys(places)
    ensures var after := RestorePlaces(world, policy, owner, places, dumped);
      && (forall p :: p in places ==> PlaceDone(world, policy, p, dumped, after))
      && (forall key :: !HasKey(places, key) ==> SameAt(dumped, after, key))
    decreases |places|
  {
    hide Restore;
    if places != [] {
      var next := RestorePlace(world, policy, owner, places[0], dumped);
      var after := RestorePlaces(world, policy, owner, places, dumped);
      PlacesActApart(world, policy, owner, places[1..], next);
      forall key | !HasKey(places, key)
        ensures SameAt(dumped, after, key)
      {
        assert places[0] in places;
        assert !HasKey(places[1..], key);
      }
      forall p | p in places
        ensures PlaceDone(world, policy, p, dumped, after)
      {
        if p == places[0] {
          assert !HasKey(places[1..], p.key);
        } else {
          assert p in places[1..] && p.key != places[0].key;
          assert SameAt(dumped, next, p.key);
        }
      }
    }
  }

  // ---------- Idempotence ----------

  /** No two places of one mapping inside the value share a key. */
  ghost predicate KeysApart(world: World, policy: Policy, arg: Arg, allowed: set<Cls>)
    decreases arg
  {
    match arg
    case ModelArg(cls, attributes, _, _, _, _) =>
      cls in policy.approved && IsModel(world, cls) ==>
        if world.classes[cls].rootModel then
          "root" in attributes ==> KeysApart(world, policy, attributes["root"], SlotAt(policy, cls, "root"))
        else PlacesApart(world, policy, arg, ModelPlaces(world, policy, arg))
    case DataArg(cls, _, _) =>
      cls in policy.approved && IsData(world, cls) ==>
        PlacesApart(world, policy, arg, DataPlaces(policy, arg, world.classes[cls].dataFields))
    case DictArg(entries) => PlacesApart(world, policy, arg, EntryPlaces(arg, entries, allowed, {}))
    case ListArg(items) => forall k :: 0 <= k < |items| ==> KeysApart(world, policy, items[k], allowed)
    case TupleArg(items) => forall k :: 0 <= k < |items| ==> KeysApart(world, policy, items[k], allowed)
    case _ => true
  }

  ghost predicate PlacesApart(world: World, policy: Policy, owner: Arg, places: seq<Place>)
    requires forall p :: p in places ==> p.arg.NullArg? || p.arg < owner
    decreases owner, 0
  {
    && DistinctKeys(places)
    && forall p :: p in places && !p.arg.NullArg? ==> KeysApart(world, policy, p.arg, p.allowed)
  }

  /** Restoring twice is restoring once. */
  lemma {:induction false} RestoreTwice(world: World, policy: Policy, arg: Arg, dumped: Dump, allowed: set<Cls>)
    requires KeysApart(world, policy, arg, allowed)
    ensures var restored := Restore(world, policy, arg, dumped, allowed);
      Restore(world, policy, arg, restored, allowed) == restored
    decreases arg
  {
    match arg
    case ModelArg(cls, attributes, _, _, _, _) =>
      if cls in policy.approved && cls in allowed && IsModel(world, cls) {
        if world.classes[cls].rootModel {
          if "root" in attributes {
            RestoreTwice(world, policy, attributes["root"], dumped, SlotAt(policy, cls, "root"));
          }
        } else if dumped.DictDump? {
          PlacesTwice(world, policy, arg, ModelPlaces(world, policy, arg), dumped.entries);
        }
      }
    case DataArg(cls, _, _) =>
      if cls in policy.approved && cls in allowed && dumped.DictDump? && IsData(world, cls) {
        PlacesTwice(world, policy, arg, DataPlaces(policy, arg, world.classes[cls].dataFields), dumped.entries);
      }
    case DictArg(entries) =>
      if dumped.DictDump? {
        PlacesTwice(world, policy, arg, EntryPlaces(arg, entries, allowed, {}), dumped.entries);
      }
    case ListArg(items) =>
      if dumped.ListDump? {
        ItemsTwice(world, policy, arg, items, dumped.items, allowed);
      }
    case TupleArg(items) =>
      if dumped.TupleDump? {
        ItemsTwice(world, policy, arg, items, dumped.items, allowed);
      }
    case _ =>
  }

  lemma PlacesTwice(world: World, policy: Policy, owner: Arg, places: seq<Place>, dumped: map<string, Dump>)
    requires forall p :: p in places ==> p.arg.NullArg? || p.arg < owner
    requires PlacesApart(world, policy, owner, places)
    ensures var restored := RestorePlaces(world, policy, owner, places, dumped);
      RestorePlaces(world, policy, owner, places, restored) == restored
    decreases owner, 0
  {
    hide Restore, KeysApart, RestorePlaces;
    var once := RestorePlaces(world, policy, owner, places, dumped);
    var twice := RestorePlaces(world, policy, owner, places, once);
    PlacesActApart(world, policy, owner, places, dumped);
    PlacesActApart(world, policy, owner, places, once);
    forall key
      ensures key in once.Keys <==> key in twice.Keys
      ensures key in once ==> twice[key] == once[key]
    {
      assert !HasKey(places, key) ==> SameAt(once, twice, key);
      if HasKey(places, key) {
        var p :| p in places && p.key == key;
        assert PlaceDone(world, policy, p, dumped, once) && PlaceDone(world, policy, p, once, twice);
        if !p.arg.NullArg? && key in dumped {
          RestoreTwice(world, policy, p.arg, dumped[key], p.allowed);
        }
      }
    }
    assert once.Keys == twice.Keys;
  }

  lemma ItemsTwice(world: World, policy: Policy, owner: Arg, items: seq<Arg>, dumped: seq<Dump>, allowed: set<Cls>)
    requires forall k :: 0 <= k < |items| ==> items[k] < owner
    requires forall k :: 0 <= k < |items| ==> KeysApart(world, policy, items[k], allowed)
    ensures var restored := RestoreItems(world, policy, owner, items, dumped, allowed);
      RestoreItems(world, policy, owner, items, restored, allowed) == restored
    decreases owner, 0
  {
    hide Restore, KeysApart;
    if |dumped| == |items| || |dumped| == NonNull(items) {
      var once := RestoreItems(world, policy, owner, items, dumped, allowed);
      var twice := RestoreItems(world, policy, owner, items, once, allowed);
      forall k | 0 <= k < |items|
        ensures twice[k] == once[k]
      {
        if !items[k].NullArg? {
          var from := if |dumped| == |items| then dumped[k] else DroppedAt(items, dumped, k);
          assert once[k] == Restore(world, policy, items[k], from, allowed);
          RestoreTwice(world, policy, items[k], from, allowed);
        }
      }
    }
  }

  /** A model with two fields, and a policy that dumps both under one key, as classification never allows. */
  function SharingWorld(): World {
    var a := Field("a", None, None, [], false, false, AnyType);
    var b := Field("b", None, None, [], false, false, AnyType);
    World(map["M" := ModelInfo(false, false, false, false, false, false, [a, b], [])], {})
  }

  function SharingPolicy(): Policy {
    Policy(Full, "M", {"M"}, NO_TABLES.(dumpKeys := map["M" := map["a" := "k", "b" := "k"]]), {}, None)
  }

  function SharingArg(): Arg {
    var long := ListArg([NullArg, AtomArg("x"), AtomArg("y")]);
    var short := ListArg([NullArg, AtomArg("x")]);
    ModelArg("M", map["a" := long, "b" := short], ["a", "b"], [], map[], {})
  }

  lemma SharingPlaces()
    ensures var arg := SharingArg();
      ModelPlaces(SharingWorld(), SharingPolicy(), arg)
      == [Place("k", arg.attributes["a"], {}, true, true), Place("k", arg.attributes["b"], {}, true, true)]
  {
    var world, policy, arg := SharingWorld(), SharingPolicy(), SharingArg();
    assert arg.fieldsSet[1..] == ["b"] && ["b"][1..] == [];
    var fields := world.classes["M"].fields;
    assert fields[0].name == "a" && fields[1].name == "b" && fields[0] in fields && fields[1] in fields;
    assert "a" in Declared(world, "M") && "b" in Declared(world, "M");
    assert Collisions(world, policy, "M", []) == {};
    assert FieldPlaces(world, policy, arg, ["b"]) == [Place("k", arg.attributes["b"], {}, true, true)];
  }

  const ONE_ITEM := map["k" := ListDump([AtomDump("x")])]
  const TWO_ITEMS := map["k" := ListDump([NullDump, AtomDump("x")])]
  const THREE_ITEMS := map["k" := ListDump([NullDump, NullDump, AtomDump("x")])]

  lemma SharedPlacesRestore(world: World, policy: Policy, owner: Arg, long: Arg, short: Arg)
    requires long < owner && short < owner
    requires long == ListArg([NullArg, AtomArg("x"), AtomArg("y")]) && short == ListArg([NullArg, AtomArg("x")])
    ensures var places := [Place("k", long, {}, true, true), Place("k", short, {}, true, true)];
      && RestorePlaces(world, policy, owner, places, ONE_ITEM) == TWO_ITEMS
      && RestorePlaces(world, policy, owner, places, TWO_ITEMS) == THREE_ITEMS
  {
    var a, b := Place("k", long, {}, true, true), Place("k", short, {}, true, true);
    LongRestores(world, policy, long, short);
    TwoPlaces(world, policy, owner, a, b, ONE_ITEM);
    TwoPlaces(world, policy, owner, a, b, TWO_ITEMS);
    assert RestorePlace(world, policy, owner, a, ONE_ITEM) == ONE_ITEM;
    assert RestorePlace(world, policy, owner, b, ONE_ITEM) == TWO_ITEMS;
    assert RestorePlace(world, policy, owner, a, TWO_ITEMS) == THREE_ITEMS;
    assert RestorePlace(world, policy, owner, b, THREE_ITEMS) == THREE_ITEMS;
  }

  /** Under such a policy a second restoration may change the result of the first. */
  lemma SharedKeysRestoreTwice()
    ensures var once := RestoreExplicitNulls(SharingWorld(), SharingArg(), ONE_ITEM, SharingPolicy());
      RestoreExplicitNulls(SharingWorld(), SharingArg(), once, SharingPolicy()) != once
  {
    hide RestorePlaces, ModelPlaces;
    var arg := SharingArg();
    SharingPlaces();
    SharedPlacesRestore(SharingWorld(), SharingPolicy(), arg, arg.attributes["a"], arg.attributes["b"]);
    assert |TWO_ITEMS["k"].items| != |THREE_ITEMS["k"].items|;
  }

  lemma TwoPlaces(world: World, policy: Policy, owner: Arg, a: Place, b: Place, dumped: map<string, Dump>)
    requires a.arg < owner && b.arg < owner
    ensures RestorePlaces(world, policy, owner, [a, b], dumped)
         == RestorePlace(world, policy, owner, b, RestorePlace(world, policy, owner, a, dumped))
  {
    assert [a, b][1..] == [b] && [b][1..] == [];
    var next := RestorePlace(world, policy, owner, a, dumped);
    assert RestorePlaces(world, policy, owner, [b], next) == RestorePlace(world, policy, owner, b, next);
  }

  lemma LongRestores(world: World, policy: Policy, long: Arg, short: Arg)
    requires long == ListArg([NullArg, AtomArg("x"), AtomArg("y")]) && short == ListArg([NullArg, AtomArg("x")])
    ensures Restore(world, policy, long, ListDump([AtomDump("x")]), {}) == ListDump([AtomDump("x")])
    ensures Restore(world, policy, short, ListDump([AtomDump("x")]), {}) == ListDump([NullDump, AtomDump("x")])
    ensures Restore(world, policy, long, ListDump([NullDump, AtomDump("x")]), {})
         == ListDump([NullDump, NullDump, AtomDump("x")])
    ensures Restore(world, policy, short, ListDump([NullDump, NullDump, AtomDump("x")]), {})
         == ListDump([NullDump, NullDump, AtomDump("x")])
  {
    var l, s := long.items, short.items;
    assert l[..0] == [] && l[..1] == [NullArg] && l[..2] == [NullArg, AtomArg("x")] && l[..3] == l;
    assert s[..0] == [] && s[..1] == [NullArg] && s[..2] == s;
    assert [NullArg][..0] == [];
    assert NonNull([NullArg]) == 0;
    assert l[..2][..1] == [NullArg];
    assert NonNull(l[..2]) == 1 && NonNull(l) == 2 && NonNull(s) == 1;
  }
}
