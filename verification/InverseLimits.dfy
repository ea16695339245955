/** Exactly which values restoration gives back: those without a root model over null where the walk looks for nulls. */
module InverseLimits {
  import opened Classes
  import opened Policies
  import opened Restoration
  import opened RestorationLaws
  import opened FullDumps
  import opened ClassPlaces
  import opened RoundTrip

  /** Whatever was dropped from the full dump of the value comes back. */
  ghost predicate Inverts(world: World, policy: Policy, arg: Arg, allowed: set<Cls>) {
    forall lossy :: Dropped(FullDump(world, arg), lossy) ==>
      Restore(world, policy, arg, lossy, allowed) == FullDump(world, arg)
  }

  // ---------- What dumps as null ----------

  /** A root model whose root is null, or missing, or such a model again. */
  predicate OverNull(world: World, arg: Arg) {
    && arg.ModelArg? && IsModel(world, arg.cls) && world.classes[arg.cls].rootModel
    && ("root" in arg.attributes ==> arg.attributes["root"].NullArg? || OverNull(world, arg.attributes["root"]))
  }

  lemma {:induction false} UnfaithfulIsOverNull(world: World, arg: Arg)
    ensures Faithful(world, arg) <==> !OverNull(world, arg)
  {
    if arg.ModelArg? && "root" in arg.attributes {
      UnfaithfulIsOverNull(world, arg.attributes["root"]);
    }
  }

  // ---------- Dropping nothing, and everything ----------

  lemma {:induction false} DroppedItself(full: Dump)
    ensures Dropped(full, full)
    decreases full, 0
  {
    match full
    case DictDump(entries) =>
      forall key | key in entries
        ensures Dropped(entries[key], entries[key])
      {
        DroppedItself(entries[key]);
      }
    case ListDump(items) => DroppedItemsThemselves(items);
    case TupleDump(items) => DroppedItemsThemselves(items);
    case _ =>
  }

  lemma {:induction false} DroppedItemsThemselves(items: seq<Dump>)
    ensures ItemsDropped(items, items, true)
    decreases items, 1
  {
    if items != [] {
      DroppedItself(items[0]);
      DroppedItemsThemselves(items[1..]);
    }
  }

  function WithoutNulls(items: seq<Dump>): seq<Dump> {
    if items == [] then []
    else (if items[0].NullDump? then [] else [items[0]]) + WithoutNulls(items[1..])
  }

  lemma {:induction false} NullsDropped(items: seq<Dump>)
    ensures ItemsDropped(items, WithoutNulls(items), false)
  {
    if items != [] {
      DroppedItself(items[0]);
      NullsDropped(items[1..]);
      var rest := WithoutNulls(items[1..]);
      if items[0].NullDump? {
        assert WithoutNulls(items) == rest;
      } else {
        assert WithoutNulls(items) == [items[0]] + rest && WithoutNulls(items)[1..] == rest;
      }
    }
  }

  // ---------- Sequences ----------

  lemma {:induction false} NonNullFirst(items: seq<Arg>)
    requires items != []
    ensures NonNull(items) == (if items[0].NullArg? then 0 else 1) + NonNull(items[1..])
  {
    if |items| > 1 {
      NonNullFirst(items[..|items| - 1]);
      assert items[1..][..|items[1..]| - 1] == items[..|items| - 1][1..];
    } else {
      assert items[..0] == [] && items[1..] == [];
    }
  }

  /** Nulls are at least as many among the dumps as among the values, and more if a value dumps as null. */
  lemma {:induction false} FewerLeft(items: seq<Arg>, full: seq<Dump>)
    requires |full| == |items| && forall k :: 0 <= k < |items| && items[k].NullArg? ==> full[k].NullDump?
    ensures |WithoutNulls(full)| <= NonNull(items) <= |items|
    ensures (exists k :: 0 <= k < |items| && !items[k].NullArg? && full[k].NullDump?) ==>
              |WithoutNulls(full)| < NonNull(items)
  {
    if items != [] {
      NonNullFirst(items);
      FewerLeft(items[1..], full[1..]);
      if k :| 0 < k < |items| && !items[k].NullArg? && full[k].NullDump? {
        assert !items[1..][k - 1].NullArg? && full[1..][k - 1].NullDump?;
      }
    }
  }

  /** A sequence with a value that dumps as null loses it for good, under every policy: once all nulls are gone, it
      is shorter than restoration looks for. */
  lemma UnfaithfulItemIsLost(world: World, policy: Policy, owner: Arg, items: seq<Arg>, allowed: set<Cls>)
    requires forall k :: 0 <= k < |items| ==> items[k] < owner
    requires exists k :: 0 <= k < |items| && !Faithful(world, items[k])
    ensures var full := FullItems(world, owner, items); var lossy := WithoutNulls(full);
      && ItemsDropped(full, lossy, false)
      && RestoreItems(world, policy, owner, items, lossy, allowed) != full
  {
    var full := FullItems(world, owner, items);
    var k :| 0 <= k < |items| && !Faithful(world, items[k]);
    assert full[k] == FullDump(world, items[k]);
    NullsDropped(full);
    assert forall j :: 0 <= j < |items| ==> full[j] == FullDump(world, items[j]);
    FewerLeft(items, full);
  }

  /** One item of a sequence after another loss, the others as they were. */
  lemma {:induction false} OneItemDropped(full: seq<Dump>, k: nat, lossy: Dump)
    requires k < |full| && Dropped(full[k], lossy)
    ensures ItemsDropped(full, full[k := lossy], true)
  {
    if k == 0 {
      DroppedItemsThemselves(full[1..]);
      assert full[0 := lossy][1..] == full[1..];
    } else {
      DroppedItself(full[0]);
      OneItemDropped(full[1..], k - 1, lossy);
      assert full[k := lossy][1..] == full[1..][k - 1 := lossy];
    }
  }

  ghost predicate ItemsInverted(world: World, policy: Policy, owner: Arg, items: seq<Arg>, allowed: set<Cls>)
    requires forall k :: 0 <= k < |items| ==> items[k] < owner
  {
    forall lossy, nulls :: ItemsDropped(FullItems(world, owner, items), lossy, nulls) ==>
      RestoreItems(world, policy, owner, items, lossy, allowed) == FullItems(world, owner, items)
  }

  lemma ItemMustInvert(world: World, policy: Policy, owner: Arg, items: seq<Arg>, allowed: set<Cls>, k: nat)
    requires forall k :: 0 <= k < |items| ==> items[k] < owner
    requires ItemsInverted(world, policy, owner, items, allowed) && k < |items|
    ensures Faithful(world, items[k]) && Inverts(world, policy, items[k], allowed)
  {
    hide Restore, FullDump, ItemsDropped, Dropped;
    var full := FullItems(world, owner, items);
    if !Faithful(world, items[k]) {
      UnfaithfulItemIsLost(world, policy, owner, items, allowed);
      assert false;
    }
    forall lossy | Dropped(FullDump(world, items[k]), lossy)
      ensures Restore(world, policy, items[k], lossy, allowed) == FullDump(world, items[k])
    {
      OneItemDropped(full, k, lossy);
      var restored := RestoreItems(world, policy, owner, items, full[k := lossy], allowed);
      assert restored == full && restored == RestoreAligned(world, policy, owner, items, full[k := lossy], allowed);
      if items[k].NullArg? {
        NullInverts(world, policy, lossy, allowed);
      }
    }
  }

  lemma NullInverts(world: World, policy: Policy, lossy: Dump, allowed: set<Cls>)
    requires Dropped(FullDump(world, NullArg), lossy)
    ensures Restore(world, policy, NullArg, lossy, allowed) == FullDump(world, NullArg)
  {
  }

  // ---------- Mappings ----------

  ghost predicate MappingInverted(world: World, policy: Policy, owner: Arg, places: seq<Place>, full: map<string, Dump>)
    requires forall p :: p in places ==> p.arg.NullArg? || p.arg < owner
  {
    forall lossy :: Dropped(DictDump(full), DictDump(lossy)) ==> RestorePlaces(world, policy, owner, places, lossy) == full
  }

  lemma EntryDropped(full: map<string, Dump>, key: string)
    requires key in full && full[key].NullDump?
    ensures Dropped(DictDump(full), DictDump(full - {key}))
  {
    forall other | other in full && other != key
      ensures Dropped(full[other], full[other])
    {
      DroppedItself(full[other]);
    }
  }

  /** So does a mapping, one entry at a time: a missing key whose value is not null stays missing. */
  lemma UnfaithfulEntryIsLost(world: World, policy: Policy, arg: Arg, allowed: set<Cls>, k: nat)
    requires arg.DictArg? && EntriesDistinct(arg.entries)
    requires k < |arg.entries| && !Faithful(world, arg.entries[k].arg)
    ensures var full := FullEntries(world, arg, arg.entries); var lossy := DictDump(full - {arg.entries[k].key});
      && Dropped(FullDump(world, arg), lossy)
      && Restore(world, policy, arg, lossy, allowed) != FullDump(world, arg)
  {
    hide RestorePlaces;
    var full, key := FullEntries(world, arg, arg.entries), arg.entries[k].key;
    FullEntryIs(world, arg, arg.entries, k);
    EntryDropped(full, key);
    EntryPlacesAre(arg, arg.entries, allowed);
    var places := EntryPlaces(arg, arg.entries, allowed, {});
    PlacesActApart(world, policy, arg, places, full - {key});
    assert PlaceDone(world, policy, places[k], full - {key},
                     RestorePlaces(world, policy, arg, places, full - {key}));
  }

  lemma EntryChanged(full: map<string, Dump>, key: string, lossy: Dump)
    requires key in full && Dropped(full[key], lossy)
    ensures Dropped(DictDump(full), DictDump(full[key := lossy]))
  {
    forall other | other in full && other != key
      ensures Dropped(full[other], full[other])
    {
      DroppedItself(full[other]);
    }
  }

  /** A mapping that always comes back has faithful values that always come back in the places the walk descends to. */
  lemma PlaceMustInvert(world: World, policy: Policy, owner: Arg, places: seq<Place>, full: map<string, Dump>, place: Place)
    requires forall p :: p in places ==> p.arg.NullArg? || p.arg < owner
    requires MappingFaithful(world, policy, places, full, false)
    requires MappingInverted(world, policy, owner, places, full) && place in places
    ensures Faithful(world, place.arg)
    ensures place.nested ==> Inverts(world, policy, place.arg, place.allowed)
  {
    hide Restore, FullDump, Restorable, RestorePlaces, NullFree, Dropped;
    var key := place.key;
    assert PlaceFaithful(world, policy, place, full, false);
    if place.arg.NullArg? {
      assert Faithful(world, place.arg) by { NullIsFaithful(world); }
      assert Inverts(world, policy, place.arg, place.allowed) by { NullAlwaysInverts(world, policy, place.allowed); }
    } else {
      if full[key].NullDump? {
        EntryDropped(full, key);
        PlacesActApart(world, policy, owner, places, full - {key});
        assert false;
      }
      forall lossy | place.nested && Dropped(FullDump(world, place.arg), lossy)
        ensures Restore(world, policy, place.arg, lossy, place.allowed) == FullDump(world, place.arg)
      {
        EntryChanged(full, key, lossy);
        PlacesActApart(world, policy, owner, places, full[key := lossy]);
      }
    }
  }

  lemma NullIsFaithful(world: World)
    ensures Faithful(world, NullArg)
  {
  }

  lemma NullAlwaysInverts(world: World, policy: Policy, allowed: set<Cls>)
    ensures Inverts(world, policy, NullArg, allowed)
  {
  }

  // ---------- The exact condition ----------

  /** The parts of a mapping that always comes back are faithful and, by induction, come back exactly if theirs are. */
  lemma PlacesMustBeFaithful(world: World, policy: Policy, owner: Arg, places: seq<Place>, full: map<string, Dump>)
    requires Backed(world, policy) && FieldsNamed(world)
    requires forall p :: p in places ==> p.arg.NullArg? || p.arg < owner
    requires MappingFaithful(world, policy, places, full, false)
    requires MappingInverted(world, policy, owner, places, full)
    ensures forall p :: p in places ==> PlaceFaithful(world, policy, p, full)
    decreases owner, 0
  {
    hide Restore, FullDump, Restorable, RestorePlaces, NullFree, Backed, FieldsNamed, Inverts, MappingInverted, Faithful;
    forall p | p in places
      ensures PlaceFaithful(world, policy, p, full)
    {
      assert PlaceFaithful(world, policy, p, full, false);
      PlaceMustInvert(world, policy, owner, places, full, p);
      if !p.arg.NullArg? && p.nested {
        InvertingIsRestorable(world, policy, p.arg, p.allowed);
      }
    }
  }

  /** A value that always comes back is faithful wherever the walk looks for nulls. */
  lemma {:induction false} InvertingIsRestorable(world: World, policy: Policy, arg: Arg, allowed: set<Cls>)
    requires Backed(world, policy) && FieldsNamed(world) && allowed <= policy.approved
    requires Restorable(world, arg, allowed, false) && Inverts(world, policy, arg, allowed)
    ensures Restorable(world, arg, allowed)
    decreases arg, 2
  {
    hide Backed, FieldsNamed, NullFree, Restore;
    match arg
    case ModelArg(cls, _, _, _, _, _) =>
      if cls in allowed {
        InvertingModel(world, policy, arg, allowed);
      }
    case DataArg(cls, _, _) =>
      if cls in allowed {
        InvertingData(world, policy, arg, allowed);
      }
    case DictArg(entries) => InvertingDict(world, policy, arg, allowed);
    case ListArg(items) =>
      assert ItemsInverted(world, policy, arg, items, allowed) by { ListInverts(world, policy, arg, allowed); }
      InvertingItems(world, policy, arg, items, allowed);
    case TupleArg(items) =>
      assert ItemsInverted(world, policy, arg, items, allowed) by { TupleInverts(world, policy, arg, allowed); }
      InvertingItems(world, policy, arg, items, allowed);
    case _ =>
  }

  lemma ListInverts(world: World, policy: Policy, arg: Arg, allowed: set<Cls>)
    requires arg.ListArg? && Inverts(world, policy, arg, allowed)
    ensures ItemsInverted(world, policy, arg, arg.items, allowed)
  {
    hide RestoreItems, ItemsDropped, FullItems;
    var full := FullItems(world, arg, arg.items);
    forall lossy, nulls | ItemsDropped(full, lossy, nulls)
      ensures RestoreItems(world, policy, arg, arg.items, lossy, allowed) == full
    {
      assert Dropped(FullDump(world, arg), ListDump(lossy));
      assert Restore(world, policy, arg, ListDump(lossy), allowed) == FullDump(world, arg);
    }
  }

  lemma TupleInverts(world: World, policy: Policy, arg: Arg, allowed: set<Cls>)
    requires arg.TupleArg? && Inverts(world, policy, arg, allowed)
    ensures ItemsInverted(world, policy, arg, arg.items, allowed)
  {
    hide RestoreItems, ItemsDropped, FullItems;
    var full := FullItems(world, arg, arg.items);
    forall lossy, nulls | ItemsDropped(full, lossy, nulls)
      ensures RestoreItems(world, policy, arg, arg.items, lossy, allowed) == full
    {
      assert Dropped(FullDump(world, arg), TupleDump(lossy));
      assert Restore(world, policy, arg, TupleDump(lossy), allowed) == FullDump(world, arg);
    }
  }

  lemma InvertingItems(world: World, policy: Policy, owner: Arg, items: seq<Arg>, allowed: set<Cls>)
    requires Backed(world, policy) && FieldsNamed(world) && allowed <= policy.approved
    requires forall k :: 0 <= k < |items| ==> items[k] < owner && Restorable(world, items[k], allowed, false)
    requires ItemsInverted(world, policy, owner, items, allowed)
    ensures ItemsRestorable(world, items, allowed)
    decreases owner, 0
  {
    hide Backed, FieldsNamed, Restorable, Inverts, ItemsInverted, Faithful;
    forall k | 0 <= k < |items|
      ensures Faithful(world, items[k]) && Restorable(world, items[k], allowed)
    {
      ItemMustInvert(world, policy, owner, items, allowed, k);
      InvertingIsRestorable(world, policy, items[k], allowed);
    }
  }

  lemma InvertingDict(world: World, policy: Policy, arg: Arg, allowed: set<Cls>)
    requires Backed(world, policy) && FieldsNamed(world) && allowed <= policy.approved
    requires arg.DictArg? && Restorable(world, arg, allowed, false) && Inverts(world, policy, arg, allowed)
    ensures Restorable(world, arg, allowed)
    decreases arg, 1
  {
    hide Backed, FieldsNamed, NullFree, RestorePlaces, FullEntries, EntryPlaces;
    var places, full := EntryPlaces(arg, arg.entries, allowed, {}), FullEntries(world, arg, arg.entries);
    DictIsFaithful(world, policy, arg, allowed, false);
    EntryPlacesAre(arg, arg.entries, allowed);
    forall lossy | Dropped(DictDump(full), DictDump(lossy))
      ensures RestorePlaces(world, policy, arg, places, lossy) == full
    {
      assert Restore(world, policy, arg, DictDump(lossy), allowed) == FullDump(world, arg);
    }
    PlacesMustBeFaithful(world, policy, arg, places, full);
    forall k | 0 <= k < |arg.entries|
      ensures Faithful(world, arg.entries[k].arg) && Restorable(world, arg.entries[k].arg, allowed)
    {
      assert PlaceFaithful(world, policy, places[k], full);
    }
  }

  lemma InvertingRoot(world: World, policy: Policy, arg: Arg, allowed: set<Cls>)
    requires Backed(world, policy) && FieldsNamed(world) && allowed <= policy.approved
    requires arg.ModelArg? && arg.cls in allowed && IsModel(world, arg.cls) && world.classes[arg.cls].rootModel
    requires Restorable(world, arg, allowed, false) && Inverts(world, policy, arg, allowed)
    ensures Restorable(world, arg, allowed)
    decreases arg, 0
  {
    hide Backed, FieldsNamed, NullFree;
    var root := arg.attributes["root"];
    var s :| s in Slots(world.classes[arg.cls]) && s.name == "root"
             && Restorable(world, root, SlotClasses(world, s.annotation, {}), false);
    SlotIsRecorded(world, policy, arg.cls, s);
    forall lossy | Dropped(FullDump(world, root), lossy)
      ensures Restore(world, policy, root, lossy, SlotClasses(world, s.annotation, {})) == FullDump(world, root)
    {
      assert Restore(world, policy, arg, lossy, allowed) == FullDump(world, arg);
    }
    InvertingIsRestorable(world, policy, root, SlotClasses(world, s.annotation, {}));
  }

  lemma ModelInverted(world: World, policy: Policy, arg: Arg, allowed: set<Cls>)
    requires arg.ModelArg? && arg.cls in allowed && arg.cls in policy.approved
    requires IsModel(world, arg.cls) && !world.classes[arg.cls].rootModel && Inverts(world, policy, arg, allowed)
    ensures MappingInverted(world, policy, arg, ModelPlaces(world, policy, arg), ModelFull(world, arg))
  {
    hide RestorePlaces, ModelPlaces, Dropped;
    var places, full := ModelPlaces(world, policy, arg), ModelFull(world, arg);
    assert FullDump(world, arg) == DictDump(full);
    forall lossy | Dropped(DictDump(full), DictDump(lossy))
      ensures RestorePlaces(world, policy, arg, places, lossy) == full
    {
      assert Restore(world, policy, arg, DictDump(lossy), allowed) == FullDump(world, arg);
    }
  }

  lemma InvertingModel(world: World, policy: Policy, arg: Arg, allowed: set<Cls>)
    requires Backed(world, policy) && FieldsNamed(world) && allowed <= policy.approved
    requires arg.ModelArg? && arg.cls in allowed
    requires Restorable(world, arg, allowed, false) && Inverts(world, policy, arg, allowed)
    ensures Restorable(world, arg, allowed)
    decreases arg, 1
  {
    hide Backed, FieldsNamed, NullFree, RestorePlaces, MappingInverted, Inverts, Restore, FullDump;
    assert IsModel(world, arg.cls);
    if world.classes[arg.cls].rootModel {
      InvertingRoot(world, policy, arg, allowed);
    } else {
      var places, full := ModelPlaces(world, policy, arg), ModelFull(world, arg);
      assert ModelReady(world, policy, arg, false);
      ModelIsFaithful(world, policy, arg, false);
      ModelInverted(world, policy, arg, allowed);
      PlacesMustBeFaithful(world, policy, arg, places, full);
      PlacesMakeReady(world, policy, arg);
      ReadyIsRestorable(world, policy, arg, allowed);
    }
  }

  lemma ReadyIsRestorable(world: World, policy: Policy, arg: Arg, allowed: set<Cls>)
    requires arg.ModelArg? && IsModel(world, arg.cls) && !world.classes[arg.cls].rootModel
    requires arg.cls in allowed && ModelReady(world, policy, arg)
    ensures Restorable(world, arg, allowed)
  {
    hide Faithful, ModelShape, FieldRestorable;
  }

  lemma PlacesMakeReady(world: World, policy: Policy, arg: Arg)
    requires arg.ModelArg? && Backed(world, policy) && FieldsNamed(world)
    requires IsModel(world, arg.cls) && ModelReady(world, policy, arg, false)
    requires forall p :: p in ModelPlaces(world, policy, arg) ==> PlaceFaithful(world, policy, p, ModelFull(world, arg))
    ensures ModelReady(world, policy, arg)
  {
    hide FullDump, Restorable, Backed, FieldsNamed, ModelRow, NullFree, PlaceFaithful, ModelFull, FieldOpen, Faithful;
    var fields := world.classes[arg.cls].fields;
    ModelIsRecorded(world, policy, arg.cls);
    forall f | f in fields && Emitted(arg, f)
      ensures FieldRestorable(world, arg, f)
    {
      assert FieldRestorable(world, arg, f, false);
      var k: nat :| k < |fields| && fields[k] == f;
      FieldMadeReady(world, policy, arg, k);
    }
    NoCollisions(world, policy, arg.cls, arg.extras);
    EntryPlacesAre(arg, arg.extras, {});
    forall k | 0 <= k < |arg.extras|
      ensures Faithful(world, arg.extras[k].arg) && Restorable(world, arg.extras[k].arg, {})
    {
      var place := EntryPlaces(arg, arg.extras, {}, {})[k];
      assert place in ModelPlaces(world, policy, arg);
      PlaceGives(world, policy, place, ModelFull(world, arg));
    }
  }

  lemma PlaceGives(world: World, policy: Policy, place: Place, full: map<string, Dump>)
    requires PlaceFaithful(world, policy, place, full)
    ensures Faithful(world, place.arg)
    ensures place.arg.NullArg? || place.nested ==> Restorable(world, place.arg, place.allowed)
  {
  }

  lemma FieldMadeReady(world: World, policy: Policy, arg: Arg, k: nat)
    requires arg.ModelArg? && Backed(world, policy) && IsModel(world, arg.cls) && arg.cls in policy.approved
    requires ModelRow(policy, arg.cls, world.classes[arg.cls]) && ExtrasApart(world.classes[arg.cls], arg.extras)
    requires k < |world.classes[arg.cls].fields| && Emitted(arg, world.classes[arg.cls].fields[k])
    requires FieldRestorable(world, arg, world.classes[arg.cls].fields[k], false)
    requires forall p :: p in ModelPlaces(world, policy, arg) ==> PlaceFaithful(world, policy, p, ModelFull(world, arg))
    ensures FieldRestorable(world, arg, world.classes[arg.cls].fields[k])
  {
    hide FullDump, Restorable, Backed, ModelRow, NullFree, PlaceFaithful, ModelFull, FieldOpen, Faithful;
    var f := world.classes[arg.cls].fields[k];
    if !f.excludeIf && f.name in arg.fieldsSet {
      OpenField(world, policy, arg, k);
      FieldPlaceAt(world, policy, arg, arg.fieldsSet, f.name);
      var place := FieldPlace(policy, arg, f.name);
      assert place in ModelPlaces(world, policy, arg);
      PlaceGives(world, policy, place, ModelFull(world, arg));
      ModelSlotAt(world.classes[arg.cls].fields, k);
      SlotIsRecorded(world, policy, arg.cls, Slot(f.name, f.annotation));
    }
  }

  lemma InvertingData(world: World, policy: Policy, arg: Arg, allowed: set<Cls>)
    requires Backed(world, policy) && FieldsNamed(world) && allowed <= policy.approved
    requires arg.DataArg? && arg.cls in allowed
    requires Restorable(world, arg, allowed, false) && Inverts(world, policy, arg, allowed)
    ensures Restorable(world, arg, allowed)
    decreases arg, 1
  {
    hide Backed, FieldsNamed, NullFree, RestorePlaces, DataRestorable, Faithful;
    var fields := world.classes[arg.cls].dataFields;
    var places, full := DataPlaces(policy, arg, fields), DataFull(world, arg);
    assert DataReady(world, policy, arg, false);
    DataIsFaithful(world, policy, arg, false);
    forall lossy | Dropped(DictDump(full), DictDump(lossy))
      ensures RestorePlaces(world, policy, arg, places, lossy) == full
    {
      assert Restore(world, policy, arg, DictDump(lossy), allowed) == FullDump(world, arg);
    }
    PlacesMustBeFaithful(world, policy, arg, places, full);
    DataIsRecorded(world, policy, arg.cls);
    forall f | f in fields && f.name in arg.attributes
      ensures DataRestorable(world, arg, f)
    {
      var k: nat :| k < |fields| && fields[k] == f;
      DataFieldMadeReady(world, policy, arg, k);
    }
  }

  lemma DataFieldMadeReady(world: World, policy: Policy, arg: Arg, k: nat)
    requires arg.DataArg? && Backed(world, policy) && IsData(world, arg.cls) && arg.cls in policy.approved
    requires DataRow(policy, arg.cls, world.classes[arg.cls].dataFields)
    requires k < |world.classes[arg.cls].dataFields| && world.classes[arg.cls].dataFields[k].name in arg.attributes
    requires DataRestorable(world, arg, world.classes[arg.cls].dataFields[k], false)
    requires forall p :: p in DataPlaces(policy, arg, world.classes[arg.cls].dataFields) ==>
               PlaceFaithful(world, policy, p, DataFull(world, arg))
    ensures DataRestorable(world, arg, world.classes[arg.cls].dataFields[k])
  {
    hide FullDump, Restorable, Backed, DataRow, NullFree, PlaceFaithful, DataFull, Faithful;
    var fields := world.classes[arg.cls].dataFields;
    var f := fields[k];
    if Taken(f) {
      DataFieldRow(policy, arg.cls, fields, k);
      DataPlaceAt(policy, arg, fields, 0, k);
      assert fields[0..] == fields;
      PlaceGives(world, policy, DataPlace(policy, arg, f.name), DataFull(world, arg));
      DataSlotAt(fields, k);
      SlotIsRecorded(world, policy, arg.cls, Slot(f.name, f.annotation));
    }
  }

  /** Among the values of approved classes whose nulls are explicit, restoration gives back exactly those without a
      root model over null in a place where it looks for nulls. */
  lemma InvertsExactly(world: World, policy: Policy, arg: Arg, allowed: set<Cls>)
    requires Backed(world, policy) && FieldsNamed(world) && allowed <= policy.approved
    requires Restorable(world, arg, allowed, false)
    ensures Inverts(world, policy, arg, allowed) <==> Restorable(world, arg, allowed)
  {
    hide Backed, FieldsNamed, Restorable, Restore, FullDump, Dropped;
    if Restorable(world, arg, allowed) {
      forall lossy | Dropped(FullDump(world, arg), lossy)
        ensures Restore(world, policy, arg, lossy, allowed) == FullDump(world, arg)
      {
        RestoreInverts(world, policy, arg, lossy, allowed);
      }
    } else if Inverts(world, policy, arg, allowed) {
      InvertingIsRestorable(world, policy, arg, allowed);
    }
  }
}
