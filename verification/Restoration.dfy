/** Re-inserting explicit nulls into a lossy dump, along a classified class graph. */
module Restoration {
  import opened Classes
  import opened Policies

  /** A validated runtime value. A model carries its attributes, the iteration order of the set of fields the
      caller set, its extras, the dumps of its computed fields, and the fields a dump leaves out at run time. */
  datatype Arg =
    | NullArg
    | AtomArg(id: string)
    | ModelArg(cls: Cls, attributes: map<string, Arg>, fieldsSet: seq<string>, extras: seq<Entry>,
               computed: map<string, Dump>, omitted: set<string>)
    | DataArg(cls: Cls, attributes: map<string, Arg>, omitted: set<string>)
    | DictArg(entries: seq<Entry>)
    | ListArg(items: seq<Arg>)
    | TupleArg(items: seq<Arg>)
    | SetArg(hasNull: bool, atoms: set<string>)
    | FrozenArg(hasNull: bool, atoms: set<string>)

  datatype Entry = Entry(key: string, arg: Arg)

  /** What a dump produces. */
  datatype Dump =
    | NullDump
    | AtomDump(id: string)
    | DictDump(entries: map<string, Dump>)
    | ListDump(items: seq<Dump>)
    | TupleDump(items: seq<Dump>)
    | SetDump(hasNull: bool, atoms: set<string>)
    | FrozenDump(hasNull: bool, atoms: set<string>)

  // ---------- What the walk may touch ----------

  /** One place of a dumped mapping: its key, the value behind it, the classes allowed there, whether a missing
      null is re-inserted and whether the walk descends. */
  datatype Place = Place(key: string, arg: Arg, allowed: set<Cls>, nulls: bool, nested: bool)

  function RowAt<T>(rows: map<Cls, map<string, T>>, cls: Cls): map<string, T> {
    if cls in rows then rows[cls] else map[]
  }

  function NamesAt(rows: map<Cls, set<string>>, cls: Cls): set<string> {
    if cls in rows then rows[cls] else {}
  }

  function SlotAt(policy: Policy, cls: Cls, name: string): set<Cls> {
    if (cls, name) in policy.tables.slotClasses then policy.tables.slotClasses[(cls, name)] else {}
  }

  function AttributeOf(attributes: map<string, Arg>, name: string): Arg {
    if name in attributes then attributes[name] else NullArg
  }

  predicate IsModel(world: World, cls: Cls) {
    cls in world.classes && world.classes[cls].ModelInfo?
  }

  predicate IsData(world: World, cls: Cls) {
    cls in world.classes && world.classes[cls].DataInfo?
  }

  function Declared(world: World, cls: Cls): set<string>
    requires IsModel(world, cls)
  {
    set f | f in world.classes[cls].fields :: f.name
  }

  function Excluded(world: World, cls: Cls): set<string>
    requires IsModel(world, cls)
  {
    set f | f in world.classes[cls].fields && f.exclude :: f.name
  }

  function ExtraKeys(extras: seq<Entry>): set<string> {
    set e | e in extras :: e.key
  }

  /** The extras whose key a field or computed field also claims. */
  function Collisions(world: World, policy: Policy, cls: Cls, extras: seq<Entry>): set<string>
    requires IsModel(world, cls)
  {
    var keys := RowAt(policy.tables.dumpKeys, cls);
    var claimed := (set name | name in keys && name !in Excluded(world, cls) :: keys[name])
                   + NamesAt(policy.tables.computedKeys, cls);
    claimed * ExtraKeys(extras)
  }

  predicate FieldOpen(world: World, policy: Policy, arg: Arg, name: string)
    requires arg.ModelArg? && IsModel(world, arg.cls)
  {
    var keys := RowAt(policy.tables.dumpKeys, arg.cls);
    && name in Declared(world, arg.cls)
    && name !in NamesAt(policy.tables.neverRestore, arg.cls)
    && name in keys
    && keys[name] !in Collisions(world, policy, arg.cls, arg.extras)
  }

  function FieldPlaces(world: World, policy: Policy, arg: Arg, names: seq<string>): (places: seq<Place>)
    requires arg.ModelArg? && IsModel(world, arg.cls)
    ensures forall p :: p in places ==> p.arg.NullArg? || p.arg < arg
  {
    if names == [] then []
    else
      (if FieldOpen(world, policy, arg, names[0])
       then [Place(RowAt(policy.tables.dumpKeys, arg.cls)[names[0]], AttributeOf(arg.attributes, names[0]),
                   SlotAt(policy, arg.cls, names[0]), true, true)]
       else [])
      + FieldPlaces(world, policy, arg, names[1..])
  }

  function EntryPlaces(owner: Arg, entries: seq<Entry>, allowed: set<Cls>, skipped: set<string>): (places: seq<Place>)
    requires forall e :: e in entries ==> e.arg < owner
    ensures forall p :: p in places ==> p.arg < owner
  {
    if entries == [] then []
    else
      (if entries[0].key in skipped then [] else [Place(entries[0].key, entries[0].arg, allowed, true, true)])
      + EntryPlaces(owner, entries[1..], allowed, skipped)
  }

  function DataPlaces(policy: Policy, arg: Arg, fields: seq<DataField>): (places: seq<Place>)
    requires arg.DataArg?
    ensures forall p :: p in places ==> p.arg < arg
  {
    if fields == [] then []
    else
      var name := fields[0].name;
      var keys := RowAt(policy.tables.dumpKeys, arg.cls);
      (if name !in NamesAt(policy.tables.neverRestore, arg.cls) && name in keys && name in arg.attributes
       then [Place(keys[name], arg.attributes[name], SlotAt(policy, arg.cls, name),
                   name in NamesAt(policy.tables.nullRestorable, arg.cls),
                   name in NamesAt(policy.tables.requiredFields, arg.cls))]
       else [])
      + DataPlaces(policy, arg, fields[1..])
  }

  function ModelPlaces(world: World, policy: Policy, arg: Arg): (places: seq<Place>)
    requires arg.ModelArg? && IsModel(world, arg.cls)
    ensures forall p :: p in places ==> p.arg.NullArg? || p.arg < arg
  {
    FieldPlaces(world, policy, arg, arg.fieldsSet)
    + EntryPlaces(arg, arg.extras, {}, Collisions(world, policy, arg.cls, arg.extras))
  }

  // ---------- Restoration ----------

  function NonNull(items: seq<Arg>): nat {
    if items == [] then 0
    else NonNull(items[..|items| - 1]) + (if items[|items| - 1].NullArg? then 0 else 1)
  }

  lemma {:induction false} NonNullBelow(items: seq<Arg>, k: nat)
    requires k <= |items|
    ensures NonNull(items[..k]) <= NonNull(items)
    ensures k < |items| && !items[k].NullArg? ==> NonNull(items[..k]) < NonNull(items)
    decreases |items| - k
  {
    if k == |items| {
      assert items[..k] == items;
    } else {
      assert items[..k + 1][..k] == items[..k];
      NonNullBelow(items, k + 1);
    }
  }

  /** `_restore_full`. */
  function Restore(world: World, policy: Policy, arg: Arg, dumped: Dump, allowed: set<Cls>): Dump
    decreases arg
  {
    match arg
    case ModelArg(cls, attributes, _, _, _, _) =>
      if cls !in policy.approved || cls !in allowed || !IsModel(world, cls) then dumped
      else if world.classes[cls].rootModel then
        if "root" in attributes then Restore(world, policy, attributes["root"], dumped, SlotAt(policy, cls, "root"))
        else dumped
      else if !dumped.DictDump? then dumped
      else DictDump(RestorePlaces(world, policy, arg, ModelPlaces(world, policy, arg), dumped.entries))
    case DataArg(cls, _, _) =>
      if cls !in policy.approved || cls !in allowed || !dumped.DictDump? || !IsData(world, cls) then dumped
      else DictDump(RestorePlaces(world, policy, arg, DataPlaces(policy, arg, world.classes[cls].dataFields),
                                  dumped.entries))
    case DictArg(entries) =>
      if !dumped.DictDump? then dumped
      else DictDump(RestorePlaces(world, policy, arg, EntryPlaces(arg, entries, allowed, {}), dumped.entries))
    case ListArg(items) =>
      if !dumped.ListDump? then dumped else ListDump(RestoreItems(world, policy, arg, items, dumped.items, allowed))
    case TupleArg(items) =>
      if !dumped.TupleDump? then dumped else TupleDump(RestoreItems(world, policy, arg, items, dumped.items, allowed))
    case SetArg(hasNull, _) => if dumped.SetDump? && hasNull then SetDump(true, dumped.atoms) else dumped
    case FrozenArg(hasNull, _) => if dumped.FrozenDump? && hasNull then FrozenDump(true, dumped.atoms) else dumped
    case _ => dumped
  }

  /** What one place makes of a dumped mapping. */
  function RestorePlace(world: World, policy: Policy, owner: Arg, place: Place, dumped: map<string, Dump>)
    : map<string, Dump>
    requires place.arg.NullArg? || place.arg < owner
    decreases owner, 0
  {
    if place.arg.NullArg? then
      if place.nulls && place.key !in dumped then dumped[place.key := NullDump] else dumped
    else if place.nested && place.key in dumped then
      dumped[place.key := Restore(world, policy, place.arg, dumped[place.key], place.allowed)]
    else dumped
  }

  function RestorePlaces(world: World, policy: Policy, owner: Arg, places: seq<Place>, dumped: map<string, Dump>)
    : map<string, Dump>
    requires forall p :: p in places ==> p.arg.NullArg? || p.arg < owner
    decreases owner, 1, |places|
  {
    if places == [] then dumped
    else RestorePlaces(world, policy, owner, places[1..], RestorePlace(world, policy, owner, places[0], dumped))
  }

  /** A sequence of the value's length is walked in step; one short by exactly the nulls gets them back. */
  function RestoreItems(world: World, policy: Policy, owner: Arg, items: seq<Arg>, dumped: seq<Dump>, allowed: set<Cls>)
    : seq<Dump>
    requires forall k :: 0 <= k < |items| ==> items[k] < owner
    decreases owner, 1
  {
    if |dumped| == |items| then RestoreAligned(world, policy, owner, items, dumped, allowed)
    else if |dumped| == NonNull(items) then RestoreDropped(world, policy, owner, items, dumped, allowed)
    else dumped
  }

  function RestoreAligned(world: World, policy: Policy, owner: Arg, items: seq<Arg>, dumped: seq<Dump>, allowed: set<Cls>)
    : (restored: seq<Dump>)
    requires forall k :: 0 <= k < |items| ==> items[k] < owner
    requires |dumped| == |items|
    ensures |restored| == |items|
    decreases owner, 0
  {
    seq(|items|, k requires 0 <= k < |items| =>
      if items[k].NullArg? then dumped[k] else Restore(world, policy, items[k], dumped[k], allowed))
  }

  /** The place in the dumped sequence of the non-null item `k`. */
  function DroppedAt(items: seq<Arg>, dumped: seq<Dump>, k: nat): Dump
    requires k < |items| && !items[k].NullArg? && |dumped| == NonNull(items)
  {
    NonNullBelow(items, k);
    dumped[NonNull(items[..k])]
  }

  function RestoreDropped(world: World, policy: Policy, owner: Arg, items: seq<Arg>, dumped: seq<Dump>, allowed: set<Cls>)
    : (restored: seq<Dump>)
    requires forall k :: 0 <= k < |items| ==> items[k] < owner
    requires |dumped| == NonNull(items)
    ensures |restored| == |items|
    decreases owner, 0
  {
    seq(|items|, k requires 0 <= k < |items| =>
      if items[k].NullArg? then NullDump
      else Restore(world, policy, items[k], DroppedAt(items, dumped, k), allowed))
  }

  // ---------- The entry point ----------

  function TopLevelPlaces(policy: Policy, arg: Arg, names: seq<string>): (places: seq<Place>)
    requires arg.ModelArg?
    ensures forall p :: p in places ==> p.arg.NullArg? || p.arg < arg
  {
    if names == [] then []
    else
      var keys := RowAt(policy.tables.dumpKeys, policy.root);
      (if names[0] in policy.topLevel && names[0] in keys
       then [Place(keys[names[0]], AttributeOf(arg.attributes, names[0]), {}, true, false)] else [])
      + TopLevelPlaces(policy, arg, names[1..])
  }

  /** `restore_explicit_nulls` on the dump of a validated model. */
  function RestoreExplicitNulls(world: World, validated: Arg, dumped: map<string, Dump>, policy: Policy)
    : map<string, Dump>
    requires validated.ModelArg?
  {
    if policy.tier.Off? || validated.cls != policy.root then dumped
    else if policy.tier.TopLevel? then
      RestorePlaces(world, policy, validated, TopLevelPlaces(policy, validated, validated.fieldsSet), dumped)
    else
      var restored := Restore(world, policy, validated, DictDump(dumped), {policy.root});
      if restored.DictDump? then restored.entries else dumped
  }

  /** The walk over the places of a mapping, updating the dumped mapping step by step. */
  method RestorePlacesLoop(world: World, policy: Policy, owner: Arg, places: seq<Place>, dumped: map<string, Dump>)
    returns (restored: map<string, Dump>)
    requires forall p :: p in places ==> p.arg.NullArg? || p.arg < owner
    ensures restored == RestorePlaces(world, policy, owner, places, dumped)
    decreases owner, 0
  {
    restored := dumped;
    for i := 0 to |places|
      invariant RestorePlaces(world, policy, owner, places[i..], restored)
             == RestorePlaces(world, policy, owner, places, dumped)
    {
      var place := places[i];
      assert places[i..][0] == place && places[i..][1..] == places[i + 1..];
      if place.arg.NullArg? {
        if place.nulls && place.key !in restored {
          restored := restored[place.key := NullDump];
        }
      } else if place.nested && place.key in restored {
        var inner := RestoreFull(world, policy, place.arg, restored[place.key], place.allowed);
        restored := restored[place.key := inner];
      }
    }
    assert places[|places|..] == [];
  }

  method RestoreAlignedLoop(world: World, policy: Policy, owner: Arg, items: seq<Arg>, dumped: seq<Dump>,
      allowed: set<Cls>)
    returns (restored: seq<Dump>)
    requires forall k :: 0 <= k < |items| ==> items[k] < owner
    requires |dumped| == |items|
    ensures restored == RestoreAligned(world, policy, owner, items, dumped, allowed)
    decreases owner, 0
  {
    ghost var whole := RestoreAligned(world, policy, owner, items, dumped, allowed);
    restored := dumped;
    for i := 0 to |items|
      invariant |restored| == |items|
      invariant forall k :: 0 <= k < i ==> restored[k] == whole[k]
      invariant forall k :: i <= k < |items| ==> restored[k] == dumped[k]
    {
      if !items[i].NullArg? {
        var inner := RestoreFull(world, policy, items[i], restored[i], allowed);
        restored := restored[i := inner];
      }
    }
  }

  method RestoreDroppedLoop(world: World, policy: Policy, owner: Arg, items: seq<Arg>, dumped: seq<Dump>,
      allowed: set<Cls>)
    returns (restored: seq<Dump>)
    requires forall k :: 0 <= k < |items| ==> items[k] < owner
    requires |dumped| == NonNull(items)
    ensures restored == RestoreDropped(world, policy, owner, items, dumped, allowed)
    decreases owner, 0
  {
    ghost var whole := RestoreDropped(world, policy, owner, items, dumped, allowed);
    restored := [];
    var next := 0;
    for i := 0 to |items|
      invariant |restored| == i && next == NonNull(items[..i])
      invariant forall k :: 0 <= k < i ==> restored[k] == whole[k]
    {
      assert items[..i + 1][..i] == items[..i];
      if items[i].NullArg? {
        restored := restored + [NullDump];
      } else {
        NonNullBelow(items, i);
        assert dumped[next] == DroppedAt(items, dumped, i);
        var inner := RestoreFull(world, policy, items[i], dumped[next], allowed);
        restored, next := restored + [inner], next + 1;
      }
    }
  }

  method RestoreItemsLoop(world: World, policy: Policy, owner: Arg, items: seq<Arg>, dumped: seq<Dump>, allowed: set<Cls>)
    returns (restored: seq<Dump>)
    requires forall k :: 0 <= k < |items| ==> items[k] < owner
    ensures restored == RestoreItems(world, policy, owner, items, dumped, allowed)
    decreases owner, 1
  {
    if |dumped| == |items| {
      restored := RestoreAlignedLoop(world, policy, owner, items, dumped, allowed);
    } else if |dumped| == NonNull(items) {
      restored := RestoreDroppedLoop(world, policy, owner, items, dumped, allowed);
    } else {
      restored := dumped;
    }
  }

  /** `_restore_full` as written. */
  method RestoreFull(world: World, policy: Policy, arg: Arg, dumped: Dump, allowed: set<Cls>) returns (restored: Dump)
    ensures restored == Restore(world, policy, arg, dumped, allowed)
    decreases arg
  {
    restored := dumped;
    match arg
    case ModelArg(cls, attributes, _, _, _, _) =>
      if cls !in policy.approved || cls !in allowed || !IsModel(world, cls) {
        return;
      }
      if world.classes[cls].rootModel {
        if "root" in attributes {
          restored := RestoreFull(world, policy, attributes["root"], dumped, SlotAt(policy, cls, "root"));
        }
        return;
      }
      if dumped.DictDump? {
        var entries := RestorePlacesLoop(world, policy, arg, ModelPlaces(world, policy, arg), dumped.entries);
        restored := DictDump(entries);
      }
    case DataArg(cls, _, _) =>
      if cls in policy.approved && cls in allowed && dumped.DictDump? && IsData(world, cls) {
        var places := DataPlaces(policy, arg, world.classes[cls].dataFields);
        var entries := RestorePlacesLoop(world, policy, arg, places, dumped.entries);
        restored := DictDump(entries);
      }
    case DictArg(entries) =>
      if dumped.DictDump? {
        var inner := RestorePlacesLoop(world, policy, arg, EntryPlaces(arg, entries, allowed, {}), dumped.entries);
        restored := DictDump(inner);
      }
    case ListArg(items) =>
      if dumped.ListDump? {
        var inner := RestoreItemsLoop(world, policy, arg, items, dumped.items, allowed);
        restored := ListDump(inner);
      }
    case TupleArg(items) =>
      if dumped.TupleDump? {
        var inner := RestoreItemsLoop(world, policy, arg, items, dumped.items, allowed);
        restored := TupleDump(inner);
      }
    case SetArg(hasNull, _) =>
      if dumped.SetDump? && hasNull {
        restored := SetDump(true, dumped.atoms);
      }
    case FrozenArg(hasNull, _) =>
      if dumped.FrozenDump? && hasNull {
        restored := FrozenDump(true, dumped.atoms);
      }
    case _ =>
  }
}
