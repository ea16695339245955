/** Dumps that drop nothing, dumps that drop nulls, and the values whose nulls can be told from the loss. */
module FullDumps {
  import opened Classes
  import opened Classifier
  import opened Restoration

  // ---------- The full dump ----------

  predicate Emitted(arg: Arg, field: Field)
    requires arg.ModelArg?
  {
    !field.exclude && field.name !in arg.omitted && field.name in arg.attributes
  }

  function FieldEntries(arg: Arg, byAlias: bool, fields: seq<Field>): (entries: seq<Entry>)
    requires arg.ModelArg?
    ensures forall e :: e in entries ==> e.arg < arg
  {
    if fields == [] then []
    else
      var f := fields[|fields| - 1];
      FieldEntries(arg, byAlias, fields[..|fields| - 1])
      + (if Emitted(arg, f) then [Entry(DumpKey(byAlias, f), arg.attributes[f.name])] else [])
  }

  predicate EmittedData(arg: Arg, field: DataField)
    requires arg.DataArg?
  {
    !field.exclude && field.name !in arg.omitted && field.name in arg.attributes
  }

  function DataEntries(arg: Arg, fields: seq<DataField>): (entries: seq<Entry>)
    requires arg.DataArg?
    ensures forall e :: e in entries ==> e.arg < arg
  {
    if fields == [] then []
    else
      var f := fields[|fields| - 1];
      DataEntries(arg, fields[..|fields| - 1])
      + (if EmittedData(arg, f) then [Entry(f.name, arg.attributes[f.name])] else [])
  }

  function ModelEntries(world: World, arg: Arg): (entries: seq<Entry>)
    requires arg.ModelArg? && IsModel(world, arg.cls)
    ensures forall e :: e in entries ==> e.arg < arg
  {
    FieldEntries(arg, world.classes[arg.cls].byAlias, world.classes[arg.cls].fields) + arg.extras
  }

  /** The dump that drops nothing. */
  function FullDump(world: World, arg: Arg): Dump
    decreases arg
  {
    match arg
    case NullArg => NullDump
    case AtomArg(id) => AtomDump(id)
    case ModelArg(cls, attributes, _, _, computed, _) =>
      if !IsModel(world, cls) then AtomDump(cls)
      else if world.classes[cls].rootModel then
        if "root" in attributes then FullDump(world, attributes["root"]) else NullDump
      else DictDump(computed + FullEntries(world, arg, ModelEntries(world, arg)))
    case DataArg(cls, _, _) =>
      if !IsData(world, cls) then AtomDump(cls)
      else DictDump(FullEntries(world, arg, DataEntries(arg, world.classes[cls].dataFields)))
    case DictArg(entries) => DictDump(FullEntries(world, arg, entries))
    case ListArg(items) => ListDump(FullItems(world, arg, items))
    case TupleArg(items) => TupleDump(FullItems(world, arg, items))
    case SetArg(hasNull, atoms) => SetDump(hasNull, atoms)
    case FrozenArg(hasNull, atoms) => FrozenDump(hasNull, atoms)
  }

  function FullItems(world: World, owner: Arg, items: seq<Arg>): seq<Dump>
    requires forall k :: 0 <= k < |items| ==> items[k] < owner
    decreases owner, 0
  {
    seq(|items|, k requires 0 <= k < |items| => FullDump(world, items[k]))
  }

  function FullEntries(world: World, owner: Arg, entries: seq<Entry>): map<string, Dump>
    requires forall e :: e in entries ==> e.arg < owner
    decreases owner, 0, |entries|
  {
    if entries == [] then map[]
    else
      var last := |entries| - 1;
      assert entries[last] in entries;
      FullEntries(world, owner, entries[..last])[entries[last].key := FullDump(world, entries[last].arg)]
  }

  ghost predicate EntriesDistinct(entries: seq<Entry>) {
    forall i, j :: 0 <= i < j < |entries| ==> entries[i].key != entries[j].key
  }

  lemma {:induction false} FullKeys(world: World, owner: Arg, entries: seq<Entry>)
    requires forall e :: e in entries ==> e.arg < owner
    ensures FullEntries(world, owner, entries).Keys == ExtraKeys(entries)
  {
    hide FullDump;
    if entries != [] {
      var init, last := entries[..|entries| - 1], entries[|entries| - 1];
      FullKeys(world, owner, init);
      assert entries == init + [last];
      assert ExtraKeys(entries) == ExtraKeys(init) + {last.key};
    }
  }

  lemma {:induction false} FullEntryIs(world: World, owner: Arg, entries: seq<Entry>, k: nat)
    requires forall e :: e in entries ==> e.arg < owner
    requires EntriesDistinct(entries) && k < |entries|
    ensures var full := FullEntries(world, owner, entries);
      entries[k].key in full && full[entries[k].key] == FullDump(world, entries[k].arg)
  {
    hide FullDump;
    var last := |entries| - 1;
    if k < last {
      FullEntryIs(world, owner, entries[..last], k);
    }
  }

  // ---------- Lossy dumps ----------

  ghost predicate NullFree(dump: Dump) {
    match dump
    case NullDump => false
    case AtomDump(_) => true
    case DictDump(entries) => forall key :: key in entries ==> NullFree(entries[key])
    case ListDump(items) => forall k :: 0 <= k < |items| ==> NullFree(items[k])
    case TupleDump(items) => forall k :: 0 <= k < |items| ==> NullFree(items[k])
    case SetDump(hasNull, _) => !hasNull
    case FrozenDump(hasNull, _) => !hasNull
  }

  /** `lossy` is `full` without some of the null entries of its mappings and, sequence by sequence, with all or
      none of its nulls. */
  ghost predicate Dropped(full: Dump, lossy: Dump)
    decreases full, 0
  {
    match full
    case DictDump(entries) =>
      && lossy.DictDump?
      && lossy.entries.Keys <= entries.Keys
      && forall key :: key in entries ==>
           if key in lossy.entries then Dropped(entries[key], lossy.entries[key]) else entries[key].NullDump?
    case ListDump(items) => lossy.ListDump? && exists nulls :: ItemsDropped(items, lossy.items, nulls)
    case TupleDump(items) => lossy.TupleDump? && exists nulls :: ItemsDropped(items, lossy.items, nulls)
    case SetDump(hasNull, atoms) => lossy.SetDump? && lossy.atoms == atoms && (lossy.hasNull ==> hasNull)
    case FrozenDump(hasNull, atoms) => lossy.FrozenDump? && lossy.atoms == atoms && (lossy.hasNull ==> hasNull)
    case _ => lossy == full
  }

  ghost predicate ItemsDropped(full: seq<Dump>, lossy: seq<Dump>, nulls: bool)
    decreases full, 1
  {
    if full == [] then lossy == []
    else if full[0].NullDump? && !nulls then ItemsDropped(full[1..], lossy, nulls)
    else lossy != [] && Dropped(full[0], lossy[0]) && ItemsDropped(full[1..], lossy[1..], nulls)
  }

  /** What holds no null survives as it is. */
  lemma {:induction false} NullFreeSurvives(full: Dump, lossy: Dump)
    requires NullFree(full) && Dropped(full, lossy)
    ensures lossy == full
    decreases full, 0
  {
    match full
    case DictDump(entries) =>
      forall key | key in entries
        ensures key in lossy.entries && lossy.entries[key] == entries[key]
      {
        if key in lossy.entries {
          NullFreeSurvives(entries[key], lossy.entries[key]);
        }
      }
      assert lossy.entries == entries;
    case ListDump(items) =>
      var nulls :| ItemsDropped(items, lossy.items, nulls);
      NullFreeItemsSurvive(items, lossy.items, nulls);
    case TupleDump(items) =>
      var nulls :| ItemsDropped(items, lossy.items, nulls);
      NullFreeItemsSurvive(items, lossy.items, nulls);
    case _ =>
  }

  lemma {:induction false} NullFreeItemsSurvive(full: seq<Dump>, lossy: seq<Dump>, nulls: bool)
    requires forall k :: 0 <= k < |full| ==> NullFree(full[k])
    requires ItemsDropped(full, lossy, nulls)
    ensures lossy == full
    decreases full, 1
  {
    if full != [] {
      assert NullFree(full[0]);
      NullFreeSurvives(full[0], lossy[0]);
      NullFreeItemsSurvive(full[1..], lossy[1..], nulls);
      assert full == [full[0]] + full[1..] && lossy == [lossy[0]] + lossy[1..];
    }
  }

  // ---------- The values the inverse is promised for ----------

  /** Null dumps as null and nothing else does. */
  ghost predicate Faithful(world: World, arg: Arg) {
    arg.NullArg? <==> FullDump(world, arg).NullDump?
  }

  /** Extras that nothing declared also claims. */
  ghost predicate ExtrasApart(info: ClassInfo, extras: seq<Entry>)
    requires info.ModelInfo?
  {
    && EntriesDistinct(extras)
    && (forall f :: f in info.fields && !f.exclude ==> DumpKey(info.byAlias, f) !in ExtraKeys(extras))
    && (forall key :: key in ComputedKeys(info.byAlias, info.computed) ==> key !in ExtraKeys(extras))
  }

  /** What of a model value does not concern single attributes. */
  ghost predicate ModelShape(info: ClassInfo, arg: Arg)
    requires info.ModelInfo? && arg.ModelArg?
  {
    && Distinct(arg.fieldsSet)
    && ExtrasApart(info, arg.extras)
    && arg.computed.Keys == ItemSet(ComputedKeys(info.byAlias, info.computed))
    && (forall key :: key in arg.computed ==> NullFree(arg.computed[key]))
    && (forall f :: f in info.fields && !f.exclude ==> f.name in arg.attributes && (f.name in arg.omitted ==> f.excludeIf))
  }

  /** A value of the classes a slot allows, whose every null is explicit; and, unless `faithful` is false, whose
      every part the walk comes to is faithful. */
  ghost predicate Restorable(world: World, arg: Arg, allowed: set<Cls>, faithful: bool := true)
    decreases arg, 1
  {
    match arg
    case ModelArg(cls, attributes, _, extras, _, _) =>
      && IsModel(world, cls)
      && if cls !in allowed then NullFree(FullDump(world, arg))
         else if world.classes[cls].rootModel then
           "root" in attributes
           && exists s :: s in Slots(world.classes[cls]) && s.name == "root"
                          && Restorable(world, attributes["root"], SlotClasses(world, s.annotation, {}), faithful)
         else
           && ModelShape(world.classes[cls], arg)
           && (forall f :: f in world.classes[cls].fields && Emitted(arg, f) ==> FieldRestorable(world, arg, f, faithful))
           && (forall k :: 0 <= k < |extras| ==>
                 (faithful ==> Faithful(world, extras[k].arg)) && Restorable(world, extras[k].arg, {}, faithful))
    case DataArg(cls, _, _) =>
      && IsData(world, cls)
      && if cls !in allowed then NullFree(FullDump(world, arg))
         else forall f :: f in world.classes[cls].dataFields && f.name in arg.attributes ==> DataRestorable(world, arg, f, faithful)
    case DictArg(entries) =>
      && EntriesDistinct(entries)
      && forall k :: 0 <= k < |entries| ==>
           (faithful ==> Faithful(world, entries[k].arg)) && Restorable(world, entries[k].arg, allowed, faithful)
    case ListArg(items) =>
      forall k :: 0 <= k < |items| ==>
        (faithful ==> Faithful(world, items[k])) && Restorable(world, items[k], allowed, faithful)
    case TupleArg(items) =>
      forall k :: 0 <= k < |items| ==>
        (faithful ==> Faithful(world, items[k])) && Restorable(world, items[k], allowed, faithful)
    case _ => true
  }

  /** A field nobody set, or that may be excluded at run time, may hold no null. */
  ghost predicate FieldRestorable(world: World, arg: Arg, field: Field, faithful: bool := true)
    requires arg.ModelArg? && Emitted(arg, field)
    decreases arg, 0
  {
    var value := arg.attributes[field.name];
    if field.excludeIf || field.name !in arg.fieldsSet then NullFree(FullDump(world, value))
    else
      (faithful ==> Faithful(world, value)) && Restorable(world, value, SlotClasses(world, field.annotation, {}), faithful)
  }

  /** A dataclass does not record what was set: its nulls are explicit where they cannot be a default. */
  ghost predicate DataRestorable(world: World, arg: Arg, field: DataField, faithful: bool := true)
    requires arg.DataArg? && field.name in arg.attributes
    decreases arg, 0
  {
    var value := arg.attributes[field.name];
    if Taken(field) then
      && field.name !in arg.omitted
      && (faithful ==> Faithful(world, value))
      && if value.NullArg? then field.required || field.nonNullDefault
         else if field.required then Restorable(world, value, SlotClasses(world, field.annotation, {}), faithful)
         else NullFree(FullDump(world, value))
    else EmittedData(arg, field) ==> NullFree(FullDump(world, value))
  }

  /** Field names are keys of Python dictionaries. */
  ghost predicate FieldsNamed(world: World) {
    && (forall cls :: cls in world.classes && world.classes[cls].ModelInfo? ==> NamesApart(world.classes[cls].fields))
    && (forall cls :: cls in world.classes && world.classes[cls].DataInfo? ==> DataNamesApart(world.classes[cls].dataFields))
  }

  ghost predicate NamesApart(fields: seq<Field>) {
    forall i, j :: 0 <= i < j < |fields| ==> fields[i].name != fields[j].name
  }

  ghost predicate DataNamesApart(fields: seq<DataField>) {
    forall i, j :: 0 <= i < j < |fields| ==> fields[i].name != fields[j].name
  }
}
