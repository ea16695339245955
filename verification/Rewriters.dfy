/** What keeps a class graph out of the strongest tier, thing by thing. */
module Rewriters {
  import opened Values
  import opened Classes
  import opened Classifier
  import opened Policies
  import opened MiddleTier

  // ---------- Metadata and annotations ----------

  /** A piece of metadata, or one inside field information among it. */
  ghost predicate Holds(metadata: seq<Meta>, m: Meta) {
    m in metadata || exists outer :: outer in metadata && outer.InfoMeta? && Holds(outer.nested, m)
  }

  /** Metadata that is not known to leave values alone. */
  ghost predicate Meddles(metadata: seq<Meta>) {
    Holds(metadata, SerializerMeta) || Holds(metadata, OtherMeta)
  }

  lemma {:induction false} SerializerHeld(metadata: seq<Meta>)
    ensures HasSerializer(metadata) <==> Holds(metadata, SerializerMeta)
  {
    forall m | m in metadata && m.InfoMeta?
      ensures HasSerializer(m.nested) <==> Holds(m.nested, SerializerMeta)
    {
      SerializerHeld(m.nested);
    }
  }

  lemma {:induction false} PlainIsUnmeddled(metadata: seq<Meta>)
    ensures MetadataPlain(metadata) <==> !Meddles(metadata)
  {
    SerializerHeld(metadata);
    forall m | m in metadata && m.InfoMeta?
      ensures MetadataPlain(m.nested) <==> !Meddles(m.nested)
    {
      PlainIsUnmeddled(m.nested);
    }
  }

  /** A part of an annotation outside the whitelist. */
  ghost predicate Alien(part: Annotation) {
    part.Unsupported? || part == EnumType(true) || (part.Annotated? && Meddles(part.metadata))
  }

  /** Something in an annotation may dump values in a way of its own. */
  ghost predicate Disguises(annotation: Annotation) {
    exists part :: Within(part, annotation) && Alien(part)
  }

  lemma {:induction false} ShapeIsUndisguised(annotation: Annotation)
    ensures ShapePlain(annotation) <==> !Disguises(annotation)
  {
    hide Meddles, MetadataPlain;
    if !ShapePlain(annotation) {
      AlienFound(annotation);
    }
    if Disguises(annotation) {
      var part :| Within(part, annotation) && Alien(part);
      AlienKept(part, annotation);
    }
  }

  lemma {:induction false} AlienFound(annotation: Annotation)
    requires !ShapePlain(annotation)
    ensures Disguises(annotation)
  {
    hide Meddles, MetadataPlain;
    if annotation.Annotated? {
      PlainIsUnmeddled(annotation.metadata);
    }
    if Alien(annotation) {
      assert Within(annotation, annotation);
    } else {
      var inner := AlienPart(annotation);
      AlienFound(inner);
      var part :| Within(part, inner) && Alien(part);
      assert Within(part, annotation);
    }
  }

  lemma AlienPart(annotation: Annotation) returns (inner: Annotation)
    requires !ShapePlain(annotation) && !Alien(annotation)
    requires annotation.Annotated? ==> MetadataPlain(annotation.metadata)
    ensures inner < annotation && !ShapePlain(inner)
    ensures forall part :: Within(part, inner) ==> Within(part, annotation)
  {
    hide Meddles, MetadataPlain;
    match annotation
    case NewType(supertype) => inner := supertype;
    case Annotated(base, _) => inner := base;
    case Wrapper(wrapped) => inner := wrapped;
    case UnionOf(members) =>
      inner :| inner in members && !ShapePlain(inner);
    case Container(_, arguments) =>
      var a :| a in arguments && a.Some? && !ShapePlain(a.value);
      inner := a.value;
  }

  lemma {:induction false} AlienKept(part: Annotation, annotation: Annotation)
    requires Within(part, annotation) && Alien(part)
    ensures !ShapePlain(annotation)
  {
    hide Meddles, MetadataPlain;
    if part == annotation {
      if annotation.Annotated? {
        PlainIsUnmeddled(annotation.metadata);
      }
    } else {
      match annotation
      case NewType(supertype) => AlienKept(part, supertype);
      case Annotated(base, _) => AlienKept(part, base);
      case Wrapper(inner) => AlienKept(part, inner);
      case UnionOf(members) =>
        var m :| m in members && Within(part, m);
        AlienKept(part, m);
      case Container(_, arguments) =>
        var a :| a in arguments && a.Some? && Within(part, a.value);
        AlienKept(part, a.value);
      case _ =>
    }
  }

  /** The classes an annotation's check runs on are those written anywhere in it. */
  lemma {:induction false} TargetsAreWithin(annotation: Annotation, cls: Cls)
    ensures cls in Targets(annotation) <==> Within(Class(cls), annotation)
  {
    match annotation
    case NewType(supertype) => TargetsAreWithin(supertype, cls);
    case Annotated(base, _) => TargetsAreWithin(base, cls);
    case Wrapper(inner) => TargetsAreWithin(inner, cls);
    case UnionOf(members) =>
      forall m | m in members
        ensures cls in Targets(m) <==> Within(Class(cls), m)
      {
        TargetsAreWithin(m, cls);
      }
    case Container(_, arguments) =>
      forall a | a in arguments && a.Some?
        ensures cls in Targets(a.value) <==> Within(Class(cls), a.value)
      {
        TargetsAreWithin(a.value, cls);
      }
    case _ =>
  }

  // ---------- Keys ----------

  /** Two things of a model are dumped under one key. */
  ghost predicate KeysClash(byAlias: bool, fields: seq<Field>, computed: seq<Computed>) {
    || (exists i, j :: 0 <= i < j < |fields| && !fields[i].exclude && !fields[j].exclude
                       && DumpKey(byAlias, fields[i]) == DumpKey(byAlias, fields[j]))
    || (exists i, j :: 0 <= i < |fields| && 0 <= j < |computed| && !fields[i].exclude
                       && DumpKey(byAlias, fields[i]) == ComputedKey(byAlias, computed[j]))
    || (exists i, j :: 0 <= i < j < |computed| && ComputedKey(byAlias, computed[i]) == ComputedKey(byAlias, computed[j]))
  }

  lemma {:induction false} FieldKeysAre(byAlias: bool, fields: seq<Field>, key: string)
    ensures key in FieldKeys(byAlias, fields) <==>
            exists i :: 0 <= i < |fields| && !fields[i].exclude && DumpKey(byAlias, fields[i]) == key
  {
    if fields != [] {
      var init := fields[..|fields| - 1];
      FieldKeysAre(byAlias, init, key);
      assert forall i :: 0 <= i < |init| ==> init[i] == fields[i];
      if i :| 0 <= i < |fields| && !fields[i].exclude && DumpKey(byAlias, fields[i]) == key {
        assert i < |init| ==> !init[i].exclude && DumpKey(byAlias, init[i]) == key;
      }
      if i :| 0 <= i < |init| && !init[i].exclude && DumpKey(byAlias, init[i]) == key {
        assert !fields[i].exclude && DumpKey(byAlias, fields[i]) == key;
      }
    }
  }

  lemma DistinctAdds(keys: seq<string>, key: string)
    ensures Distinct(keys + [key]) <==> Distinct(keys) && key !in keys
  {
    var more := keys + [key];
    assert more[|keys|] == key;
    if Distinct(more) {
      assert forall i :: 0 <= i < |keys| ==> more[i] == keys[i];
    }
  }

  lemma {:induction false} FieldKeysDistinct(byAlias: bool, fields: seq<Field>)
    ensures Distinct(FieldKeys(byAlias, fields)) <==>
            !exists i, j :: 0 <= i < j < |fields| && !fields[i].exclude && !fields[j].exclude
                            && DumpKey(byAlias, fields[i]) == DumpKey(byAlias, fields[j])
  {
    if fields != [] {
      var init, last := fields[..|fields| - 1], fields[|fields| - 1];
      FieldKeysDistinct(byAlias, init);
      FieldKeysAre(byAlias, init, DumpKey(byAlias, last));
      DistinctAdds(FieldKeys(byAlias, init), DumpKey(byAlias, last));
      assert FieldKeys(byAlias, init) + [] == FieldKeys(byAlias, init);
      assert forall i :: 0 <= i < |init| ==> init[i] == fields[i];
    }
  }

  lemma DistinctJoined(a: seq<string>, b: seq<string>)
    ensures Distinct(a + b) <==> Distinct(a) && Distinct(b) && forall key :: key in a ==> key !in b
  {
    var all := a + b;
    assert forall i :: 0 <= i < |a| ==> all[i] == a[i];
    assert forall j :: 0 <= j < |b| ==> all[|a| + j] == b[j];
    if Distinct(all) {
      forall i, j | 0 <= i < j < |b|
        ensures b[i] != b[j]
      {
        assert all[|a| + i] != all[|a| + j];
      }
      forall i, j | 0 <= i < |a| && 0 <= j < |b|
        ensures a[i] != b[j]
      {
        assert all[i] != all[|a| + j];
      }
    }
    if Distinct(a) && Distinct(b) && forall key :: key in a ==> key !in b {
      forall i, j | 0 <= i < j < |all|
        ensures all[i] != all[j]
      {
        if i < |a| && j >= |a| {
          assert a[i] in a && b[j - |a|] in b;
        }
      }
    }
  }

  lemma KeysApart(byAlias: bool, fields: seq<Field>, computed: seq<Computed>)
    ensures Distinct(FieldKeys(byAlias, fields) + ComputedKeys(byAlias, computed)) <==> !KeysClash(byAlias, fields, computed)
  {
    hide FieldKeys, DumpKey, ComputedKeys, ComputedKey, Distinct;
    var a, b := FieldKeys(byAlias, fields), ComputedKeys(byAlias, computed);
    DistinctJoined(a, b);
    FieldKeysDistinct(byAlias, fields);
    ComputedKeysDistinct(byAlias, computed);
    forall key
      ensures key in a <==> exists i :: 0 <= i < |fields| && !fields[i].exclude && DumpKey(byAlias, fields[i]) == key
      ensures key in b <==> exists j :: 0 <= j < |computed| && ComputedKey(byAlias, computed[j]) == key
    {
      FieldKeysAre(byAlias, fields, key);
      ComputedKeysAre(byAlias, computed, key);
    }
    if i, j :| 0 <= i < |fields| && 0 <= j < |computed| && !fields[i].exclude
               && DumpKey(byAlias, fields[i]) == ComputedKey(byAlias, computed[j]) {
      assert DumpKey(byAlias, fields[i]) in a && ComputedKey(byAlias, computed[j]) in b;
    }
    if key :| key in a && key in b {
      var i :| 0 <= i < |fields| && !fields[i].exclude && DumpKey(byAlias, fields[i]) == key;
      var j :| 0 <= j < |computed| && ComputedKey(byAlias, computed[j]) == key;
      assert DumpKey(byAlias, fields[i]) == ComputedKey(byAlias, computed[j]);
    }
  }

  lemma ComputedKeysAre(byAlias: bool, computed: seq<Computed>, key: string)
    ensures key in ComputedKeys(byAlias, computed) <==>
            exists j :: 0 <= j < |computed| && ComputedKey(byAlias, computed[j]) == key
  {
    var keys := ComputedKeys(byAlias, computed);
    assert forall j :: 0 <= j < |computed| ==> keys[j] == ComputedKey(byAlias, computed[j]);
    if j :| 0 <= j < |computed| && ComputedKey(byAlias, computed[j]) == key {
      assert keys[j] == key;
    }
  }

  lemma ComputedKeysDistinct(byAlias: bool, computed: seq<Computed>)
    ensures Distinct(ComputedKeys(byAlias, computed)) <==>
            !exists i, j :: 0 <= i < j < |computed| && ComputedKey(byAlias, computed[i]) == ComputedKey(byAlias, computed[j])
  {
    var keys := ComputedKeys(byAlias, computed);
    assert forall j :: 0 <= j < |computed| ==> keys[j] == ComputedKey(byAlias, computed[j]);
    if i, j :| 0 <= i < j < |computed| && ComputedKey(byAlias, computed[i]) == ComputedKey(byAlias, computed[j]) {
      assert keys[i] == keys[j];
    }
  }

  // ---------- Classes ----------

  /** A slot that may hold both a class and a subclass of it. */
  ghost predicate Blurs(world: World, annotation: Annotation) {
    exists a, b :: a in SlotClasses(world, annotation, {}) && b in SlotClasses(world, annotation, {}) && a != b && world.Related(a, b)
  }

  /** A slot whose values may be dumped in a way of their own. */
  ghost predicate Strange(world: World, annotation: Annotation) {
    Disguises(annotation) || Blurs(world, annotation)
  }

  /** Something about a class may rewrite, rename or drop what its values hold. */
  ghost predicate Rewrites(world: World, info: ClassInfo) {
    || info.aliasGenerator || info.unresolved
    || match info
       case ModelInfo(customSchema, serializers, _, _, _, byAlias, fields, computed) =>
         || customSchema || serializers || KeysClash(byAlias, fields, computed)
         || exists f :: f in fields && (Meddles(f.metadata) || (!f.exclude && Strange(world, f.annotation)))
       case DictInfo(_, _, members, extraItems) =>
         || (exists m :: m in members
              && (Meddles(m.metadata) || m.aliased || m.excluded || m.defaulted || Strange(world, m.annotation)))
         || (extraItems.Some? && Disguises(extraItems.value))
       case DataInfo(customSchema, serializers, computedAlias, _, _, fields, computedNames) =>
         || customSchema || serializers || computedAlias
         || exists f :: f in fields
              && (Meddles(f.metadata) || f.aliased
                  || (f.init && !f.exclude && !f.excludeIf && (f.name in computedNames || Strange(world, f.annotation))))
  }

  lemma {:induction false} ModelSlotsAre(fields: seq<Field>)
    ensures forall s :: s in ModelSlots(fields) <==> exists f :: f in fields && !f.exclude && s == Slot(f.name, f.annotation)
  {
    if fields != [] {
      var init, last := fields[..|fields| - 1], fields[|fields| - 1];
      ModelSlotsAre(init);
      assert forall f :: f in fields <==> f in init || f == last;
    }
  }

  lemma {:induction false} DictSlotsAre(members: seq<Member>)
    ensures forall s :: s in DictSlots(members) <==> exists m :: m in members && s == Slot(m.name, m.annotation)
  {
    if members != [] {
      var init, last := members[..|members| - 1], members[|members| - 1];
      DictSlotsAre(init);
      assert forall m :: m in members <==> m in init || m == last;
    }
  }

  lemma {:induction false} DataSlotsAre(fields: seq<DataField>)
    ensures forall s :: s in DataSlots(fields) <==> exists f :: f in fields && Taken(f) && s == Slot(f.name, f.annotation)
  {
    if fields != [] {
      var init, last := fields[..|fields| - 1], fields[|fields| - 1];
      DataSlotsAre(init);
      assert forall f :: f in fields <==> f in init || f == last;
    }
  }

  ghost predicate PlainSlot(world: World, annotation: Annotation) {
    ShapePlain(annotation) && SlotUnrelated(world, SlotClasses(world, annotation, {}))
  }

  lemma PlainSlotIs(world: World, annotation: Annotation)
    ensures PlainSlot(world, annotation) <==> !Strange(world, annotation)
  {
    hide ShapePlain, SlotClasses, Disguises;
    ShapeIsUndisguised(annotation);
  }

  /** The checks of a class, slot by slot. */
  lemma LocallyBySlots(world: World, cls: Cls)
    requires cls in world.classes
    ensures var info := world.classes[cls];
      LocallyPlain(world, cls) <==>
        && FlagsPlain(info) && (forall s :: s in Slots(info) ==> PlainSlot(world, s.annotation))
        && (info.DictInfo? && info.extraItems.Some? ==> ShapePlain(info.extraItems.value))
  {
    hide FlagsPlain, ShapePlain, SlotUnrelated, SlotClasses, Slots;
    var info := world.classes[cls];
    assert forall s :: s in Slots(info) ==> s.annotation in Descended(info);
    if info.DictInfo? && info.extraItems.Some? {
      assert info.extraItems.value in Descended(info);
    }
  }

  /** What the parts of a class check amount to. */
  lemma PartsPlain(world: World)
    ensures forall annotation :: PlainSlot(world, annotation) <==> !Strange(world, annotation)
    ensures forall annotation :: ShapePlain(annotation) <==> !Disguises(annotation)
    ensures forall metadata :: MetadataPlain(metadata) <==> !Meddles(metadata)
  {
    hide MetadataPlain, Meddles, ShapePlain, Disguises, Strange, PlainSlot;
    forall annotation
      ensures PlainSlot(world, annotation) <==> !Strange(world, annotation)
      ensures ShapePlain(annotation) <==> !Disguises(annotation)
    {
      PlainSlotIs(world, annotation);
      ShapeIsUndisguised(annotation);
    }
    forall metadata
      ensures MetadataPlain(metadata) <==> !Meddles(metadata)
    {
      PlainIsUnmeddled(metadata);
    }
  }

  lemma ModelUnlessRewritten(world: World, cls: Cls)
    requires cls in world.classes && world.classes[cls].ModelInfo?
    ensures LocallyPlain(world, cls) <==> !Rewrites(world, world.classes[cls])
  {
    hide LocallyPlain, MetadataPlain, Meddles, ShapePlain, Disguises, Strange, PlainSlot, Distinct, KeysClash, ModelSlots;
    var info := world.classes[cls];
    LocallyBySlots(world, cls);
    PartsPlain(world);
    KeysApart(info.byAlias, info.fields, info.computed);
    ModelSlotsAre(info.fields);
    assert forall f :: f in info.fields && !f.exclude ==> Slot(f.name, f.annotation) in Slots(info);
  }

  lemma DictUnlessRewritten(world: World, cls: Cls)
    requires cls in world.classes && world.classes[cls].DictInfo?
    ensures LocallyPlain(world, cls) <==> !Rewrites(world, world.classes[cls])
  {
    hide LocallyPlain, MetadataPlain, Meddles, ShapePlain, Disguises, Strange, PlainSlot, DictSlots;
    var info := world.classes[cls];
    LocallyBySlots(world, cls);
    PartsPlain(world);
    DictSlotsAre(info.members);
    assert forall m :: m in info.members ==> Slot(m.name, m.annotation) in Slots(info);
  }

  lemma DataUnlessRewritten(world: World, cls: Cls)
    requires cls in world.classes && world.classes[cls].DataInfo?
    ensures LocallyPlain(world, cls) <==> !Rewrites(world, world.classes[cls])
  {
    hide LocallyPlain, MetadataPlain, Meddles, ShapePlain, Disguises, Strange, PlainSlot, DataSlots;
    var info := world.classes[cls];
    LocallyBySlots(world, cls);
    PartsPlain(world);
    DataSlotsAre(info.dataFields);
    assert forall f :: f in info.dataFields && Taken(f) ==> Slot(f.name, f.annotation) in Slots(info);
  }

  /** A class is plain exactly if nothing about it rewrites what its values hold. */
  lemma PlainUnlessRewritten(world: World, cls: Cls)
    requires cls in world.classes
    ensures LocallyPlain(world, cls) <==> !Rewrites(world, world.classes[cls])
  {
    hide LocallyPlain, Rewrites;
    match world.classes[cls]
    case ModelInfo(_, _, _, _, _, _, _, _) => ModelUnlessRewritten(world, cls);
    case DictInfo(_, _, _, _) => DictUnlessRewritten(world, cls);
    case DataInfo(_, _, _, _, _, _, _) => DataUnlessRewritten(world, cls);
  }

  /** The strongest tier means that nothing within reach of the root rewrites anything, and that everything is known. */
  lemma PlainGraphIs(world: World, root: Cls)
    ensures PlainGraph(world, root) <==>
            forall cls :: Reaches(world, root, cls) ==> cls in world.classes && !Rewrites(world, world.classes[cls])
  {
    hide LocallyPlain, Rewrites, Reaches;
    forall cls | cls in world.classes
      ensures LocallyPlain(world, cls) <==> !Rewrites(world, world.classes[cls])
    {
      PlainUnlessRewritten(world, cls);
    }
  }
}
