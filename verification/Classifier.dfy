/** Classification of an input class graph: which classes null restoration may descend into. */
module Classifier {
  import opened Values
  import opened Classes

  datatype Reason =
    | SerializerMetadata | UnsupportedMetadata | SubclassPair | CustomSchema | UnsupportedAnnotation
    | SerializerDecorator | AliasGenerator | UnresolvedAnnotations | CollidingKeys | AliasMetadata
    | ExclusionMetadata | DefaultMetadata | ComputedAlias | ComputedCollision
    | ModelSerializer | DumpOverride | RootSerialization | SchemaUnavailable | SchemaSerialization

  /** What the builder records of the classes it approves. */
  datatype Tables = Tables(
    dumpKeys: map<Cls, map<string, string>>,
    neverRestore: map<Cls, set<string>>,
    nullRestorable: map<Cls, set<string>>,
    requiredFields: map<Cls, set<string>>,
    computedKeys: map<Cls, set<string>>,
    slotClasses: map<(Cls, string), set<Cls>>)

  const NO_TABLES := Tables(map[], map[], map[], map[], map[], map[])

  /** Slot names are keys of Python dictionaries, hence distinct. */
  ghost predicate WellFormed(world: World) {
    forall cls :: cls in world.classes ==> NamesDistinct(Slots(world.classes[cls]))
  }

  ghost predicate NamesDistinct(slots: seq<Slot>) {
    forall i, j :: 0 <= i < j < |slots| ==> slots[i].name != slots[j].name
  }

  function DictKeys(members: seq<Member>): map<string, string> {
    map i | 0 <= i < |members| :: members[i].name := members[i].name
  }

  function DataKeys(fields: seq<DataField>): map<string, string> {
    map i | 0 <= i < |fields| :: fields[i].name := fields[i].name
  }

  function DataNever(fields: seq<DataField>): set<string> {
    set f | f in fields && !Taken(f) :: f.name
  }

  function DataNullable(fields: seq<DataField>): set<string> {
    set f | f in fields && Taken(f) && (f.required || f.nonNullDefault) :: f.name
  }

  function DataRequired(fields: seq<DataField>): set<string> {
    set f | f in fields && Taken(f) && f.required :: f.name
  }

  function ItemSet(items: seq<string>): set<string> {
    set s | s in items
  }

  ghost predicate SlotRecorded(world: World, tables: Tables, owner: Cls, slot: Slot) {
    && (owner, slot.name) in tables.slotClasses
    && tables.slotClasses[(owner, slot.name)] == SlotClasses(world, slot.annotation, {})
  }

  ghost predicate RowRecorded(info: ClassInfo, tables: Tables, cls: Cls) {
    && cls in tables.dumpKeys && cls in tables.neverRestore && cls in tables.computedKeys
    && match info
       case ModelInfo(_, _, _, _, _, byAlias, fields, computed) =>
         && tables.dumpKeys[cls] == KeyTable(byAlias, fields)
         && tables.neverRestore[cls] == NeverRestored(fields)
         && tables.computedKeys[cls] == ItemSet(ComputedKeys(byAlias, computed))
       case DictInfo(_, _, members, _) =>
         tables.dumpKeys[cls] == DictKeys(members) && tables.neverRestore[cls] == {}
       case DataInfo(_, _, _, _, _, fields, _) =>
         && cls in tables.nullRestorable && cls in tables.requiredFields
         && tables.dumpKeys[cls] == DataKeys(fields)
         && tables.neverRestore[cls] == DataNever(fields)
         && tables.nullRestorable[cls] == DataNullable(fields)
         && tables.requiredFields[cls] == DataRequired(fields)
  }

  /** An approved class passed its own checks, is recorded, and leads only to approved classes and to classes
      whose check is still running. */
  ghost predicate Settled(world: World, tables: Tables, known: set<Cls>, cls: Cls) {
    && cls in world.classes
    && LocallyPlain(world, cls)
    && RowRecorded(world.classes[cls], tables, cls)
    && (forall s :: s in Slots(world.classes[cls]) ==> SlotRecorded(world, tables, cls, s))
    && Successors(world, cls) <= known
  }

  ghost predicate Sound(world: World, tables: Tables, approved: set<Cls>, visiting: set<Cls>) {
    && visiting <= world.classes.Keys
    && approved !! visiting
    && forall cls :: cls in approved ==> Settled(world, tables, approved + visiting, cls)
  }

  /** A slot of a class under way whose annotation has been checked and recorded. */
  ghost predicate SlotDone(world: World, tables: Tables, known: set<Cls>, owner: Cls, slot: Slot) {
    && ShapePlain(slot.annotation)
    && Targets(slot.annotation) <= known
    && SlotUnrelated(world, SlotClasses(world, slot.annotation, {}))
    && SlotRecorded(world, tables, owner, slot)
  }

  ghost predicate AllDone(world: World, tables: Tables, known: set<Cls>, owner: Cls, slots: seq<Slot>) {
    forall s :: s in slots ==> SlotDone(world, tables, known, owner, s)
  }

  /** What a check may change while classes are under way: it approves more, and leaves their slots alone. */
  ghost predicate Grows(visiting: set<Cls>, approved: set<Cls>, tables: Tables, approved': set<Cls>, tables': Tables) {
    && approved <= approved'
    && forall k :: k in tables.slotClasses && k.0 in visiting ==>
         k in tables'.slotClasses && tables'.slotClasses[k] == tables.slotClasses[k]
  }

  lemma GrowthKeepsDone(world: World, visiting: set<Cls>, approved: set<Cls>, tables: Tables, approved': set<Cls>,
                        tables': Tables, owner: Cls, slots: seq<Slot>)
    requires Grows(visiting, approved, tables, approved', tables') && owner in visiting
    requires AllDone(world, tables, approved + visiting, owner, slots)
    ensures AllDone(world, tables', approved' + visiting, owner, slots)
  {
    forall s | s in slots
      ensures SlotDone(world, tables', approved' + visiting, owner, s)
    {
      assert SlotDone(world, tables, approved + visiting, owner, s);
    }
  }

  lemma RecordKeepsDone(world: World, tables: Tables, known: set<Cls>, owner: Cls, slots: seq<Slot>, name: string,
                        classes: set<Cls>)
    requires AllDone(world, tables, known, owner, slots)
    requires forall s :: s in slots ==> s.name != name
    ensures AllDone(world, tables.(slotClasses := tables.slotClasses[(owner, name) := classes]), known, owner, slots)
  {
    forall s | s in slots
      ensures SlotDone(world, tables.(slotClasses := tables.slotClasses[(owner, name) := classes]), known, owner, s)
    {
      assert SlotDone(world, tables, known, owner, s);
    }
  }

  /** Recording a slot of a class that is not approved yet does not disturb the approved ones. */
  lemma SlotKeepsSound(world: World, tables: Tables, approved: set<Cls>, visiting: set<Cls>, owner: Cls, name: string,
                       classes: set<Cls>)
    requires Sound(world, tables, approved, visiting) && owner !in approved
    ensures Sound(world, tables.(slotClasses := tables.slotClasses[(owner, name) := classes]), approved, visiting)
  {
    var tables' := tables.(slotClasses := tables.slotClasses[(owner, name) := classes]);
    forall cls | cls in approved
      ensures Settled(world, tables', approved + visiting, cls)
    {
      assert Settled(world, tables, approved + visiting, cls);
      assert forall s :: s in Slots(world.classes[cls]) ==> SlotRecorded(world, tables, cls, s);
    }
  }

  lemma StartVisit(world: World, tables: Tables, approved: set<Cls>, visiting: set<Cls>, cls: Cls)
    requires Sound(world, tables, approved, visiting) && cls in world.classes && cls !in approved
    ensures Sound(world, tables, approved, visiting + {cls})
  {
    forall c | c in approved
      ensures Settled(world, tables, approved + (visiting + {cls}), c)
    {
      assert Settled(world, tables, approved + visiting, c);
    }
  }

  /** Tables that differ only in the rows of one class. */
  ghost predicate SameElsewhere(before: Tables, after: Tables, cls: Cls) {
    && (forall c :: c != cls && c in before.dumpKeys ==> c in after.dumpKeys && after.dumpKeys[c] == before.dumpKeys[c])
    && (forall c :: c != cls && c in before.neverRestore ==>
          c in after.neverRestore && after.neverRestore[c] == before.neverRestore[c])
    && (forall c :: c != cls && c in before.nullRestorable ==>
          c in after.nullRestorable && after.nullRestorable[c] == before.nullRestorable[c])
    && (forall c :: c != cls && c in before.requiredFields ==>
          c in after.requiredFields && after.requiredFields[c] == before.requiredFields[c])
    && (forall c :: c != cls && c in before.computedKeys ==>
          c in after.computedKeys && after.computedKeys[c] == before.computedKeys[c])
    && after.slotClasses == before.slotClasses
  }

  /** Approving the class whose check just ended. */
  lemma ApproveKeepsSound(world: World, before: Tables, after: Tables, approved: set<Cls>, visiting: set<Cls>, cls: Cls)
    requires Sound(world, before, approved, visiting + {cls}) && cls !in visiting
    requires SameElsewhere(before, after, cls)
    requires Settled(world, after, approved + (visiting + {cls}), cls)
    ensures Sound(world, after, approved + {cls}, visiting)
  {
    assert approved + (visiting + {cls}) == approved + {cls} + visiting;
    forall c | c in approved
      ensures Settled(world, after, approved + {cls} + visiting, c)
    {
      assert Settled(world, before, approved + (visiting + {cls}), c);
      assert RowRecorded(world.classes[c], after, c);
      assert forall s :: s in Slots(world.classes[c]) ==> SlotRecorded(world, before, c, s);
    }
  }

  /** The checks of all slots and flags, put together. */
  lemma ClassSettles(world: World, before: Tables, after: Tables, known: set<Cls>, cls: Cls)
    requires cls in world.classes && FlagsPlain(world.classes[cls])
    requires AllDone(world, before, known, cls, Slots(world.classes[cls]))
    requires forall a :: a in ExtraItems(world.classes[cls]) ==> ShapePlain(a) && Targets(a) <= known
    requires SameElsewhere(before, after, cls) && RowRecorded(world.classes[cls], after, cls)
    ensures Settled(world, after, known, cls)
  {
    var info := world.classes[cls];
    forall s | s in Slots(info)
      ensures ShapePlain(s.annotation) && Targets(s.annotation) <= known
      ensures SlotUnrelated(world, SlotClasses(world, s.annotation, {})) && SlotRecorded(world, after, cls, s)
    {
      assert SlotDone(world, before, known, cls, s);
    }
  }

  // ---------- What must be accepted ----------

  /** A set of classes that are plain in themselves and lead to one another only. */
  ghost predicate Clean(world: World, good: set<Cls>) {
    forall cls :: cls in good ==> cls in world.classes && LocallyPlain(world, cls) && Successors(world, cls) <= good
  }

  ghost predicate Fine(good: set<Cls>, annotation: Annotation) {
    ShapePlain(annotation) && Targets(annotation) <= good
  }

  ghost predicate SlotFine(world: World, good: set<Cls>, slot: Slot) {
    Fine(good, slot.annotation) && SlotUnrelated(world, SlotClasses(world, slot.annotation, {}))
  }

  /** A class of a clean set passes every check. */
  lemma CleanClass(world: World, good: set<Cls>, cls: Cls)
    requires Clean(world, good) && cls in good
    ensures cls in world.classes && FlagsPlain(world.classes[cls])
    ensures forall s :: s in Slots(world.classes[cls]) ==> SlotFine(world, good, s)
    ensures forall a :: a in ExtraItems(world.classes[cls]) ==> Fine(good, a)
  {
    var info := world.classes[cls];
    forall a | a in Descended(info)
      ensures Fine(good, a)
    {
      assert Targets(a) <= Successors(world, cls);
    }
    forall s | s in Slots(info)
      ensures SlotFine(world, good, s)
    {
      assert s.annotation in Descended(info);
    }
  }

  lemma MemberCounts(good: set<Cls>, union: Annotation, i: nat)
    requires union.UnionOf? && i < |union.members| && !Fine(good, union.members[i])
    ensures !Fine(good, union)
  {
    var member := union.members[i];
    assert member in union.members;
    assert Targets(member) <= Targets(union);
  }

  lemma ArgumentCounts(good: set<Cls>, container: Annotation, i: nat)
    requires container.Container? && i < |container.arguments| && container.arguments[i].Some?
    requires !Fine(good, container.arguments[i].value)
    ensures !Fine(good, container)
  {
    var argument := container.arguments[i];
    assert argument in container.arguments;
    assert Targets(argument.value) <= Targets(container);
  }

  /** `good` is any clean set: the search accepts it whole. */
  class PolicyBuilder {
    const world: World
    ghost const good: set<Cls>
    var tables: Tables
    var approved: set<Cls>
    var visiting: set<Cls>
    var reason: Option<Reason>

    constructor (world: World, ghost good: set<Cls>)
      ensures this.world == world && this.good == good && tables == NO_TABLES && approved == {} && visiting == {} && reason.None?
    {
      this.world, this.good := world, good;
      tables, approved, visiting, reason := NO_TABLES, {}, {}, None;
    }

    ghost predicate Valid()
      reads this`tables, this`approved, this`visiting
    {
      WellFormed(world) && Clean(world, good) && Sound(world, tables, approved, visiting)
    }

    /** Keeps the first reason. */
    method Reject(why: Reason) returns (ok: bool)
      modifies this`reason
      ensures !ok && reason == if old(reason).None? then Some(why) else old(reason)
    {
      if reason.None? {
        reason := Some(why);
      }
      return false;
    }

    method MetadataIsPlain(metadata: seq<Meta>) returns (ok: bool)
      modifies this`reason
      ensures ok == MetadataPlain(metadata)
      ensures ok ==> reason == old(reason)
      ensures !ok ==> reason.Some?
      decreases metadata
    {
      if HasSerializer(metadata) {
        ok := Reject(SerializerMetadata);
        return;
      }
      for i := 0 to |metadata|
        invariant reason == old(reason)
        invariant forall j :: 0 <= j < i ==>
          !metadata[j].OtherMeta? && (metadata[j].InfoMeta? ==> MetadataPlain(metadata[j].nested))
      {
        if metadata[i].InfoMeta? {
          ok := MetadataIsPlain(metadata[i].nested);
          if !ok {
            return;
          }
        } else if metadata[i].OtherMeta? {
          ok := Reject(UnsupportedMetadata);
          return;
        }
      }
      return true;
    }

    method RecordSlotClasses(owner: Cls, name: string, annotation: Annotation) returns (ok: bool)
      modifies this`reason, this`tables
      ensures ok <==> SlotUnrelated(world, SlotClasses(world, annotation, {}))
      ensures ok ==> tables == old(tables).(slotClasses :=
                                 old(tables).slotClasses[(owner, name) := SlotClasses(world, annotation, {})])
      ensures !ok ==> reason.Some? && tables == old(tables)
    {
      var classes := SlotClasses(world, annotation, {});
      if exists a, b :: a in classes && b in classes && a != b && world.Related(a, b) {
        ok := Reject(SubclassPair);
        return;
      }
      tables := tables.(slotClasses := tables.slotClasses[(owner, name) := classes]);
      return true;
    }

    method MembersPlain(union: Annotation) returns (ok: bool)
      requires Valid() && union.UnionOf?
      modifies this
      ensures visiting == old(visiting) && Grows(visiting, old(approved), old(tables), approved, tables)
      ensures ok ==> Valid() && ShapePlain(union) && Targets(union) <= approved + visiting
      ensures !ok ==> reason.Some? && !Fine(good, union)
      decreases |world.classes.Keys - visiting|, 1, union, 0
    {
      hide Valid, SlotDone;
      var members := union.members;
      for i := 0 to |members|
        invariant Valid() && visiting == old(visiting) && Grows(visiting, old(approved), old(tables), approved, tables)
        invariant forall j :: 0 <= j < i ==> ShapePlain(members[j]) && Targets(members[j]) <= approved + visiting
      {
        ok := AnnotationIsPlain(members[i]);
        if !ok {
          MemberCounts(good, union, i);
          return;
        }
      }
      return true;
    }

    method ArgumentsPlain(container: Annotation) returns (ok: bool)
      requires Valid() && container.Container?
      modifies this
      ensures visiting == old(visiting) && Grows(visiting, old(approved), old(tables), approved, tables)
      ensures ok ==> Valid() && ShapePlain(container) && Targets(container) <= approved + visiting
      ensures !ok ==> reason.Some? && !Fine(good, container)
      decreases |world.classes.Keys - visiting|, 1, container, 0
    {
      hide Valid, SlotDone;
      var arguments := container.arguments;
      for i := 0 to |arguments|
        invariant Valid() && visiting == old(visiting) && Grows(visiting, old(approved), old(tables), approved, tables)
        invariant forall j :: 0 <= j < i && arguments[j].Some? ==>
                    ShapePlain(arguments[j].value) && Targets(arguments[j].value) <= approved + visiting
      {
        if arguments[i].Some? {
          ok := AnnotationIsPlain(arguments[i].value);
          if !ok {
            ArgumentCounts(good, container, i);
            return;
          }
        }
      }
      return true;
    }

    method AnnotationIsPlain(annotation: Annotation) returns (ok: bool)
      requires Valid()
      modifies this
      ensures visiting == old(visiting) && Grows(visiting, old(approved), old(tables), approved, tables)
      ensures ok ==> Valid() && ShapePlain(annotation) && Targets(annotation) <= approved + visiting
      ensures !ok ==> reason.Some? && !Fine(good, annotation)
      decreases |world.classes.Keys - visiting|, 1, annotation, 1
    {
      hide Valid, SlotDone;
      match annotation
      case AnyType => return true;
      case PlainLeaf => return true;
      case LiteralOf => return true;
      case BareContainer => return true;
      case NewType(supertype) => ok := AnnotationIsPlain(supertype);
      case Annotated(base, metadata) =>
        ok := MetadataIsPlain(metadata);
        if ok {
          ok := AnnotationIsPlain(base);
        }
      case Wrapper(inner) => ok := AnnotationIsPlain(inner);
      case UnionOf(_) => ok := MembersPlain(annotation);
      case Container(_, _) => ok := ArgumentsPlain(annotation);
      case Class(cls) => ok := ClassIsPlain(cls);
      case EnumType(customSchema) =>
        if customSchema {
          ok := Reject(CustomSchema);
          return;
        }
        return true;
      case Unsupported(_) => ok := Reject(UnsupportedAnnotation);
    }

    /** The check of a model, typed dictionary or dataclass; a class approved or under way counts as plain. */
    method ClassIsPlain(cls: Cls) returns (ok: bool)
      requires Valid()
      modifies this
      ensures visiting == old(visiting) && Grows(visiting, old(approved), old(tables), approved, tables)
      ensures ok ==> Valid() && cls in approved + visiting
      ensures !ok ==> reason.Some? && cls !in good
      decreases |world.classes.Keys - visiting|, 0
    {
      if cls !in world.classes {
        ok := Reject(UnsupportedAnnotation);
        return;
      }
      if cls in approved || cls in visiting {
        return true;
      }
      ok := UnseenIsPlain(cls);
    }

    /** The check of a class met for the first time: it is under way until it ends. */
    method UnseenIsPlain(cls: Cls) returns (ok: bool)
      requires Valid() && cls in world.classes && cls !in approved && cls !in visiting
      modifies this
      ensures visiting == old(visiting) && Grows(visiting, old(approved), old(tables), approved, tables)
      ensures ok ==> Valid() && cls in approved
      ensures !ok ==> reason.Some? && cls !in good
      decreases |world.classes.Keys - visiting|, 0, 0
    {
      Shrinks(world, visiting, cls);
      StartVisit(world, tables, approved, visiting, cls);
      visiting := visiting + {cls};
      ok := VisitedIsPlain(cls);
      if ok {
        Approve(cls);
      } else {
        visiting := visiting - {cls};
      }
      assert visiting == old(visiting);
    }

    /** The check of a class that is marked as under way. */
    method VisitedIsPlain(cls: Cls) returns (ok: bool)
      requires Valid() && cls in visiting && cls in world.classes
      modifies this
      ensures visiting == old(visiting)
      ensures Grows(visiting - {cls}, old(approved), old(tables), approved, tables)
      ensures ok ==> Valid() && FlagsPlain(world.classes[cls])
      ensures ok ==> AllDone(world, tables, approved + visiting, cls, Slots(world.classes[cls]))
      ensures ok ==> forall a :: a in ExtraItems(world.classes[cls]) ==>
                       (ShapePlain(a) && Targets(a) <= approved + visiting)
      ensures !ok ==> reason.Some? && cls !in good
      decreases |world.classes.Keys - visiting|, 6
    {
      match world.classes[cls]
      case ModelInfo(_, _, _, _, _, _, _, _) => ok := ModelIsPlain(cls);
      case DictInfo(_, _, _, _) => ok := DictIsPlain(cls);
      case DataInfo(_, _, _, _, _, _, _) => ok := DataIsPlain(cls);
    }

    /** Moves a checked class from the ones under way to the approved ones. */
    method Approve(cls: Cls)
      requires Valid() && cls in visiting && cls in world.classes
      requires FlagsPlain(world.classes[cls])
      requires AllDone(world, tables, approved + visiting, cls, Slots(world.classes[cls]))
      requires forall a :: a in ExtraItems(world.classes[cls]) ==> ShapePlain(a) && Targets(a) <= approved + visiting
      modifies this`tables, this`visiting, this`approved
      ensures Valid() && visiting == old(visiting) - {cls} && approved == old(approved) + {cls}
      ensures tables.slotClasses == old(tables).slotClasses
    {
      ghost var before := tables;
      ghost var known := approved + visiting;
      RecordRow(cls);
      visiting := visiting - {cls};
      assert visiting + {cls} == old(visiting);
      ClassSettles(world, before, tables, known, cls);
      ApproveKeepsSound(world, before, tables, approved, visiting, cls);
      approved := approved + {cls};
    }

    /** Writes the rows of an approved class. */
    method RecordRow(cls: Cls)
      requires cls in world.classes
      modifies this`tables
      ensures SameElsewhere(old(tables), tables, cls) && RowRecorded(world.classes[cls], tables, cls)
    {
      match world.classes[cls]
      case ModelInfo(_, _, _, _, _, byAlias, fields, computed) =>
        tables := tables.(
          dumpKeys := tables.dumpKeys[cls := KeyTable(byAlias, fields)],
          neverRestore := tables.neverRestore[cls := NeverRestored(fields)],
          computedKeys := tables.computedKeys[cls := ItemSet(ComputedKeys(byAlias, computed))]);
      case DictInfo(_, _, members, _) =>
        tables := tables.(
          dumpKeys := tables.dumpKeys[cls := DictKeys(members)],
          neverRestore := tables.neverRestore[cls := {}],
          computedKeys := tables.computedKeys[cls := {}]);
      case DataInfo(_, _, _, _, _, fields, _) =>
        tables := tables.(
          dumpKeys := tables.dumpKeys[cls := DataKeys(fields)],
          neverRestore := tables.neverRestore[cls := DataNever(fields)],
          nullRestorable := tables.nullRestorable[cls := DataNullable(fields)],
          requiredFields := tables.requiredFields[cls := DataRequired(fields)],
          computedKeys := tables.computedKeys[cls := {}]);
    }

    /** One more slot of a class under way: its annotation is plain and its declared classes are unrelated. */
    method CheckSlot(owner: Cls, slot: Slot, ghost done: seq<Slot>) returns (ok: bool)
      requires Valid() && owner in visiting
      requires AllDone(world, tables, approved + visiting, owner, done)
      requires forall s :: s in done ==> s.name != slot.name
      modifies this
      ensures visiting == old(visiting) && Grows(visiting - {owner}, old(approved), old(tables), approved, tables)
      ensures ok ==> Valid() && AllDone(world, tables, approved + visiting, owner, done + [slot])
      ensures !ok ==> reason.Some? && !SlotFine(world, good, slot)
      decreases |world.classes.Keys - visiting|, 2
    {
      ghost var approved0, tables0 := approved, tables;
      ok := AnnotationIsPlain(slot.annotation);
      if ok {
        GrowthKeepsDone(world, visiting, approved0, tables0, approved, tables, owner, done);
        ghost var classes := SlotClasses(world, slot.annotation, {});
        SlotKeepsSound(world, tables, approved, visiting, owner, slot.name, classes);
        RecordKeepsDone(world, tables, approved + visiting, owner, done, slot.name, classes);
        ok := RecordSlotClasses(owner, slot.name, slot.annotation);
        if ok {
          assert SlotDone(world, tables, approved + visiting, owner, slot);
        }
      }
    }

    method ModelFlags(info: ClassInfo) returns (ok: bool)
      requires info.ModelInfo?
      modifies this`reason
      ensures ok <==> !info.customSchema && !info.serializers && !info.aliasGenerator && !info.unresolved
      ensures !ok ==> reason.Some?
    {
      if info.customSchema {
        ok := Reject(CustomSchema);
      } else if info.serializers {
        ok := Reject(SerializerDecorator);
      } else if info.aliasGenerator {
        ok := Reject(AliasGenerator);
      } else if info.unresolved {
        ok := Reject(UnresolvedAnnotations);
      } else {
        ok := true;
      }
    }

    /** One field of a model: its metadata, and its slot unless it is excluded. */
    method ModelField(cls: Cls, fields: seq<Field>, i: nat) returns (ok: bool)
      requires i < |fields| && Valid() && cls in visiting && NamesDistinct(ModelSlots(fields))
      requires AllDone(world, tables, approved + visiting, cls, ModelSlots(fields[..i]))
      modifies this
      ensures visiting == old(visiting) && Grows(visiting - {cls}, old(approved), old(tables), approved, tables)
      ensures ok ==> Valid() && AllDone(world, tables, approved + visiting, cls, ModelSlots(fields[..i + 1]))
      ensures ok ==> MetadataPlain(fields[i].metadata)
      ensures !ok ==> reason.Some? && (MetadataPlain(fields[i].metadata) ==>
                        exists s :: s in ModelSlots(fields) && !SlotFine(world, good, s))
      decreases |world.classes.Keys - visiting|, 3
    {
      hide Valid, SlotDone;
      var field := fields[i];
      ok := MetadataIsPlain(field.metadata);
      assert fields[..i + 1][..i] == fields[..i];
      if ok && !field.exclude {
        ModelSlotsPrefix(fields, i + 1);
        FreshName(ModelSlots(fields), ModelSlots(fields[..i]), Slot(field.name, field.annotation));
        ok := CheckSlot(cls, Slot(field.name, field.annotation), ModelSlots(fields[..i]));
        assert Slot(field.name, field.annotation) in ModelSlots(fields[..i + 1]);
        assert Slot(field.name, field.annotation) in ModelSlots(fields);
      }
    }

    method ModelFields(cls: Cls, fields: seq<Field>, byAlias: bool) returns (ok: bool, claims: seq<string>)
      requires Valid() && cls in visiting && NamesDistinct(ModelSlots(fields))
      modifies this
      ensures visiting == old(visiting) && Grows(visiting - {cls}, old(approved), old(tables), approved, tables)
      ensures ok ==> Valid() && AllDone(world, tables, approved + visiting, cls, ModelSlots(fields))
      ensures ok ==> claims == FieldKeys(byAlias, fields) && forall f :: f in fields ==> MetadataPlain(f.metadata)
      ensures !ok ==> reason.Some? && ((exists f :: f in fields && !MetadataPlain(f.metadata))
                                       || exists s :: s in ModelSlots(fields) && !SlotFine(world, good, s))
      decreases |world.classes.Keys - visiting|, 4
    {
      hide Valid, SlotDone;
      claims := [];
      for i := 0 to |fields|
        invariant Valid() && visiting == old(visiting)
        invariant Grows(visiting - {cls}, old(approved), old(tables), approved, tables)
        invariant claims == FieldKeys(byAlias, fields[..i])
        invariant forall j :: 0 <= j < i ==> MetadataPlain(fields[j].metadata)
        invariant AllDone(world, tables, approved + visiting, cls, ModelSlots(fields[..i]))
      {
        ok := ModelField(cls, fields, i);
        if !ok {
          assert fields[i] in fields;
          return;
        }
        assert fields[..i + 1][..i] == fields[..i];
        if !fields[i].exclude {
          claims := claims + [DumpKey(byAlias, fields[i])];
        }
      }
      assert fields[..|fields|] == fields;
      ok := true;
    }

    method ModelIsPlain(cls: Cls) returns (ok: bool)
      requires Valid() && cls in visiting && cls in world.classes && world.classes[cls].ModelInfo?
      modifies this
      ensures visiting == old(visiting) && Grows(visiting - {cls}, old(approved), old(tables), approved, tables)
      ensures ok ==> Valid() && FlagsPlain(world.classes[cls])
      ensures ok ==> AllDone(world, tables, approved + visiting, cls, Slots(world.classes[cls]))
      ensures !ok ==> reason.Some? && cls !in good
      decreases |world.classes.Keys - visiting|, 5
    {
      hide AllDone, Sound;
      if cls in good {
        CleanClass(world, good, cls);
      }
      var info := world.classes[cls];
      ok := ModelFlags(info);
      if !ok {
        return;
      }
      var claims;
      ok, claims := ModelFields(cls, info.fields, info.byAlias);
      if !ok {
        return;
      }
      if !Distinct(claims + ComputedKeys(info.byAlias, info.computed)) {
        ok := Reject(CollidingKeys);
      }
    }

    method DictIsPlain(cls: Cls) returns (ok: bool)
      requires Valid() && cls in visiting && cls in world.classes && world.classes[cls].DictInfo?
      modifies this
      ensures visiting == old(visiting) && Grows(visiting - {cls}, old(approved), old(tables), approved, tables)
      ensures ok ==> Valid() && FlagsPlain(world.classes[cls])
      ensures ok ==> AllDone(world, tables, approved + visiting, cls, Slots(world.classes[cls]))
      ensures ok ==> forall a :: a in ExtraItems(world.classes[cls]) ==>
                       (ShapePlain(a) && Targets(a) <= approved + visiting)
      ensures !ok ==> reason.Some? && cls !in good
      decreases |world.classes.Keys - visiting|, 5
    {
      if cls in good {
        CleanClass(world, good, cls);
      }
      var info := world.classes[cls];
      if info.aliasGenerator {
        ok := Reject(AliasGenerator);
        return;
      }
      if info.unresolved {
        ok := Reject(UnresolvedAnnotations);
        return;
      }
      ok := DictMembers(cls, info.members);
      if ok && info.extraItems.Some? {
        ghost var approved0, tables0 := approved, tables;
        ok := AnnotationIsPlain(info.extraItems.value);
        GrowthKeepsDone(world, visiting, approved0, tables0, approved, tables, cls, Slots(info));
      }
    }

    method MemberFlags(member: Member) returns (ok: bool)
      modifies this`reason
      ensures ok <==> PlainMember(member)
      ensures !ok ==> reason.Some?
    {
      ok := MetadataIsPlain(member.metadata);
      if !ok {
        return;
      }
      if member.aliased {
        ok := Reject(AliasMetadata);
      } else if member.excluded {
        ok := Reject(ExclusionMetadata);
      } else if member.defaulted {
        ok := Reject(DefaultMetadata);
      }
    }

    method DictMember(cls: Cls, members: seq<Member>, i: nat) returns (ok: bool)
      requires i < |members| && Valid() && cls in visiting && NamesDistinct(DictSlots(members))
      requires AllDone(world, tables, approved + visiting, cls, DictSlots(members[..i]))
      modifies this
      ensures visiting == old(visiting) && Grows(visiting - {cls}, old(approved), old(tables), approved, tables)
      ensures ok ==> Valid() && AllDone(world, tables, approved + visiting, cls, DictSlots(members[..i + 1]))
      ensures ok ==> PlainMember(members[i])
      ensures !ok ==> reason.Some? && (PlainMember(members[i]) ==>
                        exists s :: s in DictSlots(members) && !SlotFine(world, good, s))
      decreases |world.classes.Keys - visiting|, 3
    {
      hide Valid, SlotDone;
      ok := MemberFlags(members[i]);
      if ok {
        assert members[..i + 1][..i] == members[..i];
        DictSlotsPrefix(members, i + 1);
        FreshName(DictSlots(members), DictSlots(members[..i]), Slot(members[i].name, members[i].annotation));
        ok := CheckSlot(cls, Slot(members[i].name, members[i].annotation), DictSlots(members[..i]));
        assert Slot(members[i].name, members[i].annotation) in DictSlots(members[..i + 1]);
        assert Slot(members[i].name, members[i].annotation) in DictSlots(members);
      }
    }

    method DictMembers(cls: Cls, members: seq<Member>) returns (ok: bool)
      requires Valid() && cls in visiting && NamesDistinct(DictSlots(members))
      modifies this
      ensures visiting == old(visiting) && Grows(visiting - {cls}, old(approved), old(tables), approved, tables)
      ensures ok ==> Valid() && AllDone(world, tables, approved + visiting, cls, DictSlots(members))
      ensures ok ==> forall m :: m in members ==> PlainMember(m)
      ensures !ok ==> reason.Some? && ((exists m :: m in members && !PlainMember(m))
                                       || exists s :: s in DictSlots(members) && !SlotFine(world, good, s))
      decreases |world.classes.Keys - visiting|, 4
    {
      hide Valid, SlotDone;
      for i := 0 to |members|
        invariant Valid() && visiting == old(visiting)
        invariant Grows(visiting - {cls}, old(approved), old(tables), approved, tables)
        invariant forall j :: 0 <= j < i ==> PlainMember(members[j])
        invariant AllDone(world, tables, approved + visiting, cls, DictSlots(members[..i]))
      {
        ok := DictMember(cls, members, i);
        if !ok {
          assert members[i] in members;
          return;
        }
      }
      assert members[..|members|] == members;
      ok := true;
    }

    method DataFlags(info: ClassInfo) returns (ok: bool)
      requires info.DataInfo?
      modifies this`reason
      ensures ok <==> (!info.customSchema && !info.serializers && !info.computedAlias
                       && !info.aliasGenerator && !info.unresolved)
      ensures !ok ==> reason.Some?
    {
      if info.customSchema {
        ok := Reject(CustomSchema);
      } else if info.serializers {
        ok := Reject(SerializerDecorator);
      } else if info.computedAlias {
        ok := Reject(ComputedAlias);
      } else if info.aliasGenerator {
        ok := Reject(AliasGenerator);
      } else if info.unresolved {
        ok := Reject(UnresolvedAnnotations);
      } else {
        ok := true;
      }
    }

    method DataMember(cls: Cls, fields: seq<DataField>, computedNames: set<string>, i: nat) returns (ok: bool)
      requires i < |fields| && Valid() && cls in visiting && NamesDistinct(DataSlots(fields))
      requires AllDone(world, tables, approved + visiting, cls, DataSlots(fields[..i]))
      modifies this
      ensures visiting == old(visiting) && Grows(visiting - {cls}, old(approved), old(tables), approved, tables)
      ensures ok ==> Valid() && AllDone(world, tables, approved + visiting, cls, DataSlots(fields[..i + 1]))
      ensures ok ==> PlainDataField(computedNames, fields[i])
      ensures !ok ==> reason.Some? && (PlainDataField(computedNames, fields[i]) ==>
                        exists s :: s in DataSlots(fields) && !SlotFine(world, good, s))
      decreases |world.classes.Keys - visiting|, 3
    {
      hide Valid, SlotDone;
      var field := fields[i];
      ok := MetadataIsPlain(field.metadata);
      if !ok {
        return;
      }
      if field.aliased {
        ok := Reject(AliasMetadata);
        return;
      }
      assert fields[..i + 1][..i] == fields[..i];
      if !Taken(field) {
        return;
      }
      if field.name in computedNames {
        ok := Reject(ComputedCollision);
        return;
      }
      DataSlotsPrefix(fields, i + 1);
      FreshName(DataSlots(fields), DataSlots(fields[..i]), Slot(field.name, field.annotation));
      ok := CheckSlot(cls, Slot(field.name, field.annotation), DataSlots(fields[..i]));
      assert Slot(field.name, field.annotation) in DataSlots(fields[..i + 1]);
      assert Slot(field.name, field.annotation) in DataSlots(fields);
    }

    method DataFields(cls: Cls, fields: seq<DataField>, computedNames: set<string>) returns (ok: bool)
      requires Valid() && cls in visiting && NamesDistinct(DataSlots(fields))
      modifies this
      ensures visiting == old(visiting) && Grows(visiting - {cls}, old(approved), old(tables), approved, tables)
      ensures ok ==> Valid() && AllDone(world, tables, approved + visiting, cls, DataSlots(fields))
      ensures ok ==> forall f :: f in fields ==> PlainDataField(computedNames, f)
      ensures !ok ==> reason.Some? && ((exists f :: f in fields && !PlainDataField(computedNames, f))
                                       || exists s :: s in DataSlots(fields) && !SlotFine(world, good, s))
      decreases |world.classes.Keys - visiting|, 4
    {
      hide Valid, SlotDone;
      for i := 0 to |fields|
        invariant Valid() && visiting == old(visiting)
        invariant Grows(visiting - {cls}, old(approved), old(tables), approved, tables)
        invariant forall j :: 0 <= j < i ==> PlainDataField(computedNames, fields[j])
        invariant AllDone(world, tables, approved + visiting, cls, DataSlots(fields[..i]))
      {
        ok := DataMember(cls, fields, computedNames, i);
        if !ok {
          assert fields[i] in fields;
          return;
        }
      }
      assert fields[..|fields|] == fields;
      ok := true;
    }

    method DataIsPlain(cls: Cls) returns (ok: bool)
      requires Valid() && cls in visiting && cls in world.classes && world.classes[cls].DataInfo?
      modifies this
      ensures visiting == old(visiting) && Grows(visiting - {cls}, old(approved), old(tables), approved, tables)
      ensures ok ==> Valid() && FlagsPlain(world.classes[cls])
      ensures ok ==> AllDone(world, tables, approved + visiting, cls, Slots(world.classes[cls]))
      ensures !ok ==> reason.Some? && cls !in good
      decreases |world.classes.Keys - visiting|, 5
    {
      hide AllDone, Sound;
      if cls in good {
        CleanClass(world, good, cls);
      }
      var info := world.classes[cls];
      ok := DataFlags(info);
      if ok {
        ok := DataFields(cls, info.dataFields, info.computedNames);
      }
    }
  }

  lemma FreshName(slots: seq<Slot>, before: seq<Slot>, slot: Slot)
    requires NamesDistinct(slots) && before + [slot] <= slots
    ensures forall s :: s in before ==> s.name != slot.name
  {
    var n := |before|;
    assert slots[n] == (before + [slot])[n];
    assert forall i :: 0 <= i < n ==> before[i] == slots[i];
  }

  lemma {:induction false} ModelSlotsPrefix(fields: seq<Field>, n: nat)
    requires n <= |fields|
    ensures ModelSlots(fields[..n]) <= ModelSlots(fields)
    decreases |fields| - n
  {
    if n == |fields| {
      assert fields[..n] == fields;
    } else {
      assert fields[..n + 1][..n] == fields[..n];
      ModelSlotsPrefix(fields, n + 1);
    }
  }

  lemma {:induction false} DictSlotsPrefix(members: seq<Member>, n: nat)
    requires n <= |members|
    ensures DictSlots(members[..n]) <= DictSlots(members)
    decreases |members| - n
  {
    if n == |members| {
      assert members[..n] == members;
    } else {
      assert members[..n + 1][..n] == members[..n];
      DictSlotsPrefix(members, n + 1);
    }
  }

  lemma {:induction false} DataSlotsPrefix(fields: seq<DataField>, n: nat)
    requires n <= |fields|
    ensures DataSlots(fields[..n]) <= DataSlots(fields)
    decreases |fields| - n
  {
    if n == |fields| {
      assert fields[..n] == fields;
    } else {
      assert fields[..n + 1][..n] == fields[..n];
      DataSlotsPrefix(fields, n + 1);
    }
  }
}
