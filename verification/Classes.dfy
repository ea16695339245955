/** The input class graph that null restoration is classified over. */
module Classes {
  import opened Values

  type Cls = string

  /** One piece of annotation metadata. */
  datatype Meta = SerializerMeta | InfoMeta(nested: seq<Meta>) | SafeMeta | OtherMeta

  /** An annotation. A container argument is absent where the source writes an ellipsis. */
  datatype Annotation =
    | AnyType
    | PlainLeaf
    | NewType(supertype: Annotation)
    | Annotated(base: Annotation, metadata: seq<Meta>)
    | Wrapper(inner: Annotation)
    | UnionOf(members: seq<Annotation>)
    | LiteralOf
    | Container(mapping: bool, arguments: seq<Option<Annotation>>)
    | BareContainer
    | Class(cls: Cls)
    | EnumType(customSchema: bool)
    | Unsupported(alias: bool)

  datatype Field = Field(
    name: string,
    alias: Option<string>,
    serializationAlias: Option<string>,
    metadata: seq<Meta>,
    exclude: bool,
    excludeIf: bool,
    annotation: Annotation)

  datatype Computed = Computed(name: string, alias: Option<string>)

  /** A TypedDict member, with what its own field metadata says when it has any. */
  datatype Member = Member(
    name: string,
    metadata: seq<Meta>,
    aliased: bool,
    excluded: bool,
    defaulted: bool,
    annotation: Annotation)

  datatype DataField = DataField(
    name: string,
    metadata: seq<Meta>,
    aliased: bool,
    init: bool,
    exclude: bool,
    excludeIf: bool,
    required: bool,
    nonNullDefault: bool,
    annotation: Annotation)

  datatype ClassInfo =
    | ModelInfo(
        customSchema: bool,
        serializers: bool,
        aliasGenerator: bool,
        unresolved: bool,
        rootModel: bool,
        byAlias: bool,
        fields: seq<Field>,
        computed: seq<Computed>)
    | DictInfo(aliasGenerator: bool, unresolved: bool, members: seq<Member>, extraItems: Option<Annotation>)
    | DataInfo(
        customSchema: bool,
        serializers: bool,
        computedAlias: bool,
        aliasGenerator: bool,
        unresolved: bool,
        dataFields: seq<DataField>,
        computedNames: set<string>)

  /** All classes, and which of them are subclasses of which. */
  datatype World = World(classes: map<Cls, ClassInfo>, subclasses: set<(Cls, Cls)>)
  {
    predicate Related(a: Cls, b: Cls) {
      (a, b) in subclasses || (b, a) in subclasses
    }

    predicate IsDict(cls: Cls) {
      cls in classes && classes[cls].DictInfo?
    }
  }

  // ---------- Metadata ----------

  predicate HasSerializer(metadata: seq<Meta>) {
    exists m :: m in metadata && (m.SerializerMeta? || (m.InfoMeta? && HasSerializer(m.nested)))
  }

  predicate MetadataPlain(metadata: seq<Meta>) {
    && !HasSerializer(metadata)
    && forall m :: m in metadata ==> !m.OtherMeta? && (m.InfoMeta? ==> MetadataPlain(m.nested))
  }

  // ---------- Keys ----------

  function DumpKey(byAlias: bool, field: Field): string {
    if !byAlias then field.name
    else if field.serializationAlias.Some? then field.serializationAlias.value
    else if field.alias.Some? then field.alias.value
    else field.name
  }

  function ComputedKey(byAlias: bool, computed: Computed): string {
    if byAlias && computed.alias.Some? then computed.alias.value else computed.name
  }

  /** Without aliases a field is dumped under its name; otherwise under its serialization alias, or else its alias, if it
      has one. */
  lemma KeyChoice(field: Field, computed: Computed)
    ensures DumpKey(false, field) == field.name && ComputedKey(false, computed) == computed.name
    ensures forall a :: field.serializationAlias == Some(a) ==> DumpKey(true, field) == a
    ensures forall a :: field.serializationAlias == None && field.alias == Some(a) ==> DumpKey(true, field) == a
    ensures field.serializationAlias == field.alias == None ==> DumpKey(true, field) == field.name
    ensures ComputedKey(true, computed) == (match computed.alias case Some(a) => a case None => computed.name)
  {
  }

  function FieldKeys(byAlias: bool, fields: seq<Field>): seq<string> {
    if fields == [] then []
    else
      var last := fields[|fields| - 1];
      FieldKeys(byAlias, fields[..|fields| - 1]) + (if last.exclude then [] else [DumpKey(byAlias, last)])
  }

  function ComputedKeys(byAlias: bool, computed: seq<Computed>): (keys: seq<string>)
    ensures |keys| == |computed|
  {
    seq(|computed|, i requires 0 <= i < |computed| => ComputedKey(byAlias, computed[i]))
  }

  predicate Distinct<T(==)>(items: seq<T>) {
    forall i, j :: 0 <= i < j < |items| ==> items[i] != items[j]
  }

  function KeyTable(byAlias: bool, fields: seq<Field>): map<string, string> {
    if fields == [] then map[]
    else
      var last := fields[|fields| - 1];
      KeyTable(byAlias, fields[..|fields| - 1])[last.name := DumpKey(byAlias, last)]
  }

  function NeverRestored(fields: seq<Field>): set<string> {
    set i | 0 <= i < |fields| && (fields[i].exclude || fields[i].excludeIf) :: fields[i].name
  }

  // ---------- What an annotation mentions ----------

  /** The classes whose checks an annotation's check runs. */
  function Targets(annotation: Annotation): set<Cls> {
    match annotation
    case NewType(supertype) => Targets(supertype)
    case Annotated(base, _) => Targets(base)
    case Wrapper(inner) => Targets(inner)
    case UnionOf(members) => set m, c | m in members && c in Targets(m) :: c
    case Container(_, arguments) => set a, c | a in arguments && a.Some? && c in Targets(a.value) :: c
    case Class(cls) => {cls}
    case _ => {}
  }

  /** Whether the annotation itself, classes apart, is within the whitelist. */
  predicate ShapePlain(annotation: Annotation) {
    match annotation
    case NewType(supertype) => ShapePlain(supertype)
    case Annotated(base, metadata) => MetadataPlain(metadata) && ShapePlain(base)
    case Wrapper(inner) => ShapePlain(inner)
    case UnionOf(members) => forall m :: m in members ==> ShapePlain(m)
    case Container(_, arguments) => forall a :: a in arguments && a.Some? ==> ShapePlain(a.value)
    case EnumType(customSchema) => !customSchema
    case Unsupported(_) => false
    case _ => true
  }

  /** The model and dataclass classes a slot may hold before the next class boundary; typed dictionaries are
      looked through, each at most once on a path. */
  function SlotClasses(world: World, annotation: Annotation, seen: set<Cls>): set<Cls>
    decreases |world.classes.Keys - seen|, annotation, 0
  {
    match annotation
    case NewType(supertype) => SlotClasses(world, supertype, seen)
    case Annotated(base, _) => SlotClasses(world, base, seen)
    case Wrapper(inner) => SlotClasses(world, inner, seen)
    case UnionOf(members) => set m, c | m in members && c in SlotClasses(world, m, seen) :: c
    case Container(mapping, arguments) =>
      if mapping then
        if |arguments| == 2 && arguments[1].Some? then SlotClasses(world, arguments[1].value, seen) else {}
      else set a, c | a in arguments && a.Some? && c in SlotClasses(world, a.value, seen) :: c
    case Class(cls) =>
      if cls !in world.classes then {}
      else if !world.IsDict(cls) then {cls}
      else if cls in seen || world.classes[cls].unresolved then {}
      else
        var info := world.classes[cls];
        Shrinks(world, seen, cls);
        (set m, c | m in info.members && c in SlotClasses(world, m.annotation, seen + {cls}) :: c)
        + (if info.extraItems.Some? then SlotClasses(world, info.extraItems.value, seen + {cls}) else {})
    case _ => {}
  }

  lemma Shrinks(world: World, seen: set<Cls>, cls: Cls)
    requires cls in world.classes && cls !in seen
    ensures |world.classes.Keys - (seen + {cls})| < |world.classes.Keys - seen|
  {
    var rest := world.classes.Keys - (seen + {cls});
    assert world.classes.Keys - seen == rest + {cls};
  }

  /** The classes a slot declares, when it declares no class together with a subclass of it. */
  predicate SlotUnrelated(world: World, classes: set<Cls>) {
    forall a, b :: a in classes && b in classes && a != b ==> !world.Related(a, b)
  }

  // ---------- Per-class checks ----------

  /** A field name and its annotation. */
  datatype Slot = Slot(name: string, annotation: Annotation)

  function ModelSlots(fields: seq<Field>): seq<Slot> {
    if fields == [] then []
    else
      var last := fields[|fields| - 1];
      ModelSlots(fields[..|fields| - 1]) + (if last.exclude then [] else [Slot(last.name, last.annotation)])
  }

  function DictSlots(members: seq<Member>): seq<Slot> {
    if members == [] then []
    else
      var last := members[|members| - 1];
      DictSlots(members[..|members| - 1]) + [Slot(last.name, last.annotation)]
  }

  /** Whether a dataclass field takes part in restoration. */
  predicate Taken(field: DataField) {
    field.init && !field.exclude && !field.excludeIf
  }

  function DataSlots(fields: seq<DataField>): seq<Slot> {
    if fields == [] then []
    else
      var last := fields[|fields| - 1];
      DataSlots(fields[..|fields| - 1]) + (if Taken(last) then [Slot(last.name, last.annotation)] else [])
  }

  /** The slots a class check descends into and records. */
  function Slots(info: ClassInfo): seq<Slot> {
    match info
    case ModelInfo(_, _, _, _, _, _, fields, _) => ModelSlots(fields)
    case DictInfo(_, _, members, _) => DictSlots(members)
    case DataInfo(_, _, _, _, _, fields, _) => DataSlots(fields)
  }

  function ExtraItems(info: ClassInfo): set<Annotation> {
    if info.DictInfo? && info.extraItems.Some? then {info.extraItems.value} else {}
  }

  /** The annotations a class check descends into. */
  function Descended(info: ClassInfo): set<Annotation> {
    (set s | s in Slots(info) :: s.annotation) + ExtraItems(info)
  }

  // ---------- Local checks ----------

  predicate PlainMember(member: Member) {
    MetadataPlain(member.metadata) && !member.aliased && !member.excluded && !member.defaulted
  }

  predicate PlainDataField(computedNames: set<string>, field: DataField) {
    MetadataPlain(field.metadata) && !field.aliased && (Taken(field) ==> field.name !in computedNames)
  }

  /** What the flags and field metadata of a class must satisfy. */
  predicate FlagsPlain(info: ClassInfo) {
    && !info.aliasGenerator && !info.unresolved
    && match info
       case ModelInfo(customSchema, serializers, _, _, _, byAlias, fields, computed) =>
         && !customSchema && !serializers
         && (forall f :: f in fields ==> MetadataPlain(f.metadata))
         && Distinct(FieldKeys(byAlias, fields) + ComputedKeys(byAlias, computed))
       case DictInfo(_, _, members, _) => forall m :: m in members ==> PlainMember(m)
       case DataInfo(customSchema, serializers, computedAlias, _, _, fields, computedNames) =>
         && !customSchema && !serializers && !computedAlias
         && (forall f :: f in fields ==> PlainDataField(computedNames, f))
  }

  /** What a class must satisfy by itself. */
  ghost predicate LocallyPlain(world: World, cls: Cls)
    requires cls in world.classes
  {
    var info := world.classes[cls];
    && FlagsPlain(info)
    && (forall a :: a in Descended(info) ==> ShapePlain(a))
    && (forall s :: s in Slots(info) ==> SlotUnrelated(world, SlotClasses(world, s.annotation, {})))
  }

  /** The classes reached from a class in one step. */
  function Successors(world: World, cls: Cls): set<Cls> {
    if cls !in world.classes then {}
    else set a, c | a in Descended(world.classes[cls]) && c in Targets(a) :: c
  }
}
