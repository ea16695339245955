/** The policy `classify` issues for a root model, and what its strongest tier guarantees. */
module Policies {
  import opened Values
  import opened Classes
  import opened Classifier

  datatype Tier = Full | TopLevel | Off

  datatype Policy = Policy(
    tier: Tier,
    root: Cls,
    approved: set<Cls>,
    tables: Tables,
    topLevel: set<string>,
    reason: Option<Reason>)

  /** The root fields the compiled schema vouches for: there may be no schema, or one without a field table. */
  datatype CompiledFields = NoSchema | NoFields | Trusted(names: set<string>)

  /** What Pydantic's compiled artefacts say of the root model. */
  datatype RootFacts = RootFacts(
    modelSerializer: bool,
    dumpOverride: bool,
    rootSpineUntrusted: bool,
    schemaUntrusted: bool,
    fields: CompiledFields,
    serializedFields: set<string>,
    allFieldsSerialized: bool)

  function OffPolicy(root: Cls, reason: Reason): Policy {
    Policy(Off, root, {}, NO_TABLES, {}, Some(reason))
  }

  predicate AnnotationSerializes(annotation: Annotation) {
    match annotation
    case NewType(supertype) => AnnotationSerializes(supertype)
    case Annotated(base, metadata) => HasSerializer(metadata) || AnnotationSerializes(base)
    case Wrapper(inner) => AnnotationSerializes(inner)
    case UnionOf(members) => exists m :: m in members && AnnotationSerializes(m)
    case Container(_, arguments) => exists a :: a in arguments && a.Some? && AnnotationSerializes(a.value)
    case Unsupported(alias) => alias
    case _ => false
  }

  function CountOf(keys: seq<string>, key: string): nat {
    if keys == [] then 0 else CountOf(keys[..|keys| - 1], key) + (if keys[|keys| - 1] == key then 1 else 0)
  }

  /** How many dump entries claim a key; computed fields of one key claim it together. */
  function Claims(info: ClassInfo, key: string): nat
    requires info.ModelInfo?
  {
    CountOf(FieldKeys(info.byAlias, info.fields), key) + (if key in ComputedKeys(info.byAlias, info.computed) then 1 else 0)
  }

  predicate TopLevelRestorable(info: ClassInfo, facts: RootFacts, field: Field)
    requires info.ModelInfo?
  {
    && !facts.fields.NoFields?
    && !facts.allFieldsSerialized && field.name !in facts.serializedFields
    && !field.exclude && !field.excludeIf
    && Claims(info, DumpKey(info.byAlias, field)) == 1
    && !AnnotationSerializes(field.annotation)
    && (facts.fields.Trusted? ==> field.name in facts.fields.names)
  }

  function TopLevelFields(info: ClassInfo, facts: RootFacts): set<string>
    requires info.ModelInfo?
  {
    set f | f in info.fields && TopLevelRestorable(info, facts, f) :: f.name
  }

  function FieldNames(info: ClassInfo): set<string>
    requires info.ModelInfo?
  {
    set f | f in info.fields :: f.name
  }

  /** Why nothing may be restored at all, if so. */
  function OffReason(info: ClassInfo, facts: RootFacts): Option<Reason>
    requires info.ModelInfo?
  {
    if facts.modelSerializer then Some(ModelSerializer)
    else if info.customSchema then Some(CustomSchema)
    else if facts.dumpOverride then Some(DumpOverride)
    else if facts.rootSpineUntrusted then Some(RootSerialization)
    else None
  }

  /** What a policy of the strongest tier rests on. */
  ghost predicate Backed(world: World, policy: Policy) {
    policy.root in policy.approved && Sound(world, policy.tables, policy.approved, {})
  }

  /** A walk along declared annotations. */
  ghost predicate IsTrail(world: World, trail: seq<Cls>) {
    && trail != []
    && forall i :: 0 < i < |trail| ==> trail[i] in Successors(world, trail[i - 1])
  }

  ghost predicate Reaches(world: World, root: Cls, cls: Cls) {
    exists trail :: IsTrail(world, trail) && trail[0] == root && trail[|trail| - 1] == cls
  }

  /** Every class within reach of the root is known and plain in itself. */
  ghost predicate PlainGraph(world: World, root: Cls) {
    forall cls :: Reaches(world, root, cls) ==> cls in world.classes && LocallyPlain(world, cls)
  }

  /** What lies within reach of the root of a plain graph is a clean set. */
  lemma ReachIsClean(world: World, root: Cls) returns (good: set<Cls>)
    requires PlainGraph(world, root)
    ensures Clean(world, good) && root in good
  {
    good := set cls | cls in world.classes && Reaches(world, root, cls);
    assert IsTrail(world, [root]);
    assert Reaches(world, root, root);
    forall cls, next | cls in good && next in Successors(world, cls)
      ensures next in good
    {
      var trail :| IsTrail(world, trail) && trail[0] == root && trail[|trail| - 1] == cls;
      assert IsTrail(world, trail + [next]);
      assert (trail + [next])[|trail|] == next;
      assert Reaches(world, root, next);
    }
  }

  /** A backed policy witnesses that the graph is plain. */
  lemma BackedIsPlain(world: World, policy: Policy)
    requires Backed(world, policy)
    ensures PlainGraph(world, policy.root)
  {
    forall cls | Reaches(world, policy.root, cls)
      ensures cls in world.classes && LocallyPlain(world, cls)
    {
      var trail :| IsTrail(world, trail) && trail[0] == policy.root && trail[|trail| - 1] == cls;
      ReachableIsApproved(world, policy, trail);
    }
  }

  /** `classify`; nothing for a root that is not a model, where it raises. */
  method Classify(world: World, root: Cls, facts: RootFacts) returns (policy: Option<Policy>)
    requires WellFormed(world)
    ensures policy.None? <==> root !in world.classes || !world.classes[root].ModelInfo?
    ensures policy.Some? ==> policy.value.root == root
    ensures policy.Some? ==> (policy.value.tier.Off? <==> OffReason(world.classes[root], facts).Some?)
    ensures policy.Some? && policy.value.tier.Full? ==> Backed(world, policy.value)
    ensures policy.Some? && OffReason(world.classes[root], facts).None? ==>
              (policy.value.tier.Full? <==>
               !facts.fields.NoSchema? && !facts.schemaUntrusted && PlainGraph(world, root))
    ensures policy.Some? && !policy.value.tier.Full? ==> policy.value.reason.Some?
    ensures policy.Some? && policy.value.tier.TopLevel? ==>
              policy.value.topLevel == TopLevelFields(world.classes[root], facts)
              && root in policy.value.tables.dumpKeys
              && policy.value.tables.dumpKeys[root] == KeyTable(world.classes[root].byAlias, world.classes[root].fields)
  {
    if root !in world.classes || !world.classes[root].ModelInfo? {
      return None;
    }
    var info := world.classes[root];
    var off := OffReason(info, facts);
    if off.Some? {
      return Some(OffPolicy(root, off.value));
    }
    var compiled := if facts.fields.NoSchema? then Some(SchemaUnavailable)
                    else if facts.schemaUntrusted then Some(SchemaSerialization)
                    else None;
    ghost var good: set<Cls> := {};
    if PlainGraph(world, root) {
      good := ReachIsClean(world, root);
    }
    var builder := new PolicyBuilder(world, good);
    var plain := builder.ClassIsPlain(root);
    if plain {
      BackedIsPlain(world, Policy(Full, root, builder.approved, builder.tables, {}, builder.reason));
    }
    if plain && compiled.None? {
      return Some(Policy(Full, root, builder.approved, builder.tables, {}, builder.reason));
    }
    var restorable := TopLevelFields(info, facts);
    var tables := builder.tables.(
      dumpKeys := builder.tables.dumpKeys[root := KeyTable(info.byAlias, info.fields)],
      neverRestore := builder.tables.neverRestore[root := FieldNames(info) - restorable]);
    return Some(Policy(TopLevel, root, builder.approved, tables, restorable,
      if builder.reason.Some? then builder.reason else compiled));
  }

  // ---------- Soundness over cyclic class graphs ----------

  /** Everything reachable from the root was checked: it is approved, plain in itself, recorded, and it has
      pairwise distinct dump keys and slots free of subclass pairs. */
  lemma {:induction false} ReachableIsApproved(world: World, policy: Policy, trail: seq<Cls>)
    requires Backed(world, policy)
    requires IsTrail(world, trail) && trail[0] == policy.root
    ensures var cls := trail[|trail| - 1];
      cls in policy.approved && Settled(world, policy.tables, policy.approved, cls)
  {
    var last := |trail| - 1;
    assert policy.approved + {} == policy.approved;
    if last > 0 {
      ReachableIsApproved(world, policy, trail[..last]);
      assert trail[last] in Successors(world, trail[last - 1]);
    }
  }

  /** The classes a slot declares are approved when the classes its annotation mentions are. */
  lemma {:induction false} SlotIsApproved(world: World, policy: Policy, annotation: Annotation, seen: set<Cls>)
    requires Sound(world, policy.tables, policy.approved, {})
    requires Targets(annotation) <= policy.approved
    ensures SlotClasses(world, annotation, seen) <= policy.approved
    decreases |world.classes.Keys - seen|, annotation, 1
  {
    match annotation
    case NewType(supertype) => SlotIsApproved(world, policy, supertype, seen);
    case Annotated(base, _) => SlotIsApproved(world, policy, base, seen);
    case Wrapper(inner) => SlotIsApproved(world, policy, inner, seen);
    case UnionOf(members) =>
      forall m | m in members
        ensures SlotClasses(world, m, seen) <= policy.approved
      {
        assert Targets(m) <= Targets(annotation);
        SlotIsApproved(world, policy, m, seen);
      }
    case Container(mapping, arguments) =>
      forall a | a in arguments && a.Some?
        ensures SlotClasses(world, a.value, seen) <= policy.approved
      {
        assert Targets(a.value) <= Targets(annotation);
        SlotIsApproved(world, policy, a.value, seen);
      }
    case Class(cls) =>
      if world.IsDict(cls) && cls !in seen {
        DictSlotIsApproved(world, policy, cls, seen);
      }
    case _ =>
  }

  lemma DictSlotIsApproved(world: World, policy: Policy, cls: Cls, seen: set<Cls>)
    requires Sound(world, policy.tables, policy.approved, {})
    requires cls in policy.approved && world.IsDict(cls) && cls !in seen
    ensures SlotClasses(world, Class(cls), seen) <= policy.approved
    decreases |world.classes.Keys - seen|, Class(cls), 0
  {
    hide Sound;
    var info := world.classes[cls];
    Shrinks(world, seen, cls);
    forall m | m in info.members
      ensures SlotClasses(world, m.annotation, seen + {cls}) <= policy.approved
    {
      MemberIsSlot(info.members, m);
      InnerSlotIsApproved(world, policy, cls, m.annotation, seen + {cls});
    }
    if info.extraItems.Some? {
      InnerSlotIsApproved(world, policy, cls, info.extraItems.value, seen + {cls});
    }
  }

  lemma InnerSlotIsApproved(world: World, policy: Policy, cls: Cls, annotation: Annotation, seen: set<Cls>)
    requires Sound(world, policy.tables, policy.approved, {})
    requires cls in policy.approved && cls in world.classes && annotation in Descended(world.classes[cls])
    ensures SlotClasses(world, annotation, seen) <= policy.approved
    decreases |world.classes.Keys - seen|, annotation, 2
  {
    hide Sound;
    DescendedIsApproved(world, policy, cls, annotation);
    SlotIsApproved(world, policy, annotation, seen);
  }

  /** What an approved class descends into mentions approved classes only. */
  lemma DescendedIsApproved(world: World, policy: Policy, cls: Cls, annotation: Annotation)
    requires Sound(world, policy.tables, policy.approved, {})
    requires cls in policy.approved
    requires cls in world.classes && annotation in Descended(world.classes[cls])
    ensures Targets(annotation) <= policy.approved
  {
    assert Settled(world, policy.tables, policy.approved + {}, cls);
    assert Targets(annotation) <= Successors(world, cls);
  }

  lemma {:induction false} MemberIsSlot(members: seq<Member>, member: Member)
    requires member in members
    ensures Slot(member.name, member.annotation) in DictSlots(members)
  {
    var last := members[|members| - 1];
    if member != last {
      assert member in members[..|members| - 1];
      MemberIsSlot(members[..|members| - 1], member);
    }
  }
}
