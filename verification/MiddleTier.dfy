/** What the tiers below the strongest restore: nulls of root fields whose dump entry nothing may rewrite. */
module MiddleTier {
  import opened Values
  import opened Classes
  import opened Classifier
  import opened Policies
  import opened Restoration
  import opened FullDumps

  // ---------- What may rewrite a root field ----------

  /** One annotation is written inside another, without crossing into a class. */
  ghost predicate Within(part: Annotation, annotation: Annotation) {
    || part == annotation
    || match annotation
       case NewType(supertype) => Within(part, supertype)
       case Annotated(base, _) => Within(part, base)
       case Wrapper(inner) => Within(part, inner)
       case UnionOf(members) => exists m :: m in members && Within(part, m)
       case Container(_, arguments) => exists a :: a in arguments && a.Some? && Within(part, a.value)
       case _ => false
  }

  /** An annotation with serializer metadata, or an alias that hides what it stands for. */
  predicate CarriesSerializer(part: Annotation) {
    (part.Annotated? && HasSerializer(part.metadata)) || part == Unsupported(true)
  }

  /** The whole dump of the root may be written by something else. */
  predicate Overridden(info: ClassInfo, facts: RootFacts)
    requires info.ModelInfo?
  {
    facts.modelSerializer || info.customSchema || facts.dumpOverride || facts.rootSpineUntrusted
  }

  /** Some part of the field's annotation, a field serializer or the compiled field may rewrite its value. */
  ghost predicate Rewritable(facts: RootFacts, field: Field) {
    || (exists part :: Within(part, field.annotation) && CarriesSerializer(part))
    || facts.allFieldsSerialized || field.name in facts.serializedFields
    || facts.fields.NoFields? || (facts.fields.Trusted? && field.name !in facts.fields.names)
  }

  /** Its dump entry may be missing, or belong to something else. */
  ghost predicate Contested(info: ClassInfo, i: nat)
    requires info.ModelInfo? && i < |info.fields|
  {
    var key := DumpKey(info.byAlias, info.fields[i]);
    || info.fields[i].exclude || info.fields[i].excludeIf
    || (exists j :: 0 <= j < |info.fields| && j != i && !info.fields[j].exclude && DumpKey(info.byAlias, info.fields[j]) == key)
    || (exists j :: 0 <= j < |info.computed| && ComputedKey(info.byAlias, info.computed[j]) == key)
  }

  /** Nothing may rewrite or take the entry of this field. */
  ghost predicate Vouched(info: ClassInfo, facts: RootFacts, i: nat)
    requires info.ModelInfo? && i < |info.fields|
  {
    !Overridden(info, facts) && !Rewritable(facts, info.fields[i]) && !Contested(info, i)
  }

  lemma {:induction false} SerializerWithin(annotation: Annotation)
    ensures AnnotationSerializes(annotation) <==> exists part :: Within(part, annotation) && CarriesSerializer(part)
  {
    hide HasSerializer;
    if AnnotationSerializes(annotation) {
      SerializerFound(annotation);
    }
    if exists part :: Within(part, annotation) && CarriesSerializer(part) {
      var part :| Within(part, annotation) && CarriesSerializer(part);
      SerializerKept(part, annotation);
    }
  }

  lemma {:induction false} SerializerFound(annotation: Annotation)
    requires AnnotationSerializes(annotation)
    ensures exists part :: Within(part, annotation) && CarriesSerializer(part)
  {
    hide HasSerializer;
    if CarriesSerializer(annotation) {
      assert Within(annotation, annotation);
    } else {
      var inner := SerializingPart(annotation);
      SerializerFound(inner);
      var part :| Within(part, inner) && CarriesSerializer(part);
      assert Within(part, annotation);
    }
  }

  lemma SerializingPart(annotation: Annotation) returns (inner: Annotation)
    requires AnnotationSerializes(annotation) && !CarriesSerializer(annotation)
    ensures inner < annotation && AnnotationSerializes(inner)
    ensures forall part :: Within(part, inner) ==> Within(part, annotation)
  {
    hide HasSerializer;
    match annotation
    case NewType(supertype) => inner := supertype;
    case Annotated(base, _) => inner := base;
    case Wrapper(wrapped) => inner := wrapped;
    case UnionOf(members) =>
      inner :| inner in members && AnnotationSerializes(inner);
    case Container(_, arguments) =>
      var a :| a in arguments && a.Some? && AnnotationSerializes(a.value);
      inner := a.value;
  }

  lemma {:induction false} SerializerKept(part: Annotation, annotation: Annotation)
    requires Within(part, annotation) && CarriesSerializer(part)
    ensures AnnotationSerializes(annotation)
  {
    hide HasSerializer;
    if part != annotation {
      match annotation
      case NewType(supertype) => SerializerKept(part, supertype);
      case Annotated(base, _) => SerializerKept(part, base);
      case Wrapper(inner) => SerializerKept(part, inner);
      case UnionOf(members) =>
        var m :| m in members && Within(part, m);
        SerializerKept(part, m);
      case Container(_, arguments) =>
        var a :| a in arguments && a.Some? && Within(part, a.value);
        SerializerKept(part, a.value);
      case _ =>
    }
  }

  // ---------- Claims ----------

  /** The last field claims its key unless it is excluded. */
  lemma LastClaims(byAlias: bool, fields: seq<Field>, key: string)
    requires fields != []
    ensures var last := fields[|fields| - 1];
      CountOf(FieldKeys(byAlias, fields), key)
      == CountOf(FieldKeys(byAlias, fields[..|fields| - 1]), key)
         + (if !last.exclude && DumpKey(byAlias, last) == key then 1 else 0)
  {
    hide DumpKey;
    var init, last := fields[..|fields| - 1], fields[|fields| - 1];
    var keys := FieldKeys(byAlias, init);
    assert (keys + [DumpKey(byAlias, last)])[..|keys|] == keys;
    assert keys + [] == keys;
  }

  /** The fields dumped under a key. */
  lemma {:induction false} KeyClaims(byAlias: bool, fields: seq<Field>, i: nat)
    requires i < |fields| && !fields[i].exclude
    ensures var key := DumpKey(byAlias, fields[i]);
      && CountOf(FieldKeys(byAlias, fields), key) >= 1
      && (CountOf(FieldKeys(byAlias, fields), key) == 1 <==>
          forall j :: 0 <= j < |fields| && j != i && !fields[j].exclude ==> DumpKey(byAlias, fields[j]) != key)
  {
    hide DumpKey, FieldKeys, CountOf;
    var key, init := DumpKey(byAlias, fields[i]), fields[..|fields| - 1];
    LastClaims(byAlias, fields, key);
    assert forall j :: 0 <= j < |init| ==> fields[j] == init[j];
    if i < |init| {
      KeyClaims(byAlias, init, i);
    } else {
      NoClaims(byAlias, init, key);
    }
  }

  lemma {:induction false} NoClaims(byAlias: bool, fields: seq<Field>, key: string)
    ensures CountOf(FieldKeys(byAlias, fields), key) == 0 <==>
            forall j :: 0 <= j < |fields| && !fields[j].exclude ==> DumpKey(byAlias, fields[j]) != key
  {
    if fields != [] {
      var init := fields[..|fields| - 1];
      NoClaims(byAlias, init, key);
      LastClaims(byAlias, fields, key);
      hide DumpKey, FieldKeys, CountOf;
      assert forall j :: 0 <= j < |init| ==> fields[j] == init[j];
    }
  }

  lemma ComputedClaims(info: ClassInfo, key: string)
    requires info.ModelInfo?
    ensures key in ComputedKeys(info.byAlias, info.computed) <==>
            exists j :: 0 <= j < |info.computed| && ComputedKey(info.byAlias, info.computed[j]) == key
  {
    var keys := ComputedKeys(info.byAlias, info.computed);
    if j :| 0 <= j < |info.computed| && ComputedKey(info.byAlias, info.computed[j]) == key {
      assert keys[j] == key;
    }
  }

  /** The fields the middle tier restores are the vouched ones. */
  lemma RestorableIsVouched(info: ClassInfo, facts: RootFacts, i: nat)
    requires info.ModelInfo? && i < |info.fields| && OffReason(info, facts).None?
    ensures TopLevelRestorable(info, facts, info.fields[i]) <==> Vouched(info, facts, i)
  {
    hide AnnotationSerializes, Within, CountOf, FieldKeys, ComputedKeys;
    var field := info.fields[i];
    SerializerWithin(field.annotation);
    ComputedClaims(info, DumpKey(info.byAlias, field));
    if !field.exclude {
      KeyClaims(info.byAlias, info.fields, i);
    }
  }

  // ---------- Restoration under the middle tier ----------

  /** A policy as `classify` issues it at the middle tier. */
  ghost predicate Issued(world: World, policy: Policy, facts: RootFacts) {
    && policy.tier.TopLevel? && IsModel(world, policy.root)
    && var info := world.classes[policy.root];
      && OffReason(info, facts).None?
      && policy.topLevel == TopLevelFields(info, facts)
      && policy.root in policy.tables.dumpKeys
      && policy.tables.dumpKeys[policy.root] == KeyTable(info.byAlias, info.fields)
  }

  /** A null the caller set in a vouched field, and its key. */
  ghost predicate VouchedNull(info: ClassInfo, facts: RootFacts, validated: Arg, i: nat, key: string)
    requires info.ModelInfo? && validated.ModelArg?
  {
    && i < |info.fields| && Vouched(info, facts, i) && DumpKey(info.byAlias, info.fields[i]) == key
    && info.fields[i].name in validated.fieldsSet
    && AttributeOf(validated.attributes, info.fields[i].name).NullArg?
  }

  lemma {:induction false} TableLists(byAlias: bool, fields: seq<Field>, i: nat)
    requires NamesApart(fields) && i < |fields|
    ensures var keys := KeyTable(byAlias, fields);
      fields[i].name in keys && keys[fields[i].name] == DumpKey(byAlias, fields[i])
  {
    if i < |fields| - 1 {
      TableLists(byAlias, fields[..|fields| - 1], i);
    }
  }

  /** The field behind a name the middle tier restores. */
  lemma RestorableField(info: ClassInfo, facts: RootFacts, name: string) returns (i: nat)
    requires info.ModelInfo? && name in TopLevelFields(info, facts) && OffReason(info, facts).None?
    ensures i < |info.fields| && info.fields[i].name == name && Vouched(info, facts, i)
  {
    hide TopLevelRestorable, Vouched;
    var f :| f in info.fields && TopLevelRestorable(info, facts, f) && f.name == name;
    i :| 0 <= i < |info.fields| && info.fields[i] == f;
    RestorableIsVouched(info, facts, i);
  }

  /** A place among those of some set fields. */
  ghost predicate NullPlaced(policy: Policy, validated: Arg, names: seq<string>, key: string)
    requires validated.ModelArg?
  {
    exists n :: 0 <= n < |names| && names[n] in policy.topLevel && names[n] in RowAt(policy.tables.dumpKeys, policy.root)
                && RowAt(policy.tables.dumpKeys, policy.root)[names[n]] == key
                && AttributeOf(validated.attributes, names[n]).NullArg?
  }

  /** Exactly the missing nulls of the places are put in. */
  lemma {:induction false} PlacesInsert(world: World, policy: Policy, validated: Arg, names: seq<string>,
                                        dumped: map<string, Dump>)
    requires validated.ModelArg?
    ensures var restored := RestorePlaces(world, policy, validated, TopLevelPlaces(policy, validated, names), dumped);
      && (forall key :: key in restored <==> key in dumped || NullPlaced(policy, validated, names, key))
      && (forall key :: key in restored ==> restored[key] == if key in dumped then dumped[key] else NullDump)
    decreases |names|
  {
    hide Restore;
    if names == [] {
    } else {
      var rest := names[1..];
      var keys := RowAt(policy.tables.dumpKeys, policy.root);
      var taken := names[0] in policy.topLevel && names[0] in keys;
      var here := taken && AttributeOf(validated.attributes, names[0]).NullArg?;
      var once := if here && keys[names[0]] !in dumped then dumped[keys[names[0]] := NullDump] else dumped;
      PlacesInsert(world, policy, validated, rest, once);
      PlacesStep(world, policy, validated, names, dumped, once);
      forall key
        ensures NullPlaced(policy, validated, names, key) <==>
                (here && keys[names[0]] == key) || NullPlaced(policy, validated, rest, key)
      {
        NullPlacedStep(policy, validated, names, key);
      }
    }
  }

  lemma PlacesStep(world: World, policy: Policy, validated: Arg, names: seq<string>, dumped: map<string, Dump>,
                   once: map<string, Dump>)
    requires validated.ModelArg? && names != []
    requires var keys := RowAt(policy.tables.dumpKeys, policy.root);
      once == if names[0] in policy.topLevel && names[0] in keys && AttributeOf(validated.attributes, names[0]).NullArg?
                 && keys[names[0]] !in dumped
              then dumped[keys[names[0]] := NullDump] else dumped
    ensures RestorePlaces(world, policy, validated, TopLevelPlaces(policy, validated, names), dumped)
         == RestorePlaces(world, policy, validated, TopLevelPlaces(policy, validated, names[1..]), once)
  {
    hide Restore;
    var keys := RowAt(policy.tables.dumpKeys, policy.root);
    var places, rest := TopLevelPlaces(policy, validated, names), TopLevelPlaces(policy, validated, names[1..]);
    if names[0] in policy.topLevel && names[0] in keys {
      var place := Place(keys[names[0]], AttributeOf(validated.attributes, names[0]), {}, true, false);
      assert places == [place] + rest;
      assert places[0] == place && places[1..] == rest;
      assert RestorePlace(world, policy, validated, place, dumped) == once;
    } else {
      assert places == [] + rest == rest;
    }
  }

  lemma NullPlacedStep(policy: Policy, validated: Arg, names: seq<string>, key: string)
    requires validated.ModelArg? && names != []
    ensures NullPlaced(policy, validated, names, key) <==>
            NullPlaced(policy, validated, [names[0]], key) || NullPlaced(policy, validated, names[1..], key)
  {
    var keys, rest := RowAt(policy.tables.dumpKeys, policy.root), names[1..];
    if NullPlaced(policy, validated, names, key) {
      var n :| 0 <= n < |names| && names[n] in policy.topLevel && names[n] in keys && keys[names[n]] == key
               && AttributeOf(validated.attributes, names[n]).NullArg?;
      if n > 0 {
        assert rest[n - 1] == names[n];
      } else {
        assert [names[0]][0] == names[n];
      }
    }
    if NullPlaced(policy, validated, rest, key) {
      var n :| 0 <= n < |rest| && rest[n] in policy.topLevel && rest[n] in keys && keys[rest[n]] == key
               && AttributeOf(validated.attributes, rest[n]).NullArg?;
      assert names[n + 1] == rest[n];
    }
  }

  /** The places are the vouched nulls. */
  lemma PlacedIsVouched(world: World, policy: Policy, facts: RootFacts, validated: Arg, key: string)
    requires Issued(world, policy, facts) && FieldsNamed(world) && validated.ModelArg?
    ensures NullPlaced(policy, validated, validated.fieldsSet, key) <==>
            exists i: nat :: VouchedNull(world.classes[policy.root], facts, validated, i, key)
  {
    hide Vouched, TopLevelFields;
    var info := world.classes[policy.root];
    var keys, names := RowAt(policy.tables.dumpKeys, policy.root), validated.fieldsSet;
    if NullPlaced(policy, validated, names, key) {
      var n :| 0 <= n < |names| && names[n] in policy.topLevel && names[n] in keys && keys[names[n]] == key
               && AttributeOf(validated.attributes, names[n]).NullArg?;
      var i := RestorableField(info, facts, names[n]);
      TableLists(info.byAlias, info.fields, i);
      assert VouchedNull(info, facts, validated, i, key);
    }
    if exists i: nat :: VouchedNull(info, facts, validated, i, key) {
      var i: nat :| VouchedNull(info, facts, validated, i, key);
      TableLists(info.byAlias, info.fields, i);
      VouchedIsRestorable(info, facts, i);
      var n :| 0 <= n < |names| && names[n] == info.fields[i].name;
      assert names[n] in policy.topLevel && keys[names[n]] == key;
    }
  }

  lemma VouchedIsRestorable(info: ClassInfo, facts: RootFacts, i: nat)
    requires info.ModelInfo? && i < |info.fields| && Vouched(info, facts, i) && OffReason(info, facts).None?
    ensures info.fields[i].name in TopLevelFields(info, facts)
  {
    hide TopLevelRestorable, Vouched;
    RestorableIsVouched(info, facts, i);
  }

  /** A dump that drops nothing, as far as it is known: the entry of a vouched field is its value, or that of an extra of
      the same key; every other entry is anything. Root models dump without keys. */
  ghost predicate PossibleFull(world: World, facts: RootFacts, validated: Arg, full: map<string, Dump>)
    requires validated.ModelArg? && IsModel(world, validated.cls)
  {
    var info := world.classes[validated.cls];
    && !info.rootModel
    && forall i: nat :: i < |info.fields| && Vouched(info, facts, i) ==>
      var key := DumpKey(info.byAlias, info.fields[i]);
      && key in full
      && (full[key] == FullDump(world, AttributeOf(validated.attributes, info.fields[i].name))
          || exists e :: e in validated.extras && e.key == key && full[key] == FullDump(world, e.arg))
  }

  /** A dump that keeps extras other than null. */
  ghost predicate KeepsExtras(validated: Arg, dumped: map<string, Dump>)
    requires validated.ModelArg?
  {
    forall e :: e in validated.extras && !e.arg.NullArg? ==> e.key in dumped
  }

  /** The middle tier puts in exactly the missing nulls that the caller set in vouched fields, and each of them is in
      every dump that drops nothing. */
  lemma MiddleTierVouches(world: World, policy: Policy, facts: RootFacts, validated: Arg, dumped: map<string, Dump>)
    requires Issued(world, policy, facts) && FieldsNamed(world) && validated.ModelArg? && validated.cls == policy.root
    ensures var info, restored := world.classes[policy.root], RestoreExplicitNulls(world, validated, dumped, policy);
      && (forall key :: key in restored <==>
            key in dumped || exists i: nat :: VouchedNull(info, facts, validated, i, key))
      && (forall key :: key in restored ==> restored[key] == if key in dumped then dumped[key] else NullDump)
    ensures var restored := RestoreExplicitNulls(world, validated, dumped, policy);
      KeepsExtras(validated, dumped) ==>
        forall full, key :: PossibleFull(world, facts, validated, full) && key in restored && key !in dumped ==>
          key in full && full[key] == NullDump
  {
    hide RestorePlaces, TopLevelPlaces, NullPlaced, Vouched, RowAt;
    var info, restored := world.classes[policy.root], RestoreExplicitNulls(world, validated, dumped, policy);
    PlacesInsert(world, policy, validated, validated.fieldsSet, dumped);
    forall key
      ensures NullPlaced(policy, validated, validated.fieldsSet, key) <==>
              exists i: nat :: VouchedNull(info, facts, validated, i, key)
    {
      PlacedIsVouched(world, policy, facts, validated, key);
    }
    if KeepsExtras(validated, dumped) {
      forall full, key | PossibleFull(world, facts, validated, full) && key in restored && key !in dumped
        ensures key in full && full[key] == NullDump
      {
        var i: nat :| VouchedNull(info, facts, validated, i, key);
        VouchedNullIsFull(world, facts, validated, full, i, key, dumped);
      }
    }
  }

  lemma VouchedNullIsFull(world: World, facts: RootFacts, validated: Arg, full: map<string, Dump>, i: nat, key: string,
                          dumped: map<string, Dump>)
    requires validated.ModelArg? && IsModel(world, validated.cls) && PossibleFull(world, facts, validated, full)
    requires VouchedNull(world.classes[validated.cls], facts, validated, i, key)
    requires KeepsExtras(validated, dumped) && key !in dumped
    ensures key in full && full[key] == NullDump
  {
    hide Vouched;
  }

  /** Where nothing may be restored nothing is vouched for. */
  lemma OffVouchesNothing(info: ClassInfo, facts: RootFacts, validated: Arg)
    requires info.ModelInfo? && validated.ModelArg? && OffReason(info, facts).Some?
    ensures forall i: nat, key :: !VouchedNull(info, facts, validated, i, key)
  {
  }

  /** Classification and restoration in a row: what a model below the strongest tier gets back. */
  method ClassifyAndVouch(world: World, validated: Arg, facts: RootFacts, dumped: map<string, Dump>)
    returns (tier: Tier, restored: map<string, Dump>)
    requires WellFormed(world) && FieldsNamed(world)
    requires validated.ModelArg? && IsModel(world, validated.cls)
    ensures var info := world.classes[validated.cls];
      !tier.Full? ==>
        && (forall key :: key in restored <==>
              key in dumped || exists i: nat :: VouchedNull(info, facts, validated, i, key))
        && (forall key :: key in restored ==> restored[key] == if key in dumped then dumped[key] else NullDump)
    ensures !tier.Full? && KeepsExtras(validated, dumped) ==>
              forall full, key :: PossibleFull(world, facts, validated, full) && key in restored && key !in dumped ==>
                key in full && full[key] == NullDump
  {
    hide Backed, VouchedNull, PossibleFull, OffReason, TopLevelFields, KeyTable, RestorePlaces, TopLevelPlaces, Restore;
    var classified := Classify(world, validated.cls, facts);
    var policy := classified.value;
    tier, restored := policy.tier, RestoreExplicitNulls(world, validated, dumped, policy);
    if tier.TopLevel? {
      MiddleTierVouches(world, policy, facts, validated, dumped);
    } else if tier.Off? {
      OffVouchesNothing(world.classes[validated.cls], facts, validated);
    }
  }
}
