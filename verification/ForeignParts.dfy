/** What restoration leaves alone: values of classes that their slots do not declare, and keys that two things claim. */
module ForeignParts {
  import opened Classes
  import opened Policies
  import opened Restoration

  /** A model or dataclass value of a class that is not declared here or not approved. */
  predicate Foreign(world: World, policy: Policy, v: Arg, allowed: set<Cls>) {
    match v
    case ModelArg(cls, _, _, _, _, _) => cls !in policy.approved || cls !in allowed || !IsModel(world, cls)
    case DataArg(cls, _, _) => cls !in policy.approved || cls !in allowed || !IsData(world, cls)
    case _ => false
  }

  /** Two values that differ in foreign parts alone, and there in any way. */
  ghost predicate Alike(world: World, policy: Policy, v: Arg, w: Arg, allowed: set<Cls>)
    decreases v, 0
  {
    if Foreign(world, policy, v, allowed) then Foreign(world, policy, w, allowed)
    else
      match v
      case ModelArg(cls, attributes, fieldsSet, extras, _, _) =>
        && w.ModelArg? && w.cls == cls && w.fieldsSet == fieldsSet && AllAlike(world, policy, v, extras, w.extras, {})
        && w.attributes.Keys == attributes.Keys
        && forall name :: name in attributes ==>
             Alike(world, policy, attributes[name], w.attributes[name], SlotAt(policy, cls, name))
      case DataArg(cls, attributes, _) =>
        && w.DataArg? && w.cls == cls && w.attributes.Keys == attributes.Keys
        && forall name :: name in attributes ==>
             Alike(world, policy, attributes[name], w.attributes[name], SlotAt(policy, cls, name))
      case DictArg(entries) => w.DictArg? && AllAlike(world, policy, v, entries, w.entries, allowed)
      case ListArg(items) => w.ListArg? && ItemsAlike(world, policy, v, items, w.items, allowed)
      case TupleArg(items) => w.TupleArg? && ItemsAlike(world, policy, v, items, w.items, allowed)
      case _ => w == v
  }

  ghost predicate AllAlike(world: World, policy: Policy, owner: Arg, v: seq<Entry>, w: seq<Entry>, allowed: set<Cls>)
    requires forall k :: 0 <= k < |v| ==> v[k].arg < owner
    decreases owner, 0, 1
  {
    && |w| == |v|
    && forall k :: 0 <= k < |v| ==> w[k].key == v[k].key && Alike(world, policy, v[k].arg, w[k].arg, allowed)
  }

  ghost predicate ItemsAlike(world: World, policy: Policy, owner: Arg, v: seq<Arg>, w: seq<Arg>, allowed: set<Cls>)
    requires forall k :: 0 <= k < |v| ==> v[k] < owner
    decreases owner, 0, 1
  {
    |w| == |v| && forall k :: 0 <= k < |v| ==> Alike(world, policy, v[k], w[k], allowed)
  }

  lemma AlikeNulls(world: World, policy: Policy, v: Arg, w: Arg, allowed: set<Cls>)
    requires Alike(world, policy, v, w, allowed)
    ensures v.NullArg? <==> w.NullArg?
  {
  }

  // ---------- Places ----------

  ghost predicate PlaceAlike(world: World, policy: Policy, p: Place, q: Place) {
    q == p.(arg := q.arg) && Alike(world, policy, p.arg, q.arg, p.allowed)
  }

  ghost predicate PlacesAlike(world: World, policy: Policy, p: seq<Place>, q: seq<Place>) {
    |q| == |p| && forall k :: 0 <= k < |p| ==> PlaceAlike(world, policy, p[k], q[k])
  }

  lemma PlacesJoin(world: World, policy: Policy, a: seq<Place>, b: seq<Place>, c: seq<Place>, d: seq<Place>)
    requires PlacesAlike(world, policy, a, c) && PlacesAlike(world, policy, b, d)
    ensures PlacesAlike(world, policy, a + b, c + d)
  {
    hide PlaceAlike;
  }

  /** Two models of one class with attributes alike. */
  ghost predicate FieldsAlike(world: World, policy: Policy, v: Arg, w: Arg) {
    && v.ModelArg? && w.ModelArg? && IsModel(world, v.cls) && w.cls == v.cls
    && |w.extras| == |v.extras| && (forall k :: 0 <= k < |v.extras| ==> w.extras[k].key == v.extras[k].key)
    && w.attributes.Keys == v.attributes.Keys
    && forall name :: name in v.attributes ==>
         Alike(world, policy, v.attributes[name], w.attributes[name], SlotAt(policy, v.cls, name))
  }

  lemma SameExtraKeys(v: seq<Entry>, w: seq<Entry>)
    requires |w| == |v| && forall k :: 0 <= k < |v| ==> w[k].key == v[k].key
    ensures ExtraKeys(v) == ExtraKeys(w)
  {
    forall key
      ensures key in ExtraKeys(v) <==> key in ExtraKeys(w)
    {
      if key in ExtraKeys(v) {
        var k :| 0 <= k < |v| && v[k].key == key;
        assert w[k] in w;
      }
      if key in ExtraKeys(w) {
        var k :| 0 <= k < |w| && w[k].key == key;
        assert v[k] in v;
      }
    }
  }

  lemma {:induction false} FieldPlacesAlike(world: World, policy: Policy, v: Arg, w: Arg, names: seq<string>)
    requires FieldsAlike(world, policy, v, w)
    ensures PlacesAlike(world, policy, FieldPlaces(world, policy, v, names), FieldPlaces(world, policy, w, names))
  {
    hide Alike, SlotAt;
    if names != [] {
      FieldPlacesAlike(world, policy, v, w, names[1..]);
      SameExtraKeys(v.extras, w.extras);
      assert Alike(world, policy, NullArg, NullArg, SlotAt(policy, v.cls, names[0])) by { NullIsAlike(world, policy, SlotAt(policy, v.cls, names[0])); }
      var rest, rest' := FieldPlaces(world, policy, v, names[1..]), FieldPlaces(world, policy, w, names[1..]);
      if FieldOpen(world, policy, v, names[0]) {
        var allowed := SlotAt(policy, v.cls, names[0]);
        var key := RowAt(policy.tables.dumpKeys, v.cls)[names[0]];
        PlacesJoin(world, policy, [Place(key, AttributeOf(v.attributes, names[0]), allowed, true, true)], rest,
                   [Place(key, AttributeOf(w.attributes, names[0]), allowed, true, true)], rest');
      } else {
        assert [] + rest == rest && [] + rest' == rest';
      }
    }
  }

  lemma NullIsAlike(world: World, policy: Policy, allowed: set<Cls>)
    ensures Alike(world, policy, NullArg, NullArg, allowed)
  {
  }

  lemma {:induction false} EntryPlacesAlike(world: World, policy: Policy, v: Arg, w: Arg, entries: seq<Entry>,
                                            entries': seq<Entry>, allowed: set<Cls>, skipped: set<string>)
    requires (forall e :: e in entries ==> e.arg < v) && (forall e :: e in entries' ==> e.arg < w)
    requires |entries'| == |entries|
    requires forall k :: 0 <= k < |entries| ==>
               entries'[k].key == entries[k].key && Alike(world, policy, entries[k].arg, entries'[k].arg, allowed)
    ensures PlacesAlike(world, policy, EntryPlaces(v, entries, allowed, skipped), EntryPlaces(w, entries', allowed, skipped))
    decreases |entries|
  {
    hide Alike;
    if entries != [] {
      EntryPlacesAlike(world, policy, v, w, entries[1..], entries'[1..], allowed, skipped);
      var rest, rest' := EntryPlaces(v, entries[1..], allowed, skipped), EntryPlaces(w, entries'[1..], allowed, skipped);
      if entries[0].key in skipped {
        assert [] + rest == rest && [] + rest' == rest';
      } else {
        PlacesJoin(world, policy, [Place(entries[0].key, entries[0].arg, allowed, true, true)], rest,
                   [Place(entries'[0].key, entries'[0].arg, allowed, true, true)], rest');
      }
    }
  }

  lemma {:induction false} DataPlacesAlike(world: World, policy: Policy, v: Arg, w: Arg, fields: seq<DataField>)
    requires v.DataArg? && w.DataArg? && w.cls == v.cls && w.attributes.Keys == v.attributes.Keys
    requires forall name :: name in v.attributes ==>
               Alike(world, policy, v.attributes[name], w.attributes[name], SlotAt(policy, v.cls, name))
    ensures PlacesAlike(world, policy, DataPlaces(policy, v, fields), DataPlaces(policy, w, fields))
  {
    hide Alike, SlotAt, NamesAt, RowAt;
    if fields != [] {
      DataPlacesAlike(world, policy, v, w, fields[1..]);
      var rest, rest' := DataPlaces(policy, v, fields[1..]), DataPlaces(policy, w, fields[1..]);
      var name, keys := fields[0].name, RowAt(policy.tables.dumpKeys, v.cls);
      if name !in NamesAt(policy.tables.neverRestore, v.cls) && name in keys && name in v.attributes {
        var nulls, nested := name in NamesAt(policy.tables.nullRestorable, v.cls), name in NamesAt(policy.tables.requiredFields, v.cls);
        PlacesJoin(world, policy, [Place(keys[name], v.attributes[name], SlotAt(policy, v.cls, name), nulls, nested)], rest,
                   [Place(keys[name], w.attributes[name], SlotAt(policy, v.cls, name), nulls, nested)], rest');
      } else {
        assert [] + rest == rest && [] + rest' == rest';
      }
    }
  }

  // ---------- Restoration ----------

  lemma PlaceRestoresAlike(world: World, policy: Policy, v: Arg, w: Arg, p: Place, q: Place, dumped: map<string, Dump>)
    requires (p.arg.NullArg? || p.arg < v) && (q.arg.NullArg? || q.arg < w) && PlaceAlike(world, policy, p, q)
    ensures RestorePlace(world, policy, v, p, dumped) == RestorePlace(world, policy, w, q, dumped)
    decreases v, 0
  {
    hide Restore, Alike;
    AlikeNulls(world, policy, p.arg, q.arg, p.allowed);
    if !p.arg.NullArg? && p.nested && p.key in dumped {
      ForeignIsOpaque(world, policy, p.arg, q.arg, dumped[p.key], p.allowed);
    }
  }

  lemma {:induction false} PlacesRestoreAlike(world: World, policy: Policy, v: Arg, w: Arg, p: seq<Place>, q: seq<Place>,
                                              dumped: map<string, Dump>)
    requires (forall x :: x in p ==> x.arg.NullArg? || x.arg < v) && (forall x :: x in q ==> x.arg.NullArg? || x.arg < w)
    requires PlacesAlike(world, policy, p, q)
    ensures RestorePlaces(world, policy, v, p, dumped) == RestorePlaces(world, policy, w, q, dumped)
    decreases v, 1, |p|
  {
    hide RestorePlace, PlaceAlike;
    if p != [] {
      PlaceRestoresAlike(world, policy, v, w, p[0], q[0], dumped);
      PlacesRestoreAlike(world, policy, v, w, p[1..], q[1..], RestorePlace(world, policy, v, p[0], dumped));
    }
  }

  lemma {:induction false} SameNonNull(world: World, policy: Policy, v: seq<Arg>, w: seq<Arg>, allowed: set<Cls>, n: nat)
    requires |w| == |v| && n <= |v| && forall k :: 0 <= k < |v| ==> Alike(world, policy, v[k], w[k], allowed)
    ensures NonNull(v[..n]) == NonNull(w[..n])
  {
    hide Alike;
    if n > 0 {
      SameNonNull(world, policy, v, w, allowed, n - 1);
      AlikeNulls(world, policy, v[n - 1], w[n - 1], allowed);
      assert v[..n][..n - 1] == v[..n - 1] && w[..n][..n - 1] == w[..n - 1];
    }
  }

  lemma ItemsRestoreAlike(world: World, policy: Policy, v: Arg, w: Arg, items: seq<Arg>, items': seq<Arg>, dumped: seq<Dump>,
                          allowed: set<Cls>)
    requires (forall k :: 0 <= k < |items| ==> items[k] < v) && (forall k :: 0 <= k < |items'| ==> items'[k] < w)
    requires |items'| == |items| && forall k :: 0 <= k < |items| ==> Alike(world, policy, items[k], items'[k], allowed)
    ensures RestoreItems(world, policy, v, items, dumped, allowed) == RestoreItems(world, policy, w, items', dumped, allowed)
    decreases v, 1
  {
    hide Restore, Alike;
    forall k: nat | k < |items|
      ensures items[k].NullArg? <==> items'[k].NullArg?
      ensures NonNull(items[..k]) == NonNull(items'[..k])
    {
      AlikeNulls(world, policy, items[k], items'[k], allowed);
      SameNonNull(world, policy, items, items', allowed, k);
    }
    SameNonNull(world, policy, items, items', allowed, |items|);
    assert items[..|items|] == items && items'[..|items|] == items';
    forall k: nat, d | k < |items|
      ensures Restore(world, policy, items[k], d, allowed) == Restore(world, policy, items'[k], d, allowed)
    {
      ForeignIsOpaque(world, policy, items[k], items'[k], d, allowed);
    }
    if |dumped| == |items| {
      assert RestoreAligned(world, policy, v, items, dumped, allowed) == RestoreAligned(world, policy, w, items', dumped, allowed);
    } else if |dumped| == NonNull(items) {
      assert RestoreDropped(world, policy, v, items, dumped, allowed) == RestoreDropped(world, policy, w, items', dumped, allowed);
    }
  }

  lemma ModelRestoresAlike(world: World, policy: Policy, v: Arg, w: Arg, dumped: Dump, allowed: set<Cls>)
    requires v.ModelArg? && !Foreign(world, policy, v, allowed) && Alike(world, policy, v, w, allowed)
    ensures Restore(world, policy, v, dumped, allowed) == Restore(world, policy, w, dumped, allowed)
    decreases v, 2
  {
    hide FieldPlaces, EntryPlaces, SlotAt, RestorePlaces;
    if world.classes[v.cls].rootModel {
      if "root" in v.attributes {
        ForeignIsOpaque(world, policy, v.attributes["root"], w.attributes["root"], dumped, SlotAt(policy, v.cls, "root"));
      }
    } else if dumped.DictDump? {
      FieldPlacesAlike(world, policy, v, w, v.fieldsSet);
      SameExtraKeys(v.extras, w.extras);
      var collisions := Collisions(world, policy, v.cls, v.extras);
      EntryPlacesAlike(world, policy, v, w, v.extras, w.extras, {}, collisions);
      PlacesJoin(world, policy, FieldPlaces(world, policy, v, v.fieldsSet), EntryPlaces(v, v.extras, {}, collisions),
                 FieldPlaces(world, policy, w, v.fieldsSet), EntryPlaces(w, w.extras, {}, collisions));
      PlacesRestoreAlike(world, policy, v, w, ModelPlaces(world, policy, v), ModelPlaces(world, policy, w), dumped.entries);
    }
  }

  /** Values that differ in foreign parts alone restore alike, whatever is in those parts: what was dumped for them stays
      as it is. */
  lemma {:induction false} ForeignIsOpaque(world: World, policy: Policy, v: Arg, w: Arg, dumped: Dump, allowed: set<Cls>)
    requires Alike(world, policy, v, w, allowed)
    ensures Restore(world, policy, v, dumped, allowed) == Restore(world, policy, w, dumped, allowed)
    decreases v, 3
  {
    hide RestorePlaces, RestoreItems, DataPlaces, EntryPlaces, ModelPlaces;
    if !Foreign(world, policy, v, allowed) {
      match v
      case ModelArg(_, _, _, _, _, _) => ModelRestoresAlike(world, policy, v, w, dumped, allowed);
      case DataArg(cls, _, _) =>
        if dumped.DictDump? {
          var fields := world.classes[cls].dataFields;
          DataPlacesAlike(world, policy, v, w, fields);
          PlacesRestoreAlike(world, policy, v, w, DataPlaces(policy, v, fields), DataPlaces(policy, w, fields), dumped.entries);
        }
      case DictArg(entries) =>
        if dumped.DictDump? {
          EntryPlacesAlike(world, policy, v, w, entries, w.entries, allowed, {});
          PlacesRestoreAlike(world, policy, v, w, EntryPlaces(v, entries, allowed, {}), EntryPlaces(w, w.entries, allowed, {}),
                             dumped.entries);
        }
      case ListArg(items) =>
        if dumped.ListDump? {
          ItemsRestoreAlike(world, policy, v, w, items, w.items, dumped.items, allowed);
        }
      case TupleArg(items) =>
        if dumped.TupleDump? {
          ItemsRestoreAlike(world, policy, v, w, items, w.items, dumped.items, allowed);
        }
      case _ =>
    }
  }

  // ---------- Contested keys ----------

  lemma {:induction false} OtherKeysStay(world: World, policy: Policy, owner: Arg, places: seq<Place>, dumped: map<string, Dump>,
                                         key: string)
    requires forall p :: p in places ==> p.arg.NullArg? || p.arg < owner
    requires forall p :: p in places ==> p.key != key
    ensures var restored := RestorePlaces(world, policy, owner, places, dumped);
      (key in restored <==> key in dumped) && (key in dumped ==> restored[key] == dumped[key])
    decreases |places|
  {
    hide Restore;
    if places != [] {
      OtherKeysStay(world, policy, owner, places[1..], RestorePlace(world, policy, owner, places[0], dumped), key);
    }
  }

  lemma {:induction false} FieldPlacesAvoid(world: World, policy: Policy, arg: Arg, names: seq<string>)
    requires arg.ModelArg? && IsModel(world, arg.cls)
    ensures forall p :: p in FieldPlaces(world, policy, arg, names) ==> p.key !in Collisions(world, policy, arg.cls, arg.extras)
  {
    hide Collisions;
    if names != [] {
      FieldPlacesAvoid(world, policy, arg, names[1..]);
    }
  }

  lemma {:induction false} EntryPlacesAvoid(owner: Arg, entries: seq<Entry>, allowed: set<Cls>, skipped: set<string>)
    requires forall e :: e in entries ==> e.arg < owner
    ensures forall p :: p in EntryPlaces(owner, entries, allowed, skipped) ==> p.key !in skipped
  {
    if entries != [] {
      EntryPlacesAvoid(owner, entries[1..], allowed, skipped);
    }
  }

  /** A key that an extra claims together with a dumped field or a computed field of its model stays as it was dumped. */
  lemma ContestedKeysStay(world: World, policy: Policy, arg: Arg, dumped: map<string, Dump>, allowed: set<Cls>, key: string)
    requires arg.ModelArg? && IsModel(world, arg.cls) && !world.classes[arg.cls].rootModel
    requires exists e :: e in arg.extras && e.key == key
    requires var keys := RowAt(policy.tables.dumpKeys, arg.cls);
      || key in NamesAt(policy.tables.computedKeys, arg.cls)
      || exists name :: name in keys && keys[name] == key
                        && forall f :: f in world.classes[arg.cls].fields && f.name == name ==> !f.exclude
    ensures var restored := Restore(world, policy, arg, DictDump(dumped), allowed);
      && restored.DictDump? && (key in restored.entries <==> key in dumped)
      && (key in dumped ==> restored.entries[key] == dumped[key])
  {
    hide FieldPlaces, EntryPlaces, RestorePlaces;
    var collisions := Collisions(world, policy, arg.cls, arg.extras);
    assert key in collisions;
    FieldPlacesAvoid(world, policy, arg, arg.fieldsSet);
    EntryPlacesAvoid(arg, arg.extras, {}, collisions);
    assert forall p :: p in ModelPlaces(world, policy, arg) ==> p.key !in collisions;
    OtherKeysStay(world, policy, arg, ModelPlaces(world, policy, arg), dumped, key);
  }
}
