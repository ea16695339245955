/** Restoration inverts the dropping of nulls. */
module RoundTrip {
  import opened Classes
  import opened Classifier
  import opened Policies
  import opened Restoration
  import opened RestorationLaws
  import opened FullDumps
  import opened ClassPlaces

  // ---------- One mapping ----------

  lemma MappingInverts(world: World, policy: Policy, owner: Arg, places: seq<Place>, full: map<string, Dump>,
                       lossy: map<string, Dump>)
    requires Backed(world, policy) && FieldsNamed(world)
    requires forall p :: p in places ==> p.arg.NullArg? || p.arg < owner
    requires MappingFaithful(world, policy, places, full)
    requires Dropped(DictDump(full), DictDump(lossy))
    ensures RestorePlaces(world, policy, owner, places, lossy) == full
    decreases owner, 2
  {
    hide Restore, FullDump, Restorable, RestorePlaces, NullFree, Backed, FieldsNamed;
    var after := RestorePlaces(world, policy, owner, places, lossy);
    PlacesActApart(world, policy, owner, places, lossy);
    forall key
      ensures key in full <==> key in after
      ensures key in full ==> after[key] == full[key]
    {
      if HasKey(places, key) {
        var p :| p in places && p.key == key;
        PlaceInverts(world, policy, owner, p, full, lossy, after);
      } else {
        assert SameAt(lossy, after, key);
        if key in full {
          EntrySurvives(full, lossy, key);
        }
      }
    }
    assert after.Keys == full.Keys;
  }

  lemma EntrySurvives(full: map<string, Dump>, lossy: map<string, Dump>, key: string)
    requires Dropped(DictDump(full), DictDump(lossy)) && key in full && NullFree(full[key])
    ensures key in lossy && lossy[key] == full[key]
  {
    if key in lossy {
      NullFreeSurvives(full[key], lossy[key]);
    }
  }

  lemma PlaceInverts(world: World, policy: Policy, owner: Arg, place: Place, full: map<string, Dump>,
                     lossy: map<string, Dump>, after: map<string, Dump>)
    requires Backed(world, policy) && FieldsNamed(world)
    requires place.arg.NullArg? || place.arg < owner
    requires PlaceFaithful(world, policy, place, full)
    requires Dropped(DictDump(full), DictDump(lossy))
    requires PlaceDone(world, policy, place, lossy, after)
    ensures place.key in full && place.key in after && after[place.key] == full[place.key]
    decreases owner, 1
  {
    hide Restore, FullDump, Restorable, NullFree, Backed, FieldsNamed;
    var key := place.key;
    if !place.arg.NullArg? {
      if place.nested {
        RestoreInverts(world, policy, place.arg, lossy[key], place.allowed);
      } else {
        EntrySurvives(full, lossy, key);
      }
    }
  }

  // ---------- One sequence ----------

  lemma {:induction false} AllKept(full: seq<Dump>, lossy: seq<Dump>)
    requires ItemsDropped(full, lossy, true)
    ensures |lossy| == |full| && forall k :: 0 <= k < |full| ==> Dropped(full[k], lossy[k])
  {
    if full != [] {
      AllKept(full[1..], lossy[1..]);
      assert full == [full[0]] + full[1..] && lossy == [lossy[0]] + lossy[1..];
    }
  }

  lemma {:induction false} NullsGone(items: seq<Arg>, full: seq<Dump>, lossy: seq<Dump>, k: nat)
    requires |full| == |items| && k <= |items|
    requires forall j :: 0 <= j < |items| ==> (items[j].NullArg? <==> full[j].NullDump?)
    requires ItemsDropped(full, lossy, false)
    ensures NonNull(items[..k]) <= |lossy| && ItemsDropped(full[k..], lossy[NonNull(items[..k])..], false)
  {
    if k == 0 {
      assert full[0..] == full && lossy[0..] == lossy && items[..0] == [];
    } else {
      NullsGone(items, full, lossy, k - 1);
      assert items[..k][..k - 1] == items[..k - 1];
      assert full[k - 1..][0] == full[k - 1] && full[k - 1..][1..] == full[k..];
      var at := NonNull(items[..k - 1]);
      if !full[k - 1].NullDump? {
        assert lossy[at..][1..] == lossy[at + 1..];
      }
    }
  }

  lemma {:induction false} NonNullBounds(items: seq<Arg>, k: nat)
    requires k <= |items|
    ensures NonNull(items[..k]) <= k
    ensures NonNull(items) <= NonNull(items[..k]) + (|items| - k)
    decreases |items|
  {
    if |items| == k {
      assert items[..k] == items;
      if k > 0 {
        NonNullBounds(items[..k - 1], k - 1);
        assert items[..k - 1][..k - 1] == items[..k - 1];
      }
    } else {
      var init := items[..|items| - 1];
      NonNullBounds(init, k);
      assert init[..k] == items[..k];
    }
  }

  ghost predicate ItemsRestorable(world: World, items: seq<Arg>, allowed: set<Cls>) {
    forall k :: 0 <= k < |items| ==> Faithful(world, items[k]) && Restorable(world, items[k], allowed)
  }

  lemma KeptItemsInvert(world: World, policy: Policy, owner: Arg, items: seq<Arg>, lossy: seq<Dump>, allowed: set<Cls>)
    requires Backed(world, policy) && FieldsNamed(world) && allowed <= policy.approved
    requires forall k :: 0 <= k < |items| ==> items[k] < owner
    requires ItemsRestorable(world, items, allowed)
    requires ItemsDropped(FullItems(world, owner, items), lossy, true)
    ensures RestoreItems(world, policy, owner, items, lossy, allowed) == FullItems(world, owner, items)
    decreases owner, 2
  {
    hide Restore, Restorable, FullDump, Backed, FieldsNamed;
    var full := FullItems(world, owner, items);
    AllKept(full, lossy);
    var restored := RestoreAligned(world, policy, owner, items, lossy, allowed);
    forall k | 0 <= k < |items|
      ensures restored[k] == full[k]
    {
      assert Faithful(world, items[k]) && full[k] == FullDump(world, items[k]);
      if !items[k].NullArg? {
        RestoreInverts(world, policy, items[k], lossy[k], allowed);
      }
    }
  }

  lemma DroppedItemsInvert(world: World, policy: Policy, owner: Arg, items: seq<Arg>, lossy: seq<Dump>, allowed: set<Cls>)
    requires Backed(world, policy) && FieldsNamed(world) && allowed <= policy.approved
    requires forall k :: 0 <= k < |items| ==> items[k] < owner
    requires ItemsRestorable(world, items, allowed)
    requires ItemsDropped(FullItems(world, owner, items), lossy, false)
    ensures RestoreItems(world, policy, owner, items, lossy, allowed) == FullItems(world, owner, items)
    decreases owner, 2
  {
    hide Restore, RestoreItems, Restorable, FullDump, Backed, FieldsNamed, ItemsRestorable, ItemsDropped, NonNull;
    var full := FullItems(world, owner, items);
    var restored := RestoreItems(world, policy, owner, items, lossy, allowed);
    NullsMatch(world, owner, items, allowed);
    LossyLength(items, full, lossy);
    RestoredLength(world, policy, owner, items, lossy, allowed);
    forall k | 0 <= k < |items|
      ensures restored[k] == full[k]
    {
      ItemIsReady(world, items, allowed, k);
      DroppedItemIs(world, policy, owner, items, lossy, allowed, k);
      assert full[k] == FullDump(world, items[k]);
      if !items[k].NullArg? {
        var at := NonNull(items[..k]);
        KeptItemAt(items, full, lossy, k);
        RestoreInverts(world, policy, items[k], lossy[at], allowed);
      }
    }
  }

  lemma RestoredLength(world: World, policy: Policy, owner: Arg, items: seq<Arg>, lossy: seq<Dump>, allowed: set<Cls>)
    requires forall j :: 0 <= j < |items| ==> items[j] < owner
    requires |lossy| == NonNull(items)
    ensures |RestoreItems(world, policy, owner, items, lossy, allowed)| == |items|
  {
    hide Restore;
  }

  /** What restoration makes of one item of a sequence that lost all its nulls. */
  lemma DroppedItemIs(world: World, policy: Policy, owner: Arg, items: seq<Arg>, lossy: seq<Dump>, allowed: set<Cls>, k: nat)
    requires forall j :: 0 <= j < |items| ==> items[j] < owner
    requires |lossy| == NonNull(items) && k < |items|
    requires |lossy| == |items| ==> forall j :: 0 <= j < |items| ==> NonNull(items[..j]) == j && !items[j].NullArg?
    ensures k < |RestoreItems(world, policy, owner, items, lossy, allowed)|
    ensures !items[k].NullArg? ==> NonNull(items[..k]) < |lossy|
    ensures RestoreItems(world, policy, owner, items, lossy, allowed)[k]
         == if items[k].NullArg? then NullDump else Restore(world, policy, items[k], lossy[NonNull(items[..k])], allowed)
  {
    hide Restore;
    NonNullBelow(items, k);
    if |lossy| == |items| {
      assert RestoreItems(world, policy, owner, items, lossy, allowed)
          == RestoreAligned(world, policy, owner, items, lossy, allowed);
    } else {
      assert RestoreItems(world, policy, owner, items, lossy, allowed)
          == RestoreDropped(world, policy, owner, items, lossy, allowed);
    }
  }

  lemma ItemIsReady(world: World, items: seq<Arg>, allowed: set<Cls>, k: nat)
    requires ItemsRestorable(world, items, allowed) && k < |items|
    ensures Faithful(world, items[k]) && Restorable(world, items[k], allowed)
  {
  }

  lemma NullsMatch(world: World, owner: Arg, items: seq<Arg>, allowed: set<Cls>)
    requires forall k :: 0 <= k < |items| ==> items[k] < owner
    requires ItemsRestorable(world, items, allowed)
    ensures SameNulls(items, FullItems(world, owner, items))
  {
    hide Restorable, FullDump;
    forall k | 0 <= k < |items|
      ensures items[k].NullArg? <==> FullItems(world, owner, items)[k].NullDump?
    {
      ItemIsReady(world, items, allowed, k);
    }
  }

  ghost predicate SameNulls(items: seq<Arg>, full: seq<Dump>) {
    |full| == |items| && forall k :: 0 <= k < |items| ==> (items[k].NullArg? <==> full[k].NullDump?)
  }

  /** A sequence without its nulls has the length restoration looks for, and the full length only if it had none. */
  lemma LossyLength(items: seq<Arg>, full: seq<Dump>, lossy: seq<Dump>)
    requires SameNulls(items, full) && ItemsDropped(full, lossy, false)
    ensures |lossy| == NonNull(items)
    ensures |lossy| == |items| ==> forall k :: 0 <= k < |items| ==> NonNull(items[..k]) == k && !items[k].NullArg?
  {
    NullsGone(items, full, lossy, |items|);
    assert items[..|items|] == items;
    if |lossy| == |items| {
      forall k | 0 <= k < |items|
        ensures NonNull(items[..k]) == k && !items[k].NullArg?
      {
        NonNullBounds(items, k);
        NonNullBounds(items, k + 1);
        assert items[..k + 1][..k] == items[..k];
      }
    }
  }

  lemma KeptItemAt(items: seq<Arg>, full: seq<Dump>, lossy: seq<Dump>, k: nat)
    requires SameNulls(items, full) && ItemsDropped(full, lossy, false)
    requires k < |items| && !items[k].NullArg?
    ensures NonNull(items[..k]) < |lossy| && Dropped(full[k], lossy[NonNull(items[..k])])
  {
    NullsGone(items, full, lossy, k);
    assert full[k..][0] == full[k];
  }

  // ---------- The inverse ----------

  lemma ModelInverts(world: World, policy: Policy, arg: Arg, lossy: Dump, allowed: set<Cls>)
    requires Backed(world, policy) && FieldsNamed(world) && allowed <= policy.approved
    requires arg.ModelArg? && arg.cls in allowed
    requires Restorable(world, arg, allowed) && Dropped(FullDump(world, arg), lossy)
    ensures Restore(world, policy, arg, lossy, allowed) == FullDump(world, arg)
    decreases arg, 3
  {
    hide Backed, FieldsNamed, NullFree;
    if world.classes[arg.cls].rootModel {
      var s :| s in Slots(world.classes[arg.cls]) && s.name == "root"
               && Restorable(world, arg.attributes["root"], SlotClasses(world, s.annotation, {}));
      SlotIsRecorded(world, policy, arg.cls, s);
      RestoreInverts(world, policy, arg.attributes["root"], lossy, SlotClasses(world, s.annotation, {}));
    } else {
      assert ModelReady(world, policy, arg);
      assert FullDump(world, arg) == DictDump(ModelFull(world, arg));
      ModelIsFaithful(world, policy, arg);
      MappingInverts(world, policy, arg, ModelPlaces(world, policy, arg), ModelFull(world, arg), lossy.entries);
    }
  }

  lemma ItemsInvert(world: World, policy: Policy, owner: Arg, items: seq<Arg>, lossy: seq<Dump>, allowed: set<Cls>)
    requires Backed(world, policy) && FieldsNamed(world) && allowed <= policy.approved
    requires forall k :: 0 <= k < |items| ==> items[k] < owner
    requires ItemsRestorable(world, items, allowed)
    requires exists nulls :: ItemsDropped(FullItems(world, owner, items), lossy, nulls)
    ensures RestoreItems(world, policy, owner, items, lossy, allowed) == FullItems(world, owner, items)
    decreases owner, 3
  {
    hide Backed, FieldsNamed, ItemsRestorable, RestoreItems;
    var nulls :| ItemsDropped(FullItems(world, owner, items), lossy, nulls);
    if nulls {
      KeptItemsInvert(world, policy, owner, items, lossy, allowed);
    } else {
      DroppedItemsInvert(world, policy, owner, items, lossy, allowed);
    }
  }

  /** Under a policy of the strongest tier, restoring what was dropped from the full dump of a value gives the
      full dump back. */
  lemma {:induction false} RestoreInverts(world: World, policy: Policy, arg: Arg, lossy: Dump, allowed: set<Cls>)
    requires Backed(world, policy) && FieldsNamed(world) && allowed <= policy.approved
    requires Restorable(world, arg, allowed) && Dropped(FullDump(world, arg), lossy)
    ensures Restore(world, policy, arg, lossy, allowed) == FullDump(world, arg)
    decreases arg, 4
  {
    hide Backed, FieldsNamed, NullFree;
    match arg
    case ModelArg(cls, _, _, _, _, _) =>
      if cls in allowed {
        ModelInverts(world, policy, arg, lossy, allowed);
      } else {
        NullFreeSurvives(FullDump(world, arg), lossy);
      }
    case DataArg(cls, _, _) =>
      if cls in allowed {
        DataInverts(world, policy, arg, lossy, allowed);
      } else {
        NullFreeSurvives(FullDump(world, arg), lossy);
      }
    case DictArg(entries) =>
      DictIsFaithful(world, policy, arg, allowed);
      MappingInverts(world, policy, arg, EntryPlaces(arg, entries, allowed, {}), FullEntries(world, arg, entries), lossy.entries);
    case ListArg(items) => ItemsInvert(world, policy, arg, items, lossy.items, allowed);
    case TupleArg(items) => ItemsInvert(world, policy, arg, items, lossy.items, allowed);
    case _ =>
  }

  lemma DataInverts(world: World, policy: Policy, arg: Arg, lossy: Dump, allowed: set<Cls>)
    requires Backed(world, policy) && FieldsNamed(world) && allowed <= policy.approved
    requires arg.DataArg? && arg.cls in allowed
    requires Restorable(world, arg, allowed) && Dropped(FullDump(world, arg), lossy)
    ensures Restore(world, policy, arg, lossy, allowed) == FullDump(world, arg)
    decreases arg, 3
  {
    hide Backed, FieldsNamed, NullFree, DataRestorable;
    assert DataReady(world, policy, arg);
    assert FullDump(world, arg) == DictDump(DataFull(world, arg));
    DataIsFaithful(world, policy, arg);
    MappingInverts(world, policy, arg, DataPlaces(policy, arg, world.classes[arg.cls].dataFields), DataFull(world, arg),
                   lossy.entries);
  }

  /** Classification, dump, loss and restoration in a row: a model that classifies to the strongest tier gets back
      exactly what its dump lost. */
  method ClassifyAndRestore(world: World, validated: Arg, facts: RootFacts, lossy: map<string, Dump>)
    returns (tier: Tier, restored: map<string, Dump>)
    requires WellFormed(world) && FieldsNamed(world)
    requires validated.ModelArg? && IsModel(world, validated.cls)
    ensures Extends(DictDump(lossy), DictDump(restored))
    ensures tier.Full? && Restorable(world, validated, {validated.cls})
              && Dropped(FullDump(world, validated), DictDump(lossy))
            ==> DictDump(restored) == FullDump(world, validated)
  {
    hide Backed, Restorable, Dropped, FullDump, Extends, Restore;
    var classified := Classify(world, validated.cls, facts);
    var policy := classified.value;
    tier, restored := policy.tier, RestoreExplicitNulls(world, validated, lossy, policy);
    ExplicitNullsExtend(world, validated, lossy, policy);
    if tier.Full? && Restorable(world, validated, {validated.cls})
       && Dropped(FullDump(world, validated), DictDump(lossy)) {
      assert policy.root in policy.approved by { RootIsApproved(world, policy); }
      RestoreInverts(world, policy, validated, DictDump(lossy), {validated.cls});
      RestoredIsMapping(world, policy, validated, lossy);
    }
  }

  lemma RootIsApproved(world: World, policy: Policy)
    requires Backed(world, policy)
    ensures policy.root in policy.approved
  {
  }

  lemma RestoredIsMapping(world: World, policy: Policy, validated: Arg, lossy: map<string, Dump>)
    requires validated.ModelArg?
    ensures Restore(world, policy, validated, DictDump(lossy), {policy.root}).DictDump?
  {
    RestoreExtends(world, policy, validated, DictDump(lossy), {policy.root});
  }
}
