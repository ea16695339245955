/** The classes of a slot: exactly those its annotation leads to before the next class boundary. */
module SlotMeaning {
  import opened Values
  import opened Classes

  /** A value of the annotation may be, or hold outside of any other model or dataclass, one of that class: at most `n`
      steps into the annotation and through typed dictionaries that are not avoided. Mappings hold their values. */
  ghost predicate MayHold(world: World, annotation: Annotation, cls: Cls, n: nat, avoided: set<Cls>)
    decreases n, 0
  {
    n > 0
    && match annotation
       case NewType(supertype) => MayHold(world, supertype, cls, n - 1, avoided)
       case Annotated(base, _) => MayHold(world, base, cls, n - 1, avoided)
       case Wrapper(inner) => MayHold(world, inner, cls, n - 1, avoided)
       case UnionOf(members) => exists m :: m in members && MayHold(world, m, cls, n - 1, avoided)
       case Container(mapping, arguments) =>
         if mapping then |arguments| == 2 && arguments[1].Some? && MayHold(world, arguments[1].value, cls, n - 1, avoided)
         else exists a :: a in arguments && a.Some? && MayHold(world, a.value, cls, n - 1, avoided)
       case Class(c) =>
         && c in world.classes
         && if world.IsDict(c) then c !in avoided && !world.classes[c].unresolved && MemberHolds(world, c, cls, n - 1, avoided)
            else c == cls
       case _ => false
  }

  /** A member of a typed dictionary, or one of its extra items, may. */
  ghost predicate MemberHolds(world: World, dict: Cls, cls: Cls, n: nat, avoided: set<Cls>)
    requires world.IsDict(dict)
    decreases n, 1
  {
    var info := world.classes[dict];
    || (exists m :: m in info.members && MayHold(world, m.annotation, cls, n, avoided))
    || (info.extraItems.Some? && MayHold(world, info.extraItems.value, cls, n, avoided))
  }

  lemma {:induction false} HoldsLater(world: World, annotation: Annotation, cls: Cls, n: nat, later: nat, avoided: set<Cls>)
    requires MayHold(world, annotation, cls, n, avoided) && n <= later
    ensures MayHold(world, annotation, cls, later, avoided)
    decreases n, 0
  {
    match annotation
    case NewType(supertype) => HoldsLater(world, supertype, cls, n - 1, later - 1, avoided);
    case Annotated(base, _) => HoldsLater(world, base, cls, n - 1, later - 1, avoided);
    case Wrapper(inner) => HoldsLater(world, inner, cls, n - 1, later - 1, avoided);
    case UnionOf(members) =>
      var m :| m in members && MayHold(world, m, cls, n - 1, avoided);
      HoldsLater(world, m, cls, n - 1, later - 1, avoided);
    case Container(mapping, arguments) =>
      if mapping {
        HoldsLater(world, arguments[1].value, cls, n - 1, later - 1, avoided);
      } else {
        var a :| a in arguments && a.Some? && MayHold(world, a.value, cls, n - 1, avoided);
        HoldsLater(world, a.value, cls, n - 1, later - 1, avoided);
      }
    case Class(c) =>
      if world.IsDict(c) {
        MembersLater(world, c, cls, n - 1, later - 1, avoided);
      }
  }

  lemma MembersLater(world: World, dict: Cls, cls: Cls, n: nat, later: nat, avoided: set<Cls>)
    requires world.IsDict(dict) && MemberHolds(world, dict, cls, n, avoided) && n <= later
    ensures MemberHolds(world, dict, cls, later, avoided)
    decreases n, 1
  {
    var info := world.classes[dict];
    if m :| m in info.members && MayHold(world, m.annotation, cls, n, avoided) {
      HoldsLater(world, m.annotation, cls, n, later, avoided);
    } else {
      HoldsLater(world, info.extraItems.value, cls, n, later, avoided);
    }
  }

  // ---------- Listed classes are held ----------

  ghost predicate Holds(world: World, annotation: Annotation, cls: Cls, avoided: set<Cls>) {
    exists n: nat :: MayHold(world, annotation, cls, n, avoided)
  }

  lemma {:induction false} ListedIsHeld(world: World, annotation: Annotation, seen: set<Cls>, cls: Cls)
    requires cls in SlotClasses(world, annotation, seen)
    ensures Holds(world, annotation, cls, {})
  {
    var n := ListedSteps(world, annotation, seen, cls);
    assert MayHold(world, annotation, cls, n, {});
  }

  lemma {:induction false} ListedSteps(world: World, annotation: Annotation, seen: set<Cls>, cls: Cls) returns (n: nat)
    requires cls in SlotClasses(world, annotation, seen)
    ensures n > 0 && MayHold(world, annotation, cls, n, {})
    decreases |world.classes.Keys - seen|, annotation, 1
  {
    n := 0;
    match annotation {
      case NewType(supertype) => n := ListedSteps(world, supertype, seen, cls);
      case Annotated(base, _) => n := ListedSteps(world, base, seen, cls);
      case Wrapper(inner) => n := ListedSteps(world, inner, seen, cls);
      case UnionOf(members) =>
        var m :| m in members && cls in SlotClasses(world, m, seen);
        n := ListedSteps(world, m, seen, cls);
      case Container(mapping, arguments) =>
        if mapping {
          n := ListedSteps(world, arguments[1].value, seen, cls);
        } else {
          var a :| a in arguments && a.Some? && cls in SlotClasses(world, a.value, seen);
          n := ListedSteps(world, a.value, seen, cls);
        }
      case Class(c) =>
        if world.IsDict(c) {
          n := ListedMember(world, c, seen, cls);
        }
    }
    n := n + 1;
  }

  /** Where the classes of a typed dictionary come from. */
  lemma DictClasses(world: World, dict: Cls, seen: set<Cls>, cls: Cls)
    requires world.IsDict(dict) && cls in SlotClasses(world, Class(dict), seen)
    ensures var info := world.classes[dict];
      && dict !in seen && !info.unresolved
      && ((exists m :: m in info.members && cls in SlotClasses(world, m.annotation, seen + {dict}))
          || (info.extraItems.Some? && cls in SlotClasses(world, info.extraItems.value, seen + {dict})))
  {
  }

  lemma ListedMember(world: World, dict: Cls, seen: set<Cls>, cls: Cls) returns (n: nat)
    requires world.IsDict(dict) && cls in SlotClasses(world, Class(dict), seen)
    ensures dict !in seen && !world.classes[dict].unresolved && MemberHolds(world, dict, cls, n, {})
    decreases |world.classes.Keys - seen|, Class(dict), 0
  {
    hide SlotClasses, MayHold;
    var info := world.classes[dict];
    DictClasses(world, dict, seen, cls);
    Shrinks(world, seen, dict);
    if m :| m in info.members && cls in SlotClasses(world, m.annotation, seen + {dict}) {
      n := ListedSteps(world, m.annotation, seen + {dict}, cls);
    } else {
      n := ListedSteps(world, info.extraItems.value, seen + {dict}, cls);
    }
  }

  // ---------- Held classes are listed ----------

  /** What is held is held without a typed dictionary, or behind it. */
  lemma {:induction false} HoldsAround(world: World, annotation: Annotation, cls: Cls, n: nat, avoided: set<Cls>, dict: Cls)
    requires MayHold(world, annotation, cls, n, avoided)
    ensures MayHold(world, annotation, cls, n, avoided + {dict}) || MayHold(world, Class(dict), cls, n, avoided)
    decreases n, 0
  {
    if !MayHold(world, Class(dict), cls, n, avoided) {
      if MayHold(world, Class(dict), cls, n - 1, avoided) {
        HoldsLater(world, Class(dict), cls, n - 1, n, avoided);
        assert false;
      }
      match annotation
      case NewType(supertype) => HoldsAround(world, supertype, cls, n - 1, avoided, dict);
      case Annotated(base, _) => HoldsAround(world, base, cls, n - 1, avoided, dict);
      case Wrapper(inner) => HoldsAround(world, inner, cls, n - 1, avoided, dict);
      case UnionOf(members) =>
        var m :| m in members && MayHold(world, m, cls, n - 1, avoided);
        HoldsAround(world, m, cls, n - 1, avoided, dict);
      case Container(mapping, arguments) =>
        if mapping {
          HoldsAround(world, arguments[1].value, cls, n - 1, avoided, dict);
        } else {
          var a :| a in arguments && a.Some? && MayHold(world, a.value, cls, n - 1, avoided);
          HoldsAround(world, a.value, cls, n - 1, avoided, dict);
        }
      case Class(c) =>
        if world.IsDict(c) {
          MembersAround(world, c, cls, n - 1, avoided, dict);
        }
    }
  }

  lemma MembersAround(world: World, c: Cls, cls: Cls, n: nat, avoided: set<Cls>, dict: Cls)
    requires world.IsDict(c) && MemberHolds(world, c, cls, n, avoided)
    ensures MemberHolds(world, c, cls, n, avoided + {dict}) || MayHold(world, Class(dict), cls, n, avoided)
    decreases n, 1
  {
    var info := world.classes[c];
    if m :| m in info.members && MayHold(world, m.annotation, cls, n, avoided) {
      HoldsAround(world, m.annotation, cls, n, avoided, dict);
    } else {
      HoldsAround(world, info.extraItems.value, cls, n, avoided, dict);
    }
  }

  lemma {:induction false} HeldIsListed(world: World, annotation: Annotation, cls: Cls, n: nat, avoided: set<Cls>)
    requires MayHold(world, annotation, cls, n, avoided)
    ensures cls in SlotClasses(world, annotation, avoided)
    decreases n, 0
  {
    match annotation
    case NewType(supertype) => HeldIsListed(world, supertype, cls, n - 1, avoided);
    case Annotated(base, _) => HeldIsListed(world, base, cls, n - 1, avoided);
    case Wrapper(inner) => HeldIsListed(world, inner, cls, n - 1, avoided);
    case UnionOf(members) =>
      var m :| m in members && MayHold(world, m, cls, n - 1, avoided);
      HeldIsListed(world, m, cls, n - 1, avoided);
    case Container(mapping, arguments) =>
      if mapping {
        HeldIsListed(world, arguments[1].value, cls, n - 1, avoided);
      } else {
        var a :| a in arguments && a.Some? && MayHold(world, a.value, cls, n - 1, avoided);
        HeldIsListed(world, a.value, cls, n - 1, avoided);
      }
    case Class(c) =>
      if world.IsDict(c) {
        HeldMemberIsListed(world, c, cls, n - 1, avoided);
      }
  }

  /** A member that leads back to its dictionary is left for the shorter way from there. */
  lemma HeldMemberIsListed(world: World, dict: Cls, cls: Cls, n: nat, avoided: set<Cls>)
    requires world.IsDict(dict) && dict !in avoided && !world.classes[dict].unresolved
    requires MemberHolds(world, dict, cls, n, avoided)
    ensures cls in SlotClasses(world, Class(dict), avoided)
    decreases n, 1
  {
    var info := world.classes[dict];
    Shrinks(world, avoided, dict);
    MembersAround(world, dict, cls, n, avoided, dict);
    if MayHold(world, Class(dict), cls, n, avoided) {
      HeldIsListed(world, Class(dict), cls, n, avoided);
    } else if m :| m in info.members && MayHold(world, m.annotation, cls, n, avoided + {dict}) {
      HeldIsListed(world, m.annotation, cls, n, avoided + {dict});
    } else {
      HeldIsListed(world, info.extraItems.value, cls, n, avoided + {dict});
    }
  }

  /** The classes of a slot are exactly those its values may hold, however typed dictionaries refer to each other. */
  lemma SlotHoldsExactly(world: World, annotation: Annotation, cls: Cls)
    ensures cls in SlotClasses(world, annotation, {}) <==> Holds(world, annotation, cls, {})
  {
    hide SlotClasses, MayHold;
    if cls in SlotClasses(world, annotation, {}) {
      ListedIsHeld(world, annotation, {}, cls);
    }
    if Holds(world, annotation, cls, {}) {
      var n: nat :| MayHold(world, annotation, cls, n, {});
      HeldIsListed(world, annotation, cls, n, {});
    }
  }
}
