/** Every part of a spelled location is read heaviest as what it spells. */
module PathReadings {
  import opened Values
  import opened Schemas
  import opened Locations
  import opened ErrorLocations
  import opened LocationSearch
  import opened SchemaPaths

  // ---------- Selections as the resolver makes them ----------

  lemma KeysWritten(part: Part, key: string)
    ensures WrittenFor(part, key) <==> MappingKeys(part).Some? && key in MappingKeys(part).value
  {
  }

  lemma {:induction false} SelectsNamed(schema: Schema, union: Id, mapping: Id, part: Part, keys: seq<string>, node: Id)
    requires schema.ObjField(union, "discriminator").Some?
    requires schema.ObjField(schema.ObjField(union, "discriminator").value, "mapping") == Some(mapping)
    requires forall key :: key in keys ==> WrittenFor(part, key)
    requires exists key :: key in keys && TagNames(schema, union, part, key, node)
    requires forall key, other :: TagNames(schema, union, part, key, other) ==> other == node
    ensures SelectMapped(schema, mapping, keys) == Some(node)
  {
    hide Names, WrittenFor;
    var ref := schema.TextField(mapping, keys[0]);
    var resolved := if ref.Some? then ResolveText(schema, ref.value) else None;
    if resolved.Some? && schema.Field(resolved.value, "$ref").None? {
      NamesIsResolved(schema, ref.value, resolved.value);
      assert TagNames(schema, union, part, keys[0], resolved.value);
    } else {
      if ref.Some? {
        NamesIsResolved(schema, ref.value, node);
      }
      assert !TagNames(schema, union, part, keys[0], node);
      SelectsNamed(schema, union, mapping, part, keys[1..], node);
    }
  }

  lemma {:induction false} SelectsNone(schema: Schema, union: Id, mapping: Id, part: Part, keys: seq<string>)
    requires schema.ObjField(union, "discriminator").Some?
    requires schema.ObjField(schema.ObjField(union, "discriminator").value, "mapping") == Some(mapping)
    requires forall key :: key in keys ==> WrittenFor(part, key)
    requires NoTag(schema, union, part)
    ensures SelectMapped(schema, mapping, keys).None?
  {
    hide Names, WrittenFor;
    if keys != [] {
      var ref := schema.TextField(mapping, keys[0]);
      if ref.Some? && ResolveText(schema, ref.value).Some? {
        NamesIsResolved(schema, ref.value, ResolveText(schema, ref.value).value);
        assert !TagNames(schema, union, part, keys[0], ResolveText(schema, ref.value).value);
      }
      SelectsNone(schema, union, mapping, part, keys[1..]);
    }
  }

  /** What the discriminator mapping of a union makes of a part. */
  function Mapped(schema: Schema, union: Id, part: Part): Option<Id> {
    var keys, discriminator := MappingKeys(part), schema.ObjField(union, "discriminator");
    var mapping := if discriminator.Some? then schema.ObjField(discriminator.value, "mapping") else None;
    if keys.Some? && mapping.Some? then SelectMapped(schema, mapping.value, keys.value) else None
  }

  lemma MappedIs(schema: Schema, union: Id, part: Part, node: Id)
    ensures TagSelects(schema, union, part, node) ==> Mapped(schema, union, part) == Some(node) && MappingKeys(part).Some?
    ensures NoTag(schema, union, part) ==> Mapped(schema, union, part).None?
  {
    hide Names, WrittenFor, SelectMapped;
    forall key
      ensures WrittenFor(part, key) <==> MappingKeys(part).Some? && key in MappingKeys(part).value
    {
      KeysWritten(part, key);
    }
    if TagSelects(schema, union, part, node) {
      var key :| TagNames(schema, union, part, key, node);
      var mapping := schema.ObjField(schema.ObjField(union, "discriminator").value, "mapping").value;
      SelectsNamed(schema, union, mapping, part, MappingKeys(part).value, node);
    }
    if NoTag(schema, union, part) {
      var discriminator := schema.ObjField(union, "discriminator");
      if MappingKeys(part).Some? && discriminator.Some? && schema.ObjField(discriminator.value, "mapping").Some? {
        SelectsNone(schema, union, schema.ObjField(discriminator.value, "mapping").value, part, MappingKeys(part).value);
      }
    }
  }

  lemma {:induction false} TitledIs(schema: Schema, variants: seq<Id>, part: Part, k: nat)
    requires part.StrPart?
    ensures k < |variants| && Titled(schema, variants[k], part) && (forall j :: 0 <= j < k ==> !Titled(schema, variants[j], part))
            ==> SelectTitled(schema, variants, part.s) == Some(variants[k])
    ensures (forall j :: 0 <= j < |variants| ==> !Titled(schema, variants[j], part)) ==>
            SelectTitled(schema, variants, part.s).None?
  {
    if variants != [] && !Titled(schema, variants[0], part) {
      TitledIs(schema, variants[1..], part, if k > 0 then k - 1 else 0);
      assert forall j :: 0 <= j < |variants[1..]| ==> variants[1..][j] == variants[j + 1];
    }
  }

  lemma SelectionIs(schema: Schema, union: Id, part: Part)
    ensures SelectVariant(schema, union, part)
         == if Mapped(schema, union, part).Some? then Some(Selection(Mapped(schema, union, part).value, true))
            else if part.StrPart? && SelectTitled(schema, Variants(schema, union), part.s).Some?
            then Some(Selection(SelectTitled(schema, Variants(schema, union), part.s).value, false))
            else None
  {
    hide SelectMapped, SelectTitled, Variants;
  }

  /** What a part selects at a union. */
  lemma SelectionMeans(schema: Schema, union: Id, part: Part, node: Id)
    ensures var selected := SelectVariant(schema, union, part);
      && (TagSelects(schema, union, part, node) ==> selected == Some(Selection(node, true)))
      && (TitleSelects(schema, union, part, node) ==> selected == Some(Selection(node, false)))
      && (Unnamed(schema, union, part) ==> selected.None?)
      && (NoTag(schema, union, part) && selected.Some? ==> !selected.value.viaDiscriminator)
  {
    hide TagSelects, NoTag, SelectVariant, SelectTitled, Variants, Mapped, RealChoice, Titled;
    SelectionIs(schema, union, part);
    MappedIs(schema, union, part, node);
    var variants := Variants(schema, union);
    if part.StrPart? {
      TitledIs(schema, variants, part, 0);
      if TitleSelects(schema, union, part, node) {
        var k: nat :| k < |variants| && variants[k] == node && Titled(schema, node, part)
                      && forall j :: 0 <= j < k ==> !Titled(schema, variants[j], part);
        TitledIs(schema, variants, part, k);
      }
    } else {
      assert forall n :: !Titled(schema, n, part) by { NotTitled(schema, part); }
    }
  }

  lemma NotTitled(schema: Schema, part: Part)
    requires !part.StrPart?
    ensures forall n :: !Titled(schema, n, part)
  {
  }

  lemma {:induction false} ChoiceCounts(schema: Schema, variants: seq<Id>)
    ensures RealChoice(schema, variants) <==> MarkersExpected(schema, variants)
    ensures NonNullCount(schema, variants) >= 1 <==> exists j :: 0 <= j < |variants| && !IsNull(schema, variants[j])
  {
    hide IsNull;
    if variants != [] {
      var rest := variants[1..];
      ChoiceCounts(schema, rest);
      assert forall j :: 0 <= j < |rest| ==> rest[j] == variants[j + 1];
      if RealChoice(schema, rest) {
        var i, j :| 0 <= i < j < |rest| && !IsNull(schema, rest[i]) && !IsNull(schema, rest[j]);
        assert !IsNull(schema, variants[i + 1]) && !IsNull(schema, variants[j + 1]);
      }
      if RealChoice(schema, variants) {
        var i, j :| 0 <= i < j < |variants| && !IsNull(schema, variants[i]) && !IsNull(schema, variants[j]);
        assert !IsNull(schema, rest[j - 1]);
        if i > 0 {
          assert !IsNull(schema, rest[i - 1]);
        }
      }
      if exists j :: 0 <= j < |rest| && !IsNull(schema, rest[j]) {
        var j :| 0 <= j < |rest| && !IsNull(schema, rest[j]);
        assert !IsNull(schema, variants[j + 1]);
      }
    }
  }

  // ---------- Children as the resolver lists them ----------

  lemma MeantIs(query: Query, index: nat, node: Id)
    requires index < |query.location|
    ensures match query.location[index]
      case StrPart(s) => ExactChild(query, index, s, node) == PropertyNamed(query.schema, node, Meant(query, index, node, s))
      case _ => true
  {
  }

  lemma ItemIs(query: Query, index: nat, node: Id)
    requires index < |query.location| && IntOf(query.location[index]).Some?
    ensures OnlyObject(query.schema, ItemChild(query.schema, IntOf(query.location[index]).value, node))
         == MemberOf(query, index, node)
  {
  }

  /** The children one variant adds to those seen before. */
  function OwnChildren(query: Query, index: nat, node: Id, seen: set<Id>): seq<Move>
    requires index < |query.location|
  {
    var member, open, shown := MemberOf(query, index, node), OpenOf(query, index, node), Some(Shown(query, index));
    var first := if member.Some? && member.value !in seen then [Move(EXACT, member.value, NoSkip, shown)] else [];
    var before := if member.Some? then seen + {member.value} else seen;
    first + (if open.Some? && open.value !in before then [Move(ADDITIONAL, open.value, NoSkip, shown)] else [])
  }

  function SeenWith(query: Query, index: nat, node: Id, seen: set<Id>): set<Id>
    requires index < |query.location|
  {
    var member, open := MemberOf(query, index, node), OpenOf(query, index, node);
    seen + (if member.Some? then {member.value} else {}) + (if open.Some? then {open.value} else {})
  }

  /** One candidate in front of others. */
  lemma CandidateFirst(query: Query, index: nat, c: Candidate, rest: seq<Candidate>, seen: set<Id>)
    requires index < |query.location|
    ensures var child := OnlyObject(query.schema, c.child);
      ChildMoves(query, index, [c] + rest, seen)
      == if child.Some? && child.value !in seen
         then [Move(c.weight, child.value, NoSkip, Some(Shown(query, index)))] + ChildMoves(query, index, rest, seen + {child.value})
         else ChildMoves(query, index, rest, seen)
  {
    assert ([c] + rest)[0] == c && ([c] + rest)[1..] == rest;
  }

  lemma VariantFirst(query: Query, index: nat, node: Id, rest: seq<Candidate>, seen: set<Id>)
    requires index < |query.location|
    ensures ChildMoves(query, index, Candidates(query, index, node) + rest, seen)
         == OwnChildren(query, index, node, seen) + ChildMoves(query, index, rest, SeenWith(query, index, node, seen))
  {
    hide ChildMoves, ExactChild, ItemChild, PropertyNamed, Meant, ItemAt;
    var part := query.location[index];
    if part.StrPart? {
      MeantIs(query, index, node);
      var exact := Candidate(ExactChild(query, index, part.s, node), EXACT);
      var open := Candidate(query.schema.Field(node, "additionalProperties"), ADDITIONAL);
      ExactIsObject(query, index, part.s, node);
      assert Candidates(query, index, node) + rest == [exact] + ([open] + rest);
      CandidateFirst(query, index, exact, [open] + rest, seen);
      CandidateFirst(query, index, open, rest, seen);
      var member := MemberOf(query, index, node);
      if member.Some? {
        CandidateFirst(query, index, open, rest, seen + {member.value});
        SeenAgain(seen, member.value);
      }
      SeenOnce(query, index, node, seen);
    } else if IntOf(part).Some? {
      var item := Candidate(ItemChild(query.schema, IntOf(part).value, node), EXACT);
      ItemIs(query, index, node);
      assert Candidates(query, index, node) + rest == [item] + rest;
      CandidateFirst(query, index, item, rest, seen);
      SeenOnce(query, index, node, seen);
      if MemberOf(query, index, node).Some? {
        SeenAgain(seen, MemberOf(query, index, node).value);
      }
    } else {
      assert Candidates(query, index, node) + rest == rest;
      assert SeenWith(query, index, node, seen) == seen;
    }
  }

  lemma ExactIsObject(query: Query, index: nat, name: string, node: Id)
    requires index < |query.location|
    ensures OnlyObject(query.schema, ExactChild(query, index, name, node)) == ExactChild(query, index, name, node)
  {
  }

  lemma SeenAgain(seen: set<Id>, id: Id)
    ensures id in seen ==> seen + {id} == seen
  {
  }

  lemma SeenOnce(query: Query, index: nat, node: Id, seen: set<Id>)
    requires index < |query.location|
    ensures var member, open := MemberOf(query, index, node), OpenOf(query, index, node);
      var before := if member.Some? then seen + {member.value} else seen;
      SeenWith(query, index, node, seen) == if open.Some? && open.value !in before then before + {open.value} else before
  {
    hide MemberOf, OpenOf;
  }

  /** The children of some variants, variant by variant. */
  lemma VariantsFirst(query: Query, index: nat, variants: seq<Id>, seen: set<Id>)
    requires index < |query.location| && variants != []
    ensures ChildMoves(query, index, AllCandidates(query, index, variants), seen)
         == OwnChildren(query, index, variants[0], seen)
            + ChildMoves(query, index, AllCandidates(query, index, variants[1..]), SeenWith(query, index, variants[0], seen))
  {
    VariantFirst(query, index, variants[0], AllCandidates(query, index, variants[1..]), seen);
  }

  /** The first member comes before every other member. */
  lemma {:induction false} MemberComes(query: Query, index: nat, variants: seq<Id>, k: nat, node: Id, seen: set<Id>)
    returns (i: nat)
    requires index < |query.location| && MemberAt(query, index, variants, k, node) && node !in seen
    ensures var moves := ChildMoves(query, index, AllCandidates(query, index, variants), seen);
      && i < |moves| && moves[i] == Move(EXACT, node, NoSkip, Some(Shown(query, index)))
      && forall j :: 0 <= j < i ==> moves[j].weight == ADDITIONAL
  {
    hide MemberOf, OpenOf, ChildMoves, AllCandidates;
    VariantsFirst(query, index, variants, seen);
    if k == 0 {
      i := 0;
    } else {
      var own := OwnChildren(query, index, variants[0], seen);
      assert forall j :: 0 <= j < |variants[1..]| ==> variants[1..][j] == variants[j + 1];
      var later := MemberComes(query, index, variants[1..], k - 1, node, SeenWith(query, index, variants[0], seen));
      i := |own| + later;
    }
  }

  /** Without members all children are held under any key, and the first comes first. */
  lemma {:induction false} OpenComes(query: Query, index: nat, variants: seq<Id>, seen: set<Id>)
    requires index < |query.location| && NoMember(query, index, variants)
    ensures var moves := ChildMoves(query, index, AllCandidates(query, index, variants), seen);
      && (forall j :: 0 <= j < |moves| ==> moves[j].weight == ADDITIONAL)
      && forall k: nat, node :: OpenAt(query, index, variants, k, node) && node !in seen ==>
           moves != [] && moves[0] == Move(ADDITIONAL, node, NoSkip, Some(Shown(query, index)))
  {
    hide MemberOf, OpenOf, ChildMoves, AllCandidates;
    if variants == [] {
      NoChildren(query, index, seen);
    } else {
      VariantsFirst(query, index, variants, seen);
      assert MemberOf(query, index, variants[0]).None?;
      var rest := variants[1..];
      assert forall j :: 0 <= j < |rest| ==> rest[j] == variants[j + 1];
      OpenComes(query, index, rest, SeenWith(query, index, variants[0], seen));
      forall k: nat, node | OpenAt(query, index, variants, k, node) && node !in seen
        ensures var moves := ChildMoves(query, index, AllCandidates(query, index, variants), seen);
          moves != [] && moves[0] == Move(ADDITIONAL, node, NoSkip, Some(Shown(query, index)))
      {
        if k > 0 {
          assert OpenAt(query, index, rest, k - 1, node);
        }
      }
    }
  }

  lemma NoChildren(query: Query, index: nat, seen: set<Id>)
    requires index < |query.location|
    ensures ChildMoves(query, index, AllCandidates(query, index, []), seen) == []
  {
  }

  // ---------- The heaviest reading ----------

  lemma {:induction false} HeaviestAt(moves: seq<Move>, i: nat)
    requires i < |moves|
    requires forall j :: 0 <= j < i ==> moves[j].weight < moves[i].weight
    requires forall j :: i < j < |moves| ==> moves[j].weight <= moves[i].weight
    ensures Heaviest(moves) == moves[i]
  {
    if |moves| > 1 {
      var rest := moves[1..];
      assert forall j :: 0 <= j < |rest| ==> rest[j] == moves[j + 1];
      if i > 0 {
        HeaviestAt(rest, i - 1);
      } else {
        assert Heaviest(rest) in rest;
      }
    }
  }

  // ---------- What a step reads as ----------

  /** What a step earns, in halves. */
  function WorthOf(step: Step): int {
    match step
    case Tag => 8
    case Title => 8
    case Nested => 8
    case Behind => 4
    case Member => 6
    case Open => 2
    case Pass => 3
  }

  /** The part as it is shown: the first one may have another spelling there. */
  function ShownAs(query: Query, index: nat): Part
    requires index < |query.location|
  {
    var part := query.location[index];
    if index == 0 && part.StrPart? && part.s in query.display then StrPart(query.display[part.s]) else part
  }

  function ReadAs(query: Query, index: nat, step: Step, to: Place): Move
    requires index < |query.location|
  {
    Move(WorthOf(step), to.node, to.skip, if step.Member? || step.Open? then Some(ShownAs(query, index)) else None)
  }

  lemma NothingFails(query: Query, index: nat, from: Id)
    requires index < |query.location|
    requires var variants := Variants(query.schema, Resolve(query.schema, from));
      forall k :: 0 <= k < |variants| ==> !CountsTooFar(query.schema, variants[k], query.location[index])
    ensures !ExpandFails(query, index, from)
  {
    hide Resolve, Variants;
    var variants := Variants(query.schema, Resolve(query.schema, from));
    forall k | 0 <= k < |variants|
      ensures !IndexFails(query, index, variants[k])
    {
      assert !CountsTooFar(query.schema, variants[k], query.location[index]);
    }
  }

  lemma {:induction false} NestedFirst(query: Query, index: nat, at: Id, variants: seq<Id>, skip: Skip, k: nat, node: Id)
    requires index < |query.location| && !skip.Blind? && SelectVariant(query.schema, at, query.location[index]).None?
    requires NestedAt(query.schema, variants, query.location[index], k, node)
    ensures var moves := NestedMoves(query, index, at, variants, skip);
      moves != [] && moves[0] == Move(8, node, NoSkip, None)
  {
    hide SelectVariant, Unnamed, Variants, TagSelects, TitleSelects, MarkersExpected;
    var part := query.location[index];
    SelectionMeans(query.schema, variants[0], part, node);
    if k == 0 {
      if TitleSelects(query.schema, variants[0], part, node) {
        TitleIsChoice(query.schema, variants[0], part, node);
      }
    } else {
      var rest := variants[1..];
      assert forall j :: 0 <= j < |rest| ==> rest[j] == variants[j + 1];
      NestedFirst(query, index, at, rest, skip, k - 1, node);
    }
  }

  lemma TitleIsChoice(schema: Schema, union: Id, part: Part, node: Id)
    requires TitleSelects(schema, union, part, node)
    ensures MarkersExpected(schema, Variants(schema, union))
  {
    ChoiceCounts(schema, Variants(schema, union));
  }

  /** Where nothing is decided, nested selections are guesses. */
  lemma {:induction false} NestedGuesses(query: Query, index: nat, at: Id, variants: seq<Id>, skip: Skip)
    requires index < |query.location| && (skip.Blind? || NestedUndecided(query.schema, variants, query.location[index]))
    ensures forall m :: m in NestedMoves(query, index, at, variants, skip) ==> m.weight <= TITLE_SELECT
  {
    hide SelectVariant, Variants, Undecided, MarkersExpected;
    if variants != [] {
      var rest := variants[1..];
      assert forall j :: 0 <= j < |rest| ==> rest[j] == variants[j + 1];
      NestedGuesses(query, index, at, rest, skip);
      if IsUnion(query.schema, variants[0]) && !skip.Blind? {
        UndecidedGuesses(query.schema, variants[0], query.location[index]);
      }
    }
  }

  lemma UndecidedGuesses(schema: Schema, union: Id, part: Part)
    requires Undecided(schema, union, part)
    ensures var selected := SelectVariant(schema, union, part);
      selected.Some? ==> !selected.value.viaDiscriminator && !MarkersExpected(schema, Variants(schema, union))
  {
    hide SelectVariant, Variants, NoTag, Titled;
    SelectionMeans(schema, union, part, 0);
    ChoiceCounts(schema, Variants(schema, union));
    if RealChoice(schema, Variants(schema, union)) {
      assert Unnamed(schema, union, part);
    }
  }

  lemma {:induction false} NestedNothing(query: Query, index: nat, at: Id, variants: seq<Id>)
    requires index < |query.location|
    requires forall k :: 0 <= k < |variants| && IsUnion(query.schema, variants[k]) ==>
               Unnamed(query.schema, variants[k], query.location[index])
    ensures NestedMoves(query, index, at, variants, NoSkip) == []
  {
    hide SelectVariant, Variants, Unnamed;
    if variants != [] {
      var rest := variants[1..];
      assert forall j :: 0 <= j < |rest| ==> rest[j] == variants[j + 1];
      NestedNothing(query, index, at, rest);
      SelectionMeans(query.schema, variants[0], query.location[index], 0);
    }
  }

  /** The heaviest reading of a place is what the step says. */
  ghost predicate ReadsAs(query: Query, index: nat, from: Place, step: Step, to: Place)
    requires index < |query.location|
  {
    var moves := Expand(query, index, from.node, from.skip);
    moves != [] && Heaviest(moves) == ReadAs(query, index, step, to)
  }

  lemma SelectionReads(query: Query, index: nat, from: Place, step: Step, to: Place)
    requires index < |query.location| && Steps(query, index, from, step, to) && (step.Tag? || step.Title? || step.Nested?)
    ensures ReadsAs(query, index, from, step, to)
  {
    hide Resolve, Variants, NestedMoves, AllCandidates, SkipMoves, SelectVariant, TagSelects, TitleSelects, Unnamed, NestedAt,
      CountsTooFar, MarkersExpected;
    var part, at := query.location[index], Resolve(query.schema, from.node);
    var variants := Variants(query.schema, at);
    var moves := Expand(query, index, from.node, from.skip);
    SelectionMeans(query.schema, at, part, to.node);
    if step.Nested? {
      var k: nat :| NestedAt(query.schema, variants, part, k, to.node);
      NestedFirst(query, index, at, variants, from.skip, k, to.node);
    } else if step.Title? {
      TitleIsChoice(query.schema, at, part, to.node);
    }
    assert moves != [] && moves[0] == ReadAs(query, index, step, to);
    forall m | m in moves
      ensures m.weight <= moves[0].weight
    {
      MoveWeights(query, index, from.node, from.skip, m);
    }
    HeaviestAt(moves, 0);
  }

  /** The selections at a place. */
  function SelectionsAt(query: Query, index: nat, from: Place): seq<Move>
    requires index < |query.location|
  {
    var at := Resolve(query.schema, from.node);
    var variants := Variants(query.schema, at);
    if IsUnion(query.schema, at) && !from.skip.Opaque?
    then SelectMoves(query, index, at, variants, from.skip) + NestedMoves(query, index, at, variants, from.skip)
    else []
  }

  /** Where nothing selects for sure, selections are guesses. */
  lemma SelectionsAreLight(query: Query, index: nat, from: Place)
    requires index < |query.location|
    requires var at := Resolve(query.schema, from.node);
      IsUnion(query.schema, at) ==> Free(query.schema, at, query.location[index], from.skip)
    ensures forall m :: m in SelectionsAt(query, index, from) ==> m.weight <= TITLE_SELECT
  {
    hide Resolve, Variants, Undecided, SelectVariant, MarkersExpected, NestedMoves, NestedUndecided;
    var at := Resolve(query.schema, from.node);
    if IsUnion(query.schema, at) && !from.skip.Opaque? {
      NestedGuesses(query, index, at, Variants(query.schema, at), from.skip);
      if from.skip.NoSkip? {
        UndecidedGuesses(query.schema, at, query.location[index]);
      }
    }
  }

  lemma ExpandParts(query: Query, index: nat, from: Place, at: Id)
    requires index < |query.location| && at == Resolve(query.schema, from.node)
    ensures var variants := Variants(query.schema, at);
      Expand(query, index, from.node, from.skip)
      == SelectionsAt(query, index, from) + ChildMoves(query, index, AllCandidates(query, index, variants), {})
         + SkipMoves(query, index, at, variants, from.skip)
  {
    hide Resolve, Variants, SelectMoves, NestedMoves, ChildMoves, SkipMoves;
  }

  lemma Between(before: seq<Move>, middle: seq<Move>, after: seq<Move>, i: nat)
    requires i < |middle|
    requires forall m :: m in before || m in after ==> m.weight < middle[i].weight
    requires forall j :: 0 <= j < i ==> middle[j].weight < middle[i].weight
    requires forall j :: i < j < |middle| ==> middle[j].weight <= middle[i].weight
    ensures before + middle + after != [] && Heaviest(before + middle + after) == middle[i]
  {
    var moves, at := before + middle + after, |before| + i;
    assert moves[at] == middle[i];
    forall j | 0 <= j < at
      ensures moves[j].weight < moves[at].weight
    {
      assert j < |before| ==> moves[j] in before;
    }
    forall j | at < j < |moves|
      ensures moves[j].weight <= moves[at].weight
    {
      assert j >= |before| + |middle| ==> moves[j] in after;
    }
    HeaviestAt(moves, at);
  }

  lemma MemberReads(query: Query, index: nat, from: Place, to: Place)
    requires index < |query.location| && Steps(query, index, from, Member, to)
    ensures ReadsAs(query, index, from, Member, to)
  {
    hide Resolve, Variants, SelectionsAt, ChildMoves, AllCandidates, MemberAt, Free, CountsTooFar, Expand;
    var at := Resolve(query.schema, from.node);
    var variants := Variants(query.schema, at);
    var candidates := AllCandidates(query, index, variants);
    var k: nat :| MemberAt(query, index, variants, k, to.node);
    var i := MemberComes(query, index, variants, k, to.node, {});
    SelectionsAreLight(query, index, from);
    CandidateWeights(query, index, variants);
    ChildWeights(query, index, candidates, {});
    ExpandParts(query, index, from, at);
    Between(SelectionsAt(query, index, from), ChildMoves(query, index, candidates, {}),
            SkipMoves(query, index, at, variants, from.skip), i);
  }

  lemma OpenReads(query: Query, index: nat, from: Place, to: Place)
    requires index < |query.location| && Steps(query, index, from, Open, to)
    ensures ReadsAs(query, index, from, Open, to)
  {
    hide Resolve, Variants, ChildMoves, AllCandidates, OpenAt, CountsTooFar, Expand, SelectionsAt, SkipMoves;
    var at := Resolve(query.schema, from.node);
    var variants := Variants(query.schema, at);
    var k: nat :| OpenAt(query, index, variants, k, to.node);
    assert NoMember(query, index, variants) by { OpenHasNoMember(query, index, variants, k, to.node); }
    OpenComes(query, index, variants, {});
    ExpandParts(query, index, from, at);
    ChildrenAlone(query, index, from, at);
    var moves := ChildMoves(query, index, AllCandidates(query, index, variants), {});
    assert [] + moves + [] == moves;
    HeaviestAt(moves, 0);
  }

  lemma ChildrenAlone(query: Query, index: nat, from: Place, at: Id)
    requires index < |query.location| && at == Resolve(query.schema, from.node)
    requires IsUnion(query.schema, at) ==> from.skip.Opaque?
    ensures SkipMoves(query, index, at, Variants(query.schema, at), from.skip) == [] && SelectionsAt(query, index, from) == []
  {
    hide Resolve, Variants;
  }

  lemma OpenHasNoMember(query: Query, index: nat, variants: seq<Id>, k: nat, node: Id)
    requires index < |query.location| && OpenAt(query, index, variants, k, node)
    ensures NoMember(query, index, variants)
  {
  }

  /** A selection behind the marker of a union. */
  lemma BehindReads(query: Query, index: nat, from: Place, to: Place)
    requires index < |query.location| && Steps(query, index, from, Behind, to)
    ensures ReadsAs(query, index, from, Behind, to)
  {
    hide Resolve, Variants, NestedMoves, ChildMoves, AllCandidates, CountsTooFar, Expand, SelectVariant, TagSelects,
      TitleSelects, NestedUndecided, NoMember, SelectionsAt, SkipMoves, SelectMoves;
    var part, at := query.location[index], Resolve(query.schema, from.node);
    var variants := Variants(query.schema, at);
    NestedGuesses(query, index, at, variants, from.skip);
    OpenComes(query, index, variants, {});
    ExpandParts(query, index, from, at);
    BehindFirst(query, index, from, at, to);
    FirstOf(ReadAs(query, index, Behind, to), NestedMoves(query, index, at, variants, from.skip),
            ChildMoves(query, index, AllCandidates(query, index, variants), {}));
  }

  lemma BehindFirst(query: Query, index: nat, from: Place, at: Id, to: Place)
    requires index < |query.location| && at == Resolve(query.schema, from.node) && Steps(query, index, from, Behind, to)
    ensures var variants := Variants(query.schema, at);
      && SelectionsAt(query, index, from)
         == [ReadAs(query, index, Behind, to)] + NestedMoves(query, index, at, variants, from.skip)
      && SkipMoves(query, index, at, variants, from.skip) == []
  {
    hide Resolve, Variants, NestedMoves, CountsTooFar, SelectVariant, TagSelects, TitleSelects, NestedUndecided, NoMember;
    SelectionMeans(query.schema, at, query.location[index], to.node);
  }

  lemma FirstOf(first: Move, nested: seq<Move>, children: seq<Move>)
    requires forall m :: m in nested ==> m.weight <= first.weight
    requires forall j :: 0 <= j < |children| ==> children[j].weight <= first.weight
    ensures var moves := [first] + nested + children + []; moves != [] && Heaviest(moves) == first
  {
    var moves := [first] + nested + children + [];
    assert forall j :: 0 < j < |moves| ==> moves[j] in nested || moves[j] in children;
    HeaviestAt(moves, 0);
  }

  // ---------- Markers ----------

  /** Characters around an occurrence. */
  lemma Around(before: string, name: string, after: string)
    ensures var text := before + name + after;
      && OccursAt(text, name, |before|)
      && (before != "" ==> text[|before| - 1] == before[|before| - 1])
      && (after != "" ==> text[|before| + |name|] == after[0])
      && |text| == |before| + |name| + |after|
  {
  }

  lemma OccurrenceSplits(name: string, text: string, i: nat)
    requires OccursAt(text, name, i)
    ensures text == text[..i] + name + text[i + |name|..]
  {
  }

  lemma StandsIsCorroborated(name: string, text: string, alnum: char -> bool)
    ensures StandsIn(name, text, alnum) <==> Corroborated(name, text, alnum)
  {
    hide OccursAt;
    if StandsIn(name, text, alnum) {
      var before, after :| text == before + name + after && Borders(before, after, alnum);
      Around(before, name, after);
    }
    if Corroborated(name, text, alnum) {
      var i: nat :| i <= |text| && OccursAt(text, name, i)
        && (i > 0 ==> !IdentifierChar(text[i - 1], alnum))
        && (i + |name| < |text| ==> !IdentifierChar(text[i + |name|], alnum));
      CorroboratedStands(name, text, alnum, i);
    }
  }

  lemma CorroboratedStands(name: string, text: string, alnum: char -> bool, i: nat)
    requires OccursAt(text, name, i) && (i > 0 ==> !IdentifierChar(text[i - 1], alnum))
    requires i + |name| < |text| ==> !IdentifierChar(text[i + |name|], alnum)
    ensures StandsIn(name, text, alnum)
  {
    OccurrenceSplits(name, text, i);
    var before, after := text[..i], text[i + |name|..];
    hide OccursAt;
    assert Borders(before, after, alnum);
  }

  lemma ShowsUnionIs(query: Query, part: Part, union: Id)
    ensures ShowsUnion(query, part, union) <==> NamesUnion(query, part, union)
  {
    hide ReferenceNames, StandsIn, Corroborated, Contains;
    if part.StrPart? {
      forall name
        ensures StandsIn(name, part.s, query.alnum) <==> Corroborated(name, part.s, query.alnum)
      {
        StandsIsCorroborated(name, part.s, query.alnum);
      }
    }
  }

  /** What is left after a marker is what its text shows. */
  lemma LeavesIs(query: Query, part: Part, union: Id, skip: Skip)
    ensures Leaves(query, part, union, skip) <==> SkipFor(query, part, union) == skip
  {
    hide ShowsUnion, NamesUnion;
    ShowsUnionIs(query, part, union);
    assert HidesSchema(part) <==> SchemalessWrapper(part);
  }

  lemma ShapedIsLike(query: Query, part: Part, variants: seq<Id>)
    ensures MarkerShaped(part) ==> MarkerLike(query.schema, part, variants)
  {
  }

  lemma SelectionsMissing(query: Query, index: nat, from: Place)
    requires index < |query.location|
    requires var at := Resolve(query.schema, from.node);
      if from.skip.NoSkip? then Unselected(query.schema, at, query.location[index]) else from.skip.Blind?
    ensures forall m :: m in SelectionsAt(query, index, from) ==> m.weight < MARKER_SKIP
  {
    hide Resolve, Variants, SelectVariant, MarkersExpected, NestedMoves, Unnamed;
    var at := Resolve(query.schema, from.node);
    var variants := Variants(query.schema, at);
    if from.skip.NoSkip? {
      SelectionMeans(query.schema, at, query.location[index], 0);
      NestedNothing(query, index, at, variants);
    } else {
      NestedWeights(query, index, at, variants, from.skip);
    }
  }

  lemma PassReads(query: Query, index: nat, from: Place, to: Place)
    requires index < |query.location| && Steps(query, index, from, Pass, to)
    ensures ReadsAs(query, index, from, Pass, to)
  {
    hide Resolve, Variants, SelectionsAt, ChildMoves, AllCandidates, CountsTooFar, Expand, Unselected, NoMember, RealChoice,
      MarkersExpected, MarkerShaped, MarkerLike, SkipFor, Leaves;
    var part, at := query.location[index], Resolve(query.schema, from.node);
    var variants := Variants(query.schema, at);
    SelectionsMissing(query, index, from);
    OpenComes(query, index, variants, {});
    ChoiceCounts(query.schema, variants);
    LeavesIs(query, part, at, to.skip);
    ShapedIsLike(query, part, variants);
    ExpandParts(query, index, from, at);
    var before := SelectionsAt(query, index, from) + ChildMoves(query, index, AllCandidates(query, index, variants), {});
    var skips := SkipMoves(query, index, at, variants, from.skip);
    assert skips == [ReadAs(query, index, Pass, to)];
    assert before + skips == before + skips + [];
    Between(before, skips, [], 0);
  }

  /** Every step is the heaviest reading of its part. */
  lemma StepReads(query: Query, index: nat, from: Place, step: Step, to: Place)
    requires index < |query.location| && Steps(query, index, from, step, to)
    ensures !ExpandFails(query, index, from.node) && ReadsAs(query, index, from, step, to)
  {
    hide Expand, ExpandFails, ReadsAs;
    assert !ExpandFails(query, index, from.node) by { NothingFails(query, index, from.node); }
    match step
    case Member => MemberReads(query, index, from, to);
    case Open => OpenReads(query, index, from, to);
    case Pass => PassReads(query, index, from, to);
    case Behind => BehindReads(query, index, from, to);
    case _ => SelectionReads(query, index, from, step, to);
  }
}
