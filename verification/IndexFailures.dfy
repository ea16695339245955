/** For which error locations the resolver can index past the front of a list. */
module IndexFailures {
  import opened Values
  import opened Schemas
  import opened Locations
  import opened LocationSearch
  import opened ErrorLocations

  predicate Negative(part: Part) {
    part.IntPart? && part.i < 0
  }

  /** A part without a marker text reads nothing but one marker skip, and nothing but a selection follows such a
      skip when the next part cannot name a child. */
  predicate Stuck(part: Part, next: Part) {
    part.OtherPart? && (next.OtherPart? || next.FloatPart?)
  }

  predicate Passable(location: seq<Part>, k: nat) {
    forall j :: 0 <= j && j + 1 < k <= |location| ==> !Stuck(location[j], location[j + 1])
  }

  /** Some negative integer comes before any such pair. */
  ghost predicate CanFail(location: seq<Part>) {
    exists k :: 0 <= k < |location| && Negative(location[k]) && Passable(location, k)
  }

  // ---------- Only there ----------

  lemma {:induction false} PathStep(problem: Problem, path: seq<Move>, j: nat)
    requires IsPath(problem, path) && j < |path|
    ensures IsPath(problem, path[..j]) && j < |problem.location|
    ensures path[j] in Moves(problem, j, End(problem, path[..j]).node, End(problem, path[..j]).skip)
    decreases |path|
  {
    var init := path[..|path| - 1];
    if j < |init| {
      PathStep(problem, init, j);
      assert init[..j] == path[..j];
    }
  }

  /** A part that is neither a string nor an integer has no children. */
  lemma {:induction false} NoCandidates(query: Query, index: nat, variants: seq<Id>)
    requires index < |query.location| && (query.location[index].OtherPart? || query.location[index].FloatPart?)
    ensures AllCandidates(query, index, variants) == []
  {
    if variants != [] {
      NoCandidates(query, index, variants[1..]);
    }
  }

  lemma {:induction false} NoNested(query: Query, index: nat, resolved: Id, variants: seq<Id>, skip: Skip)
    requires index < |query.location| && query.location[index].OtherPart?
    ensures NestedMoves(query, index, resolved, variants, skip) == []
  {
    if variants != [] {
      NoNested(query, index, resolved, variants[1..], skip);
    }
  }

  lemma OtherOnlySkips(query: Query, index: nat, node: Id, skip: Skip, move: Move)
    requires index < |query.location| && query.location[index].OtherPart?
    requires move in Expand(query, index, node, skip)
    ensures move.skip.Opaque?
  {
    var resolved := Resolve(query.schema, node);
    var variants := Variants(query.schema, resolved);
    NoCandidates(query, index, variants);
    NoNested(query, index, resolved, variants, skip);
  }

  lemma OpaqueReadsNothing(query: Query, index: nat, node: Id)
    requires index < |query.location| && (query.location[index].OtherPart? || query.location[index].FloatPart?)
    ensures Expand(query, index, node, Skip.Opaque) == []
  {
    NoCandidates(query, index, Variants(query.schema, Resolve(query.schema, node)));
  }

  lemma StuckEnds(query: Query, path: seq<Move>, j: nat)
    requires IsPath(ProblemOf(query), path) && j + 1 < |path|
    ensures !Stuck(query.location[j], query.location[j + 1])
  {
    hide Expand, Moves, ExpandFails;
    var problem := ProblemOf(query);
    PathStep(problem, path, j);
    PathStep(problem, path, j + 1);
    if Stuck(query.location[j], query.location[j + 1]) {
      var before, after := End(problem, path[..j]), End(problem, path[..j + 1]);
      MovesAreReadings(query, j, before.node, before.skip, path[j]);
      OtherOnlySkips(query, j, before.node, before.skip, path[j]);
      assert path[..j + 1][j] == path[j];
      OpaqueReadsNothing(query, j + 1, after.node);
      MovesAreReadings(query, j + 1, after.node, after.skip, path[j + 1]);
      assert false;
    }
  }

  lemma FailsAtNegative(query: Query, index: nat, node: Id, skip: Skip)
    requires index < |query.location| && ProblemOf(query).expand(index, node, skip).None?
    ensures Negative(query.location[index])
  {
    hide Expand, Variants, Resolve;
    assert ProblemOf(query).expand(index, node, skip) == ExpandAt(query, index, node, skip);
    var variants := Variants(query.schema, Resolve(query.schema, node));
    var k :| 0 <= k < |variants| && IndexFails(query, index, variants[k]);
  }

  lemma FailingIsNegative(query: Query)
    requires Fails(ProblemOf(query))
    ensures CanFail(query.location)
  {
    hide IsPath, ExpandAt, Expand, Stuck, Negative;
    var problem := ProblemOf(query);
    var path :| IsPath(problem, path) && |path| < |problem.location|
      && problem.expand(|path|, End(problem, path).node, End(problem, path).skip).None?;
    FailsAtNegative(query, |path|, End(problem, path).node, End(problem, path).skip);
    forall j | 0 <= j && j + 1 < |path|
      ensures !Stuck(query.location[j], query.location[j + 1])
    {
      StuckEnds(query, path, j);
    }
  }

  // ---------- Everywhere there ----------

  /** The strings of a location, or the texts of its floats, each once. */
  function Listed(location: seq<Part>, floats: bool): (keys: seq<string>)
    ensures forall i, j :: 0 <= i < j < |keys| ==> keys[i] != keys[j]
  {
    if location == [] then []
    else
      var keys, last := Listed(location[..|location| - 1], floats), location[|location| - 1];
      var key := if floats && last.FloatPart? then Some(last.text)
                 else if !floats && last.StrPart? then Some(last.s) else None;
      if key.None? || key.value in keys then keys else keys + [key.value]
  }

  lemma {:induction false} ListedAll(location: seq<Part>, index: nat)
    requires index < |location|
    ensures location[index].StrPart? ==> location[index].s in Listed(location, false)
    ensures location[index].FloatPart? ==> location[index].text in Listed(location, true)
  {
    if index < |location| - 1 {
      ListedAll(location[..|location| - 1], index);
    }
  }

  /** A union that is its own item, property and tagged variant:
      `{"anyOf": [{"prefixItems": [], "items": root, "properties": {s: root, ...}}, {}], "r": root,
        "discriminator": {"mapping": {f: "#/r", ...}}}` for the strings and floats of a location. */
  function LoopSchema(strings: seq<string>, floats: seq<string>): Schema {
    Schema(map[
      0 := Obj(map["anyOf" := 1, "discriminator" := 2, "r" := 0], ["anyOf", "discriminator", "r"]),
      1 := Arr([3, 4]),
      2 := Obj(map["mapping" := 5], ["mapping"]),
      3 := Obj(map["prefixItems" := 6, "items" := 0, "properties" := 8], ["prefixItems", "items", "properties"]),
      4 := Obj(map[], []),
      5 := Obj(map text | text in floats :: 7, floats),
      6 := Arr([]),
      7 := Text("#/r"),
      8 := Obj(map s | s in strings :: 0, strings)], 0)
  }

  lemma LoopIsOrdered(strings: seq<string>, floats: seq<string>)
    requires forall i, j :: 0 <= i < j < |strings| ==> strings[i] != strings[j]
    requires forall i, j :: 0 <= i < j < |floats| ==> floats[i] != floats[j]
    ensures LoopSchema(strings, floats).Ordered()
  {
  }

  function LoopQuery(location: seq<Part>): Query {
    Query(LoopSchema(Listed(location, false), Listed(location, true)), location, map[], map[], false, _ => false)
  }

  lemma LoopFields(strings: seq<string>, floats: seq<string>)
    ensures var schema := LoopSchema(strings, floats);
      && schema.TextField(0, "$ref").None? && schema.TextField(3, "$ref").None? && schema.TextField(4, "$ref").None?
      && schema.Field(0, "$ref").None?
      && schema.ListField(0, "anyOf") == Some([3, 4])
      && schema.ListField(3, "anyOf").None? && schema.ListField(3, "oneOf").None?
      && schema.ListField(4, "anyOf").None? && schema.ListField(4, "oneOf").None?
      && schema.TextField(3, "type").None? && schema.TextField(4, "type").None?
      && schema.TextField(3, "title").None? && schema.TextField(4, "title").None?
      && schema.Field(0, "r") == Some(0)
  {
  }

  lemma LoopKeys(strings: seq<string>, floats: seq<string>)
    ensures var schema := LoopSchema(strings, floats);
      && schema.ListField(3, "prefixItems") == Some([]) && schema.Field(3, "items") == Some(0)
      && schema.ObjField(3, "properties") == Some(8) && schema.Field(3, "additionalProperties").None?
      && schema.ListField(4, "prefixItems").None? && schema.Field(4, "items").None?
      && schema.ObjField(4, "properties").None? && schema.Field(4, "additionalProperties").None?
      && (forall s :: schema.ObjField(8, s) == if s in strings then Some(0) else None)
  {
  }

  lemma LoopTags(strings: seq<string>, floats: seq<string>)
    ensures var schema := LoopSchema(strings, floats);
      && schema.ObjField(0, "discriminator") == Some(2) && schema.ObjField(2, "mapping") == Some(5)
      && (forall f :: schema.TextField(5, f) == if f in floats then Some("#/r") else None)
  {
  }

  lemma LoopTarget(strings: seq<string>, floats: seq<string>)
    ensures Target(LoopSchema(strings, floats), "#/r") == Some(0)
  {
    var schema := LoopSchema(strings, floats);
    LoopFields(strings, floats);
    assert "#/r"[2..] == "r" && "r"[1..] == [];
    assert Split("r") == ["r"] by {
      assert Split([]) == [[]];
      assert ['r'] + [] == "r";
      var parts := Split([]);
      assert parts == [[]] && parts[1..] == [];
    }
    assert Decode("r") == "r";
    assert DecodeAll(["r"]) == ["r"];
    assert ["r"][1..] == [];
    assert Follow(schema, 0, ["r"]) == Some(0);
  }

  lemma LoopVariants(strings: seq<string>, floats: seq<string>)
    ensures var schema := LoopSchema(strings, floats);
      && Resolve(schema, 0) == 0 && IsUnion(schema, 0) && Variants(schema, 0) == [3, 4]
      && MarkersExpected(schema, [3, 4]) && !IsUnion(schema, 3) && !IsUnion(schema, 4)
  {
    var schema := LoopSchema(strings, floats);
    LoopFields(strings, floats);
    assert [3, 4][1..] == [4] && [4][1..] == [];
    assert ObjectsIn(schema, [4]) == [4] && ObjectsIn(schema, [3, 4]) == [3, 4];
    assert ResolveAll(schema, [3, 4]) == [3, 4];
    assert NonNullCount(schema, [4]) == 1 && NonNullCount(schema, [3, 4]) == 2;
  }

  lemma {:induction false} LoopMapped(strings: seq<string>, floats: seq<string>, keys: seq<string>)
    ensures var mapped := SelectMapped(LoopSchema(strings, floats), 5, keys);
      && (mapped.Some? ==> mapped.value == 0)
      && (keys != [] && keys[0] in floats ==> mapped.Some?)
  {
    hide LoopSchema;
    if keys != [] {
      LoopFields(strings, floats);
      LoopTags(strings, floats);
      LoopTarget(strings, floats);
      LoopMapped(strings, floats, keys[1..]);
    }
  }

  /** Selection finds the root or nothing, and finds it for every float of the location. */
  lemma LoopSelects(strings: seq<string>, floats: seq<string>, part: Part)
    ensures var selected := SelectVariant(LoopSchema(strings, floats), 0, part);
      && (selected.Some? ==> selected.value == Selection(0, true))
      && (part.FloatPart? && part.text in floats ==> selected.Some?)
      && (part.OtherPart? ==> selected.None?)
  {
    hide LoopSchema, Variants, SelectMapped;
    var schema := LoopSchema(strings, floats);
    LoopFields(strings, floats);
    LoopTags(strings, floats);
    LoopVariants(strings, floats);
    var keys := MappingKeys(part);
    if keys.Some? {
      LoopMapped(strings, floats, keys.value);
    }
    if part.StrPart? {
      assert [3, 4][1..] == [4] && [4][1..] == [];
      assert SelectTitled(schema, [4], part.s).None?;
      assert SelectTitled(schema, [3, 4], part.s).None?;
    }
  }

  // ---------- The dive over that schema ----------

  /** What the readings of a part at the root are, apart from marker skips. */
  lemma LoopExpands(location: seq<Part>, index: nat, skip: Skip)
    requires index < |location|
    ensures var query := LoopQuery(location);
      && (ExpandFails(query, index, 0) <==> Negative(location[index]))
      && Expand(query, index, 0, skip)
         == (if skip.Opaque? then [] else SelectMoves(query, index, 0, [3, 4], skip))
            + ChildMoves(query, index, Candidates(query, index, 3) + Candidates(query, index, 4), {})
            + SkipMoves(query, index, 0, [3, 4], skip)
  {
    hide LoopSchema, SelectMoves, ChildMoves, SkipMoves, Candidates, Variants, Resolve;
    var query := LoopQuery(location);
    var strings, floats := Listed(location, false), Listed(location, true);
    LoopVariants(strings, floats);
    LoopKeys(strings, floats);
    assert [3, 4][1..] == [4] && [4][1..] == [];
    assert NestedMoves(query, index, 0, [4], skip) == [];
    assert NestedMoves(query, index, 0, [3, 4], skip) == [];
    assert AllCandidates(query, index, []) == [];
    assert AllCandidates(query, index, [4]) == Candidates(query, index, 4);
    assert AllCandidates(query, index, [3, 4]) == Candidates(query, index, 3) + Candidates(query, index, 4);
    if Negative(location[index]) {
      assert IndexFails(query, index, [3, 4][0]);
    }
  }

  lemma LoopChildren(location: seq<Part>, index: nat)
    requires index < |location|
    ensures var query := LoopQuery(location);
      ChildMoves(query, index, Candidates(query, index, 3) + Candidates(query, index, 4), {})
      == if location[index].OtherPart? || location[index].FloatPart? || Negative(location[index]) then []
         else [Move(EXACT, 0, NoSkip, Some(Shown(query, index)))]
  {
    hide LoopSchema;
    var query := LoopQuery(location);
    var part := location[index];
    LoopKeys(Listed(location, false), Listed(location, true));
    assert query.schema.IsObj(0) by { LoopRootIsObject(Listed(location, false), Listed(location, true)); }
    var candidates := Candidates(query, index, 3) + Candidates(query, index, 4);
    if part.StrPart? {
      ListedAll(location, index);
      assert candidates == [Candidate(Some(0), EXACT), Candidate(None, ADDITIONAL), Candidate(None, EXACT),
                            Candidate(None, ADDITIONAL)];
    } else if IntOf(part).Some? {
      assert candidates == [Candidate(if Negative(part) then None else Some(0), EXACT), Candidate(None, EXACT)];
    } else {
      assert candidates == [];
    }
    NoneLeft(query, index, candidates);
  }

  lemma LoopRootIsObject(strings: seq<string>, floats: seq<string>)
    ensures LoopSchema(strings, floats).IsObj(0)
  {
  }

  /** Candidates after the first that are absent add nothing. */
  lemma NoneLeft(query: Query, index: nat, candidates: seq<Candidate>)
    requires index < |query.location|
    requires forall i :: 0 < i < |candidates| ==> candidates[i].child.None?
    requires candidates != [] && candidates[0].child.Some? ==> query.schema.IsObj(candidates[0].child.value)
    ensures ChildMoves(query, index, candidates, {})
         == if candidates == [] || candidates[0].child.None? then []
            else [Move(candidates[0].weight, candidates[0].child.value, NoSkip, Some(Shown(query, index)))]
  {
    if candidates != [] {
      AbsentAddNothing(query, index, candidates[1..], {});
      if candidates[0].child.Some? {
        AbsentAddNothing(query, index, candidates[1..], {} + {candidates[0].child.value});
      }
    }
  }

  lemma {:induction false} AbsentAddNothing(query: Query, index: nat, candidates: seq<Candidate>, seen: set<Id>)
    requires index < |query.location|
    requires forall i :: 0 <= i < |candidates| ==> candidates[i].child.None?
    ensures ChildMoves(query, index, candidates, seen) == []
  {
    if candidates != [] {
      AbsentAddNothing(query, index, candidates[1..], seen);
    }
  }

  /** How the dive can stand at the root: without a skip, or right after one over a part of no text. */
  ghost predicate Diving(location: seq<Part>, state: State) {
    && state.index <= |location| && state.node == 0
    && (state.skip.NoSkip? || (state.skip.Opaque? && state.index > 0 && location[state.index - 1].OtherPart?))
  }

  /** Every reading at the root leads back to it, and one of them weighs as much as navigation where a part can be
      navigated or selected. */
  lemma DiveMoves(location: seq<Part>, state: State)
    requires Diving(location, state) && state.index < |location| && !Negative(location[state.index])
    requires state.index > 0 ==> !Stuck(location[state.index - 1], location[state.index])
    ensures var moves := Expand(LoopQuery(location), state.index, state.node, state.skip);
      && (forall m :: m in moves ==> m.node == 0)
      && if location[state.index].OtherPart? then moves == [Move(MARKER_SKIP, 0, Skip.Opaque, None)]
         else exists m :: m in moves && m.weight >= EXACT
  {
    hide LoopSchema, Expand, SelectVariant, ChildMoves, Candidates, SkipFor;
    var query := LoopQuery(location);
    var index, part, skip := state.index, location[state.index], state.skip;
    LoopExpands(location, index, skip);
    LoopChildren(location, index);
    LoopVariants(Listed(location, false), Listed(location, true));
    LoopSelects(Listed(location, false), Listed(location, true), part);
    var moves := Expand(query, index, 0, skip);
    var children := ChildMoves(query, index, Candidates(query, index, 3) + Candidates(query, index, 4), {});
    if part.OtherPart? {
      assert SkipFor(query, part, 0) == Skip.Opaque by { SkipOfOther(query, part, 0); }
    } else if part.FloatPart? {
      ListedAll(location, index);
      assert moves[0] == Move(DISCRIMINATOR_SELECT, 0, NoSkip, None);
    } else {
      assert children[0] in moves;
    }
  }

  lemma DiveGoesOn(location: seq<Part>, state: State)
    requires Diving(location, state) && state.index < |location| && !Negative(location[state.index])
    requires state.index > 0 ==> !Stuck(location[state.index - 1], location[state.index])
    ensures var moves := Expand(LoopQuery(location), state.index, state.node, state.skip);
      moves != [] && Diving(location, After(state, Heaviest(moves)))
  {
    hide LoopSchema, Expand, Stuck;
    DiveMoves(location, state);
    var moves := Expand(LoopQuery(location), state.index, state.node, state.skip);
    MoveWeights(LoopQuery(location), state.index, state.node, state.skip, Heaviest(moves));
  }

  lemma SkipOfOther(query: Query, part: Part, node: Id)
    requires part.OtherPart?
    ensures SkipFor(query, part, node) == Skip.Opaque
  {
  }

  lemma {:induction false} DiveMeets(location: seq<Part>, k: nat, state: State)
    requires k < |location| && Negative(location[k]) && Passable(location, k)
    requires Diving(location, state) && state.index <= k
    ensures DiveFails(ProblemOf(LoopQuery(location)), state)
    decreases k - state.index
  {
    hide Expand, ExpandFails, LoopSchema, Stuck, Diving;
    var query := LoopQuery(location);
    var problem := ProblemOf(query);
    assert state.node == 0 by { DivingAtRoot(location, state); }
    LoopExpands(location, state.index, state.skip);
    assert problem.expand(state.index, state.node, state.skip) == ExpandAt(query, state.index, state.node, state.skip);
    if !Negative(location[state.index]) {
      DiveGoesOn(location, state);
      var moves := Expand(query, state.index, state.node, state.skip);
      DiveMeets(location, k, After(state, Heaviest(moves)));
    }
  }

  lemma DivingAtRoot(location: seq<Part>, state: State)
    requires Diving(location, state)
    ensures state.node == 0
  {
  }

  lemma {:induction false} DiveFailureIsFailure(problem: Problem, path: seq<Move>)
    requires IsPath(problem, path) && DiveFails(problem, End(problem, path))
    ensures Fails(problem)
    decreases |problem.location| - |path|
  {
    var state := End(problem, path);
    var moves := problem.expand(state.index, state.node, state.skip);
    if moves.Some? {
      var move := Heaviest(moves.value);
      PathSnoc(problem, path, move);
      DiveFailureIsFailure(problem, path + [move]);
    }
  }

  ghost predicate DiveRaises(query: Query) {
    DiveFails(ProblemOf(query), Start(ProblemOf(query)))
  }

  /** A location makes the resolver raise for some schema, in the dive already, exactly if a negative integer comes
      before any part of no text that is followed by another such part or by a float. */
  lemma RaisesExactly(location: seq<Part>)
    ensures (exists query: Query :: query.location == location && DiveRaises(query)) <==> CanFail(location)
    ensures (exists query: Query :: query.location == location && Fails(ProblemOf(query))) <==> CanFail(location)
    ensures CanFail(location) ==>
              exists query: Query :: query.location == location && query.schema.Ordered() && DiveRaises(query)
  {
    hide ProblemOf, Fails, DiveRaises, CanFail;
    forall query: Query | query.location == location && Fails(ProblemOf(query))
      ensures CanFail(location)
    {
      FailingIsNegative(query);
    }
    forall query: Query | query.location == location && DiveRaises(query)
      ensures Fails(ProblemOf(query))
    {
      RaisingIsFailing(query);
    }
    if CanFail(location) {
      LoopRaises(location);
    }
  }

  lemma RaisingIsFailing(query: Query)
    requires DiveRaises(query)
    ensures Fails(ProblemOf(query))
  {
    DiveFailureIsFailure(ProblemOf(query), []);
  }

  lemma LoopRaises(location: seq<Part>)
    requires CanFail(location)
    ensures var query := LoopQuery(location);
      query.location == location && query.schema.Ordered() && DiveRaises(query)
  {
    LoopIsOrdered(Listed(location, false), Listed(location, true));
    hide DiveFails, Passable, Stuck;
    var k :| 0 <= k < |location| && Negative(location[k]) && Passable(location, k);
    DiveMeets(location, k, Start(ProblemOf(LoopQuery(location))));
  }

  /** For the strings, integers and booleans that validation errors are made of: exactly if some integer is negative. */
  lemma PlainRaisesExactly(location: seq<Part>)
    requires forall k :: 0 <= k < |location| ==> !location[k].OtherPart? && !location[k].FloatPart?
    ensures (exists query: Query :: query.location == location && Fails(ProblemOf(query)))
            <==> exists k :: 0 <= k < |location| && Negative(location[k])
  {
    hide ProblemOf, Fails, DiveRaises;
    RaisesExactly(location);
    if k :| 0 <= k < |location| && Negative(location[k]) {
      assert Passable(location, k);
      assert CanFail(location);
    }
  }
}
