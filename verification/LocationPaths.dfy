/** Error locations that spell a path of the schema: where the resolver must come out. */
module LocationPaths {
  import opened Values
  import opened Schemas
  import opened Locations
  import opened ErrorLocations
  import opened LocationSearch
  import opened PathReadings
  import opened SchemaPaths

  // ---------- Whole locations ----------

  function Worth(steps: seq<Step>): int {
    if steps == [] then 0 else Worth(steps[..|steps| - 1]) + WorthOf(steps[|steps| - 1])
  }

  /** The members and keys among the first parts, as they are shown. */
  function Displayed(query: Query, steps: seq<Step>): seq<Part>
    requires |steps| <= |query.location|
  {
    if steps == [] then []
    else
      var last := |steps| - 1;
      Displayed(query, steps[..last]) + (if steps[last].Member? || steps[last].Open? then [ShownAs(query, last)] else [])
  }

  /** The location spells a path of the schema through these places. */
  ghost predicate Spells(query: Query, places: seq<Place>, steps: seq<Step>) {
    && |steps| == |query.location| && |places| == |steps| + 1 && places[0] == Place(query.schema.root, NoSkip)
    && forall i :: 0 <= i < |steps| ==> Steps(query, i, places[i], steps[i], places[i + 1])
  }

  /** A step is what the dive takes. */
  lemma StepTaken(query: Query, places: seq<Place>, steps: seq<Step>, i: nat)
    requires Spells(query, places, steps) && i < |steps|
    ensures var moves := ProblemOf(query).expand(i, places[i].node, places[i].skip);
      moves.Some? && moves.value != [] && Heaviest(moves.value) == ReadAs(query, i, steps[i], places[i + 1])
  {
    hide Steps, Expand, ExpandFails;
    StepReads(query, i, places[i], steps[i], places[i + 1]);
    assert ProblemOf(query).expand(i, places[i].node, places[i].skip) == ExpandAt(query, i, places[i].node, places[i].skip);
  }

  /** The path reads the first parts as the location spells them. */
  ghost predicate OnTrack(query: Query, places: seq<Place>, steps: seq<Step>, path: seq<Move>)
    requires Spells(query, places, steps)
  {
    var n, problem := |path|, ProblemOf(query);
    && n <= |steps| && IsPath(problem, path)
    && End(problem, path) == State(n, places[n].node, places[n].skip)
    && Weight(path) == Worth(steps[..n])
    && Display(path) == Displayed(query, steps[..n])
  }

  lemma StepAdds(query: Query, steps: seq<Step>, n: nat)
    requires n < |steps| <= |query.location|
    ensures Worth(steps[..n + 1]) == Worth(steps[..n]) + WorthOf(steps[n])
    ensures Displayed(query, steps[..n + 1])
         == Displayed(query, steps[..n]) + (if steps[n].Member? || steps[n].Open? then [ShownAs(query, n)] else [])
  {
    assert steps[..n + 1][..n] == steps[..n];
  }

  lemma StaysOnTrack(query: Query, places: seq<Place>, steps: seq<Step>, path: seq<Move>)
    requires Spells(query, places, steps) && OnTrack(query, places, steps, path) && |path| < |steps|
    ensures OnTrack(query, places, steps, path + [ReadAs(query, |path|, steps[|path|], places[|path| + 1])])
  {
    hide Steps, IsPath, Weight, Display, Worth, Displayed;
    var n, problem := |path|, ProblemOf(query);
    var read := ReadAs(query, n, steps[n], places[n + 1]);
    StepTaken(query, places, steps, n);
    assert read in Moves(problem, n, places[n].node, places[n].skip);
    PathSnoc(problem, path, read);
    StepAdds(query, steps, n);
    assert Display(path) + [] == Display(path);
  }

  /** The dive follows the path that the location spells. */
  lemma {:induction false} GreedyFollows(query: Query, places: seq<Place>, steps: seq<Step>, path: seq<Move>)
    requires Spells(query, places, steps) && OnTrack(query, places, steps, path)
    ensures OnTrack(query, places, steps, GreedyFrom(ProblemOf(query), path))
    ensures |GreedyFrom(ProblemOf(query), path)| == |steps|
    ensures !DiveFails(ProblemOf(query), State(|path|, places[|path|].node, places[|path|].skip))
    decreases |steps| - |path|
  {
    hide Spells, OnTrack, GreedyFrom, DiveFails, IsPath, IsReading, ReadAs, Heaviest, ProblemOf;
    SpellsLength(query, places, steps);
    TrackEnds(query, places, steps, path);
    var n := |path|;
    if n < |steps| {
      var read := ReadAs(query, n, steps[n], places[n + 1]);
      var next := path + [read];
      StepTaken(query, places, steps, n);
      StaysOnTrack(query, places, steps, path);
      TrackEnds(query, places, steps, next);
      GreedyFollows(query, places, steps, next);
      TakenNext(query, path, State(n, places[n].node, places[n].skip), read);
      assert After(State(n, places[n].node, places[n].skip), read) == State(n + 1, places[n + 1].node, places[n + 1].skip)
        by { ReadLeads(query, n, steps[n], places[n + 1]); }
    } else {
      DiveEnds(query, path);
    }
  }

  lemma SpellsLength(query: Query, places: seq<Place>, steps: seq<Step>)
    requires Spells(query, places, steps)
    ensures |steps| == |query.location| && |places| == |steps| + 1 && places[0] == Place(query.schema.root, NoSkip)
  {
  }

  lemma TrackEnds(query: Query, places: seq<Place>, steps: seq<Step>, path: seq<Move>)
    requires Spells(query, places, steps) && OnTrack(query, places, steps, path)
    ensures |path| <= |steps| && IsPath(ProblemOf(query), path)
    ensures End(ProblemOf(query), path) == State(|path|, places[|path|].node, places[|path|].skip)
  {
    hide Steps;
  }

  lemma ReadLeads(query: Query, index: nat, step: Step, to: Place)
    requires index < |query.location|
    ensures var read := ReadAs(query, index, step, to); read.node == to.node && read.skip == to.skip
  {
  }

  /** The dive takes the heaviest move. */
  lemma TakenNext(query: Query, path: seq<Move>, state: State, read: Move)
    requires var problem := ProblemOf(query);
      && IsPath(problem, path) && |path| < |query.location| && End(problem, path) == state
      && IsPath(problem, path + [read])
      && var moves := problem.expand(state.index, state.node, state.skip);
         moves.Some? && moves.value != [] && Heaviest(moves.value) == read
    ensures var problem := ProblemOf(query);
      && GreedyFrom(problem, path) == GreedyFrom(problem, path + [read])
      && (DiveFails(problem, state) <==> DiveFails(problem, After(state, read)))
  {
    hide IsPath;
  }

  lemma DiveEnds(query: Query, path: seq<Move>)
    requires IsPath(ProblemOf(query), path) && |path| == |query.location|
    ensures GreedyFrom(ProblemOf(query), path) == path && ProblemOf(query).location == query.location
    ensures forall state: State :: state.index == |query.location| ==> !DiveFails(ProblemOf(query), state)
  {
  }

  lemma StartsOnTrack(query: Query, places: seq<Place>, steps: seq<Step>)
    requires Spells(query, places, steps)
    ensures OnTrack(query, places, steps, [])
  {
    hide Steps;
  }

  /** A location that spells a path of the schema is read greedily as that path: to its end, with exactly the members and
      keys displayed, and the dive does not raise. */
  lemma GreedySpells(query: Query, places: seq<Place>, steps: seq<Step>)
    requires Spells(query, places, steps)
    ensures var greedy := GreedyFrom(ProblemOf(query), []);
      && |greedy| == |query.location| && End(ProblemOf(query), greedy).node == places[|steps|].node
      && Weight(greedy) == Worth(steps) && Display(greedy) == Displayed(query, steps)
    ensures !DiveFails(ProblemOf(query), Start(ProblemOf(query)))
  {
    hide Steps, GreedyFrom, DiveFails, IsPath, Weight, Display, Worth, Displayed;
    StartsOnTrack(query, places, steps);
    GreedyFollows(query, places, steps, []);
    assert steps[..|steps|] == steps;
  }

  // ---------- Schemas without unions ----------

  ghost predicate UnionFree(schema: Schema) {
    forall id :: schema.ListField(id, "anyOf").None? && schema.ListField(id, "oneOf").None? && schema.ListField(id, "allOf").None?
  }

  /** Without unions every reading is a child of one node. */
  lemma UnionFreeReads(query: Query, index: nat, node: Id, skip: Skip)
    requires UnionFree(query.schema) && index < |query.location|
    ensures var at := Resolve(query.schema, node);
      && |Variants(query.schema, at)| == 1
      && Expand(query, index, node, skip) == OwnChildren(query, index, Variants(query.schema, at)[0], {})
  {
    hide Resolve, OwnChildren, ChildMoves, AllCandidates;
    var variants := Variants(query.schema, Resolve(query.schema, node));
    VariantsFirst(query, index, variants, {});
    assert variants[1..] == [];
    NoChildren(query, index, SeenWith(query, index, variants[0], {}));
    var own := OwnChildren(query, index, variants[0], {});
    assert [] + own + [] == own && own + [] == own;
  }

  lemma OwnAreLight(query: Query, index: nat, node: Id, seen: set<Id>)
    requires index < |query.location|
    ensures forall m :: m in OwnChildren(query, index, node, seen) ==> m.weight <= EXACT
    ensures forall m :: m in OwnChildren(query, index, node, seen) && m.weight >= EXACT ==>
              MemberOf(query, index, node) == Some(m.node)
              && m == Move(EXACT, m.node, NoSkip, Some(Shown(query, index)))
  {
  }

  /** Without unions no reading weighs more than a named child. */
  lemma UnionFreeWeights(query: Query, index: nat, node: Id, skip: Skip, m: Move)
    requires UnionFree(query.schema) && m in Moves(ProblemOf(query), index, node, skip)
    ensures m.weight <= EXACT
  {
    hide Expand, OwnChildren, Resolve, Variants, UnionFree;
    MovesAreReadings(query, index, node, skip, m);
    UnionFreeReads(query, index, node, skip);
    OwnAreLight(query, index, Variants(query.schema, Resolve(query.schema, node))[0], {});
  }

  lemma {:induction false} WeighsNoMore(query: Query, path: seq<Move>)
    requires UnionFree(query.schema) && IsPath(ProblemOf(query), path)
    ensures Weight(path) <= EXACT * |path|
  {
    hide Moves, UnionFree;
    if path != [] {
      var init, problem := path[..|path| - 1], ProblemOf(query);
      WeighsNoMore(query, init);
      UnionFreeWeights(query, |init|, End(problem, init).node, End(problem, init).skip, path[|init|]);
    }
  }

  lemma {:induction false} MembersWeigh(steps: seq<Step>)
    requires forall i :: 0 <= i < |steps| ==> steps[i].Member?
    ensures Worth(steps) == EXACT * |steps|
  {
    if steps != [] {
      MembersWeigh(steps[..|steps| - 1]);
    }
  }

  lemma HeavyIsRead(query: Query, places: seq<Place>, steps: seq<Step>, n: nat, m: Move)
    requires Spells(query, places, steps) && n < |steps| && steps[n].Member? && UnionFree(query.schema)
    requires m in Moves(ProblemOf(query), n, places[n].node, places[n].skip) && m.weight >= EXACT
    ensures m == ReadAs(query, n, steps[n], places[n + 1])
  {
    hide Expand, OwnChildren, Resolve, Variants, UnionFree, Free, CountsTooFar, MemberOf, Moves;
    MovesAreReadings(query, n, places[n].node, places[n].skip, m);
    UnionFreeReads(query, n, places[n].node, places[n].skip);
    var variants := Variants(query.schema, Resolve(query.schema, places[n].node));
    OwnAreLight(query, n, variants[0], {});
    assert Steps(query, n, places[n], Member, places[n + 1]);
    var k: nat :| MemberAt(query, n, variants, k, places[n + 1].node);
    assert k == 0;
  }

  /** A path of named members is read in one way only: anything else weighs less. */
  lemma {:induction false} OnlyReading(query: Query, places: seq<Place>, steps: seq<Step>, path: seq<Move>)
    requires Spells(query, places, steps) && UnionFree(query.schema)
    requires forall i :: 0 <= i < |steps| ==> steps[i].Member?
    requires IsPath(ProblemOf(query), path) && |path| <= |steps| && Weight(path) >= EXACT * |path|
    ensures OnTrack(query, places, steps, path)
  {
    hide Spells, Moves, Display, OnTrack, UnionFree;
    var problem := ProblemOf(query);
    if path == [] {
      StartsOnTrack(query, places, steps);
    } else {
      var n := |path| - 1;
      var init, last := path[..n], path[n];
      WeighsNoMore(query, init);
      UnionFreeWeights(query, n, End(problem, init).node, End(problem, init).skip, last);
      OnlyReading(query, places, steps, init);
      SpellsLength(query, places, steps);
      TrackEnds(query, places, steps, init);
      HeavyIsRead(query, places, steps, n, last);
      StaysOnTrack(query, places, steps, init);
      assert path == init + [last];
    }
  }

  lemma {:induction false} MembersShown(query: Query, steps: seq<Step>)
    requires |steps| <= |query.location| && forall i :: 0 <= i < |steps| ==> steps[i].Member?
    ensures Displayed(query, steps) == seq(|steps|, i requires 0 <= i < |steps| => ShownAs(query, i))
  {
    if steps != [] {
      MembersShown(query, steps[..|steps| - 1]);
    }
  }

  /** A full reading as heavy as a path of named members is that path. */
  lemma OnlyIncumbent(query: Query, places: seq<Place>, steps: seq<Step>, best: Incumbent)
    requires Spells(query, places, steps) && UnionFree(query.schema)
    requires forall i :: 0 <= i < |steps| ==> steps[i].Member?
    requires IsIncumbent(ProblemOf(query), best) && best.key.full && best.key.weight >= Worth(steps)
    ensures best.node == places[|steps|].node && best.display == Displayed(query, steps)
  {
    hide Steps, Weight, Display, IsPath, Worth, Displayed, UnionFree, Moves, GreedyFrom;
    var problem := ProblemOf(query);
    var path :| IsReading(problem, path) && KeyOf(problem, path) == best.key && End(problem, path).node == best.node
      && best.display == Display(path) + problem.location[|path|..];
    MembersWeigh(steps);
    OnlyReading(query, places, steps, path);
    assert steps[..|steps|] == steps;
    assert query.location[|path|..] == [] && Display(path) + [] == Display(path);
  }

  lemma GreedyIs(query: Query, steps: seq<Step>)
    requires |steps| == |query.location| == |GreedyFrom(ProblemOf(query), [])|
    ensures var greedy := GreedyFrom(ProblemOf(query), []);
      GreedyIncumbent(ProblemOf(query)) == Incumbent(Key(true, Weight(greedy)), Display(greedy), End(ProblemOf(query), greedy).node)
  {
    hide GreedyFrom, IsReading, Weight, Display;
    var greedy := GreedyFrom(ProblemOf(query), []);
    assert query.location[|greedy|..] == [] && Display(greedy) + [] == Display(greedy);
  }

  /** The resolver on a location that spells a path: its answer reads the whole location, and is that path unless it
      weighs more. Where the schema has no unions and the path goes through named members alone it is that path, whether the
      search was cut short or not. */
  method ResolveSpelledLocation(query: Query, ghost places: seq<Place>, ghost steps: seq<Step>)
    returns (outcome: Outcome, complete: bool, states: nat)
    requires Spells(query, places, steps)
    ensures outcome.Located? ==> outcome.best.key.full && outcome.best.key.weight >= Worth(steps)
    ensures outcome.Located? && outcome.best.key.weight == Worth(steps) ==>
              outcome.best.node == places[|steps|].node && outcome.best.display == Displayed(query, steps)
    ensures outcome.Located? && UnionFree(query.schema) && (forall i :: 0 <= i < |steps| ==> steps[i].Member?) ==>
              && outcome.best.node == places[|steps|].node
              && outcome.best.display == seq(|steps|, i requires 0 <= i < |steps| => ShownAs(query, i))
  {
    hide Spells, Fails, IsIncumbent, IsReading, DiveFails, UnionFree, GreedyIncumbent;
    outcome, complete, states := ResolveErrorLocation(query);
    SpellsLength(query, places, steps);
    GreedySpells(query, places, steps);
    GreedyIs(query, steps);
    if outcome.Located? && UnionFree(query.schema) && (forall i :: 0 <= i < |steps| ==> steps[i].Member?) {
      OnlyIncumbent(query, places, steps, outcome.best);
      MembersShown(query, steps);
    }
  }
}
