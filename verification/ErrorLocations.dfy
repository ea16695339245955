/** Error locations over JSON schemas: the search of `LocationSearch` over the readings of `Locations`. */
module ErrorLocations {
  import opened Values
  import opened Schemas
  import opened Locations
  import opened LocationSearch

  function ExpandAt(query: Query, index: nat, node: Id, skip: Skip): Option<seq<Move>> {
    if index >= |query.location| || ExpandFails(query, index, node) then None
    else Some(Expand(query, index, node, skip))
  }

  function ProblemOf(query: Query): Problem {
    Problem(query.location, query.schema.root, (index: nat, node: Id, skip: Skip) => ExpandAt(query, index, node, skip))
  }

  /** What the weights of readings promise the search, and what selection after a blind skip costs. */
  ghost predicate Weighted(problem: Problem) {
    forall index, node, skip, m :: m in Moves(problem, index, node, skip) ==>
      && (DESPERATE_SKIP <= m.weight <= DISCRIMINATOR_SELECT || m.weight == BLIND_SELECT)
      && (m.weight == BLIND_SELECT ==> skip.Blind? && m.skip.NoSkip?)
      && (!m.skip.NoSkip? ==> m.weight in {MARKER_SKIP, DESPERATE_SKIP})
  }

  lemma QueryIsWeighted(query: Query)
    ensures Weighted(ProblemOf(query)) && Admissible(ProblemOf(query))
  {
    hide Expand, ExpandFails;
    forall index, node, skip, m | m in Moves(ProblemOf(query), index, node, skip)
      ensures DESPERATE_SKIP <= m.weight <= DISCRIMINATOR_SELECT || m.weight == BLIND_SELECT
      ensures m.weight == BLIND_SELECT ==> skip.Blind? && m.skip.NoSkip?
      ensures !m.skip.NoSkip? ==> m.weight in {MARKER_SKIP, DESPERATE_SKIP}
    {
      MovesAreReadings(query, index, node, skip, m);
      MoveWeights(query, index, node, skip, m);
    }
  }

  lemma MovesAreReadings(query: Query, index: nat, node: Id, skip: Skip, m: Move)
    requires m in Moves(ProblemOf(query), index, node, skip)
    ensures index < |query.location| && m in Expand(query, index, node, skip)
  {
    assert ProblemOf(query).expand(index, node, skip) == ExpandAt(query, index, node, skip);
  }

  /** `_resolve_error_location`, up to rendering the displayed path: never worse than the greedy reading, and
      optimal over all readings when the refinement ends within the state cap. */
  method ResolveErrorLocation(query: Query) returns (outcome: Outcome, complete: bool, states: nat)
    ensures outcome.Located? ==> IsIncumbent(ProblemOf(query), outcome.best)
    ensures outcome.Located? ==>
              AtMost(KeyOf(ProblemOf(query), GreedyFrom(ProblemOf(query), [])), outcome.best.key)
    ensures outcome.Located? ==> Prefers(outcome.best, GreedyIncumbent(ProblemOf(query)))
    ensures outcome.Located? && complete ==>
              forall path :: IsReading(ProblemOf(query), path) ==>
                AtMost(KeyOf(ProblemOf(query), path), outcome.best.key)
    ensures !complete ==> states == MAX_LOCATION_STATES
    ensures DiveFails(ProblemOf(query), Start(ProblemOf(query))) ==> outcome.Raised?
    ensures outcome.Raised? ==> Fails(ProblemOf(query))
  {
    QueryIsWeighted(query);
    outcome, complete, states := Search(ProblemOf(query));
  }

  // ---------- `expand` as written ----------

  method NestedLoop(query: Query, index: nat, resolved: Id, variants: seq<Id>, skip: Skip) returns (moves: seq<Move>)
    requires index < |query.location|
    ensures moves == NestedMoves(query, index, resolved, variants, skip)
  {
    moves := [];
    for k := 0 to |variants|
      invariant moves + NestedMoves(query, index, resolved, variants[k..], skip)
             == NestedMoves(query, index, resolved, variants, skip)
    {
      var own := NestedMoves(query, index, resolved, [variants[k]], skip);
      NestedSplit(query, index, resolved, variants[k..], skip);
      assert variants[k..][1..] == variants[k + 1..];
      moves := moves + own;
    }
  }

  lemma NestedSplit(query: Query, index: nat, resolved: Id, variants: seq<Id>, skip: Skip)
    requires index < |query.location| && variants != []
    ensures NestedMoves(query, index, resolved, variants, skip)
         == NestedMoves(query, index, resolved, [variants[0]], skip)
            + NestedMoves(query, index, resolved, variants[1..], skip)
  {
    assert [variants[0]][1..] == [];
  }

  method CandidateLoop(query: Query, index: nat, candidates: seq<Candidate>, seen: set<Id>, ghost later: seq<Candidate>)
    returns (moves: seq<Move>, seen': set<Id>)
    requires index < |query.location|
    ensures moves + ChildMoves(query, index, later, seen') == ChildMoves(query, index, candidates + later, seen)
  {
    moves, seen' := [], seen;
    assert candidates[0..] + later == candidates + later;
    for c := 0 to |candidates|
      invariant moves + ChildMoves(query, index, candidates[c..] + later, seen')
             == ChildMoves(query, index, candidates + later, seen)
    {
      assert (candidates[c..] + later)[1..] == candidates[c + 1..] + later;
      var child := candidates[c].child;
      if child.None? || !query.schema.IsObj(child.value) || child.value in seen' {
        continue;
      }
      seen' := seen' + {child.value};
      moves := moves + [Move(candidates[c].weight, child.value, NoSkip, Some(Shown(query, index)))];
    }
    assert candidates[|candidates|..] + later == later;
  }

  method ChildLoop(query: Query, index: nat, variants: seq<Id>) returns (moves: Option<seq<Move>>)
    requires index < |query.location|
    ensures moves == if exists k :: 0 <= k < |variants| && IndexFails(query, index, variants[k]) then None
                     else Some(ChildMoves(query, index, AllCandidates(query, index, variants), {}))
  {
    var found: seq<Move> := [];
    var seen: set<Id> := {};
    for k := 0 to |variants|
      invariant forall j :: 0 <= j < k ==> !IndexFails(query, index, variants[j])
      invariant found + ChildMoves(query, index, AllCandidates(query, index, variants[k..]), seen)
             == ChildMoves(query, index, AllCandidates(query, index, variants), {})
    {
      if IndexFails(query, index, variants[k]) {
        return None;
      }
      var candidates := Candidates(query, index, variants[k]);
      assert variants[k..][1..] == variants[k + 1..];
      ghost var later := AllCandidates(query, index, variants[k + 1..]);
      assert AllCandidates(query, index, variants[k..]) == candidates + later;
      var more;
      more, seen := CandidateLoop(query, index, candidates, seen, later);
      found := found + more;
    }
    assert variants[|variants|..] == [];
    assert found + [] == found;
    return Some(found);
  }

  /** `expand`: the moves of a state, or nothing when indexing before a list raises `IndexError`. */
  method ExpandLoop(query: Query, index: nat, node: Id, skip: Skip) returns (moves: Option<seq<Move>>)
    requires index < |query.location|
    ensures moves == ExpandAt(query, index, node, skip)
  {
    var resolved := ResolveLocalRef(query.schema, node);
    var variants := Variants(query.schema, resolved);
    var found: seq<Move> := [];
    if IsUnion(query.schema, resolved) && !skip.Opaque? {
      var nested := NestedLoop(query, index, resolved, variants, skip);
      found := SelectMoves(query, index, resolved, variants, skip) + nested;
    }
    var children := ChildLoop(query, index, variants);
    if children.None? {
      return None;
    }
    return Some(found + children.value + SkipMoves(query, index, resolved, variants, skip));
  }

  // ---------- The penalty of selecting after a blind skip ----------

  ghost predicate SelectsBlindly(path: seq<Move>) {
    exists k :: 0 <= k < |path| && path[k].weight == BLIND_SELECT
  }

  ghost predicate IsFull(problem: Problem, path: seq<Move>) {
    IsReading(problem, path) && |path| == |problem.location|
  }

  /** Every full reading that avoids selecting after a blind skip beats every one that does not. */
  ghost predicate BlindLoses(problem: Problem) {
    forall blind, plain :: IsFull(problem, blind) && SelectsBlindly(blind) && IsFull(problem, plain) && !SelectsBlindly(plain)
      ==> Weight(plain) > Weight(blind)
  }

  lemma {:induction false} PathWeightBounds(problem: Problem, path: seq<Move>)
    requires Weighted(problem) && IsPath(problem, path)
    ensures !SelectsBlindly(path) ==> |path| <= Weight(path) <= DISCRIMINATOR_SELECT * |path|
    ensures !SelectsBlindly(path) && End(problem, path).skip.Blind? ==>
              |path| >= 1 && Weight(path) <= DISCRIMINATOR_SELECT * (|path| - 1) + MARKER_SKIP
    ensures SelectsBlindly(path) ==>
              |path| >= 2 && Weight(path) <= DISCRIMINATOR_SELECT * (|path| - 2) + MARKER_SKIP + BLIND_SELECT
  {
    if path != [] {
      var init, last := path[..|path| - 1], path[|path| - 1];
      PathWeightBounds(problem, init);
      assert last in Moves(problem, |init|, End(problem, init).node, End(problem, init).skip);
      assert path == init + [last];
      if SelectsBlindly(init) {
        var k :| 0 <= k < |init| && init[k].weight == BLIND_SELECT;
        assert path[k].weight == BLIND_SELECT;
      } else if last.weight == BLIND_SELECT {
        assert path[|init|].weight == BLIND_SELECT;
      } else {
        assert !SelectsBlindly(path);
      }
    }
  }

  /** The longest location for which the penalty outweighs whatever the rest of a reading can earn. */
  const MAX_PENALIZED := 287

  /** Up to 287 parts the penalty does what it is for. */
  lemma BlindLosesWhenShort(query: Query)
    requires |query.location| <= MAX_PENALIZED
    ensures BlindLoses(ProblemOf(query))
  {
    QueryIsWeighted(query);
    var problem := ProblemOf(query);
    forall blind, plain | IsFull(problem, blind) && SelectsBlindly(blind) && IsFull(problem, plain) && !SelectsBlindly(plain)
      ensures Weight(plain) > Weight(blind)
    {
      PathWeightBounds(problem, blind);
      PathWeightBounds(problem, plain);
    }
  }

  /** A wrapper marker one character past the scan limit. */
  function Giant(): (text: string)
    ensures |text| == MAX_MARKER_SCAN_CHARS + 1
    ensures StartsWith(text, "function-wrap[")
  {
    var text := "function-wrap[" + seq(MAX_MARKER_SCAN_CHARS - 13, _ => 'x');
    assert text[0..14] == "function-wrap[";
    text
  }

  /** A union of strings and of objects titled by that marker, each object such a union again:
      `{"a": {"title": ..., "anyOf": [{"$ref": "#/a"}, {"type": "string"}]}, "anyOf": [...the same...]}`. */
  function RecursiveSchema(): Schema {
    Schema(map[
      0 := Obj(map["a" := 1, "anyOf" := 2], ["a", "anyOf"]),
      1 := Obj(map["title" := 3, "anyOf" := 2], ["title", "anyOf"]),
      2 := Arr([4, 5]),
      3 := Text(Giant()),
      4 := Obj(map["$ref" := 6], ["$ref"]),
      5 := Obj(map["type" := 7], ["type"]),
      6 := Text("#/a"),
      7 := Text("string")], 0)
  }

  /** A location of `n` such markers. */
  function RecursiveQuery(n: nat, alnum: char -> bool): (query: Query)
    ensures |query.location| == n
  {
    Query(RecursiveSchema(), seq(n, _ => StrPart(Giant())), map[], map[], false, alnum)
  }

  lemma RecursiveResolves()
    ensures var schema := RecursiveSchema();
      Resolve(schema, 0) == 0 && Resolve(schema, 1) == 1 && Resolve(schema, 4) == 1 && Resolve(schema, 5) == 5
  {
    var schema := RecursiveSchema();
    assert schema.TextField(0, "$ref").None? && schema.TextField(1, "$ref").None? && schema.TextField(5, "$ref").None?;
    assert schema.TextField(4, "$ref") == Some("#/a");
    assert Target(schema, "#/a") == Some(1) by {
      assert "#/a"[2..] == "a";
      assert Split("a") == ["a"] by {
        assert "a"[1..] == [];
        assert Split([]) == [[]];
        assert ['a'] + [] == "a";
        var parts := Split([]);
        assert parts == [[]] && parts[1..] == [];
      }
      assert Decode("a") == "a" by {
        assert "a"[1..] == [];
      }
      assert DecodeAll(["a"]) == ["a"];
      assert schema.Field(0, "a") == Some(1);
      assert ["a"][1..] == [];
    }
  }

  lemma RecursiveList()
    ensures var schema := RecursiveSchema();
      && ResolveAll(schema, ObjectsIn(schema, [4, 5])) == [1, 5]
      && NonNullCount(schema, [1, 5]) == 2
  {
    hide Resolve;
    var schema := RecursiveSchema();
    RecursiveResolves();
    assert ObjectsIn(schema, [4, 5]) == [4, 5] by {
      assert [4, 5][1..] == [5] && [5][1..] == [];
      assert ObjectsIn(schema, [5]) == [5];
    }
    assert ResolveAll(schema, [4, 5]) == [1, 5];
    RecursiveCount();
  }

  lemma RecursiveCount()
    ensures NonNullCount(RecursiveSchema(), [1, 5]) == 2
  {
    var schema := RecursiveSchema();
    assert [1, 5][1..] == [5] && [5][1..] == [];
    assert schema.TextField(1, "type").None? && schema.TextField(5, "type") == Some("string");
    assert "string"[0] != "null"[0];
    assert NonNullCount(schema, [5]) == 1;
  }

  lemma RecursiveVariants(node: Id)
    requires node in {0, 1}
    ensures var schema := RecursiveSchema();
      Variants(schema, node) == [1, 5] && IsUnion(schema, node) && MarkersExpected(schema, [1, 5])
  {
    hide Resolve, ResolveAll, ObjectsIn, NonNullCount;
    RecursiveResolves();
    RecursiveList();
    assert RecursiveSchema().ListField(node, "anyOf") == Some([4, 5]);
  }

  lemma SelectsByTitle(schema: Schema, union: Id, title: string, variants: seq<Id>)
    requires schema.Field(union, "discriminator").None?
    requires variants != [] && Variants(schema, union) == variants
    requires schema.TextField(variants[0], "title") == Some(title)
    ensures SelectVariant(schema, union, StrPart(title)) == Some(Selection(variants[0], false))
  {
  }

  lemma RecursiveTitles(node: Id)
    requires node in {0, 1}
    ensures RecursiveSchema().Field(node, "discriminator").None?
    ensures RecursiveSchema().TextField(1, "title") == Some(Giant())
  {
    assert "discriminator" != "a" && "discriminator" != "anyOf" && "discriminator" != "title";
  }

  lemma RecursiveSelects(node: Id)
    requires node in {0, 1}
    ensures SelectVariant(RecursiveSchema(), node, StrPart(Giant())) == Some(Selection(1, false))
  {
    RecursiveVariants(node);
    RecursiveTitles(node);
    SelectsByTitle(RecursiveSchema(), node, Giant(), [1, 5]);
  }

  /** The readings of a marker at the recursive union that matter here. */
  lemma RecursiveMoves(n: nat, alnum: char -> bool, index: nat, node: Id, skip: Skip)
    requires index < n && node in {0, 1} && (skip.NoSkip? || skip.Blind?)
    ensures var moves := Moves(ProblemOf(RecursiveQuery(n, alnum)), index, node, skip);
      && Move(if skip.Blind? then BLIND_SELECT else DISCRIMINATOR_SELECT, 1, NoSkip, None) in moves
      && Move(DESPERATE_SKIP, node, Blind, None) in moves
  {
    var query := RecursiveQuery(n, alnum);
    var schema := query.schema;
    RecursiveResolves();
    RecursiveVariants(node);
    RecursiveSelects(node);
    assert query.location[index] == StrPart(Giant());
    assert !ExpandFails(query, index, node);
    assert ProblemOf(query).expand(index, node, skip) == ExpandAt(query, index, node, skip);
    var selects := SelectMoves(query, index, node, [1, 5], skip);
    assert selects == [Move(if skip.Blind? then BLIND_SELECT else DISCRIMINATOR_SELECT, 1, NoSkip, None)];
    assert SkipFor(query, StrPart(Giant()), node) == Blind;
    var skips := SkipMoves(query, index, node, [1, 5], skip);
    assert skips == [Move(DESPERATE_SKIP, node, Blind, None)];
    var moves := Expand(query, index, node, skip);
    assert selects[0] in moves;
    assert skips[0] in moves;
  }

  /** A problem of `n` parts with those readings everywhere. */
  ghost predicate Recursive(problem: Problem, n: nat) {
    && |problem.location| == n && problem.root == 0
    && forall index: nat, node: Id, skip: Skip :: index < n && node in {0, 1} && (skip.NoSkip? || skip.Blind?) ==>
         && Move(if skip.Blind? then BLIND_SELECT else DISCRIMINATOR_SELECT, 1, NoSkip, None)
              in Moves(problem, index, node, skip)
         && Move(DESPERATE_SKIP, node, Blind, None) in Moves(problem, index, node, skip)
  }

  lemma RecursiveQueryIsRecursive(n: nat, alnum: char -> bool)
    ensures Recursive(ProblemOf(RecursiveQuery(n, alnum)), n)
  {
    forall index: nat, node: Id, skip: Skip | index < n && node in {0, 1} && (skip.NoSkip? || skip.Blind?)
      ensures Move(if skip.Blind? then BLIND_SELECT else DISCRIMINATOR_SELECT, 1, NoSkip, None)
                in Moves(ProblemOf(RecursiveQuery(n, alnum)), index, node, skip)
      ensures Move(DESPERATE_SKIP, node, Blind, None)
                in Moves(ProblemOf(RecursiveQuery(n, alnum)), index, node, skip)
    {
      RecursiveMoves(n, alnum, index, node, skip);
    }
  }

  /** Skipping `k` markers in a row. */
  ghost function Skips(k: nat): seq<Move> {
    if k == 0 then [] else Skips(k - 1) + [Move(DESPERATE_SKIP, 0, Blind, None)]
  }

  lemma {:induction false} SkipsWeigh(k: nat)
    ensures |Skips(k)| == k && Weight(Skips(k)) == k && !SelectsBlindly(Skips(k))
  {
    if k > 0 {
      SkipsWeigh(k - 1);
      Snoc(Skips(k - 1), Move(DESPERATE_SKIP, 0, Blind, None));
    }
  }

  lemma Snoc(path: seq<Move>, move: Move)
    ensures SelectsBlindly(path + [move]) <==> SelectsBlindly(path) || move.weight == BLIND_SELECT
    ensures Weight(path + [move]) == Weight(path) + move.weight
  {
    var longer := path + [move];
    assert longer[..|path|] == path;
    if SelectsBlindly(path) {
      var j :| 0 <= j < |path| && path[j].weight == BLIND_SELECT;
      assert longer[j].weight == BLIND_SELECT;
    }
    assert longer[|path|] == move;
  }

  lemma {:induction false} SkipsArePath(problem: Problem, n: nat, k: nat)
    requires Recursive(problem, n) && k <= n
    ensures |Skips(k)| == k && IsPath(problem, Skips(k))
    ensures End(problem, Skips(k)) == State(k, 0, if k == 0 then NoSkip else Blind)
  {
    if k > 0 {
      SkipsArePath(problem, n, k - 1);
      PathSnoc(problem, Skips(k - 1), Move(DESPERATE_SKIP, 0, Blind, None));
    }
  }

  /** One skip, a selection after it, then selections at full weight. */
  ghost function Selects(k: nat): seq<Move> {
    if k <= 1 then Skips(k)
    else Selects(k - 1) + [Move(if k == 2 then BLIND_SELECT else DISCRIMINATOR_SELECT, 1, NoSkip, None)]
  }

  lemma {:induction false} SelectsWeigh(k: nat)
    requires k >= 2
    ensures |Selects(k)| == k && SelectsBlindly(Selects(k))
    ensures Weight(Selects(k)) == DESPERATE_SKIP + BLIND_SELECT + DISCRIMINATOR_SELECT * (k - 2)
  {
    if k == 2 {
      SkipsWeigh(1);
    } else {
      SelectsWeigh(k - 1);
    }
    Snoc(Selects(k - 1), Move(if k == 2 then BLIND_SELECT else DISCRIMINATOR_SELECT, 1, NoSkip, None));
  }

  lemma {:induction false} SelectsArePath(problem: Problem, n: nat, k: nat)
    requires Recursive(problem, n) && 2 <= k <= n
    ensures |Selects(k)| == k && IsPath(problem, Selects(k))
    ensures End(problem, Selects(k)) == State(k, 1, NoSkip)
  {
    if k == 2 {
      SkipsArePath(problem, n, 1);
      PathSnoc(problem, Selects(1), Move(BLIND_SELECT, 1, NoSkip, None));
    } else {
      SelectsArePath(problem, n, k - 1);
      PathSnoc(problem, Selects(k - 1), Move(DISCRIMINATOR_SELECT, 1, NoSkip, None));
    }
  }

  /** From 288 parts on it does not: skipping every marker of this schema weighs half a point each, and selecting
      after the first skip earns that back at full weight. */
  lemma BlindWinsWhenLong(n: nat, alnum: char -> bool)
    requires n > MAX_PENALIZED
    ensures !BlindLoses(ProblemOf(RecursiveQuery(n, alnum)))
  {
    var problem := ProblemOf(RecursiveQuery(n, alnum));
    RecursiveQueryIsRecursive(n, alnum);
    SkipsArePath(problem, n, n);
    SkipsWeigh(n);
    SelectsArePath(problem, n, n);
    SelectsWeigh(n);
    assert IsFull(problem, Skips(n)) && IsFull(problem, Selects(n));
    assert Weight(Selects(n)) > Weight(Skips(n));
  }
}
