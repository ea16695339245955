/** The search for the best reading of an error location: a greedy dive, then best-first refinement. */
module LocationSearch {
  import opened Values
  import opened Schemas
  import opened Locations

  const MAX_LOCATION_STATES := 500

  /** A location to read, and its readings: part by part and state by state the possible moves, or nothing
      where computing them raises. */
  datatype Problem = Problem(location: seq<Part>, root: Id, expand: (nat, Id, Skip) -> Option<seq<Move>>)

  function Moves(problem: Problem, index: nat, node: Id, skip: Skip): seq<Move> {
    var moves := problem.expand(index, node, skip);
    if moves.None? then [] else moves.value
  }

  /** No move weighs more than authoritative selection. */
  ghost predicate Admissible(problem: Problem) {
    forall index, node, skip, m :: m in Moves(problem, index, node, skip) ==> m.weight <= DISCRIMINATOR_SELECT
  }

  // ---------- Readings ----------

  /** A walk through the location: `index` parts read, standing at `node` with a skip state. */
  datatype State = State(index: nat, node: Id, skip: Skip)

  function Start(problem: Problem): State {
    State(0, problem.root, NoSkip)
  }

  function After(state: State, move: Move): State {
    State(state.index + 1, move.node, move.skip)
  }

  /** A sequence of moves from the root, each among the readings of its part. */
  ghost predicate IsPath(problem: Problem, path: seq<Move>) {
    if path == [] then true
    else
      var init := path[..|path| - 1];
      && IsPath(problem, init)
      && |init| < |problem.location|
      && path[|init|] in Moves(problem, |init|, End(problem, init).node, End(problem, init).skip)
  }

  ghost function End(problem: Problem, path: seq<Move>): (state: State)
    ensures state.index == |path|
  {
    if path == [] then Start(problem) else State(|path|, path[|path| - 1].node, path[|path| - 1].skip)
  }

  ghost function Weight(path: seq<Move>): int {
    if path == [] then 0 else Weight(path[..|path| - 1]) + path[|path| - 1].weight
  }

  ghost function Display(path: seq<Move>): seq<Part> {
    if path == [] then []
    else Display(path[..|path| - 1]) + (if path[|path| - 1].shown.Some? then [path[|path| - 1].shown.value] else [])
  }

  /** A path that cannot go on: it read the whole location, or fell off the schema. */
  ghost predicate IsReading(problem: Problem, path: seq<Move>) {
    && IsPath(problem, path)
    && |path| <= |problem.location|
    && (|path| < |problem.location| ==> Moves(problem, |path|, End(problem, path).node, End(problem, path).skip) == [])
  }

  /** How readings compare: full consumption first, then weight. */
  datatype Key = Key(full: bool, weight: int)

  predicate AtMost(a: Key, b: Key) {
    if a.full == b.full then a.weight <= b.weight else b.full
  }

  function Add(key: Key, weight: int): Key {
    key.(weight := key.weight + weight)
  }

  ghost function KeyOf(problem: Problem, path: seq<Move>): Key {
    Key(|path| == |problem.location|, Weight(path))
  }

  // ---------- The best completion of a state ----------

  /** The best key a state can still reach, counting from that state. */
  ghost function Best(problem: Problem, state: State): (key: Key)
    requires state.index <= |problem.location|
    decreases |problem.location| - state.index, 1, 0
  {
    if state.index == |problem.location| then Key(true, 0)
    else
      var moves := Moves(problem, state.index, state.node, state.skip);
      if moves == [] then Key(false, 0) else BestOf(problem, state, moves)
  }

  ghost function BestOf(problem: Problem, state: State, moves: seq<Move>): (key: Key)
    requires state.index < |problem.location| && moves != []
    decreases |problem.location| - state.index, 0, |moves|
  {
    var first := Add(Best(problem, After(state, moves[0])), moves[0].weight);
    if |moves| == 1 then first
    else
      var rest := BestOf(problem, state, moves[1..]);
      if AtMost(rest, first) then first else rest
  }

  lemma {:induction false} BestOfIsMaximum(problem: Problem, state: State, moves: seq<Move>)
    requires state.index < |problem.location| && moves != []
    ensures forall m :: m in moves ==>
              AtMost(Add(Best(problem, After(state, m)), m.weight), BestOf(problem, state, moves))
    ensures exists m :: m in moves && Add(Best(problem, After(state, m)), m.weight) == BestOf(problem, state, moves)
  {
    if |moves| == 1 {
      assert moves[0] in moves;
    } else {
      BestOfIsMaximum(problem, state, moves[1..]);
      assert moves[0] in moves;
      assert forall m :: m in moves ==> m == moves[0] || m in moves[1..];
    }
  }

  /** The optimistic bound is admissible: no completion earns more than full selection weight per part. */
  lemma {:induction false} BoundIsAdmissible(problem: Problem, state: State)
    requires Admissible(problem)
    requires state.index <= |problem.location|
    ensures Best(problem, state).full ==>
              Best(problem, state).weight <= DISCRIMINATOR_SELECT * (|problem.location| - state.index)
    decreases |problem.location| - state.index
  {
    if state.index < |problem.location| {
      var moves := Moves(problem, state.index, state.node, state.skip);
      if moves != [] {
        BestOfIsMaximum(problem, state, moves);
        var m :| m in moves && Add(Best(problem, After(state, m)), m.weight) == BestOf(problem, state, moves);
        BoundIsAdmissible(problem, After(state, m));
      }
    }
  }

  /** What a path has earned plus what it can still reach never exceeds the optimum. */
  lemma {:induction false} PathBelowBest(problem: Problem, path: seq<Move>)
    requires IsPath(problem, path) && |path| <= |problem.location|
    ensures AtMost(Add(Best(problem, End(problem, path)), Weight(path)), Best(problem, Start(problem)))
  {
    if path != [] {
      var init := path[..|path| - 1];
      var last := path[|path| - 1];
      var state := End(problem, init);
      PathBelowBest(problem, init);
      var moves := Moves(problem, |init|, state.node, state.skip);
      BestOfIsMaximum(problem, state, moves);
      assert End(problem, path) == After(state, last);
    }
  }

  /** No reading beats the optimum. */
  lemma ReadingBelowBest(problem: Problem, path: seq<Move>)
    requires IsReading(problem, path)
    ensures AtMost(KeyOf(problem, path), Best(problem, Start(problem)))
  {
    PathBelowBest(problem, path);
    if |path| < |problem.location| {
      assert Best(problem, End(problem, path)) == Key(false, 0);
    }
  }

  // ---------- The greedy reading ----------

  /** The first move of maximal weight. */
  function Heaviest(moves: seq<Move>): (move: Move)
    requires moves != []
    ensures move in moves
    ensures forall m :: m in moves ==> m.weight <= move.weight
  {
    if |moves| == 1 then moves[0]
    else
      var rest := Heaviest(moves[1..]);
      if rest.weight > moves[0].weight then rest else moves[0]
  }

  /** The reading that always takes the heaviest next move, from a path on. */
  ghost function GreedyFrom(problem: Problem, path: seq<Move>): (reading: seq<Move>)
    requires IsPath(problem, path) && |path| <= |problem.location|
    ensures IsReading(problem, reading)
    decreases |problem.location| - |path|
  {
    if |path| == |problem.location| then path
    else
      var moves := Moves(problem, |path|, End(problem, path).node, End(problem, path).skip);
      if moves == [] then path
      else
        assert (path + [Heaviest(moves)])[..|path|] == path;
        GreedyFrom(problem, path + [Heaviest(moves)])
  }

  /** The dive from a state on comes to one whose moves cannot be computed. */
  ghost predicate DiveFails(problem: Problem, state: State)
    decreases |problem.location| - state.index
  {
    && state.index < |problem.location|
    && var moves := problem.expand(state.index, state.node, state.skip);
       moves.None? || (moves.value != [] && DiveFails(problem, After(state, Heaviest(moves.value))))
  }

  /** Some state the search can come to has no moves to compute. */
  ghost predicate Fails(problem: Problem) {
    exists path :: IsPath(problem, path) && |path| < |problem.location|
      && problem.expand(|path|, End(problem, path).node, End(problem, path).skip).None?
  }

  // ---------- The frontier ----------

  /** A heap entry; entries leave by greatest bound, then by insertion order. */
  datatype Entry = Entry(bound: int, order: nat, state: State, weight: int, display: seq<Part>)

  ghost predicate Reached(problem: Problem, state: State, weight: int, display: seq<Part>) {
    exists path :: IsPath(problem, path) && |path| <= |problem.location|
      && End(problem, path) == state && Weight(path) == weight && Display(path) == display
  }

  ghost predicate EntryIsPath(problem: Problem, entry: Entry) {
    && entry.state.index <= |problem.location|
    && Reached(problem, entry.state, entry.weight, entry.display)
    && entry.bound == entry.weight + (|problem.location| - entry.state.index) * DISCRIMINATOR_SELECT
  }

  predicate Before(a: Entry, b: Entry) {
    a.bound > b.bound || (a.bound == b.bound && a.order <= b.order)
  }

  /** `heappop`. */
  method PopFirst(heap: seq<Entry>) returns (first: Entry, rest: seq<Entry>)
    requires heap != []
    ensures first in heap && forall e :: e in rest ==> Before(first, e)
    ensures forall e :: e in rest ==> e.bound < first.bound || (e.bound == first.bound && first.order <= e.order)
    ensures multiset(heap) == multiset(rest) + multiset{first}
  {
    var k := 0;
    for i := 1 to |heap|
      invariant 0 <= k < |heap|
      invariant forall j :: 0 <= j < i ==> Before(heap[k], heap[j])
    {
      if !Before(heap[k], heap[i]) {
        k := i;
      }
    }
    first, rest := heap[k], heap[..k] + heap[k + 1..];
    assert heap == heap[..k] + [heap[k]] + heap[k + 1..];
  }

  /** The best completion of a frontier entry, counting from the root. */
  ghost function Reach(problem: Problem, entry: Entry): Key
    requires entry.state.index <= |problem.location|
  {
    Add(Best(problem, entry.state), entry.weight)
  }

  /** Either the incumbent is optimal or some entry of the frontier still leads to the optimum. */
  ghost predicate Covered(problem: Problem, heap: seq<Entry>, best: Key)
  {
    || AtMost(Best(problem, Start(problem)), best)
    || exists e :: e in heap && e.state.index <= |problem.location| && Reach(problem, e) == Best(problem, Start(problem))
  }

  /** An entry whose bound the incumbent reaches cannot improve on the incumbent. */
  lemma PruningIsSafe(problem: Problem, entry: Entry, best: Key)
    requires Admissible(problem)
    requires EntryIsPath(problem, entry)
    requires AtMost(Key(true, entry.bound), best)
    ensures AtMost(Reach(problem, entry), best)
  {
    BoundIsAdmissible(problem, entry.state);
  }

  lemma StartReached(problem: Problem)
    ensures Reached(problem, Start(problem), 0, [])
  {
    assert IsPath(problem, []) && End(problem, []) == Start(problem) && Weight([]) == 0 && Display([]) == [];
  }

  // ---------- The search ----------

  /** The incumbent reading: its key, the path it displays, and the schema node it ends at. */
  datatype Incumbent = Incumbent(key: Key, display: seq<Part>, node: Id)

  ghost predicate IsIncumbent(problem: Problem, best: Incumbent) {
    exists path :: IsReading(problem, path) && KeyOf(problem, path) == best.key && End(problem, path).node == best.node
      && best.display == Display(path) + problem.location[|path|..]
  }

  /** The same answer, or one with a strictly greater key. */
  predicate Prefers(next: Incumbent, before: Incumbent) {
    next == before || !AtMost(next.key, before.key)
  }

  lemma PrefersTwice(a: Incumbent, b: Incumbent, c: Incumbent)
    requires Prefers(a, b) && Prefers(b, c)
    ensures Prefers(a, c)
  {
  }

  /** What the dive offers: how far the greedy reading comes. */
  ghost function GreedyIncumbent(problem: Problem): Incumbent {
    var greedy := GreedyFrom(problem, []);
    Incumbent(KeyOf(problem, greedy), Display(greedy) + problem.location[|greedy|..], End(problem, greedy).node)
  }

  /** Replaces the incumbent by a strictly better reading. */
  function Offer(best: Option<Incumbent>, offered: Incumbent): (next: Incumbent)
    ensures AtMost(offered.key, next.key)
    ensures best.Some? ==> AtMost(best.value.key, next.key)
    ensures next == offered || best == Some(next)
    ensures best.Some? ==> Prefers(next, best.value)
  {
    if best.None? || !AtMost(offered.key, best.value.key) then offered else best.value
  }

  lemma ReadingAt(problem: Problem, state: State, weight: int, display: seq<Part>)
    requires Reached(problem, state, weight, display)
    requires state.index < |problem.location| ==> Moves(problem, state.index, state.node, state.skip) == []
    requires state.index <= |problem.location|
    ensures IsIncumbent(problem,
      Incumbent(Key(state.index == |problem.location|, weight), display + problem.location[state.index..], state.node))
  {
    var path :| IsPath(problem, path) && |path| <= |problem.location|
      && End(problem, path) == state && Weight(path) == weight && Display(path) == display;
    assert IsReading(problem, path);
  }

  function ShownBy(move: Move): seq<Part> {
    if move.shown.Some? then [move.shown.value] else []
  }

  lemma PathSnoc(problem: Problem, path: seq<Move>, move: Move)
    requires IsPath(problem, path) && |path| < |problem.location|
    requires move in Moves(problem, |path|, End(problem, path).node, End(problem, path).skip)
    ensures IsPath(problem, path + [move]) && End(problem, path + [move]) == After(End(problem, path), move)
    ensures Weight(path + [move]) == Weight(path) + move.weight
    ensures Display(path + [move]) == Display(path) + ShownBy(move)
  {
    assert (path + [move])[..|path|] == path;
  }

  lemma StepReached(problem: Problem, state: State, weight: int, display: seq<Part>, move: Move)
    requires Reached(problem, state, weight, display)
    requires state.index < |problem.location|
    requires move in Moves(problem, state.index, state.node, state.skip)
    ensures Reached(problem, After(state, move), weight + move.weight, display + ShownBy(move))
  {
    var path :| IsPath(problem, path) && |path| <= |problem.location|
      && End(problem, path) == state && Weight(path) == weight && Display(path) == display;
    PathSnoc(problem, path, move);
  }

  /** The greedy dive: nothing when `expand` raises. */
  method Dive(problem: Problem) returns (best: Option<Incumbent>)
    ensures best.Some? ==> IsIncumbent(problem, best.value)
    ensures best.Some? ==> best.value == GreedyIncumbent(problem)
    ensures best.None? <==> DiveFails(problem, Start(problem))
    ensures best.None? ==> Fails(problem)
  {
    var state, weight, display := Start(problem), 0, [];
    ghost var path: seq<Move> := [];
    while true
      invariant IsPath(problem, path) && |path| == state.index <= |problem.location|
      invariant End(problem, path) == state && Weight(path) == weight && Display(path) == display
      invariant GreedyFrom(problem, path) == GreedyFrom(problem, [])
      invariant DiveFails(problem, state) <==> DiveFails(problem, Start(problem))
      decreases |problem.location| - state.index
    {
      if state.index == |problem.location| {
        ReadingAt(problem, state, weight, display);
        assert display + problem.location[state.index..] == display;
        return Some(Incumbent(Key(true, weight), display, state.node));
      }
      var moves := problem.expand(state.index, state.node, state.skip);
      if moves.None? {
        return None;
      }
      if moves.value == [] {
        ReadingAt(problem, state, weight, display);
        return Some(Incumbent(Key(false, weight), display + problem.location[state.index..], state.node));
      }
      var move := Heaviest(moves.value);
      PathSnoc(problem, path, move);
      path := path + [move];
      state, weight, display := After(state, move), weight + move.weight, display + ShownBy(move);
    }
  }

  /** The entry a move of a popped entry becomes. */
  function Child(problem: Problem, entry: Entry, move: Move, order: nat): Entry
    requires entry.state.index < |problem.location|
  {
    var weight := entry.weight + move.weight;
    Entry(weight + (|problem.location| - entry.state.index - 1) * DISCRIMINATOR_SELECT, order,
      After(entry.state, move), weight, entry.display + ShownBy(move))
  }

  /** Pushes every move of a popped entry. */
  method PushMoves(problem: Problem, entry: Entry, moves: seq<Move>, heap: seq<Entry>, counter: nat)
    returns (heap': seq<Entry>, counter': nat)
    requires entry.state.index < |problem.location|
    ensures heap' == heap + Children(problem, entry, moves, counter)
    ensures counter' == counter + |moves|
  {
    heap', counter' := heap, counter;
    for k := 0 to |moves|
      invariant counter' == counter + k
      invariant heap' == heap + Children(problem, entry, moves[..k], counter)
    {
      counter' := counter' + 1;
      heap' := heap' + [Child(problem, entry, moves[k], counter')];
      assert Children(problem, entry, moves[..k + 1], counter)
          == Children(problem, entry, moves[..k], counter) + [Child(problem, entry, moves[k], counter')];
    }
    assert moves[..|moves|] == moves;
  }

  function Children(problem: Problem, entry: Entry, moves: seq<Move>, counter: nat): (children: seq<Entry>)
    requires entry.state.index < |problem.location|
    ensures |children| == |moves|
  {
    seq(|moves|, k requires 0 <= k < |moves| => Child(problem, entry, moves[k], counter + k + 1))
  }

  lemma ChildrenArePaths(problem: Problem, entry: Entry, moves: seq<Move>, counter: nat)
    requires EntryIsPath(problem, entry) && entry.state.index < |problem.location|
    requires moves == Moves(problem, entry.state.index, entry.state.node, entry.state.skip)
    ensures forall e :: e in Children(problem, entry, moves, counter) ==> EntryIsPath(problem, e)
  {
    hide Reached, Weight, Display;
    var children := Children(problem, entry, moves, counter);
    forall k | 0 <= k < |children|
      ensures EntryIsPath(problem, children[k])
    {
      StepReached(problem, entry.state, entry.weight, entry.display, moves[k]);
    }
  }

  lemma PushKeepsCover(problem: Problem, entry: Entry, rest: seq<Entry>, moves: seq<Move>, counter: nat, best: Key)
    requires entry.state.index < |problem.location|
    requires Covered(problem, [entry] + rest, best)
    requires moves == Moves(problem, entry.state.index, entry.state.node, entry.state.skip) && moves != []
    ensures Covered(problem, rest + Children(problem, entry, moves, counter), best)
  {
    var children := Children(problem, entry, moves, counter);
    if Reach(problem, entry) == Best(problem, Start(problem)) {
      BestOfIsMaximum(problem, entry.state, moves);
      var k :| 0 <= k < |moves|
        && Add(Best(problem, After(entry.state, moves[k])), moves[k].weight) == BestOf(problem, entry.state, moves);
      assert children[k] in rest + children;
      assert Reach(problem, children[k]) == Best(problem, Start(problem));
    } else {
      assert forall e :: e in rest ==> e in rest + children;
    }
  }

  lemma DropKeepsCover(problem: Problem, entry: Entry, rest: seq<Entry>, best: Key, best': Key)
    requires entry.state.index <= |problem.location|
    requires Covered(problem, [entry] + rest, best)
    requires AtMost(best, best') && AtMost(Reach(problem, entry), best')
    ensures Covered(problem, rest, best')
  {
  }

  lemma PopKeepsCover(problem: Problem, heap: seq<Entry>, first: Entry, rest: seq<Entry>, best: Key)
    requires Covered(problem, heap, best)
    requires multiset(heap) == multiset(rest) + multiset{first}
    ensures Covered(problem, [first] + rest, best)
    ensures forall e :: e in rest ==> e in heap
  {
    forall e
      ensures e in heap <==> e in [first] + rest
    {
      assert e in heap <==> e in multiset(heap);
      assert e in rest <==> e in multiset(rest);
      assert e in [first] + rest <==> e == first || e in rest;
    }
  }

  /** The answer is optimal once the popped entry is a full reading: its weight is its bound. */
  lemma FullPopIsOptimal(problem: Problem, first: Entry, rest: seq<Entry>, best: Key, best': Key)
    requires Admissible(problem)
    requires Covered(problem, [first] + rest, best)
    requires EntryIsPath(problem, first) && first.state.index == |problem.location|
    requires forall e :: e in rest ==> Before(first, e) && EntryIsPath(problem, e)
    requires AtMost(best, best') && AtMost(Key(true, first.weight), best')
    ensures AtMost(Best(problem, Start(problem)), best')
  {
    hide Best, Admissible, Reached;
    if !AtMost(Best(problem, Start(problem)), best) {
      var e :| e in [first] + rest && e.state.index <= |problem.location| && Reach(problem, e) == Best(problem, Start(problem));
      BoundIsAdmissible(problem, e.state);
    }
  }

  datatype Outcome = Located(best: Incumbent) | Raised

  /** What the refinement keeps: the incumbent is a reading, the frontier holds paths, and the optimum is not lost. */
  ghost predicate Refining(problem: Problem, heap: seq<Entry>, best: Incumbent) {
    && IsIncumbent(problem, best)
    && (forall e :: e in heap ==> EntryIsPath(problem, e))
    && Covered(problem, heap, best.key)
  }

  datatype Progress = Continue | Finished | Failed

  /** What is known once the first entry is popped. */
  ghost predicate Popped(problem: Problem, first: Entry, rest: seq<Entry>, best: Incumbent) {
    && IsIncumbent(problem, best)
    && EntryIsPath(problem, first)
    && (forall e :: e in rest ==> Before(first, e) && EntryIsPath(problem, e))
    && Covered(problem, [first] + rest, best.key)
  }

  lemma PrunedKeeps(problem: Problem, first: Entry, rest: seq<Entry>, best: Incumbent)
    requires Admissible(problem) && Popped(problem, first, rest, best) && AtMost(Key(true, first.bound), best.key)
    ensures Refining(problem, rest, best)
  {
    hide Covered, Reached, Best;
    PruningIsSafe(problem, first, best.key);
    DropKeepsCover(problem, first, rest, best.key, best.key);
  }

  /** A popped full reading is offered. */
  method Accept(problem: Problem, first: Entry, ghost rest: seq<Entry>, best: Incumbent) returns (best': Incumbent)
    requires Admissible(problem) && Popped(problem, first, rest, best) && first.state.index == |problem.location|
    ensures AtMost(best.key, best'.key) && Prefers(best', best)
    ensures IsIncumbent(problem, best') && AtMost(Best(problem, Start(problem)), best'.key)
  {
    hide Covered, Best;
    ReadingAt(problem, first.state, first.weight, first.display);
    assert first.display + problem.location[first.state.index..] == first.display;
    best' := Offer(Some(best), Incumbent(Key(true, first.weight), first.display, first.state.node));
    FullPopIsOptimal(problem, first, rest, best.key, best'.key);
  }

  /** A popped entry without moves is offered as a partial reading. */
  method GiveUp(problem: Problem, first: Entry, ghost rest: seq<Entry>, best: Incumbent) returns (best': Incumbent)
    requires Popped(problem, first, rest, best) && first.state.index < |problem.location|
    requires problem.expand(first.state.index, first.state.node, first.state.skip) == Some([])
    ensures AtMost(best.key, best'.key) && Prefers(best', best) && Refining(problem, rest, best')
  {
    hide Covered;
    ReadingAt(problem, first.state, first.weight, first.display);
    best' := Offer(Some(best), Incumbent(Key(false, first.weight),
      first.display + problem.location[first.state.index..], first.state.node));
    DropKeepsCover(problem, first, rest, best.key, best'.key);
  }

  lemma ExpandedKeeps(problem: Problem, first: Entry, rest: seq<Entry>, moves: seq<Move>, counter: nat, best: Incumbent)
    requires Popped(problem, first, rest, best) && first.state.index < |problem.location|
    requires moves == Moves(problem, first.state.index, first.state.node, first.state.skip) && moves != []
    ensures Refining(problem, rest + Children(problem, first, moves, counter), best)
  {
    hide Covered, Reached, Best, Children;
    ChildrenArePaths(problem, first, moves, counter);
    PushKeepsCover(problem, first, rest, moves, counter, best.key);
  }

  lemma FailedRun(problem: Problem, first: Entry, rest: seq<Entry>, best: Incumbent)
    requires Popped(problem, first, rest, best) && first.state.index < |problem.location|
    requires problem.expand(first.state.index, first.state.node, first.state.skip).None?
    ensures Fails(problem)
  {
    var path :| IsPath(problem, path) && |path| <= |problem.location| && End(problem, path) == first.state;
  }

  /** The first entry of a frontier. */
  method Pop(problem: Problem, heap: seq<Entry>, ghost best: Incumbent) returns (first: Entry, rest: seq<Entry>)
    requires heap != [] && Refining(problem, heap, best)
    ensures Popped(problem, first, rest, best) && first.state.index <= |problem.location|
  {
    hide Covered, Reached;
    first, rest := PopFirst(heap);
    PopKeepsCover(problem, heap, first, rest, best.key);
  }

  lemma BestStays(best: Incumbent)
    ensures AtMost(best.key, best.key)
  {
  }

  /** One round of the refinement: pop, then prune, accept, give up on, or expand. */
  method Refine(problem: Problem, heap: seq<Entry>, best: Incumbent, counter: nat)
    returns (progress: Progress, heap': seq<Entry>, best': Incumbent, counter': nat)
    requires Admissible(problem)
    requires heap != [] && Refining(problem, heap, best)
    ensures AtMost(best.key, best'.key) && Prefers(best', best)
    ensures progress.Continue? ==> Refining(problem, heap', best')
    ensures progress.Finished? ==> IsIncumbent(problem, best') && AtMost(Best(problem, Start(problem)), best'.key)
    ensures progress.Failed? ==> Fails(problem)
  {
    hide Admissible, Refining, Popped, IsIncumbent, Best, AtMost, Fails;
    BestStays(best);
    var first, rest := Pop(problem, heap, best);
    best', counter' := best, counter;
    if AtMost(Key(true, first.bound), best.key) {
      PrunedKeeps(problem, first, rest, best);
      return Continue, rest, best', counter';
    }
    if first.state.index == |problem.location| {
      best' := Accept(problem, first, rest, best);
      return Finished, rest, best', counter';
    }
    var moves := problem.expand(first.state.index, first.state.node, first.state.skip);
    if moves.None? {
      FailedRun(problem, first, rest, best);
      return Failed, rest, best', counter';
    }
    if moves.value == [] {
      best' := GiveUp(problem, first, rest, best);
      return Continue, rest, best', counter';
    }
    ExpandedKeeps(problem, first, rest, moves.value, counter, best);
    heap', counter' := PushMoves(problem, first, moves.value, rest, counter);
    return Continue, heap', best', counter';
  }

  /** The dive and the refinement. `complete` says that the refinement ended before the state cap, `popped` how
      many states it looked at. */
  method Search(problem: Problem) returns (outcome: Outcome, complete: bool, popped: nat)
    requires Admissible(problem)
    ensures outcome.Located? ==> IsIncumbent(problem, outcome.best)
    ensures outcome.Located? ==> AtMost(KeyOf(problem, GreedyFrom(problem, [])), outcome.best.key)
    ensures outcome.Located? ==> Prefers(outcome.best, GreedyIncumbent(problem))
    ensures outcome.Located? && complete ==>
              forall path :: IsReading(problem, path) ==> AtMost(KeyOf(problem, path), outcome.best.key)
    ensures !complete ==> popped == MAX_LOCATION_STATES
    ensures DiveFails(problem, Start(problem)) ==> outcome.Raised?
    ensures outcome.Raised? ==> Fails(problem)
  {
    complete, popped := true, 0;
    var dive := Dive(problem);
    if dive.None? {
      return Raised, complete, popped;
    }
    var best := dive.value;
    var counter := 0;
    var heap := [Entry(|problem.location| * DISCRIMINATOR_SELECT, 0, Start(problem), 0, [])];
    StartReached(problem);
    assert heap[0] in heap && Reach(problem, heap[0]) == Best(problem, Start(problem));
    while heap != []
      invariant Refining(problem, heap, best) && AtMost(dive.value.key, best.key) && Prefers(best, dive.value)
      invariant complete && popped <= MAX_LOCATION_STATES
      decreases MAX_LOCATION_STATES - popped
    {
      if popped + 1 > MAX_LOCATION_STATES {
        complete := false;
        break;
      }
      popped := popped + 1;
      var progress;
      ghost var before := best;
      progress, heap, best, counter := Refine(problem, heap, best, counter);
      PrefersTwice(best, before, dive.value);
      if progress.Failed? {
        return Raised, complete, popped;
      }
      if progress.Finished? {
        break;
      }
    }
    if complete {
      assert AtMost(Best(problem, Start(problem)), best.key);
      forall path | IsReading(problem, path)
        ensures AtMost(KeyOf(problem, path), best.key)
      {
        ReadingBelowBest(problem, path);
      }
    }
    return Located(best), complete, popped;
  }
}
