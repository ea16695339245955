/** How a stream is cut into updates and fragments leaves the assembled response as it is. */
module Chunking {
  import opened Values
  import opened Contents
  import opened Landing
  import opened Assembly
  import opened AssemblyLaws

  // ---------- Contents up to one text seam ----------

  datatype Seam = Seam(before: seq<Content>, whole: Content, first: Content, second: Content, after: seq<Content>)

  ghost predicate SeamOf(coarse: seq<Content>, fine: seq<Content>, seam: Seam) {
    && seam.whole.Text? && Splits(seam.whole, seam.first, seam.second)
    && coarse == seam.before + [seam.whole] + seam.after
    && fine == seam.before + [seam.first, seam.second] + seam.after
  }

  ghost predicate Alike(coarse: seq<Content>, fine: seq<Content>) {
    coarse == fine || exists seam :: SeamOf(coarse, fine, seam)
  }

  lemma AlikeEnds(coarse: seq<Content>, fine: seq<Content>, seam: Seam)
    requires SeamOf(coarse, fine, seam)
    ensures coarse != [] && fine != []
    ensures seam.after == [] ==> !coarse[|coarse| - 1].Call? && !fine[|fine| - 1].Call?
    ensures seam.after != [] ==> coarse[|coarse| - 1] == fine[|fine| - 1] == seam.after[|seam.after| - 1]
  {
    assert seam.first.Text? && seam.second.Text?;
  }

  lemma LandAlike(coarse: seq<Content>, fine: seq<Content>, content: Content)
    requires Alike(coarse, fine)
    ensures Land(coarse, content).Some? <==> Land(fine, content).Some?
    ensures Land(coarse, content).Some? ==> Alike(Land(coarse, content).value, Land(fine, content).value)
  {
    hide Add, Splits;
    if coarse != fine {
      var seam :| SeamOf(coarse, fine, seam);
      AlikeEnds(coarse, fine, seam);
      LandOnSeam(coarse, fine, seam, content);
    }
  }

  lemma LandOnSeam(coarse: seq<Content>, fine: seq<Content>, seam: Seam, content: Content)
    requires SeamOf(coarse, fine, seam)
    ensures Land(coarse, content).Some? <==> Land(fine, content).Some?
    ensures Land(coarse, content).Some? ==> Alike(Land(coarse, content).value, Land(fine, content).value)
  {
    hide Add, Splits;
    AlikeEnds(coarse, fine, seam);
    var after := seam.after;
    if content.Call? && after != [] && after[|after| - 1].Call? {
      var sum := Add(after[|after| - 1], content);
      if sum.Added? {
        var next := after[|after| - 1 := sum.content];
        assert SeamOf(coarse[|coarse| - 1 := sum.content], fine[|fine| - 1 := sum.content], seam.(after := next));
      } else {
        assert SeamOf(coarse + [content], fine + [content], seam.(after := after + [content]));
      }
    } else {
      assert SeamOf(coarse + [content], fine + [content], seam.(after := after + [content]));
    }
  }

  lemma AlikeCoalesce(coarse: seq<Content>, fine: seq<Content>)
    requires Alike(coarse, fine)
    ensures Coalesced(coarse, false) == Coalesced(fine, false)
  {
    if coarse != fine {
      var seam :| SeamOf(coarse, fine, seam);
      TextSplitCoalesces(seam.before, seam.whole, seam.first, seam.second, seam.after);
    }
  }

  // ---------- States up to one text seam ----------

  /** Two sets of seen objects that agree outside the ids of a split fragment. */
  ghost predicate SeenAlike(coarse: set<nat>, fine: set<nat>, odd: set<nat>) {
    forall id :: id !in odd ==> (id in coarse <==> id in fine)
  }

  ghost predicate PassesAlike(coarse: Pass, fine: Pass, odd: set<nat>) {
    && Alike(coarse.contents, fine.contents)
    && coarse.usage == fine.usage && coarse.latest == fine.latest && coarse.skipped == fine.skipped
    && SeenAlike(coarse.seen, fine.seen, odd)
  }

  ghost predicate MessageAlike(coarse: Msg, fine: Msg) {
    Alike(coarse.contents, fine.contents) && coarse == fine.(contents := coarse.contents)
  }

  ghost predicate MessagesAlike(coarse: seq<Msg>, fine: seq<Msg>) {
    |coarse| == |fine| && forall i :: 0 <= i < |coarse| ==> MessageAlike(coarse[i], fine[i])
  }

  ghost predicate StatesAlike(coarse: State, fine: State, odd: set<nat>) {
    && MessagesAlike(coarse.messages, fine.messages)
    && coarse.usage == fine.usage && coarse.latest == fine.latest
    && SeenAlike(coarse.seen, fine.seen, odd)
  }

  lemma AbsorbAlike(coarse: Pass, fine: Pass, f: Fragment, odd: set<nat>)
    requires PassesAlike(coarse, fine, odd) && f.id !in odd
    ensures Absorb(coarse, f).Some? <==> Absorb(fine, f).Some?
    ensures Absorb(coarse, f).Some? ==> PassesAlike(Absorb(coarse, f).value, Absorb(fine, f).value, odd)
  {
    hide Land, Alike, AddUsage, Normalized;
    LandAlike(coarse.contents, fine.contents, f.content);
  }

  lemma OpensAlike(coarse: seq<Msg>, fine: seq<Msg>, u: Update)
    requires MessagesAlike(coarse, fine)
    ensures Opens(coarse, u) <==> Opens(fine, u)
    ensures MessageAlike(Addressee(coarse, u), Addressee(fine, u))
  {
    hide Alike;
    assert Alike([], []) by { SameIsAlike([]); }
    if coarse != [] {
      assert MessageAlike(coarse[|coarse| - 1], fine[|fine| - 1]);
    }
  }

  lemma SameIsAlike(contents: seq<Content>)
    ensures Alike(contents, contents)
  {
  }

  lemma AlikeAreEmptyTogether(coarse: seq<Content>, fine: seq<Content>)
    requires Alike(coarse, fine)
    ensures coarse == [] <==> fine == []
  {
    if coarse != fine {
      var seam :| SeamOf(coarse, fine, seam);
    }
  }

  lemma PlacedAlike(coarse: seq<Msg>, fine: seq<Msg>, u: Update, p: Pass, q: Pass, odd: set<nat>)
    requires MessagesAlike(coarse, fine) && PassesAlike(p, q, odd)
    ensures MessagesAlike(Placed(coarse, u, p), Placed(fine, u, q))
  {
    hide Alike, Opens, SeenAlike;
    OpensAlike(coarse, fine, u);
    AlikeAreEmptyTogether(p.contents, q.contents);
    OpenWithoutMessages(coarse, u);
  }

  ghost predicate OutcomesAlike(coarse: Option<State>, fine: Option<State>, odd: set<nat>) {
    (coarse.Some? <==> fine.Some?) && (coarse.Some? ==> StatesAlike(coarse.value, fine.value, odd))
  }

  lemma {:induction false} SettledAlike(coarse: seq<Msg>, fine: seq<Msg>)
    requires MessagesAlike(coarse, fine)
    ensures SettledAll(coarse) == SettledAll(fine)
  {
    hide Coalesced, Alike;
    if coarse != [] {
      var last := |coarse| - 1;
      SettledAlike(coarse[..last], fine[..last]);
      assert MessageAlike(coarse[last], fine[last]);
      AlikeCoalesce(coarse[last].contents, fine[last].contents);
    }
  }

  lemma FinishedAlike(coarse: Option<State>, fine: Option<State>, odd: set<nat>)
    requires OutcomesAlike(coarse, fine, odd)
    ensures (if coarse.None? then None else Finalized(coarse.value)) == (if fine.None? then None else Finalized(fine.value))
  {
    hide MessagesAlike, SettledAll;
    if coarse.Some? {
      SettledAlike(coarse.value.messages, fine.value.messages);
    }
  }

  // ---------- Splitting a fragment ----------

  lemma {:induction false} AbsorbAllAppends(p: Pass, a: seq<Fragment>, b: seq<Fragment>)
    ensures AbsorbAll(p, a + b)
         == var before := AbsorbAll(p, a); if before.None? then None else AbsorbAll(before.value, b)
  {
    hide Absorb;
    if b == [] {
      assert a + [] == a;
    } else {
      AbsorbAllAppends(p, a, b[..|b| - 1]);
      assert (a + b)[..|a + b| - 1] == a + b[..|b| - 1];
    }
  }

  lemma AbsorbOne(p: Pass, f: Fragment)
    ensures AbsorbAll(p, [f]) == Absorb(p, f)
  {
    hide Absorb;
    assert [f][..0] == [];
  }

  lemma AbsorbTwo(p: Pass, f: Fragment, g: Fragment)
    ensures AbsorbAll(p, [f, g]) == var before := Absorb(p, f); if before.None? then None else Absorb(before.value, g)
  {
    hide Absorb;
    AbsorbOne(p, f);
    assert [f, g][..1] == [f];
  }

  /** A fragment of the stream that is also emitted as two. */
  datatype Split = Split(whole: Fragment, first: Fragment, second: Fragment)
  {
    function Ids(): set<nat> {
      {whole.id, first.id, second.id}
    }

    ghost predicate Fits() {
      AddsUp(whole.content, first.content, second.content) && first.id != second.id
    }

    ghost predicate Valid() {
      Splits(whole.content, first.content, second.content) && first.id != second.id
    }
  }

  lemma SplitLands(contents: seq<Content>, whole: Content, first: Content, second: Content)
    requires Splits(whole, first, second)
    ensures var c, f := Land(contents, whole), LandAll(contents, [first, second]);
      (c.Some? <==> f.Some?) && (c.Some? ==> Alike(c.value, f.value))
  {
    if whole.Call? {
      CallLandsWhole(contents, whole, first, second);
    } else {
      assert first.Text? && second.Text?;
      assert [first, second][..1] == [first] && [first][..0] == [];
      assert LandAll(contents, [first]) == Some(contents + [first]);
      assert LandAll(contents, [first, second]) == Some(contents + [first] + [second]);
      assert SeamOf(contents + [whole], contents + [first] + [second], Seam(contents, whole, first, second, []));
    }
  }

  lemma LandTwo(contents: seq<Content>, first: Content, second: Content)
    ensures LandAll(contents, [first, second])
         == var before := Land(contents, first); if before.None? then None else Land(before.value, second)
  {
    hide Land;
    assert [first, second][..1] == [first] && [first][..0] == [];
    assert LandAll(contents, [first]) == Land(contents, first);
  }

  lemma SplitAbsorbs(p: Pass, split: Split)
    requires split.Valid() && split.Ids() !! p.seen
    ensures var c, f := AbsorbAll(p, [split.whole]), AbsorbAll(p, [split.first, split.second]);
      (c.Some? <==> f.Some?) && (c.Some? ==> PassesAlike(c.value, f.value, split.Ids()))
  {
    hide Land, Alike, LandAll;
    AbsorbOne(p, split.whole);
    AbsorbTwo(p, split.first, split.second);
    SplitLands(p.contents, split.whole.content, split.first.content, split.second.content);
    LandTwo(p.contents, split.first.content, split.second.content);
    assert split.first.id in split.Ids() && split.second.id in split.Ids() && split.whole.id in split.Ids();
  }

  /** Where an update's message goes does not depend on what fragments it brings. */
  lemma SamePlaces(messages: seq<Msg>, u: Update, fragments: seq<Fragment>, p: Pass)
    ensures Placed(messages, u.(fragments := fragments), p) == Placed(messages, u, p)
  {
  }

  // ---------- Splitting every emission of a fragment ----------

  /** The fragments with every emission of the whole replaced by its two parts. */
  function Expanded(fragments: seq<Fragment>, split: Split): seq<Fragment> {
    if fragments == [] then []
    else Expanded(fragments[..|fragments| - 1], split) + Parts(fragments[|fragments| - 1], split)
  }

  function Parts(f: Fragment, split: Split): seq<Fragment> {
    if f == split.whole then [split.first, split.second] else [f]
  }

  function ExpandedAll(updates: seq<Update>, split: Split): (expanded: seq<Update>)
    ensures |expanded| == |updates|
  {
    seq(|updates|, i requires 0 <= i < |updates| => updates[i].(fragments := Expanded(updates[i].fragments, split)))
  }

  /** No other fragment is emitted under an id of the split. */
  ghost predicate Owns(fragments: seq<Fragment>, split: Split) {
    forall i :: 0 <= i < |fragments| && fragments[i].id in split.Ids() ==> fragments[i] == split.whole
  }

  /** Passes over the two streams: the same until the fragment is first emitted, alike from there on. */
  ghost predicate PassesMatch(coarse: Pass, fine: Pass, split: Split) {
    if split.whole.id in coarse.seen then
      PassesAlike(coarse, fine, split.Ids()) && split.first.id in fine.seen && split.second.id in fine.seen
    else coarse == fine && split.Ids() !! coarse.seen
  }

  ghost predicate StatesMatch(coarse: State, fine: State, split: Split) {
    if split.whole.id in coarse.seen then
      StatesAlike(coarse, fine, split.Ids()) && split.first.id in fine.seen && split.second.id in fine.seen
    else coarse == fine && split.Ids() !! coarse.seen
  }

  lemma AbsorbMatch(coarse: Pass, fine: Pass, f: Fragment, split: Split)
    requires split.Valid() && PassesMatch(coarse, fine, split) && (f.id in split.Ids() ==> f == split.whole)
    ensures var c, d := Absorb(coarse, f), AbsorbAll(fine, Parts(f, split));
      (c.Some? <==> d.Some?) && (c.Some? ==> PassesMatch(c.value, d.value, split))
  {
    if f == split.whole {
      AbsorbWhole(coarse, fine, split);
    } else {
      AbsorbOther(coarse, fine, f, split);
    }
  }

  lemma AbsorbOther(coarse: Pass, fine: Pass, f: Fragment, split: Split)
    requires PassesMatch(coarse, fine, split) && f.id !in split.Ids()
    ensures var c, d := Absorb(coarse, f), AbsorbAll(fine, [f]);
      (c.Some? <==> d.Some?) && (c.Some? ==> PassesMatch(c.value, d.value, split))
  {
    hide Land, Alike, AddUsage, Normalized, AbsorbAll;
    AbsorbOne(fine, f);
    if split.whole.id in coarse.seen {
      AbsorbAlike(coarse, fine, f, split.Ids());
    }
  }

  lemma AbsorbWhole(coarse: Pass, fine: Pass, split: Split)
    requires split.Valid() && PassesMatch(coarse, fine, split)
    ensures var c, d := Absorb(coarse, split.whole), AbsorbAll(fine, [split.first, split.second]);
      (c.Some? <==> d.Some?) && (c.Some? ==> PassesMatch(c.value, d.value, split))
  {
    hide Land, Alike, AddUsage, Normalized, AbsorbAll;
    AbsorbTwo(fine, split.first, split.second);
    SplitIsLanded(split);
    if split.whole.id !in coarse.seen {
      AbsorbOne(coarse, split.whole);
      SplitAbsorbs(coarse, split);
    }
  }

  lemma SplitIsLanded(split: Split)
    requires split.Valid()
    ensures !split.whole.content.Usage? && !split.first.content.Usage? && !split.second.content.Usage?
  {
  }

  lemma {:induction false} AbsorbAllMatch(coarse: Pass, fine: Pass, fragments: seq<Fragment>, split: Split)
    requires split.Valid() && PassesMatch(coarse, fine, split) && Owns(fragments, split)
    ensures var c, d := AbsorbAll(coarse, fragments), AbsorbAll(fine, Expanded(fragments, split));
      (c.Some? <==> d.Some?) && (c.Some? ==> PassesMatch(c.value, d.value, split))
  {
    hide Absorb, PassesMatch, Split.Valid, Parts;
    if fragments != [] {
      var init, last := fragments[..|fragments| - 1], fragments[|fragments| - 1];
      AbsorbAllMatch(coarse, fine, init, split);
      AbsorbAllAppends(fine, Expanded(init, split), Parts(last, split));
      if AbsorbAll(coarse, init).Some? {
        AbsorbMatch(AbsorbAll(coarse, init).value, AbsorbAll(fine, Expanded(init, split)).value, last, split);
      }
    }
  }

  lemma MatchIsAlike(coarse: State, fine: State, split: Split)
    requires StatesMatch(coarse, fine, split)
    ensures StatesAlike(coarse, fine, split.Ids())
  {
    if coarse == fine {
      StatesAlikeThemselves(coarse, split.Ids());
    }
  }

  lemma {:induction false} SeenGrows(p: Pass, fragments: seq<Fragment>)
    ensures AbsorbAll(p, fragments).Some? ==> p.seen <= AbsorbAll(p, fragments).value.seen
  {
    hide Land, AddUsage, Normalized;
    if fragments != [] {
      SeenGrows(p, fragments[..|fragments| - 1]);
    }
  }

  lemma StartsMatch(coarse: State, fine: State, u: Update, split: Split)
    requires StatesMatch(coarse, fine, split)
    ensures PassesMatch(Start(coarse, u), Start(fine, u), split)
  {
    hide Alike, Opens, Addressee, MessagesAlike;
    if split.whole.id in coarse.seen {
      OpensAlike(coarse.messages, fine.messages, u);
    }
  }

  lemma ExpandedIsEmptyToo(fragments: seq<Fragment>, split: Split)
    ensures Expanded(fragments, split) == [] <==> fragments == []
  {
  }

  lemma StepMatch(coarse: State, fine: State, u: Update, split: Split)
    requires split.Valid() && StatesMatch(coarse, fine, split) && Owns(u.fragments, split)
    ensures var c, d := Step(coarse, u), Step(fine, u.(fragments := Expanded(u.fragments, split)));
      (c.Some? <==> d.Some?) && (c.Some? ==> StatesMatch(c.value, d.value, split))
  {
    hide Alike, Opens, SeenAlike, Placed, Addressee, MessagesAlike, Start, AbsorbAll, Absorb, Expanded, Owns, Split.Valid;
    var v := u.(fragments := Expanded(u.fragments, split));
    ExpandedIsEmptyToo(u.fragments, split);
    if !Ignored(u) {
      SameStarts(fine, u, v.fragments);
      StartsMatch(coarse, fine, u, split);
      AbsorbAllMatch(Start(coarse, u), Start(fine, u), u.fragments, split);
      var c, d := AbsorbAll(Start(coarse, u), u.fragments), AbsorbAll(Start(fine, u), v.fragments);
      if c.Some? {
        SamePlaces(fine.messages, u, v.fragments, d.value);
        PlacesMatch(coarse, fine, u, c.value, d.value, split) by {
          StartSees(coarse, u);
          SeenGrows(Start(coarse, u), u.fragments);
        }
      }
    }
  }

  lemma PlacesMatch(coarse: State, fine: State, u: Update, p: Pass, q: Pass, split: Split)
    requires StatesMatch(coarse, fine, split) && PassesMatch(p, q, split) && coarse.seen <= p.seen
    ensures StatesMatch(State(Placed(coarse.messages, u, p), p.usage, p.latest, p.seen),
                        State(Placed(fine.messages, u, q), q.usage, q.latest, q.seen), split)
  {
    hide Alike, Opens, SeenAlike, Placed, Addressee, MessagesAlike;
    if split.whole.id in p.seen {
      MatchIsAlike(coarse, fine, split);
      PlacedAlike(coarse.messages, fine.messages, u, p, q, split.Ids());
    }
  }

  ghost predicate OwnsAll(updates: seq<Update>, split: Split) {
    forall i :: 0 <= i < |updates| ==> Owns(updates[i].fragments, split)
  }

  lemma {:induction false} RunMatch(coarse: State, fine: State, updates: seq<Update>, split: Split)
    requires split.Valid() && StatesMatch(coarse, fine, split) && OwnsAll(updates, split)
    ensures var c, d := Run(coarse, updates), Run(fine, ExpandedAll(updates, split));
      (c.Some? <==> d.Some?) && (c.Some? ==> StatesMatch(c.value, d.value, split))
  {
    hide Step, StatesMatch, Owns, Split.Valid, Expanded;
    if updates != [] {
      var init, last := updates[..|updates| - 1], updates[|updates| - 1];
      RunMatch(coarse, fine, init, split);
      assert ExpandedAll(updates, split)[..|updates| - 1] == ExpandedAll(init, split);
      if Run(coarse, init).Some? {
        StepMatch(Run(coarse, init).value, Run(fine, ExpandedAll(init, split)).value, last, split);
      }
    }
  }

  /** Splitting a fragment wherever the stream emits it leaves the finished response as it is. */
  lemma SplittingIsInvisible(updates: seq<Update>, split: Split)
    requires split.Valid() && OwnsAll(updates, split)
    ensures Assembled(ExpandedAll(updates, split)) == Assembled(updates)
  {
    hide Run, Finalized, StatesMatch, OwnsAll, Split.Valid, StatesAlike;
    assert StatesMatch(EMPTY, EMPTY, split) by { EmptyMatches(split); }
    RunMatch(EMPTY, EMPTY, updates, split);
    var c, d := Run(EMPTY, updates), Run(EMPTY, ExpandedAll(updates, split));
    if c.Some? {
      MatchIsAlike(c.value, d.value, split);
    }
    FinishedAlike(c, d, split.Ids());
  }

  lemma EmptyMatches(split: Split)
    ensures StatesMatch(EMPTY, EMPTY, split)
  {
  }

  // ---------- Cutting an update ----------

  /** Something in the fragments was not seen before. */
  ghost predicate BringsNew(seen: set<nat>, fragments: seq<Fragment>) {
    exists i :: 0 <= i < |fragments| && !fragments[i].content.Usage? && fragments[i].id !in seen
  }

  lemma {:induction false} NewLands(p: Pass, fragments: seq<Fragment>)
    requires BringsNew(p.seen, fragments) && AbsorbAll(p, fragments).Some?
    ensures AbsorbAll(p, fragments).value.contents != []
  {
    hide AddUsage, Normalized, Add;
    var init, last := fragments[..|fragments| - 1], fragments[|fragments| - 1];
    if BringsNew(p.seen, init) {
      NewLands(p, init);
    } else {
      NothingNew(p, init);
    }
  }

  /** A fragment repeats an object that was seen before. */
  ghost predicate Repeats(seen: set<nat>, fragments: seq<Fragment>) {
    exists i :: 0 <= i < |fragments| && !fragments[i].content.Usage? && fragments[i].id in seen
  }

  lemma {:induction false} NothingNew(p: Pass, fragments: seq<Fragment>)
    requires !BringsNew(p.seen, fragments)
    ensures var q := AbsorbAll(p, fragments);
      && q.Some? && q.value.seen == p.seen && q.value.contents == p.contents
      && (q.value.skipped <==> p.skipped || Repeats(p.seen, fragments))
  {
    hide AddUsage, Normalized, Land;
    if fragments != [] {
      var init, last := fragments[..|fragments| - 1], fragments[|fragments| - 1];
      assert forall i :: 0 <= i < |init| ==> init[i] == fragments[i];
      NothingNew(p, init);
    }
  }

  /** Whether an earlier fragment was skipped only matters for the placing of the message. */
  lemma {:induction false} SkippingIsExtra(p: Pass, fragments: seq<Fragment>)
    ensures var q, r := AbsorbAll(p, fragments), AbsorbAll(p.(skipped := false), fragments);
      (q.Some? <==> r.Some?) && (q.Some? ==> q.value == r.value.(skipped := q.value.skipped))
  {
    hide AddUsage, Normalized, Land;
    if fragments != [] {
      SkippingIsExtra(p, fragments[..|fragments| - 1]);
    }
  }

  /** When an update may be cut in two: something in it is new, a part is a heartbeat or retry boundary, it goes to
      the open message, or both parts repeat seen objects or neither does. */
  ghost predicate CutKeeps(s: State, u: Update, left: seq<Fragment>, right: seq<Fragment>) {
    || BringsNew(s.seen, left + right)
    || Ignored(u.(fragments := left)) || Ignored(u.(fragments := right))
    || !Opens(s.messages, u)
    || (Repeats(s.seen, left) <==> Repeats(s.seen, right))
  }

  function StepTwice(s: State, u: Update, left: seq<Fragment>, right: seq<Fragment>): Option<State> {
    var first := Step(s, u.(fragments := left));
    if first.None? then None else Step(first.value, u.(fragments := right))
  }

  /** An update, and the two it is cut into: the same state exactly under that condition, and otherwise one message
      more. */
  lemma CutStep(s: State, u: Update, left: seq<Fragment>, right: seq<Fragment>)
    ensures var whole, twice := Step(s, u.(fragments := left + right)), StepTwice(s, u, left, right);
      && (whole == twice <==> CutKeeps(s, u, left, right))
      && (!CutKeeps(s, u, left, right) ==>
            whole.Some? && twice.Some? && whole.value.messages == s.messages && whole.value.latest == twice.value.latest
            && |twice.value.messages| == |s.messages| + 1)
  {
    hide Step, Ignored, Opens, BringsNew, Repeats;
    if BringsNew(s.seen, left + right) || Ignored(u.(fragments := left)) || Ignored(u.(fragments := right)) {
      CutNew(s, u, left, right);
    } else {
      CutOld(s, u, left, right);
    }
  }

  lemma CutNew(s: State, u: Update, left: seq<Fragment>, right: seq<Fragment>)
    requires BringsNew(s.seen, left + right) || Ignored(u.(fragments := left)) || Ignored(u.(fragments := right))
    ensures Step(s, u.(fragments := left + right)) == StepTwice(s, u, left, right)
  {
    hide Absorb, AbsorbAll, Opens, Placed, Addressee, BringsNew;
    var whole, a, b := u.(fragments := left + right), u.(fragments := left), u.(fragments := right);
    if Ignored(a) {
      assert left + right == right;
    } else {
      AbsorbAllAppends(Start(s, u), left, right);
      assert Start(s, u) == Start(s, a) == Start(s, whole) by { SameStarts(s, u, left); SameStarts(s, u, left + right); }
      var p := AbsorbAll(Start(s, u), left);
      if Ignored(b) {
        assert left + right == left;
      } else if p.Some? {
        SamePlaces(s.messages, u, left, p.value);
        CutRest(s, u, left, right, p.value);
      } else {
        StaysUnignored(u, left, right);
      }
    }
  }

  /** Nothing is new: the contents stay, and only the placing of an opened message can differ. */
  lemma CutOld(s: State, u: Update, left: seq<Fragment>, right: seq<Fragment>)
    requires !BringsNew(s.seen, left + right)
    requires !Ignored(u.(fragments := left)) && !Ignored(u.(fragments := right))
    ensures var whole, twice := Step(s, u.(fragments := left + right)), StepTwice(s, u, left, right);
      && (whole == twice <==> CutKeeps(s, u, left, right))
      && (!CutKeeps(s, u, left, right) ==>
            whole.Some? && twice.Some? && whole.value.messages == s.messages && whole.value.latest == twice.value.latest
            && |twice.value.messages| == |s.messages| + 1)
  {
    hide Absorb, AbsorbAll, Placed, Start, Opens, BringsNew, Repeats, Addressee;
    var start := Start(s, u);
    StartSees(s, u);
    PartsBringNothing(s.seen, left, right);
    NothingNew(start, left);
    var p := AbsorbAll(start, left).value;
    NothingNew(p, right);
    NothingNew(p.(skipped := false), right);
    var q, r := AbsorbAll(p, right).value, AbsorbAll(p.(skipped := false), right).value;
    SkippingIsExtra(p, right);
    AbsorbAllAppends(start, left, right);
    SameStarts(s, u, left);
    SameStarts(s, u, left + right);
    SamePlaces(s.messages, u, left, p);
    SamePlaces(s.messages, u, left + right, q);
    var s' := State(Placed(s.messages, u, p), p.usage, p.latest, p.seen);
    SameStarts(s', u, right);
    RestStarts(s, u, p);
    SamePlaces(s'.messages, u, right, r);
    StartsAddressed(s, u);
    OldPlaces(s.messages, u, p, q, r);
    assert !Ignored(u.(fragments := left + right)) by { StaysUnignored(u, left, right); }
    assert Step(s, u.(fragments := left)) == Some(s');
    assert Step(s, u.(fragments := left + right)) == Some(State(Placed(s.messages, u, q), q.usage, q.latest, q.seen));
    assert Step(s', u.(fragments := right)) == Some(State(Placed(s'.messages, u, r), r.usage, r.latest, r.seen));
  }

  lemma StaysUnignored(u: Update, left: seq<Fragment>, right: seq<Fragment>)
    requires !Ignored(u.(fragments := left)) && !Ignored(u.(fragments := right))
    ensures !Ignored(u.(fragments := left + right))
  {
    if left + right == [] {
      assert left + right == left;
    }
  }

  lemma StartsAddressed(s: State, u: Update)
    ensures Start(s, u).contents == Addressee(s.messages, u).contents && !Start(s, u).skipped
  {
  }

  lemma PartsBringNothing(seen: set<nat>, left: seq<Fragment>, right: seq<Fragment>)
    requires !BringsNew(seen, left + right)
    ensures !BringsNew(seen, left) && !BringsNew(seen, right)
  {
    var both := left + right;
    assert forall i :: 0 <= i < |left| ==> left[i] == both[i];
    assert forall i :: 0 <= i < |right| ==> right[i] == both[|left| + i];
  }

  lemma OldPlaces(messages: seq<Msg>, u: Update, p: Pass, q: Pass, r: Pass)
    requires p.contents == q.contents == r.contents == Addressee(messages, u).contents
    requires q.skipped <==> p.skipped || r.skipped
    ensures var whole, twice := Placed(messages, u, q), Placed(Placed(messages, u, p), u, r);
      && (whole == twice <==> Opens(messages, u) ==> (p.skipped <==> r.skipped))
      && (whole != twice ==> whole == messages && |twice| == |messages| + 1)
  {
    var ms, message := Placed(messages, u, p), Addressee(messages, u);
    assert message.(contents := p.contents) == message;
    if Opens(messages, u) {
      if !p.skipped {
        assert ms == messages + [message];
        assert Addressee(ms, u) == message;
        assert ms[|messages| := message] == ms;
      }
    } else {
      assert ms == messages[|messages| - 1 := message];
      assert Addressee(ms, u) == message;
      assert ms[|ms| - 1 := message] == ms;
    }
  }

  lemma SameStarts(s: State, u: Update, fragments: seq<Fragment>)
    ensures Start(s, u.(fragments := fragments)) == Start(s, u)
  {
  }

  lemma CutRest(s: State, u: Update, left: seq<Fragment>, right: seq<Fragment>, p: Pass)
    requires BringsNew(s.seen, left + right) && AbsorbAll(Start(s, u), left) == Some(p)
    requires !Ignored(u.(fragments := left)) && !Ignored(u.(fragments := right))
    ensures Step(s, u.(fragments := left + right))
         == Step(State(Placed(s.messages, u, p), p.usage, p.latest, p.seen), u.(fragments := right))
  {
    hide Absorb, AbsorbAll, Placed, Start;
    var s' := State(Placed(s.messages, u, p), p.usage, p.latest, p.seen);
    SameStarts(s, u, left + right);
    SameStarts(s', u, right);
    RestStarts(s, u, p);
    AbsorbAllAppends(Start(s, u), left, right);
    SkippingIsExtra(p, right);
    var q, r := AbsorbAll(p, right), AbsorbAll(p.(skipped := false), right);
    if q.Some? {
      NewLands(Start(s, u), left + right) by { StartSees(s, u); }
      SamePlaces(s.messages, u, left + right, q.value);
      SamePlaces(s'.messages, u, right, r.value);
      RestPlaces(s.messages, u, p, q.value, r.value);
    }
  }

  lemma StartSees(s: State, u: Update)
    ensures Start(s, u).seen == s.seen
  {
  }

  /** The second part starts where the first one ended. */
  lemma RestStarts(s: State, u: Update, p: Pass)
    ensures Start(State(Placed(s.messages, u, p), p.usage, p.latest, p.seen), u) == p.(skipped := false)
  {
    var ms := Placed(s.messages, u, p);
    if ms != [] {
      assert ms[|ms| - 1] == Addressee(s.messages, u).(contents := p.contents) || ms == s.messages;
    }
  }

  lemma RestPlaces(messages: seq<Msg>, u: Update, p: Pass, q: Pass, r: Pass)
    requires q.contents == r.contents && q.contents != []
    ensures Placed(Placed(messages, u, p), u, r) == Placed(messages, u, q)
  {
    var ms := Placed(messages, u, p);
    if Opens(messages, u) && !(p.skipped && p.contents == []) {
      assert ms == messages + [Addressee(messages, u).(contents := p.contents)];
    }
  }

  // ---------- Streams ----------

  /** One elementary difference between two streams: a heartbeat or retry boundary more, a fragment in two parts
      wherever it is emitted, an update in two parts. */
  datatype Rechunk =
    | Inserted(before: seq<Update>, boundary: Update, after: seq<Update>)
    | Divided(stream: seq<Update>, split: Split)
    | Cut(before: seq<Update>, update: Update, left: seq<Fragment>, right: seq<Fragment>, after: seq<Update>)
  {
    function Coarse(): seq<Update> {
      match this
      case Inserted(before, _, after) => before + [] + after
      case Divided(stream, _) => stream
      case Cut(before, u, left, right, after) => before + [u.(fragments := left + right)] + after
    }

    function Fine(): seq<Update> {
      match this
      case Inserted(before, boundary, after) => before + [boundary] + after
      case Divided(stream, split) => ExpandedAll(stream, split)
      case Cut(before, u, left, right, after) => before + [u.(fragments := left), u.(fragments := right)] + after
    }

    /** The ids of the split are its own. */
    ghost predicate Apart()
      requires Divided?
    {
      OwnsAll(stream, split)
    }

    ghost predicate Valid() {
      match this
      case Inserted(_, boundary, _) => Ignored(boundary)
      case Divided(_, split) => split.Valid() && Apart()
      case Cut(before, u, left, right, _) =>
        var s := Run(EMPTY, before);
        s.Some? ==> CutKeeps(s.value, u, left, right)
    }
  }

  lemma {:induction false} RunAppends(s: State, a: seq<Update>, b: seq<Update>)
    ensures Run(s, a + b) == var before := Run(s, a); if before.None? then None else Run(before.value, b)
  {
    hide Step;
    if b == [] {
      assert a + [] == a;
    } else {
      RunAppends(s, a, b[..|b| - 1]);
      assert (a + b)[..|a + b| - 1] == a + b[..|b| - 1];
    }
  }

  lemma RunOne(s: State, u: Update)
    ensures Run(s, [u]) == Step(s, u)
  {
    hide Step;
    assert [u][..0] == [];
  }

  lemma RunTwo(s: State, u: Update, v: Update)
    ensures Run(s, [u, v]) == var before := Step(s, u); if before.None? then None else Step(before.value, v)
  {
    hide Step;
    RunOne(s, u);
    assert [u, v][..1] == [u];
  }

  lemma StatesAlikeThemselves(s: State, odd: set<nat>)
    ensures StatesAlike(s, s, odd)
  {
    hide Alike;
    forall i | 0 <= i < |s.messages|
      ensures MessageAlike(s.messages[i], s.messages[i])
    {
      SameIsAlike(s.messages[i].contents);
    }
  }

  lemma IgnoredStep(s: State, u: Update)
    requires Ignored(u)
    ensures Step(s, u) == Some(s)
  {
  }

  /** Streams that differ in a part which leads to the same state. */
  lemma SamePart(before: seq<Update>, coarse: seq<Update>, fine: seq<Update>, after: seq<Update>)
    requires Run(EMPTY, before).Some? ==> Run(Run(EMPTY, before).value, coarse) == Run(Run(EMPTY, before).value, fine)
    ensures Assembled(before + fine + after) == Assembled(before + coarse + after)
  {
    hide Run, Finalized;
    RunAppends(EMPTY, before + coarse, after);
    RunAppends(EMPTY, before + fine, after);
    RunAppends(EMPTY, before, coarse);
    RunAppends(EMPTY, before, fine);
  }

  /** Splitting or re-gluing a text or call fragment, cutting or joining an update, and inserting or removing
      heartbeats and retry boundaries leave the finished response as it is. */
  lemma ChunkingIsInvisible(r: Rechunk)
    requires r.Valid()
    ensures Assembled(r.Fine()) == Assembled(r.Coarse())
  {
    hide Step, Assembled, CutKeeps, Split.Valid;
    var s := if r.Divided? then None else Run(EMPTY, r.before);
    match r
    case Inserted(before, boundary, after) =>
      if s.Some? {
        IgnoredStep(s.value, boundary);
        RunOne(s.value, boundary);
      }
      SamePart(before, [], [boundary], after);
    case Divided(stream, split) => SplittingIsInvisible(stream, split);
    case Cut(before, u, left, right, after) =>
      if s.Some? {
        CutStep(s.value, u, left, right);
        RunOne(s.value, u.(fragments := left + right));
        RunTwo(s.value, u.(fragments := left), u.(fragments := right));
      }
      SamePart(before, [u.(fragments := left + right)], [u.(fragments := left), u.(fragments := right)], after);
  }

  /** Two neighbours in a chain of streams differ by one step, in either direction. */
  ghost predicate LinkedAt(streams: seq<seq<Update>>, steps: seq<Rechunk>, i: int)
    requires |streams| == |steps| + 1 && 0 <= i < |steps|
  {
    && steps[i].Valid()
    && ((streams[i] == steps[i].Coarse() && streams[i + 1] == steps[i].Fine())
        || (streams[i] == steps[i].Fine() && streams[i + 1] == steps[i].Coarse()))
  }

  /** Any number of such differences. */
  lemma {:induction false} RechunkingIsInvisible(streams: seq<seq<Update>>, steps: seq<Rechunk>)
    requires |streams| == |steps| + 1
    requires forall i :: 0 <= i < |steps| ==> LinkedAt(streams, steps, i)
    ensures Assembled(streams[0]) == Assembled(streams[|steps|])
  {
    hide Assembled;
    if steps != [] {
      var last := |steps| - 1;
      var some, init := streams[..last + 1], steps[..last];
      forall i | 0 <= i < last
        ensures LinkedAt(some, init, i)
      {
        assert LinkedAt(streams, steps, i);
      }
      RechunkingIsInvisible(some, init);
      assert LinkedAt(streams, steps, last);
      ChunkingIsInvisible(steps[last]);
    }
  }
}
