/** Exactly which re-chunkings of a stream can be seen in the finished response. */
module ChunkingLimits {
  import opened Values
  import opened Contents
  import opened Landing
  import opened Assembly
  import opened Chunking

  // ---------- Splits ----------

  const MARKER := Props(Some(Str("x")), map[])

  /** A content of the same kind with a segment marker that a fragment can follow. */
  function Preface(first: Content): Content
    requires first.Text? || first.Call?
  {
    if first.Text? then Text(Some(""), None, MARKER, NoRaw)
    else Call(first.callId, None, NoArguments, false, None, MARKER, NoRaw)
  }

  /** The update that brings the preface and then the fragment. */
  function Prefaced(split: Split): Rechunk
    requires split.first.content.Text? || split.first.content.Call?
  {
    var id := split.whole.id + split.first.id + split.second.id + 1;
    var blank := Update(None, None, None, [], false, false, false, false);
    Divided([blank.(fragments := [Fragment(id, Preface(split.first.content)), split.whole])], split)
  }

  lemma PrefaceTells(split: Split)
    requires split.Fits() && NullBeforeMarked(split.first.content.props, split.second.content.props)
    ensures var preface := Preface(split.first.content);
      && Add(preface, split.whole.content).Added?
      && Add(preface, split.first.content).Added?
      && Add(Add(preface, split.first.content).content, split.second.content).Added?
      && Add(preface, split.whole.content) != Add(Add(preface, split.first.content).content, split.second.content)
  {
    hide Deduplicated, SegmentIds, Strings, CombineRaw, CombineAnnotations;
    var whole, first, second := split.whole.content, split.first.content, split.second.content;
    assert whole.props == CombineProps(first.props, second.props);
    assert CombineProps(MARKER, whole.props).segments == Some(Str("x"));
    assert CombineProps(CombineProps(MARKER, first.props), second.props).segments != Some(Str("x"));
  }

  /** A response of one update whose contents become one. */
  lemma OneMessage(u: Update, contents: seq<Content>, seen: set<nat>, content: Content)
    requires AbsorbAll(Start(EMPTY, u), u.fragments) == Some(Pass(contents, None, None, seen, false))
    requires u.fragments != [] && Coalesced(contents, false) == Some([content]) && !content.Reasoning?
    ensures Assembled([u]) == Some(Final([Addressed(FRESH_MESSAGE, u).(contents := [content])], None))
  {
    hide Coalesced, AbsorbAll, Start, Step, Run, Addressed, SettledAll;
    RunOne(EMPTY, u);
    var message := Addressed(FRESH_MESSAGE, u).(contents := contents);
    FirstStep(u, contents, seen);
    MessageSettles(message, content);
  }

  lemma FirstStep(u: Update, contents: seq<Content>, seen: set<nat>)
    requires AbsorbAll(Start(EMPTY, u), u.fragments) == Some(Pass(contents, None, None, seen, false))
    requires u.fragments != []
    ensures Step(EMPTY, u) == Some(State([Addressed(FRESH_MESSAGE, u).(contents := contents)], None, None, seen))
  {
    hide AbsorbAll, Start, Addressed;
    var message := Addressed(FRESH_MESSAGE, u).(contents := contents);
    assert [] + [message] == [message];
  }

  lemma MessageSettles(message: Msg, content: Content)
    requires Coalesced(message.contents, false) == Some([content]) && !content.Reasoning?
    ensures SettledAll([message]) == Some([message.(contents := [content])])
  {
    GlueNone(content, true);
    hide Coalesced;
    assert [message][..0] == [];
    var settled := message.(contents := [content]);
    assert [] + [settled] == [settled];
  }

  lemma TwoBecomeOne(u: Update, f: Fragment, g: Fragment)
    requires f.id != g.id && u.fragments == [f, g]
    requires (f.content.Text? || f.content.Call?) && Add(f.content, g.content).Added?
    ensures var sum := Add(f.content, g.content).content;
      Assembled([u]) == Some(Final([Addressed(FRESH_MESSAGE, u).(contents := [sum])], None))
  {
    hide Add;
    SameKind(f.content, g.content);
    var sum := Add(f.content, g.content).content;
    var contents := if f.content.Text? then [f.content, g.content] else [sum];
    TwoAbsorbed(u, f, g);
    if f.content.Text? {
      GlueTwo(f.content, g.content);
    } else {
      GlueNone(sum, false);
    }
    AbsorbTwo(Start(EMPTY, u), f, g);
    OneMessage(u, contents, {f.id, g.id}, sum);
  }

  lemma TwoAbsorbed(u: Update, f: Fragment, g: Fragment)
    requires f.id != g.id && (f.content.Text? || f.content.Call?) && Add(f.content, g.content).Added?
    ensures var contents := if f.content.Text? then [f.content, g.content] else [Add(f.content, g.content).content];
      AbsorbAll(Start(EMPTY, u), [f, g]) == Some(Pass(contents, None, None, {f.id, g.id}, false))
  {
    hide Add;
    AbsorbTwo(Start(EMPTY, u), f, g);
    SameKind(f.content, g.content);
    var sum := Add(f.content, g.content).content;
    assert {} + {f.id} == {f.id} && {f.id} + {g.id} == {f.id, g.id};
    assert [] + [f.content] == [f.content];
    assert [f.content] + [g.content] == [f.content, g.content];
    assert [f.content][0 := sum] == [sum];
    assert Absorb(Start(EMPTY, u), f) == Some(Pass([f.content], None, None, {f.id}, false));
  }

  lemma ThreeBecomeOne(u: Update, f: Fragment, g: Fragment, h: Fragment)
    requires f.id != g.id && f.id != h.id && g.id != h.id && u.fragments == [f, g, h]
    requires (f.content.Text? || f.content.Call?) && Add(f.content, g.content).Added?
    requires Add(Add(f.content, g.content).content, h.content).Added?
    ensures var sum := Add(Add(f.content, g.content).content, h.content).content;
      Assembled([u]) == Some(Final([Addressed(FRESH_MESSAGE, u).(contents := [sum])], None))
  {
    hide Add, AbsorbAll;
    SameKind(f.content, g.content);
    var some := Add(f.content, g.content).content;
    SameKind(some, h.content);
    var sum := Add(some, h.content).content;
    TwoAbsorbed(u, f, g);
    assert [f, g] + [h] == [f, g, h] && {f.id, g.id} + {h.id} == {f.id, g.id, h.id};
    AbsorbAllAppends(Start(EMPTY, u), [f, g], [h]);
    AbsorbOne(AbsorbAll(Start(EMPTY, u), [f, g]).value, h);
    if f.content.Text? {
      assert [f.content, g.content] + [h.content] == [f.content, g.content, h.content];
      GlueThree(f.content, g.content, h.content);
      OneMessage(u, [f.content, g.content, h.content], {f.id, g.id, h.id}, sum);
    } else {
      assert [some][0 := sum] == [sum];
      GlueNone(sum, false);
      OneMessage(u, [sum], {f.id, g.id, h.id}, sum);
    }
  }

  lemma SameKind(left: Content, right: Content)
    requires Add(left, right).Added?
    ensures left.Text? == right.Text? == Add(left, right).content.Text?
    ensures left.Call? == right.Call? == Add(left, right).content.Call?
  {
  }

  lemma GluedTwo(left: Content, right: Content)
    requires left.Text? && right.Text? && Add(left, right).Added?
    ensures GlueAll(NOTHING_GLUED, [left, right], false) == Some(Gluing([], Some(Add(left, right).content)))
  {
    hide Add;
    assert [left, right][..1] == [left] && [left][..0] == [];
    assert GlueAll(NOTHING_GLUED, [left], false) == Some(Gluing([], Some(left)));
  }

  lemma GlueTwo(left: Content, right: Content)
    requires left.Text? && right.Text? && Add(left, right).Added?
    ensures Coalesced([left, right], false) == Some([Add(left, right).content])
  {
    hide Add;
    GluedTwo(left, right);
    assert [] + [Add(left, right).content] == [Add(left, right).content];
  }

  lemma GlueThree(a: Content, b: Content, c: Content)
    requires a.Text? && b.Text? && c.Text? && Add(a, b).Added? && Add(Add(a, b).content, c).Added?
    ensures Coalesced([a, b, c], false) == Some([Add(Add(a, b).content, c).content])
  {
    hide Add, GlueAll;
    GluedTwo(a, b);
    GlueAllAppends(NOTHING_GLUED, [a, b], [c], false);
    assert [a, b] + [c] == [a, b, c];
    var sum := Add(Add(a, b).content, c).content;
    assert GlueAll(Gluing([], Some(Add(a, b).content)), [c], false) == Some(Gluing([], Some(sum))) by {
      GlueLast(Gluing([], Some(Add(a, b).content)), c);
    }
    assert [] + [sum] == [sum];
  }

  lemma GlueLast(g: Gluing, content: Content)
    ensures GlueAll(g, [content], false) == Glue(g, content, false)
  {
    assert [content][..0] == [];
  }

  lemma GlueNone(content: Content, reasoning: bool)
    ensures Coalesced([content], reasoning) == Some([content])
  {
    assert [content][..0] == [];
    assert [] + [content] == [content];
    assert GlueAll(NOTHING_GLUED, [content], reasoning) == Glue(NOTHING_GLUED, content, reasoning);
  }

  lemma FitsKinds(split: Split)
    requires split.Fits()
    ensures var whole, first, second := split.whole.content, split.first.content, split.second.content;
      (whole.Text? && first.Text? && second.Text?) || (whole.Call? && first.Call? && second.Call?)
  {
  }

  lemma PrefacedIsVisible(split: Split)
    requires split.Fits() && NullBeforeMarked(split.first.content.props, split.second.content.props)
    ensures var r := Prefaced(split);
      r.split == split && r.Apart() && Assembled(r.Fine()) != Assembled(r.Coarse())
  {
    FitsKinds(split);
    PrefaceTells(split);
    var r := Prefaced(split);
    var coarse, fine := r.stream[0], r.Fine()[0];
    PrefacedStreams(split);
    hide Add, Assembled, Preface, Prefaced, Rechunk.Coarse, Rechunk.Fine, Rechunk.Apart, AddsUp;
    SameKind(coarse.fragments[0].content, split.first.content);
    TwoBecomeOne(coarse, coarse.fragments[0], split.whole);
    ThreeBecomeOne(fine, coarse.fragments[0], split.first, split.second);
  }

  lemma PrefacedStreams(split: Split)
    requires split.Fits()
    ensures split.first.content.Text? || split.first.content.Call?
    ensures var r := Prefaced(split);
      && r.split == split && r.Apart() && |r.stream| == |r.Fine()| == 1
      && var preface := Fragment(split.whole.id + split.first.id + split.second.id + 1, Preface(split.first.content));
         && preface.id !in split.Ids()
         && r.Coarse() == [r.stream[0]] && r.stream[0].fragments == [preface, split.whole]
         && r.Fine() == [r.Fine()[0]] && r.Fine()[0] == r.stream[0].(fragments := [preface, split.first, split.second])
  {
    FitsKinds(split);
    hide Add;
    var r := Prefaced(split);
    var preface := r.stream[0].fragments[0];
    assert [preface, split.whole][..1] == [preface] && [preface][..0] == [];
    assert Expanded([preface], split) == [preface];
    assert [preface] + [split.first, split.second] == [preface, split.first, split.second];
  }

  /** A split shows in no stream exactly if it is not an explicit null marker in front of segments. */
  lemma SplitIsInvisible(split: Split)
    requires split.Fits()
    ensures (forall r: Rechunk :: r.Divided? && r.split == split && r.Apart() ==> Assembled(r.Fine()) == Assembled(r.Coarse()))
            <==> !NullBeforeMarked(split.first.content.props, split.second.content.props)
  {
    FitsKinds(split);
    if NullBeforeMarked(split.first.content.props, split.second.content.props) {
      PrefacedIsVisible(split);
    } else {
      forall r: Rechunk | r.Divided? && r.split == split && r.Apart()
        ensures Assembled(r.Fine()) == Assembled(r.Coarse())
      {
        ChunkingIsInvisible(r);
      }
    }
  }

  // ---------- Cuts ----------

  lemma {:induction false} SettledLength(messages: seq<Msg>)
    ensures SettledAll(messages).Some? ==> |SettledAll(messages).value| == |messages|
  {
    hide Settled;
    if messages != [] {
      SettledLength(messages[..|messages| - 1]);
    }
  }

  /** Cutting the last update of a stream whose beginning can be finished. */
  lemma LastCut(before: seq<Update>, u: Update, left: seq<Fragment>, right: seq<Fragment>)
    requires Assembled(before).Some?
    ensures Assembled(before + [u.(fragments := left), u.(fragments := right)])
         == Assembled(before + [u.(fragments := left + right)])
       <==> CutKeeps(Run(EMPTY, before).value, u, left, right)
  {
    hide Step, CutKeeps, SettledAll;
    var s := Run(EMPTY, before).value;
    var coarse, fine := [u.(fragments := left + right)], [u.(fragments := left), u.(fragments := right)];
    CutStep(s, u, left, right);
    RunAppends(EMPTY, before, coarse);
    RunAppends(EMPTY, before, fine);
    RunOne(s, u.(fragments := left + right));
    RunTwo(s, u.(fragments := left), u.(fragments := right));
    if !CutKeeps(s, u, left, right) {
      SettledLength(s.messages);
      SettledLength(Run(EMPTY, before + fine).value.messages);
    }
  }

  /** Cutting an update shows in no stream that goes on from there exactly if it may be cut. */
  lemma CutIsInvisible(before: seq<Update>, u: Update, left: seq<Fragment>, right: seq<Fragment>)
    requires Assembled(before).Some?
    ensures (forall after :: var r := Cut(before, u, left, right, after); Assembled(r.Fine()) == Assembled(r.Coarse()))
            <==> CutKeeps(Run(EMPTY, before).value, u, left, right)
  {
    LastCut(before, u, left, right);
    hide Assembled, CutKeeps;
    if CutKeeps(Run(EMPTY, before).value, u, left, right) {
      forall after
        ensures var r := Cut(before, u, left, right, after); Assembled(r.Fine()) == Assembled(r.Coarse())
      {
        ChunkingIsInvisible(Cut(before, u, left, right, after));
      }
    } else {
      var r := Cut(before, u, left, right, []);
      assert r.Fine() == before + [u.(fragments := left), u.(fragments := right)];
      assert r.Coarse() == before + [u.(fragments := left + right)];
    }
  }

  const TOOL_UPDATE := Update(Some("tool"), None, None, [], false, false, false, false)

  /** A repeated text, cut from the usage in a tool's update: the finished response gains an empty message. */
  lemma CutLeavesEmptyMessage(f: Fragment, usage: Fragment)
    requires f.content.Text? && usage.content.Usage?
    ensures var u := TOOL_UPDATE;
      var r := Cut([u.(role := Some("assistant"), fragments := [f])], u, [f], [usage], []);
      Assembled(r.before).Some? && Assembled(r.Fine()) != Assembled(r.Coarse())
  {
    var u := TOOL_UPDATE;
    var first := u.(role := Some("assistant"), fragments := [f]);
    var before := [first];
    FirstText(first, f);
    assert [f][0] == f && Repeats({f.id}, [f]);
    assert !BringsNew({f.id}, [f] + [usage]) && !Repeats({f.id}, [usage]);
    LastCut(before, u, [f], [usage]);
    var r := Cut(before, u, [f], [usage], []);
    assert r.Fine() == before + [u.(fragments := [f]), u.(fragments := [usage])];
    assert r.Coarse() == before + [u.(fragments := [f] + [usage])];
  }

  lemma FirstText(u: Update, f: Fragment)
    requires f.content.Text? && u.fragments == [f] && u.role == Some("assistant")
    ensures Assembled([u]).Some?
    ensures var s := Run(EMPTY, [u]).value;
      s.seen == {f.id} && |s.messages| == 1 && s.messages[0].role == "assistant"
  {
    AbsorbOne(Start(EMPTY, u), f);
    RunOne(EMPTY, u);
    assert [] + [f.content] == [f.content] && {} + {f.id} == {f.id};
    GlueNone(f.content, false);
    OneMessage(u, [f.content], {f.id}, f.content);
  }
}
