/** A streamed response told from its updates alone: which updates speak in one turn, and what each message holds. */
module Turns {
  import opened Values
  import opened Contents
  import opened Landing
  import opened Assembly
  import opened AssemblyLaws
  import opened Blocks

  /** The updates of one message, and the contents they emit first. */
  datatype Turn = Turn(updates: seq<Update>, contents: seq<Content>)

  /** An update that says nothing: a retry boundary or a heartbeat, without contents. */
  predicate Silent(u: Update) {
    var heartbeat := u.marker && u.bare && u.role == None && u.messageId == None && (u.agent || u.author == None);
    u.fragments == [] && (u.retry || heartbeat)
  }

  /** The role a turn has come to. */
  function RoleOf(updates: seq<Update>): string {
    if updates == [] then "assistant"
    else
      var last := updates[|updates| - 1];
      if last.role.Some? then last.role.value else RoleOf(updates[..|updates| - 1])
  }

  function AuthorOf(updates: seq<Update>): Option<string> {
    if updates == [] then None
    else
      var last := updates[|updates| - 1];
      if last.author.Some? then last.author else AuthorOf(updates[..|updates| - 1])
  }

  /** The message id, if any update of the turn gives one; all that do agree. */
  ghost predicate IdOf(id: Option<string>, updates: seq<Update>) {
    && (forall i :: 0 <= i < |updates| && Filled(updates[i].messageId) ==> updates[i].messageId == id)
    && (id.Some? ==> exists i :: 0 <= i < |updates| && Filled(updates[i].messageId))
  }

  /** An update speaks in another turn: with another message id or in another role. */
  predicate Departs(updates: seq<Update>, u: Update) {
    || (Filled(u.messageId) && exists i :: 0 <= i < |updates| && Filled(updates[i].messageId) && updates[i].messageId != u.messageId)
    || (Filled(u.role) && u.role.value != RoleOf(updates))
  }

  /** The contents among some fragments that nothing before emitted. */
  function NewIn(earlier: seq<Fragment>, fragments: seq<Fragment>): seq<Content> {
    if fragments == [] then []
    else
      var init, last := fragments[..|fragments| - 1], fragments[|fragments| - 1];
      NewIn(earlier, init) + (if last.content.Usage? || last.id in Objects(earlier + init) then [] else [last.content])
  }

  /** Contents, but none that is new: such an update opens no turn. */
  predicate Repeats(earlier: seq<Fragment>, u: Update) {
    (exists i :: 0 <= i < |u.fragments| && !u.fragments[i].content.Usage?) && NewIn(earlier, u.fragments) == []
  }

  function TurnsOf(updates: seq<Update>): seq<Turn> {
    if updates == [] then []
    else
      var init, u := updates[..|updates| - 1], updates[|updates| - 1];
      Spoken(TurnsOf(init), Emitted(init), u)
  }

  function Spoken(turns: seq<Turn>, earlier: seq<Fragment>, u: Update): seq<Turn> {
    var last, more := |turns| - 1, NewIn(earlier, u.fragments);
    if Silent(u) then turns
    else if turns != [] && !Departs(turns[last].updates, u) then
      turns[last := Turn(turns[last].updates + [u], turns[last].contents + more)]
    else if Repeats(earlier, u) then turns
    else turns + [Turn([u], more)]
  }

  /** The message of a turn. */
  ghost predicate Tells(message: Msg, turn: Turn) {
    && Heads(message, turn.updates)
    && LandAll([], turn.contents) == Some(message.contents)
  }

  ghost predicate Heads(message: Msg, updates: seq<Update>) {
    && message.role == RoleOf(updates) && message.author == AuthorOf(updates)
    && IdOf(message.messageId, updates)
  }

  ghost predicate Told(s: State, turns: seq<Turn>, earlier: seq<Fragment>) {
    && |s.messages| == |turns| && (forall i :: 0 <= i < |turns| ==> Tells(s.messages[i], turns[i]))
    && s.seen == Objects(earlier)
  }

  // ---------- One update ----------

  lemma HeadsNext(message: Msg, updates: seq<Update>, u: Update)
    requires Heads(message, updates) && !Departs(updates, u)
    ensures Heads(Addressed(message, u), updates + [u])
  {
    var longer := updates + [u];
    assert longer[..|updates|] == updates && longer[|updates|] == u;
    forall i | 0 <= i < |longer| && Filled(longer[i].messageId)
      ensures longer[i].messageId == Addressed(message, u).messageId
    {
      if i < |updates| {
        assert longer[i] == updates[i];
      }
    }
    if Filled(u.messageId) {
      assert Filled(longer[|updates|].messageId);
    } else if message.messageId.Some? {
      var i :| 0 <= i < |updates| && Filled(updates[i].messageId);
      assert longer[i] == updates[i];
    }
  }

  lemma HeadsFirst(u: Update)
    ensures Heads(Addressed(FRESH_MESSAGE, u), [u])
  {
    assert [u][..0] == [];
    assert RoleOf([]) == "assistant" && AuthorOf([]) == None;
  }

  /** A message is left exactly where an update turns. */
  lemma OpensIsTurns(messages: seq<Msg>, u: Update, updates: seq<Update>)
    requires messages != [] && Heads(messages[|messages| - 1], updates)
    ensures Opens(messages, u) <==> Departs(updates, u)
  {
    var last := messages[|messages| - 1];
    if Filled(last.messageId) {
      var i :| 0 <= i < |updates| && Filled(updates[i].messageId);
      assert updates[i].messageId == last.messageId;
    }
  }

  lemma NewInAdds(earlier: seq<Fragment>, fragments: seq<Fragment>, f: Fragment)
    ensures NewIn(earlier, fragments + [f])
         == NewIn(earlier, fragments)
            + (if f.content.Usage? || f.id in Objects(earlier + fragments) then [] else [f.content])
  {
    hide Objects;
    assert (fragments + [f])[..|fragments|] == fragments;
  }

  /** A pass over some fragments: what is new lands, and it was told to skip if some content is not. */
  ghost predicate PassTells(start: Pass, group: seq<Content>, earlier: seq<Fragment>, fragments: seq<Fragment>) {
    var landed := LandAll([], group + NewIn(earlier, fragments));
    match AbsorbAll(start, fragments)
    case None => landed.None?
    case Some(p) =>
      && landed == Some(p.contents) && p.seen == Objects(earlier + fragments)
      && (p.skipped && NewIn(earlier, fragments) == [] <==>
          NewIn(earlier, fragments) == [] && exists i :: 0 <= i < |fragments| && !fragments[i].content.Usage?)
  }

  lemma {:induction false} PassesTell(start: Pass, group: seq<Content>, earlier: seq<Fragment>, fragments: seq<Fragment>)
    requires start.seen == Objects(earlier) && LandAll([], group) == Some(start.contents) && !start.skipped
    ensures PassTells(start, group, earlier, fragments)
  {
    hide PassTells, LandAll, Objects, Absorb, NewIn;
    if fragments == [] {
      NothingPasses(start, group, earlier);
    } else {
      var init, f := fragments[..|fragments| - 1], fragments[|fragments| - 1];
      PassesTell(start, group, earlier, init);
      assert fragments == init + [f];
      PassGoesOn(start, group, earlier, init, f);
    }
  }

  lemma NothingPasses(start: Pass, group: seq<Content>, earlier: seq<Fragment>)
    requires start.seen == Objects(earlier) && LandAll([], group) == Some(start.contents) && !start.skipped
    ensures PassTells(start, group, earlier, [])
  {
    hide LandAll, Objects;
    assert group + [] == group && earlier + [] == earlier;
  }

  lemma PassGoesOn(start: Pass, group: seq<Content>, earlier: seq<Fragment>, fragments: seq<Fragment>, f: Fragment)
    requires PassTells(start, group, earlier, fragments)
    ensures PassTells(start, group, earlier, fragments + [f])
  {
    hide Land, LandAll, Objects, NewIn, AddUsage, Normalized;
    var longer := fragments + [f];
    var init := NewIn(earlier, fragments);
    assert longer[..|fragments|] == fragments && longer[|fragments|] == f;
    assert forall i :: 0 <= i < |fragments| ==> longer[i] == fragments[i];
    NewInAdds(earlier, fragments, f);
    assert init + [] == init;
    ObjectsAdd(earlier + fragments, f);
    assert earlier + fragments + [f] == earlier + longer;
    LandsNext(group + init, f.content);
    assert group + init + [f.content] == group + (init + [f.content]);
    ContentsStay(longer, fragments, f);
  }

  lemma ContentsStay(longer: seq<Fragment>, fragments: seq<Fragment>, f: Fragment)
    requires longer == fragments + [f]
    ensures (exists i :: 0 <= i < |longer| && !longer[i].content.Usage?)
            <==> (exists i :: 0 <= i < |fragments| && !fragments[i].content.Usage?) || !f.content.Usage?
  {
    assert longer[|fragments|] == f;
    if i :| 0 <= i < |fragments| && !fragments[i].content.Usage? {
      assert !longer[i].content.Usage?;
    }
  }

  lemma LandsNext(group: seq<Content>, c: Content)
    ensures LandAll([], group + [c])
         == var before := LandAll([], group); if before.None? then None else Land(before.value, c)
  {
    hide Land;
    assert (group + [c])[..|group|] == group;
  }

  lemma {:induction false} FailureStays(group: seq<Content>, more: seq<Content>)
    requires LandAll([], group).None?
    ensures LandAll([], group + more).None?
  {
    if more == [] {
      assert group + [] == group;
    } else {
      FailureStays(group, more[..|more| - 1]);
      assert (group + more)[..|group + more| - 1] == group + more[..|more| - 1];
    }
  }

  ghost predicate Fails(turns: seq<Turn>) {
    exists i :: 0 <= i < |turns| && LandAll([], turns[i].contents).None?
  }

  /** An update that speaks on in the last turn. */
  lemma SpeaksOn(s: State, u: Update, turns: seq<Turn>, earlier: seq<Fragment>)
    requires Told(s, turns, earlier) && turns != [] && !Ignored(u) && !Opens(s.messages, u)
    requires !Departs(turns[|turns| - 1].updates, u)
    ensures Spoken(turns, earlier, u)
         == turns[|turns| - 1 := Turn(turns[|turns| - 1].updates + [u], turns[|turns| - 1].contents + NewIn(earlier, u.fragments))]
    ensures var next := Spoken(turns, earlier, u);
      match Step(s, u)
      case None => Fails(next)
      case Some(after) => Told(after, next, earlier + u.fragments)
  {
    hide AbsorbAll, LandAll, Objects, NewIn, Heads, Opens, Addressed, Departs;
    var last := |turns| - 1;
    AddressingKeeps(s.messages[last], u);
    PassesTell(Start(s, u), turns[last].contents, earlier, u.fragments);
    HeadsNext(s.messages[last], turns[last].updates, u);
    var next := Spoken(turns, earlier, u);
    if Step(s, u).None? {
      assert LandAll([], next[last].contents).None?;
    } else {
      HeadsKeep(Addressed(s.messages[last], u), AbsorbAll(Start(s, u), u.fragments).value.contents, next[last].updates);
    }
  }

  lemma AddressingKeeps(message: Msg, u: Update)
    ensures Addressed(message, u).contents == message.contents
  {
  }

  lemma HeadsKeep(message: Msg, contents: seq<Content>, updates: seq<Update>)
    requires Heads(message, updates)
    ensures Heads(message.(contents := contents), updates)
  {
  }

  /** An update that opens a turn, if it has anything new to say or nothing that repeats. */
  lemma SpeaksFirst(s: State, u: Update, turns: seq<Turn>, earlier: seq<Fragment>)
    requires Told(s, turns, earlier) && !Ignored(u) && Opens(s.messages, u)
    requires turns == [] || Departs(turns[|turns| - 1].updates, u)
    ensures var next := Spoken(turns, earlier, u);
      match Step(s, u)
      case None => Fails(next)
      case Some(after) => Told(after, next, earlier + u.fragments)
  {
    hide AbsorbAll, LandAll, Objects, NewIn, Heads, Opens, Addressed, Departs;
    AddressingKeeps(FRESH_MESSAGE, u);
    NothingLands();
    PassesTell(Start(s, u), [], earlier, u.fragments);
    var more := NewIn(earlier, u.fragments);
    assert [] + more == more;
    HeadsFirst(u);
    var next := Spoken(turns, earlier, u);
    if Step(s, u).None? {
      assert next[|turns|] == Turn([u], more);
    } else {
      var p := AbsorbAll(Start(s, u), u.fragments).value;
      if p.contents == [] {
        LandingIsNotEmpty(more);
      }
      HeadsKeep(Addressed(FRESH_MESSAGE, u), p.contents, [u]);
    }
  }

  lemma SilentIsIgnored(u: Update)
    ensures Silent(u) <==> Ignored(u)
  {
  }

  lemma StepTells(s: State, u: Update, turns: seq<Turn>, earlier: seq<Fragment>)
    requires Told(s, turns, earlier)
    ensures var next := Spoken(turns, earlier, u);
      match Step(s, u)
      case None => Fails(next)
      case Some(after) => Told(after, next, earlier + u.fragments)
  {
    hide Objects, NewIn, Heads, Opens, Departs, LandAll, Silent, Ignored;
    SilentIsIgnored(u);
    OpenWithoutMessages(s.messages, u);
    if turns != [] {
      OpensIsTurns(s.messages, u, turns[|turns| - 1].updates);
    }
    if Ignored(u) {
      assert earlier + u.fragments == earlier by { IgnoredIsEmpty(u); }
    } else if Opens(s.messages, u) {
      SpeaksFirst(s, u, turns, earlier);
    } else {
      SpeaksOn(s, u, turns, earlier);
    }
  }

  lemma IgnoredIsEmpty(u: Update)
    requires Ignored(u)
    ensures u.fragments == []
  {
  }

  lemma StillFails(turns: seq<Turn>, earlier: seq<Fragment>, u: Update)
    requires Fails(turns)
    ensures Fails(Spoken(turns, earlier, u))
  {
    hide LandAll, NewIn;
    var i :| 0 <= i < |turns| && LandAll([], turns[i].contents).None?;
    var next := Spoken(turns, earlier, u);
    FailureStays(turns[i].contents, NewIn(earlier, u.fragments));
    assert LandAll([], next[i].contents).None?;
  }

  /** The messages of a response are its turns, told from the updates alone: which updates, with whose role, author and
      id, and which contents. Assembly raises before the end exactly if the contents of some turn do not land. */
  lemma {:induction false} MessagesAreTurns(updates: seq<Update>)
    ensures match Run(EMPTY, updates)
      case None => Fails(TurnsOf(updates))
      case Some(s) => Told(s, TurnsOf(updates), Emitted(updates)) && !Fails(TurnsOf(updates))
  {
    hide Step, Told, Spoken, Fails;
    if updates == [] {
      NothingTold();
    } else {
      var init, u := updates[..|updates| - 1], updates[|updates| - 1];
      MessagesAreTurns(init);
      var before := Run(EMPTY, init);
      if before.Some? {
        StepTells(before.value, u, TurnsOf(init), Emitted(init));
        if Step(before.value, u).Some? {
          ToldLands(Step(before.value, u).value, TurnsOf(updates), Emitted(updates));
        }
      } else {
        StillFails(TurnsOf(init), Emitted(init), u);
      }
    }
  }

  lemma NothingTold()
    ensures Told(EMPTY, [], []) && !Fails([])
  {
  }

  lemma ToldLands(s: State, turns: seq<Turn>, earlier: seq<Fragment>)
    requires Told(s, turns, earlier)
    ensures !Fails(turns)
  {
    hide LandAll, Heads;
  }

  // ---------- Every content once ----------

  function ContentsOf(turns: seq<Turn>): seq<Content> {
    if turns == [] then [] else ContentsOf(turns[..|turns| - 1]) + turns[|turns| - 1].contents
  }

  lemma {:induction false} NewInIsFirst(earlier: seq<Fragment>, fragments: seq<Fragment>)
    ensures FirstEmissions(earlier + fragments) == FirstEmissions(earlier) + NewIn(earlier, fragments)
  {
    hide Objects;
    if fragments == [] {
      assert earlier + [] == earlier;
    } else {
      var init := fragments[..|fragments| - 1];
      NewInIsFirst(earlier, init);
      assert (earlier + fragments)[..|earlier + fragments| - 1] == earlier + init;
    }
  }

  /** The turns hold every content of the stream exactly once, in the order of first emission. */
  lemma {:induction false} TurnsHoldAll(updates: seq<Update>)
    ensures ContentsOf(TurnsOf(updates)) == FirstEmissions(Emitted(updates))
  {
    hide NewIn, Objects, Departs, FirstEmissions, Silent;
    if updates == [] {
      assert FirstEmissions([]) == [] by { NothingIsGrouped(); }
    } else {
      var init, u := updates[..|updates| - 1], updates[|updates| - 1];
      TurnsHoldAll(init);
      NewInIsFirst(Emitted(init), u.fragments);
      SpokenHold(TurnsOf(init), Emitted(init), u);
    }
  }

  lemma SpokenHold(turns: seq<Turn>, earlier: seq<Fragment>, u: Update)
    ensures ContentsOf(Spoken(turns, earlier, u)) == ContentsOf(turns) + NewIn(earlier, u.fragments)
  {
    hide Departs;
    var next, more := Spoken(turns, earlier, u), NewIn(earlier, u.fragments);
    if |next| > |turns| {
      assert next[..|turns|] == turns;
    } else if more == [] && next == turns {
      assert ContentsOf(turns) + [] == ContentsOf(turns);
    } else {
      assert next[..|turns| - 1] == turns[..|turns| - 1];
    }
  }

  // ---------- The finished messages ----------

  /** Contents that are the blocks of what came in: first as calls land, then as texts and as reasonings are glued. */
  ghost predicate Finished(group: seq<Content>, contents: seq<Content>) {
    exists landed, calls, glued, texts, reasonings ::
      && Flattened(calls) == group && CallRuns(calls) && Blocked(landed, calls)
      && Flattened(texts) == landed && GluedRuns(texts, false) && Blocked(glued, texts)
      && Flattened(reasonings) == glued && GluedRuns(reasonings, true) && Blocked(contents, reasonings)
  }

  lemma SettlesFinished(group: seq<Content>, message: Msg)
    requires LandAll([], group) == Some(message.contents) && Settled(message).Some?
    ensures Finished(group, Settled(message).value.contents)
  {
    hide LandAll, Coalesced, CallRuns, GluedRuns, Blocked, Flattened;
    var glued := Coalesced(message.contents, false).value;
    var calls := LandingBlocks(group);
    var texts := GluingBlocks(message.contents, false);
    var reasonings := GluingBlocks(glued, true);
    assert Blocked(message.contents, calls) && Blocked(glued, texts) && Blocked(Settled(message).value.contents, reasonings);
  }

  lemma {:induction false} SettledAt(messages: seq<Msg>)
    requires SettledAll(messages).Some?
    ensures |SettledAll(messages).value| == |messages|
    ensures forall i :: 0 <= i < |messages| ==> Settled(messages[i]) == Some(SettledAll(messages).value[i])
  {
    hide Settled;
    if messages != [] {
      SettledAt(messages[..|messages| - 1]);
    }
  }

  lemma SettlingKeepsHead(message: Msg, updates: seq<Update>)
    requires Heads(message, updates) && Settled(message).Some?
    ensures Heads(Settled(message).value, updates)
  {
    hide Coalesced;
    var contents := Settled(message).value.contents;
    HeadsKeep(message, contents, updates);
  }

  /** A finished response holds one message for every turn of the stream, with the turn's role, author and id, and its
      contents are the blocks of what the turn emitted first. */
  lemma FinishedAsTold(updates: seq<Update>)
    requires Assembled(updates).Some?
    ensures var messages, turns := Assembled(updates).value.messages, TurnsOf(updates);
      && |messages| == |turns|
      && forall i :: 0 <= i < |turns| ==>
           Heads(messages[i], turns[i].updates) && Finished(turns[i].contents, messages[i].contents)
  {
    hide Run, TurnsOf, Finished, Settled, SettledAll, Heads, LandAll, Objects;
    MessagesAreTurns(updates);
    var messages, turns := Run(EMPTY, updates).value.messages, TurnsOf(updates);
    SettledAt(messages);
    forall i | 0 <= i < |turns|
      ensures Heads(Assembled(updates).value.messages[i], turns[i].updates)
      ensures Finished(turns[i].contents, Assembled(updates).value.messages[i].contents)
    {
      SettlesFinished(turns[i].contents, messages[i]);
      SettlingKeepsHead(messages[i], turns[i].updates);
    }
  }

  // ---------- Calls ----------

  function CallsOf(contents: seq<Content>): seq<Content> {
    if contents == [] then []
    else
      var last := contents[|contents| - 1];
      CallsOf(contents[..|contents| - 1]) + (if last.Call? then [last] else [])
  }

  lemma {:induction false} CallsAppend(a: seq<Content>, b: seq<Content>)
    ensures CallsOf(a + b) == CallsOf(a) + CallsOf(b)
  {
    if b == [] {
      assert a + [] == a;
    } else {
      CallsAppend(a, b[..|b| - 1]);
      assert (a + b)[..|a + b| - 1] == a + b[..|b| - 1];
    }
  }

  lemma {:induction false} NoCalls(contents: seq<Content>)
    requires forall i :: 0 <= i < |contents| ==> !contents[i].Call?
    ensures CallsOf(contents) == []
  {
    if contents != [] {
      NoCalls(contents[..|contents| - 1]);
    }
  }

  lemma {:induction false} AllCalls(contents: seq<Content>)
    requires forall i :: 0 <= i < |contents| ==> contents[i].Call?
    ensures CallsOf(contents) == contents
  {
    if contents != [] {
      AllCalls(contents[..|contents| - 1]);
      assert contents == contents[..|contents| - 1] + [contents[|contents| - 1]];
    }
  }

  /** Gluing leaves calls alone. */
  lemma {:induction false} GluingKeepsCalls(contents: seq<Content>, blocks: seq<seq<Content>>, reasoning: bool)
    requires Blocked(contents, blocks) && GluedRuns(blocks, reasoning)
    ensures CallsOf(contents) == CallsOf(Flattened(blocks))
  {
    hide CallsOf;
    if contents == [] {
      NoCalls([]);
    } else {
      var init, block := blocks[..|blocks| - 1], blocks[|blocks| - 1];
      GluedInit(blocks, reasoning);
      GluingKeepsCalls(contents[..|contents| - 1], init, reasoning);
      CallsAppend(Flattened(init), block);
      CallsAppend(contents[..|contents| - 1], [contents[|contents| - 1]]);
      assert contents == contents[..|contents| - 1] + [contents[|contents| - 1]];
      LastBlockKeepsCalls(contents[|contents| - 1], blocks, reasoning);
    }
  }

  lemma GluedInit(blocks: seq<seq<Content>>, reasoning: bool)
    requires GluedRuns(blocks, reasoning) && blocks != []
    ensures GluedRuns(blocks[..|blocks| - 1], reasoning)
  {
    hide GoesOn, StaysApart;
  }

  lemma LastBlockKeepsCalls(c: Content, blocks: seq<seq<Content>>, reasoning: bool)
    requires blocks != [] && GluedRuns(blocks, reasoning) && MadeOf(c, blocks[|blocks| - 1])
    ensures CallsOf([c]) == CallsOf(blocks[|blocks| - 1])
  {
    var block := blocks[|blocks| - 1];
    if |block| == 1 {
      assert block == [c];
    } else {
      assert GoesOn(block[..1], block[1], reasoning);
      NoCalls(block);
      NoCalls([c]);
    }
  }

  /** The blocks that are calls. */
  function CallBlocks(blocks: seq<seq<Content>>): seq<seq<Content>> {
    if blocks == [] then []
    else
      var last := blocks[|blocks| - 1];
      CallBlocks(blocks[..|blocks| - 1]) + (if last != [] && last[0].Call? then [last] else [])
  }

  lemma {:induction false} CallsAreBlocked(contents: seq<Content>, blocks: seq<seq<Content>>)
    requires Blocked(contents, blocks) && CallRuns(blocks)
    ensures Flattened(CallBlocks(blocks)) == CallsOf(Flattened(blocks))
    ensures Blocked(CallsOf(contents), CallBlocks(blocks))
  {
    hide MadeOf;
    if contents == [] {
      NoCalls([]);
    } else {
      var init, block := blocks[..|blocks| - 1], blocks[|blocks| - 1];
      CallRunsInit(blocks);
      CallsAreBlocked(contents[..|contents| - 1], init);
      CallsAppend(Flattened(init), block);
      MadeFromFirst(contents[|contents| - 1], block);
      if block[0].Call? {
        CallBlockIsCalls(blocks);
        FlattenedAdds(CallBlocks(init), block);
      } else {
        OtherBlockIsAlone(blocks);
        NoCalls(block);
        assert CallBlocks(blocks) == CallBlocks(init);
        assert CallsOf(Flattened(init)) + [] == CallsOf(Flattened(init));
      }
    }
  }

  lemma CallRunsInit(blocks: seq<seq<Content>>)
    requires CallRuns(blocks) && blocks != []
    ensures CallRuns(blocks[..|blocks| - 1])
  {
    hide Continues;
  }

  lemma CallBlockIsCalls(blocks: seq<seq<Content>>)
    requires CallRuns(blocks) && blocks != [] && blocks[|blocks| - 1][0].Call?
    ensures CallsOf(blocks[|blocks| - 1]) == blocks[|blocks| - 1]
  {
    var block := blocks[|blocks| - 1];
    forall j | 0 <= j < |block|
      ensures block[j].Call?
    {
      if j > 0 {
        assert Continues(block[j], block[0]);
      }
    }
    AllCalls(block);
  }

  lemma OtherBlockIsAlone(blocks: seq<seq<Content>>)
    requires CallRuns(blocks) && blocks != [] && !blocks[|blocks| - 1][0].Call?
    ensures |blocks[|blocks| - 1]| == 1
  {
    var block := blocks[|blocks| - 1];
    assert |block| > 1 ==> Continues(block[1], block[0]);
  }

  /** The calls of a finished message are those of its turn, each told by the fragments of one block: the id of its first,
      the first name and exception that are not empty, and all characters of the arguments in order. */
  lemma FinishedCalls(group: seq<Content>, contents: seq<Content>) returns (calls: seq<seq<Content>>)
    requires Finished(group, contents)
    ensures Flattened(calls) == CallsOf(group) && Blocked(CallsOf(contents), calls)
    ensures Joined(CallsOf(contents), SaidBy) == Joined(CallsOf(group), SaidBy)
  {
    hide Blocked, CallRuns, GluedRuns, Flattened;
    var landed, blocks, glued, texts, reasonings :|
      && Flattened(blocks) == group && CallRuns(blocks) && Blocked(landed, blocks)
      && Flattened(texts) == landed && GluedRuns(texts, false) && Blocked(glued, texts)
      && Flattened(reasonings) == glued && GluedRuns(reasonings, true) && Blocked(contents, reasonings);
    GluingKeepsCalls(contents, reasonings, true);
    GluingKeepsCalls(glued, texts, false);
    CallsAreBlocked(landed, blocks);
    calls := CallBlocks(blocks);
    BlocksSay(CallsOf(contents), calls);
  }

  lemma {:induction false} JoinedAppends<T>(a: seq<Content>, b: seq<Content>, part: Content -> seq<T>)
    ensures Joined(a + b, part) == Joined(a, part) + Joined(b, part)
  {
    if b == [] {
      assert a + [] == a;
    } else {
      JoinedAppends(a, b[..|b| - 1], part);
      assert (a + b)[..|a + b| - 1] == a + b[..|b| - 1];
    }
  }

  /** What the contents say is what their blocks say. */
  lemma {:induction false} BlocksSay(contents: seq<Content>, blocks: seq<seq<Content>>)
    requires Blocked(contents, blocks)
    ensures Joined(contents, SaidBy) == Joined(Flattened(blocks), SaidBy)
  {
    if contents != [] {
      var init, block := blocks[..|blocks| - 1], blocks[|blocks| - 1];
      BlocksSay(contents[..|contents| - 1], init);
      JoinedAppends(Flattened(init), block, SaidBy);
      SaysItsBlock(contents[|contents| - 1], block);
    }
  }

  lemma SaysItsBlock(c: Content, block: seq<Content>)
    requires MadeOf(c, block)
    ensures SaidBy(c) == Joined(block, SaidBy)
  {
  }
}
